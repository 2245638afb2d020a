/** The item record kept in the backend's in-memory store (backend/src/server.js:19, 64). */
module Items {

  datatype Option<+T> = None | Some(value: T)

  /** The three status strings an item can carry: 'pending', 'accepted', 'cancelled'. */
  datatype Status = Pending | Accepted | Cancelled

  /**
   * One stored item. `acceptedAt` and `cancelledAt` are absent (None) until the corresponding
   * transition stamps them; `forwardSkipped` is absent in the source until set, modelled as false.
   */
  datatype Item = Item(
    id: string,
    text: string,
    status: Status,
    createdAt: string,
    acceptedAt: Option<string>,
    cancelledAt: Option<string>,
    forwardSkipped: bool)

  /** No two items of the list share an id. */
  ghost predicate UniqueIds(items: seq<Item>)
  {
    forall i, j :: 0 <= i < j < |items| ==> items[i].id != items[j].id
  }

  /** `id` is not the id of any item of the list (what a fresh `nanoid()` guarantees). */
  predicate FreshId(items: seq<Item>, id: string)
  {
    forall m :: m in items ==> m.id != id
  }

  /** The item created by /ingest: status pending, no transition stamps. */
  function NewItem(id: string, text: string, now: string): (m: Item)
    ensures m.id == id && m.text == text && m.createdAt == now
    ensures m.status == Pending && m.acceptedAt.None? && m.cancelledAt.None? && !m.forwardSkipped
  {
    Item(id, text, Pending, now, None, None, false)
  }

  /**
   * `messages.find(m => m.id === id)`: the index of the FIRST item whose id is `id`.
   */
  function IndexOf(items: seq<Item>, id: string): (r: Option<nat>)
    ensures r.Some? ==> r.value < |items| && items[r.value].id == id
    ensures r.Some? ==> forall j :: 0 <= j < r.value ==> items[j].id != id
    ensures r.None? <==> FreshId(items, id)
  {
    if items == [] then None
    else if items[0].id == id then Some(0)
    else match IndexOf(items[1..], id)
      case None => None
      case Some(k) => Some(k + 1)
  }

  /** With unique ids the first match is the only match. */
  lemma {:induction false} IndexOfUnique(items: seq<Item>, id: string, k: nat)
    requires UniqueIds(items)
    requires k < |items| && items[k].id == id
    ensures IndexOf(items, id) == Some(k)
  {
    var r := IndexOf(items, id);
    assert !FreshId(items, id) by { assert items[k] in items; }
  }
}
