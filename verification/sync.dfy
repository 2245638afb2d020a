/**
 * The web client's list as a mirror of the server's store: the events the backend broadcasts
 * (backend/src/server.js:66, 87, 107, 122), run through the reducers of frontend/src/App.jsx
 * (33-44), keep the client's ids, texts, statuses and creation times equal to the server's.
 */
module Sync {
  import opened Items
  import opened Events
  import opened Handlers
  import opened Client

  /** What the client shows of an item; the client never learns the transition stamps. */
  datatype View = View(id: string, text: string, status: Status, createdAt: string)

  function ViewOf(m: Item): View
  {
    View(m.id, m.text, m.status, m.createdAt)
  }

  function Views(items: seq<Item>): (r: seq<View>)
    ensures |r| == |items|
    ensures forall j :: 0 <= j < |items| ==> r[j] == ViewOf(items[j])
  {
    seq(|items|, j requires 0 <= j < |items| => ViewOf(items[j]))
  }

  /** `const { id } = JSON.parse(e.data)`: the id an event's data carries, if any. */
  function PayloadId(p: Payload): Option<string>
  {
    match p
    case FullItem(m) => Some(m.id)
    case IdText(id, _) => Some(id)
    case IdOnly(id) => Some(id)
    case ItemList(_) => None
  }

  /**
   * The EventSource listeners: 'created', 'accepted' and 'cancelled' each run their reducer; the
   * client registers no listener for any other event name.
   */
  function ApplyEvent(client: seq<Item>, e: Event): (r: seq<Item>)
    ensures e.name != "created" && e.name != "accepted" && e.name != "cancelled" ==> r == client
    ensures |r| == |client| + (if e.name == "created" && e.data.FullItem? then 1 else 0)
    ensures e.name != "created" ==> forall j :: 0 <= j < |client| ==> r[j] == client[j].(status := r[j].status)
    ensures e.name == "created" && e.data.FullItem? ==> r[0] == e.data.item && r[1..] == client
    ensures e.name == "accepted" && PayloadId(e.data).Some? ==> forall j :: 0 <= j < |client| ==>
      r[j].status == if client[j].id == PayloadId(e.data).value then Accepted else client[j].status
    ensures e.name == "cancelled" && PayloadId(e.data).Some? ==> forall j :: 0 <= j < |client| ==>
      r[j].status == if client[j].id == PayloadId(e.data).value then Cancelled else client[j].status
  {
    if e.name == "created" && e.data.FullItem? then OnCreated(client, e.data.item)
    else if e.name == "accepted" && PayloadId(e.data).Some? then OnAccepted(client, PayloadId(e.data).value)
    else if e.name == "cancelled" && PayloadId(e.data).Some? then OnCancelled(client, PayloadId(e.data).value)
    else client
  }

  function ApplyAll(client: seq<Item>, events: seq<Event>): seq<Item>
    decreases |events|
  {
    if events == [] then client else ApplyAll(ApplyEvent(client, events[0]), events[1..])
  }

  /** The events a request broadcasts: none or one. */
  function EventsOf(o: Outcome): seq<Event>
  {
    if o.event.Some? then [o.event.value] else []
  }

  /** A request sequence in which every ingest uses an id no item has at that moment. */
  ghost predicate FreshRun(items: seq<Item>, forwardUrl: string, reqs: seq<Request>)
    decreases |reqs|
  {
    reqs != [] ==>
      && (reqs[0].Ingest? ==> FreshId(items, reqs[0].id))
      && FreshRun(Step(items, forwardUrl, reqs[0]).items, forwardUrl, reqs[1..])
  }

  /** The store after a sequence of requests, and every event broadcast on the way. */
  function Run(items: seq<Item>, forwardUrl: string, reqs: seq<Request>): (seq<Item>, seq<Event>)
    decreases |reqs|
  {
    if reqs == [] then (items, [])
    else
      var o := Step(items, forwardUrl, reqs[0]);
      var (after, events) := Run(o.items, forwardUrl, reqs[1..]);
      (after, EventsOf(o) + events)
  }

  /** Marking one item's status on both sides keeps the views equal, since ids are unique. */
  lemma MarkKeepsViews(client: seq<Item>, items: seq<Item>, after: seq<Item>, i: nat, next: seq<Item>, s: Status)
    requires UniqueIds(items) && Views(client) == Views(items)
    requires i < |items| && OnlyAt(items, after, i)
    requires ViewOf(after[i]) == ViewOf(items[i]).(status := s)
    requires |next| == |client|
    requires forall j :: 0 <= j < |client| ==> next[j] == client[j].(status := next[j].status)
    requires forall j :: 0 <= j < |client| ==>
      next[j].status == if client[j].id == items[i].id then s else client[j].status
    ensures Views(next) == Views(after)
  {
    forall j | 0 <= j < |client|
      ensures ViewOf(next[j]) == ViewOf(after[j])
    {
      assert ViewOf(client[j]) == ViewOf(items[j]);
      if j != i {
        assert items[j].id != items[i].id;
      }
    }
  }

  lemma IngestInStep(client: seq<Item>, items: seq<Item>, text: TextField, id: string, now: string)
    requires Views(client) == Views(items)
    requires ValidText(text)
    ensures var o := IngestStep(items, text, id, now);
      Views(ApplyEvent(client, o.event.value)) == Views(o.items)
  {
    var o := IngestStep(items, text, id, now);
    var next := ApplyEvent(client, o.event.value);
    assert next == [o.items[0]] + client;
    forall j | 0 <= j < |next| ensures ViewOf(next[j]) == ViewOf(o.items[j]) {
      if j > 0 {
        assert next[j] == client[j - 1] && o.items[j] == items[j - 1];
        assert ViewOf(client[j - 1]) == ViewOf(items[j - 1]);
      }
    }
  }

  lemma AcceptInStep(client: seq<Item>, items: seq<Item>, id: string, now: string, forwardUrl: string,
                     outcome: ForwardOutcome)
    requires UniqueIds(items) && Views(client) == Views(items)
    requires AcceptStep(items, id, now, forwardUrl, outcome).event.Some?
    ensures var o := AcceptStep(items, id, now, forwardUrl, outcome);
      Views(ApplyEvent(client, o.event.value)) == Views(o.items)
  {
    var o := AcceptStep(items, id, now, forwardUrl, outcome);
    var i := IndexOf(items, id).value;
    assert ApplyEvent(client, o.event.value) == OnAccepted(client, items[i].id);
    MarkKeepsViews(client, items, o.items, i, OnAccepted(client, items[i].id), Accepted);
  }

  lemma CancelInStep(client: seq<Item>, items: seq<Item>, id: string, now: string)
    requires UniqueIds(items) && Views(client) == Views(items)
    requires CancelStep(items, id, now).event.Some?
    ensures var o := CancelStep(items, id, now);
      Views(ApplyEvent(client, o.event.value)) == Views(o.items)
  {
    var o := CancelStep(items, id, now);
    var i := IndexOf(items, id).value;
    assert ApplyEvent(client, o.event.value) == OnCancelled(client, items[i].id);
    MarkKeepsViews(client, items, o.items, i, OnCancelled(client, items[i].id), Cancelled);
  }

  /**
   * One request: if the client's list mirrors the store before it, the client's list after the
   * broadcast event (if any) mirrors the store after it.
   */
  lemma StepInStep(client: seq<Item>, items: seq<Item>, forwardUrl: string, req: Request)
    requires UniqueIds(items) && Views(client) == Views(items)
    ensures var o := Step(items, forwardUrl, req);
      Views(ApplyAll(client, EventsOf(o))) == Views(o.items)
  {
    var o := Step(items, forwardUrl, req);
    if o.event.Some? {
      assert ApplyAll(client, EventsOf(o)) == ApplyEvent(client, o.event.value);
      match req {
        case Ingest(text, id, now) => IngestInStep(client, items, text, id, now);
        case List =>
        case Accept(id, now, outcome) => AcceptInStep(client, items, id, now, forwardUrl, outcome);
        case Cancel(id, now) => CancelInStep(client, items, id, now);
      }
    }
  }

  /**
   * Any sequence of requests: a client that starts from the list GET /items returned and applies
   * every broadcast event in order shows the ids, texts, statuses and creation times of the store.
   */
  lemma {:induction false} RunInStep(client: seq<Item>, items: seq<Item>, forwardUrl: string, reqs: seq<Request>)
    requires UniqueIds(items) && Views(client) == Views(items)
    requires FreshRun(items, forwardUrl, reqs)
    ensures Views(ApplyAll(client, Run(items, forwardUrl, reqs).1)) == Views(Run(items, forwardUrl, reqs).0)
    decreases |reqs|
  {
    if reqs != [] {
      var o := Step(items, forwardUrl, reqs[0]);
      var client' := ApplyAll(client, EventsOf(o));
      StepInStep(client, items, forwardUrl, reqs[0]);
      StepKeepsUniqueIds(items, forwardUrl, reqs[0]);
      RunInStep(client', o.items, forwardUrl, reqs[1..]);
      ApplyAllAppend(client, EventsOf(o), Run(o.items, forwardUrl, reqs[1..]).1);
    }
  }

  lemma {:induction false} ApplyAllAppend(client: seq<Item>, a: seq<Event>, b: seq<Event>)
    ensures ApplyAll(client, a + b) == ApplyAll(ApplyAll(client, a), b)
    decreases |a|
  {
    if a != [] {
      assert (a + b)[1..] == a[1..] + b;
      ApplyAllAppend(ApplyEvent(client, a[0]), a[1..], b);
    } else {
      assert a + b == b;
    }
  }

  // ----- the buttons and the server's short-circuits -----

  /**
   * The accept button is disabled exactly when POST /accept/:id would answer with the item as it
   * is and change nothing, whatever the forward configuration and outcome.
   */
  lemma AcceptDisabledIffNoOp(items: seq<Item>, k: nat, now: string, forwardUrl: string, outcome: ForwardOutcome)
    requires UniqueIds(items) && k < |items|
    ensures AcceptDisabled(items[k]) <==>
      AcceptStep(items, items[k].id, now, forwardUrl, outcome)
        == Outcome(Response(200, ItemBody(items[k])), items, None, None)
  {
    IndexOfUnique(items, items[k].id, k);
    var o := AcceptStep(items, items[k].id, now, forwardUrl, outcome);
    if !AcceptDisabled(items[k]) && (forwardUrl == "" || outcome.ForwardOk?) {
      assert o.items[k].status == Accepted;
    }
  }

  /** The cancel button is disabled exactly when POST /cancel/:id would change nothing. */
  lemma CancelDisabledIffNoOp(items: seq<Item>, k: nat, now: string)
    requires UniqueIds(items) && k < |items|
    ensures CancelDisabled(items[k]) <==>
      CancelStep(items, items[k].id, now) == Outcome(Response(200, ItemBody(items[k])), items, None, None)
  {
    IndexOfUnique(items, items[k].id, k);
    var o := CancelStep(items, items[k].id, now);
    if !CancelDisabled(items[k]) {
      assert o.items[k].status == Cancelled;
    }
  }

  /** What `handleIngest` sends is always accepted by POST /ingest. */
  lemma SentTextIsIngested(input: string, items: seq<Item>, id: string, now: string)
    requires IngestText(input).Some?
    ensures IngestStep(items, Str(IngestText(input).value), id, now).response.code == 201
  {
  }
}
