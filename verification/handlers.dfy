/**
 * What each request handler of backend/src/server.js does to the item list, as a function of the
 * list before the request: its response, the list after it, the event it broadcasts and the body
 * of the forward call it makes. The imperative handlers of module Server are proved against these.
 */
module Handlers {
  import opened Items
  import opened Events

  /** The `text` member of an /ingest request body as JSON gives it. */
  datatype TextField = Missing | Str(s: string) | NotString

  /** `!text || typeof text !== 'string'` is false: a non-empty string. */
  predicate ValidText(t: TextField): (ok: bool)
    ensures t.Missing? || t.NotString? || t == Str("") ==> !ok
    ensures t.Str? && t.s != "" ==> ok
  {
    t.Str? && t.s != ""
  }

  /** The outcome of the outbound forward call: a timeout or a network failure is `Threw`. */
  datatype ForwardOutcome = ForwardOk | NotOk(status: int, body: string) | Threw(message: string)

  datatype Body =
    | ItemBody(item: Item)
    | ItemsBody(items: seq<Item>)
    | ErrorBody(error: string)                   // {error}
    | ForwardFailed(status: int, body: string)   // {error: 'forward_failed', status, body}
    | ForwardError(message: string)              // {error: 'forward_error', message}

  /** An HTTP response: `res.json` answers 200 unless a status was set. */
  datatype Response = Response(code: int, body: Body)

  /** Everything one request does. */
  datatype Outcome = Outcome(
    response: Response,
    items: seq<Item>,
    event: Option<Event>,
    call: Option<Payload>)   // the body of the forward call, when one is made

  /** Only position `i` of the list may differ. */
  predicate OnlyAt(before: seq<Item>, after: seq<Item>, i: nat)
  {
    |after| == |before| && forall j :: 0 <= j < |before| && j != i ==> after[j] == before[j]
  }

  /** Every position keeps its item's id. */
  predicate SameIds(before: seq<Item>, after: seq<Item>)
  {
    |after| == |before| && forall j :: 0 <= j < |before| ==> after[j].id == before[j].id
  }

  /** POST /ingest (backend/src/server.js:59-68); `id` and `now` stand for `nanoid()` and the clock. */
  function IngestStep(items: seq<Item>, text: TextField, id: string, now: string): (o: Outcome)
    ensures !ValidText(text) ==> o == Outcome(Response(400, ErrorBody("text is required")), items, None, None)
    ensures ValidText(text) ==>
      && |o.items| == |items| + 1
      && o.items[1..] == items
      && o.items[0].id == id && o.items[0].text == text.s && o.items[0].status == Pending
      && o.items[0].createdAt == now
      && o.items[0].acceptedAt.None? && o.items[0].cancelledAt.None? && !o.items[0].forwardSkipped
      && o.response == Response(201, ItemBody(o.items[0]))
      && o.event == Some(Event("created", FullItem(o.items[0])))
      && o.call.None?
  {
    if !ValidText(text) then Outcome(Response(400, ErrorBody("text is required")), items, None, None)
    else
      var m := NewItem(id, text.s, now);
      Outcome(Response(201, ItemBody(m)), [m] + items, Some(Event("created", FullItem(m))), None)
  }

  /** GET /items (backend/src/server.js:71-73): the whole list, most recent first, and nothing else. */
  function ListStep(items: seq<Item>): (o: Outcome)
    ensures o.response.code == 200 && o.response.body.ItemsBody? && o.response.body.items == items
    ensures o.items == items && o.event.None? && o.call.None?
  {
    Outcome(Response(200, ItemsBody(items)), items, None, None)
  }

  /**
   * POST /accept/:id (backend/src/server.js:76-112). `forwardUrl` is the process's FORWARD_URL
   * ("" when unset); `outcome` is what the forward call returns when one is made.
   */
  function AcceptStep(items: seq<Item>, id: string, now: string, forwardUrl: string, outcome: ForwardOutcome)
    : (o: Outcome)
    // unknown id: 404 and nothing happens
    ensures IndexOf(items, id).None? ==>
      o == Outcome(Response(404, ErrorBody("not_found")), items, None, None)
    // a repeated accept answers with the item as it is and does nothing else
    ensures IndexOf(items, id).Some? && items[IndexOf(items, id).value].status == Accepted ==>
      o == Outcome(Response(200, ItemBody(items[IndexOf(items, id).value])), items, None, None)
    // otherwise the forward call is made exactly when a URL is configured, carrying {id, text}
    ensures IndexOf(items, id).Some? && items[IndexOf(items, id).value].status != Accepted ==>
      var m := items[IndexOf(items, id).value];
      o.call == (if forwardUrl == "" then None else Some(IdText(m.id, m.text)))
    // a failed forward answers 502 and changes nothing
    ensures (IndexOf(items, id).Some? && items[IndexOf(items, id).value].status != Accepted
             && forwardUrl != "" && !outcome.ForwardOk?) ==>
      && o.items == items && o.event.None?
      && o.response == Response(502,
           if outcome.NotOk? then ForwardFailed(outcome.status, outcome.body) else ForwardError(outcome.message))
    // otherwise the item, and only it, becomes accepted, whatever its status was
    ensures (IndexOf(items, id).Some? && items[IndexOf(items, id).value].status != Accepted
             && (forwardUrl == "" || outcome.ForwardOk?)) ==>
      var i := IndexOf(items, id).value;
      var m := items[i];
      && OnlyAt(items, o.items, i)
      && o.items[i] == m.(status := Accepted, acceptedAt := Some(now),
                          forwardSkipped := if forwardUrl == "" then true else m.forwardSkipped)
      && o.event == Some(Event("accepted", IdText(m.id, m.text)))
      && o.response == Response(200, ItemBody(o.items[i]))
    ensures SameIds(items, o.items)
  {
    match IndexOf(items, id)
    case None => Outcome(Response(404, ErrorBody("not_found")), items, None, None)
    case Some(i) =>
      var m := items[i];
      if m.status == Accepted then Outcome(Response(200, ItemBody(m)), items, None, None)
      else if forwardUrl == "" then
        var m' := m.(status := Accepted, acceptedAt := Some(now), forwardSkipped := true);
        Outcome(Response(200, ItemBody(m')), items[i := m'], Some(Event("accepted", IdText(m.id, m.text))), None)
      else
        var call := Some(IdText(m.id, m.text));
        match outcome
        case NotOk(status, body) => Outcome(Response(502, ForwardFailed(status, body)), items, None, call)
        case Threw(message) => Outcome(Response(502, ForwardError(message)), items, None, call)
        case ForwardOk =>
          var m' := m.(status := Accepted, acceptedAt := Some(now));
          Outcome(Response(200, ItemBody(m')), items[i := m'], Some(Event("accepted", IdText(m.id, m.text))), call)
  }

  /** POST /cancel/:id (backend/src/server.js:115-124). */
  function CancelStep(items: seq<Item>, id: string, now: string): (o: Outcome)
    ensures IndexOf(items, id).None? ==>
      o == Outcome(Response(404, ErrorBody("not_found")), items, None, None)
    ensures IndexOf(items, id).Some? && items[IndexOf(items, id).value].status == Cancelled ==>
      o == Outcome(Response(200, ItemBody(items[IndexOf(items, id).value])), items, None, None)
    // otherwise the item, and only it, becomes cancelled, whatever its status was
    ensures IndexOf(items, id).Some? && items[IndexOf(items, id).value].status != Cancelled ==>
      var i := IndexOf(items, id).value;
      var m := items[i];
      && OnlyAt(items, o.items, i)
      && o.items[i] == m.(status := Cancelled, cancelledAt := Some(now))
      && o.event == Some(Event("cancelled", IdOnly(m.id)))
      && o.response == Response(200, ItemBody(o.items[i]))
    ensures SameIds(items, o.items) && o.call.None?
  {
    match IndexOf(items, id)
    case None => Outcome(Response(404, ErrorBody("not_found")), items, None, None)
    case Some(i) =>
      var m := items[i];
      if m.status == Cancelled then Outcome(Response(200, ItemBody(m)), items, None, None)
      else
        var m' := m.(status := Cancelled, cancelledAt := Some(now));
        Outcome(Response(200, ItemBody(m')), items[i := m'], Some(Event("cancelled", IdOnly(m.id))), None)
  }

  /** A request to the backend, with the values the environment supplies for it. */
  datatype Request =
    | Ingest(text: TextField, id: string, now: string)
    | List
    | Accept(id: string, now: string, outcome: ForwardOutcome)
    | Cancel(id: string, now: string)

  function Step(items: seq<Item>, forwardUrl: string, req: Request): Outcome
  {
    match req
    case Ingest(text, id, now) => IngestStep(items, text, id, now)
    case List => ListStep(items)
    case Accept(id, now, outcome) => AcceptStep(items, id, now, forwardUrl, outcome)
    case Cancel(id, now) => CancelStep(items, id, now)
  }

  // ----- properties relating several requests -----

  /** `find` looks only at ids, so a list with the same ids gives the same answer. */
  lemma {:induction false} IndexOfSameIds(a: seq<Item>, b: seq<Item>, id: string)
    requires SameIds(a, b)
    ensures IndexOf(a, id) == IndexOf(b, id)
  {
    if a != [] {
      IndexOfSameIds(a[1..], b[1..], id);
    }
  }

  /** Accepting twice is accepting once: the second call changes nothing and broadcasts nothing. */
  lemma AcceptIdempotent(items: seq<Item>, id: string, now1: string, now2: string, forwardUrl: string,
                         out1: ForwardOutcome, out2: ForwardOutcome)
    requires AcceptStep(items, id, now1, forwardUrl, out1).response.code == 200
    ensures var o1 := AcceptStep(items, id, now1, forwardUrl, out1);
      AcceptStep(o1.items, id, now2, forwardUrl, out2) == Outcome(o1.response, o1.items, None, None)
  {
    var o1 := AcceptStep(items, id, now1, forwardUrl, out1);
    IndexOfSameIds(items, o1.items, id);
  }

  /** Cancelling twice is cancelling once. */
  lemma CancelIdempotent(items: seq<Item>, id: string, now1: string, now2: string)
    requires CancelStep(items, id, now1).response.code == 200
    ensures var o1 := CancelStep(items, id, now1);
      CancelStep(o1.items, id, now2) == Outcome(o1.response, o1.items, None, None)
  {
    var o1 := CancelStep(items, id, now1);
    IndexOfSameIds(items, o1.items, id);
  }

  /**
   * Neither end state is terminal: a cancelled item can still be accepted (with no forward URL, or
   * when the forward call succeeds), and an accepted item can still be cancelled.
   */
  lemma CancelThenAccept(items: seq<Item>, id: string, now1: string, now2: string, forwardUrl: string,
                         outcome: ForwardOutcome)
    requires IndexOf(items, id).Some?
    requires forwardUrl == "" || outcome.ForwardOk?
    ensures var o1 := CancelStep(items, id, now1);
      var o2 := AcceptStep(o1.items, id, now2, forwardUrl, outcome);
      var i := IndexOf(items, id).value;
      o1.items[i].status == Cancelled && o2.items[i].status == Accepted
      && o2.items[i].cancelledAt == o1.items[i].cancelledAt && o2.items[i].acceptedAt == Some(now2)
  {
    var o1 := CancelStep(items, id, now1);
    IndexOfSameIds(items, o1.items, id);
  }

  lemma AcceptThenCancel(items: seq<Item>, id: string, now1: string, now2: string, forwardUrl: string,
                         outcome: ForwardOutcome)
    requires AcceptStep(items, id, now1, forwardUrl, outcome).response.code == 200
    ensures var o1 := AcceptStep(items, id, now1, forwardUrl, outcome);
      var o2 := CancelStep(o1.items, id, now2);
      var i := IndexOf(items, id).value;
      o1.items[i].status == Accepted && o2.items[i].status == Cancelled
      && o2.items[i].acceptedAt == o1.items[i].acceptedAt
  {
    var o1 := AcceptStep(items, id, now1, forwardUrl, outcome);
    IndexOfSameIds(items, o1.items, id);
  }

  /** Ids stay unique across every request whose fresh id (if any) is not already in use. */
  lemma StepKeepsUniqueIds(items: seq<Item>, forwardUrl: string, req: Request)
    requires UniqueIds(items)
    requires req.Ingest? ==> FreshId(items, req.id)
    ensures UniqueIds(Step(items, forwardUrl, req).items)
  {
    var o := Step(items, forwardUrl, req);
    if req.Ingest? && ValidText(req.text) {
      forall i, j | 0 <= i < j < |o.items| ensures o.items[i].id != o.items[j].id {
        if i == 0 {
          assert o.items[j] == items[j - 1];
          assert items[j - 1] in items;
        } else {
          assert o.items[i] == items[i - 1] && o.items[j] == items[j - 1];
        }
      }
    }
  }
}
