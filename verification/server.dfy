/**
 * The backend process of backend/src/server.js as one object: the `messages` store, the set of SSE
 * responses, the WebSocket clients with their OPEN flag, and what has been written to each client.
 */
module Server {
  import opened Items
  import opened Events
  import opened Handlers
  import opened EventStream

  /** Every event-stream frame names its event with one non-empty line, as the format needs. */
  ghost predicate Readable(frames: seq<Frame>)
  {
    forall j :: 0 <= j < |frames| && frames[j].SseFrame? ==> frames[j].event != "" && OneLine(frames[j].event)
  }

  /**
   * The loop of `broadcast` over `sseClients`: `res.write(payload)` to each of `targets`.
   */
  method WriteAll(out: map<ClientId, seq<Frame>>, targets: set<ClientId>, frame: Frame)
    returns (r: map<ClientId, seq<Frame>>)
    requires targets <= out.Keys
    ensures r.Keys == out.Keys
    ensures forall c :: c in out ==> r[c] == out[c] + (if c in targets then [frame] else [])
  {
    r := out;
    var pending := targets;
    while pending != {}
      invariant pending <= targets
      invariant r.Keys == out.Keys
      invariant forall c :: c in out ==> r[c] == out[c] + (if c in targets && c !in pending then [frame] else [])
      decreases pending
    {
      var c :| c in pending;
      r := r[c := r[c] + [frame]];
      pending := pending - {c};
    }
  }

  /**
   * The loop of `wsBroadcast` over `wss.clients`: `client.send(message)` to each client whose
   * `readyState` is OPEN, nothing to the others.
   */
  method SendToOpen(out: map<ClientId, seq<Frame>>, clients: map<ClientId, bool>, message: Frame)
    returns (r: map<ClientId, seq<Frame>>)
    requires clients.Keys <= out.Keys
    ensures r.Keys == out.Keys
    ensures forall c :: c in out ==> r[c] == out[c] + (if c in clients && clients[c] then [message] else [])
  {
    r := out;
    var rest := clients.Keys;
    while rest != {}
      invariant rest <= clients.Keys
      invariant r.Keys == out.Keys
      invariant forall c :: c in out ==>
        r[c] == out[c] + (if c in clients && clients[c] && c !in rest then [message] else [])
      decreases rest
    {
      var c :| c in rest;
      if clients[c] {
        r := r[c := r[c] + [message]];
      }
      rest := rest - {c};
    }
  }

  lemma ReadableAppend(a: seq<Frame>, b: seq<Frame>)
    requires Readable(a) && Readable(b)
    ensures Readable(a + b)
  {
  }

  class ItemServer {
    /** FORWARD_URL; "" when it is unset. */
    const forwardUrl: string
    /** `messages`, most recent first. */
    var items: seq<Item>
    /** `sseClients`: the SSE responses currently registered. */
    var sse: set<ClientId>
    /** `wss.clients`, each with whether its `readyState` is OPEN. */
    var ws: map<ClientId, bool>
    /** Every frame written so far to each client that ever connected, oldest first. */
    var outbox: map<ClientId, seq<Frame>>

    ghost predicate Valid()
      reads this
    {
      && UniqueIds(items)
      && sse <= outbox.Keys
      && ws.Keys <= outbox.Keys
      && sse !! ws.Keys
      && (forall c :: c in outbox ==> Readable(outbox[c]))
      && (forall c :: c in sse ==> outbox[c] != [] && outbox[c][0].SseFrame? && outbox[c][0].event == "init")
    }

    constructor (forwardUrl: string)
      ensures Valid()
      ensures this.forwardUrl == forwardUrl
      ensures items == [] && sse == {} && ws == map[] && outbox == map[]
    {
      this.forwardUrl := forwardUrl;
      items := [];
      sse := {};
      ws := map[];
      outbox := map[];
    }

    /** `messages.find(m => m.id === id)`, as the index of the item found. */
    method Find(id: string) returns (r: Option<nat>)
      ensures r == IndexOf(items, id)
    {
      var i := 0;
      while i < |items|
        invariant 0 <= i <= |items|
        invariant forall j :: 0 <= j < i ==> items[j].id != id
      {
        if items[i].id == id {
          assert !FreshId(items, id) by { assert items[i] in items; }
          return Some(i);
        }
        i := i + 1;
      }
      return None;
    }

    /**
     * `broadcast(event, data)`: one event-stream frame to each registered SSE response, then
     * `wsBroadcast` of the same event to each OPEN WebSocket. A failed write is swallowed by the
     * source and does not show here.
     */
    method Broadcast(e: Event)
      requires Valid()
      requires e.name != "" && OneLine(e.name)
      modifies this
      ensures Valid()
      ensures outbox == Delivered(old(outbox), sse, ws, e)
      ensures items == old(items) && sse == old(sse) && ws == old(ws)
    {
      var written := WriteAll(outbox, sse, SseFrame(e.name, e.data));
      written := SendToOpen(written, ws, WsFrame(WsType(e.name), e.data));
      assert forall c :: c in written ==> written[c] == Delivered(outbox, sse, ws, e)[c];
      forall c | c in written ensures Readable(written[c]) {
        ReadableAppend(outbox[c], written[c][|outbox[c]|..]);
      }
      outbox := written;
    }

    /** POST /ingest; `id` is what `nanoid()` returns, `now` the clock. */
    method Ingest(text: TextField, id: string, now: string) returns (resp: Response)
      requires Valid()
      requires FreshId(items, id)
      modifies this
      ensures Valid()
      ensures var o := IngestStep(old(items), text, id, now);
        resp == o.response && items == o.items && outbox == DeliveredOpt(old(outbox), sse, ws, o.event)
      ensures sse == old(sse) && ws == old(ws)
    {
      if text.Missing? || text.NotString? || text.s == "" {
        return Response(400, ErrorBody("text is required"));
      }
      StepKeepsUniqueIds(items, forwardUrl, Request.Ingest(text, id, now));
      var msg := NewItem(id, text.s, now);
      items := [msg] + items;
      Broadcast(Event("created", FullItem(msg)));
      resp := Response(201, ItemBody(msg));
    }

    /** GET /items. */
    method List() returns (resp: Response)
      ensures resp == ListStep(items).response
      ensures resp.code == 200 && resp.body == ItemsBody(items)
    {
      resp := Response(200, ItemsBody(items));
    }

    /**
     * POST /accept/:id. `outcome` is what the forward call returns if it is made; `call` is the
     * body that call carries, None when no call is made.
     */
    method Accept(id: string, now: string, outcome: ForwardOutcome) returns (resp: Response, call: Option<Payload>)
      requires Valid()
      modifies this
      ensures Valid()
      ensures var o := AcceptStep(old(items), id, now, forwardUrl, outcome);
        resp == o.response && call == o.call && items == o.items
        && outbox == DeliveredOpt(old(outbox), sse, ws, o.event)
      ensures sse == old(sse) && ws == old(ws)
    {
      call := None;
      var found := Find(id);
      if found.None? {
        return Response(404, ErrorBody("not_found")), call;
      }
      var i := found.value;
      var msg := items[i];
      if msg.status == Accepted {
        return Response(200, ItemBody(msg)), call;
      }
      StepKeepsUniqueIds(items, forwardUrl, Request.Accept(id, now, outcome));

      if forwardUrl == "" {
        msg := msg.(status := Accepted, acceptedAt := Some(now), forwardSkipped := true);
        items := items[i := msg];
        Broadcast(Event("accepted", IdText(msg.id, msg.text)));
        return Response(200, ItemBody(msg)), call;
      }

      call := Some(IdText(msg.id, msg.text));
      match outcome {
        case NotOk(status, body) =>
          return Response(502, ForwardFailed(status, body)), call;
        case Threw(message) =>
          return Response(502, ForwardError(message)), call;
        case ForwardOk =>
          msg := msg.(status := Accepted, acceptedAt := Some(now));
          items := items[i := msg];
          Broadcast(Event("accepted", IdText(msg.id, msg.text)));
          resp := Response(200, ItemBody(msg));
      }
    }

    /** POST /cancel/:id. */
    method Cancel(id: string, now: string) returns (resp: Response)
      requires Valid()
      modifies this
      ensures Valid()
      ensures var o := CancelStep(old(items), id, now);
        resp == o.response && items == o.items && outbox == DeliveredOpt(old(outbox), sse, ws, o.event)
      ensures sse == old(sse) && ws == old(ws)
    {
      var found := Find(id);
      if found.None? {
        return Response(404, ErrorBody("not_found"));
      }
      var i := found.value;
      var msg := items[i];
      if msg.status == Cancelled {
        return Response(200, ItemBody(msg));
      }
      StepKeepsUniqueIds(items, forwardUrl, Request.Cancel(id, now));
      msg := msg.(status := Cancelled, cancelledAt := Some(now));
      items := items[i := msg];
      Broadcast(Event("cancelled", IdOnly(msg.id)));
      resp := Response(200, ItemBody(msg));
    }

    /** GET /events: the `init` snapshot of the whole list first, then registration. */
    method SseConnect(c: ClientId)
      requires Valid()
      requires c !in outbox
      modifies this
      ensures Valid()
      ensures outbox == old(outbox)[c := [SseFrame("init", ItemList(items))]]
      ensures sse == old(sse) + {c}
      ensures items == old(items) && ws == old(ws)
    {
      outbox := outbox[c := [SseFrame("init", ItemList(items))]];
      sse := sse + {c};
    }

    /** The request's 'close' handler: the response leaves `sseClients`. */
    method SseClose(c: ClientId)
      requires Valid()
      modifies this
      ensures Valid()
      ensures sse == old(sse) - {c}
      ensures items == old(items) && ws == old(ws) && outbox == old(outbox)
    {
      sse := sse - {c};
    }

    /** The `wss` 'connection' handler: a new, OPEN socket is sent the `init` snapshot. */
    method WsConnect(c: ClientId)
      requires Valid()
      requires c !in outbox
      modifies this
      ensures Valid()
      ensures outbox == old(outbox)[c := [WsFrame("init", ItemList(items))]]
      ensures ws == old(ws)[c := true]
      ensures items == old(items) && sse == old(sse)
    {
      ws := ws[c := true];
      outbox := outbox[c := [WsFrame("init", ItemList(items))]];
    }

    /** The transport closing a socket: its `readyState` is no longer OPEN. */
    method WsClose(c: ClientId)
      requires Valid()
      requires c in ws
      modifies this
      ensures Valid()
      ensures ws == old(ws)[c := false]
      ensures items == old(items) && sse == old(sse) && outbox == old(outbox)
    {
      ws := ws[c := false];
    }
  }

  /**
   * What an SSE observer reads from its response, interpreted as an event stream: one event per
   * event-stream frame written to it, in order, with that frame's name and JSON data; a registered
   * observer's first event is the `init` snapshot.
   */
  lemma SseObserverReads(srv: ItemServer, c: ClientId, encode: Payload -> string)
    requires srv.Valid() && c in srv.outbox
    requires forall p :: OneLine(encode(p))
    ensures Parse(Wire(srv.outbox[c], encode), Empty) == Received(srv.outbox[c], encode)
    ensures c in srv.sse ==> Received(srv.outbox[c], encode) != [] && Received(srv.outbox[c], encode)[0].kind == "init"
  {
    WireRoundTrip(srv.outbox[c], encode);
  }
}
