/**
 * Broadcast events and the per-client fan-out of `broadcast` and `wsBroadcast`
 * (backend/src/server.js:30-47).
 */
module Events {
  import opened Items

  /** What a frame carries, before JSON encoding; the shape depends on the event. */
  datatype Payload =
    | ItemList(items: seq<Item>)     // 'init': the whole list
    | FullItem(item: Item)           // 'created': the full new item
    | IdText(id: string, text: string) // 'accepted': {id, text}
    | IdOnly(id: string)             // 'cancelled': {id}

  /** An event handed to `broadcast(event, data)`. */
  datatype Event = Event(name: string, data: Payload)

  /**
   * One frame written to a client: an event-stream frame `event: E\ndata: D\n\n` to an SSE
   * response, or a `{type, payload}` message to a WebSocket.
   */
  datatype Frame =
    | SseFrame(event: string, data: Payload)
    | WsFrame(kind: string, payload: Payload)

  /** Observers are identified by an opaque number (the `res` or `ws` object in the source). */
  type ClientId = nat

  /**
   * `map[event] || event` with `map = {created: 'created', accepted: 'accepted',
   * cancelled: 'cancelled'}`: the WebSocket type is always the SSE event name.
   */
  function WsType(event: string): (kind: string)
    ensures kind == event
  {
    if event == "created" then "created"
    else if event == "accepted" then "accepted"
    else if event == "cancelled" then "cancelled"
    else event
  }

  /** The frames one broadcast appends for client `c`. */
  function FramesFor(c: ClientId, sse: set<ClientId>, ws: map<ClientId, bool>, e: Event): seq<Frame>
  {
    (if c in sse then [SseFrame(e.name, e.data)] else [])
    + (if c in ws && ws[c] then [WsFrame(WsType(e.name), e.data)] else [])
  }

  /**
   * The outboxes after `broadcast(e.name, e.data)`: every registered SSE client gets one event-stream
   * frame, every OPEN WebSocket client one message of the same type, every other client nothing.
   */
  function Delivered(outbox: map<ClientId, seq<Frame>>, sse: set<ClientId>, ws: map<ClientId, bool>, e: Event)
    : (r: map<ClientId, seq<Frame>>)
    requires sse !! ws.Keys
    ensures r.Keys == outbox.Keys
    ensures forall c :: c in outbox ==> outbox[c] <= r[c]
    ensures forall c :: c in outbox && c in sse ==> r[c] == outbox[c] + [SseFrame(e.name, e.data)]
    ensures forall c :: c in outbox && c in ws && ws[c] ==> r[c] == outbox[c] + [WsFrame(e.name, e.data)]
    ensures forall c :: c in outbox && c !in sse && !(c in ws && ws[c]) ==> r[c] == outbox[c]
  {
    map c | c in outbox :: outbox[c] + FramesFor(c, sse, ws, e)
  }

  /** Broadcasting only when a handler produced an event. */
  function DeliveredOpt(outbox: map<ClientId, seq<Frame>>, sse: set<ClientId>, ws: map<ClientId, bool>, e: Option<Event>)
    : map<ClientId, seq<Frame>>
    requires sse !! ws.Keys
  {
    if e.Some? then Delivered(outbox, sse, ws, e.value) else outbox
  }
}
