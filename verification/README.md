# Item store with real-time fan-out: a Dafny model

This project models the backend of a small service that takes in free-text items, moves each
through the statuses `pending`, `accepted` and `cancelled`, and pushes every change to observers
over two transports at once. It also models the expression-only part of the web client that
mirrors the list.

The backend, `backend/src/server.js`, is modelled as one class, `Server.ItemServer`. It holds:

- the `messages` store, a sequence of `Items.Item`, most recent first;
- the set of registered server-sent-events (SSE) responses;
- the WebSocket clients, each with a flag that says whether its `readyState` is OPEN;
- per client, every frame written to it so far.

Its methods are the request handlers (`Ingest`, `List`, `Accept`, `Cancel`), `Broadcast`, and
the connection events (`SseConnect`, `SseClose`, `WsConnect`, `WsClose`). Each handler method
is proved equal to a pure step function in module `Handlers` (`IngestStep`, `ListStep`,
`AcceptStep`, `CancelStep`). Those functions state the handler's outcome case by case. Lemmas
about them cover idempotent repeats, ids staying unique, and the fact that `accepted` and
`cancelled` are not terminal. `Broadcast` is proved equal to `Events.Delivered`. That function
states what each client receives:

- a registered SSE client gets one event-stream frame;
- an OPEN WebSocket client gets one message whose type is the event name;
- every other client gets nothing.

Module `EventStream` gives the text of an SSE frame, `event: E\ndata: D\n\n`. It also gives a
reader for that text, following "Interpreting an event stream" in section 9.2.6 of the WHATWG
HTML Living Standard. It proves that an SSE observer reads back exactly the events written to
it, in order.

Module `Client` models `frontend/src/App.jsx`: `classNames`, the three list reducers, the
status predicates and the trim guard of `handleIngest`. Module `Sync` proves that a client
which starts from the `GET /items` list and applies every broadcast event stays in step with
the store. After any sequence of requests with fresh ingest ids, the client's ids, texts, statuses and creation times
equal the server's.

Terminal states follow the code, not the intended design. The intended design treats `accepted`
and `cancelled` as final. In the code, only a repeat of the same transition short-circuits
(`backend/src/server.js:80`, `119`). Accepting a cancelled item makes it `accepted`, and
cancelling an accepted item makes it `cancelled`. The model does the same
(`Handlers.CancelThenAccept`, `Handlers.AcceptThenCancel`). So does the client: its accept
button stays enabled for cancelled items (`Sync.AcceptDisabledIffNoOp`).

The forward call is a parameter `outcome`: `ForwardOk`, `NotOk(status, body)` or
`Threw(message)`. A timeout is `Threw`. New ids and timestamps are parameters, and ingest
requires the id to be fresh. JSON encoding is a parameter `encode` of the wire text.

## Model

| member | source | states |
|---|---|---|
| `Items.NewItem` | backend/src/server.js:64 | a new item has the given id, text and creation time, status `pending`, no transition stamps and no `forwardSkipped` |
| `Items.IndexOf` | backend/src/server.js:78 | `messages.find` by id: the index of the first item with that id, or none exactly when no item has it |
| `Items.IndexOfUnique` | backend/src/server.js:78 | with unique ids, the lookup finds the one item that has the id |
| `Events.WsType` | backend/src/server.js:45-46 | the WebSocket type map returns the SSE event name unchanged, for the three kinds and for any other name |
| `Events.Delivered` | backend/src/server.js:39-47 | one broadcast: each registered SSE client gets `SseFrame(E, D)`; each OPEN WebSocket client gets `WsFrame(E, D)`; all other clients, closed or not OPEN, get nothing; earlier frames stay a prefix |
| `EventStream.FrameText` | backend/src/server.js:40 | one frame is 16 characters longer than its name and data together; with a one-line name and data it is exactly three lines, ended by LF at the end of the event line and at the last two positions |
| `EventStream.Wire` | backend/src/server.js:41-43 | the text of one SSE response: WebSocket frames add nothing, and the response starts with the text of its first SSE frame |
| `EventStream.WireAppend` | backend/src/server.js:42 | each `res.write` appends: the text of two runs of frames is the text of the first followed by that of the second |
| `EventStream.FrameRoundTrip` | backend/src/server.js:40 | a client that reads `event: E\ndata: D\n\n` dispatches exactly one event, with type E and data D, and the frame does not affect what follows |
| `EventStream.WireRoundTrip` | backend/src/server.js:41-43 | reading all the text written to an SSE response yields one event per SSE frame, in order, with its name and encoded data |
| `Handlers.ValidText` | backend/src/server.js:61 | a missing field, a non-string and the empty string fail the guard; every non-empty string passes |
| `Handlers.IngestStep` | backend/src/server.js:59-68 | a missing, empty or non-string text gives 400 `text is required`, with no change and no event; otherwise a new pending item with the given text goes to index 0, the old list follows unchanged, and the response and one `created` event carry that item |
| `Handlers.ListStep` | backend/src/server.js:71-73 | `GET /items` answers 200 with the whole list and changes nothing |
| `Handlers.AcceptStep` | backend/src/server.js:76-112 | unknown id gives 404 `not_found`, unchanged; an accepted item is returned unchanged with no event; otherwise a forward call carrying the item's id and text is made exactly when a URL is set; a failed call gives 502 `forward_failed` or `forward_error` with no change; else only that item becomes accepted, whatever its status, with `acceptedAt` set, `forwardSkipped` set exactly when no URL is set, and an `accepted` event carrying the item's id and text; ids keep their positions |
| `Handlers.CancelStep` | backend/src/server.js:115-124 | unknown id gives 404 `not_found`, unchanged; a cancelled item is returned unchanged with no event; otherwise only that item becomes cancelled, whatever its status, with `cancelledAt` set and a `cancelled` event carrying `{id}` |
| `Handlers.IndexOfSameIds` | backend/src/server.js:78 | the lookup depends only on the ids at each position |
| `Handlers.AcceptIdempotent` | backend/src/server.js:80 | after a successful accept, a second accept of the same id answers with the same item, changes nothing and broadcasts nothing |
| `Handlers.CancelIdempotent` | backend/src/server.js:119 | after a cancel, a second cancel of the same id answers with the same item, changes nothing and broadcasts nothing |
| `Handlers.CancelThenAccept` | backend/src/server.js:80-88 | a cancelled item can still be accepted (no URL, or forward succeeded); it keeps its `cancelledAt` and gets `acceptedAt` |
| `Handlers.AcceptThenCancel` | backend/src/server.js:119-123 | an accepted item can still be cancelled, keeping its `acceptedAt` |
| `Handlers.StepKeepsUniqueIds` | backend/src/server.js:64-65 | each request keeps item ids unique when the new id is fresh |
| `Server.WriteAll` | backend/src/server.js:41-43 | the loop over `sseClients` appends the frame to exactly the registered clients' outboxes |
| `Server.SendToOpen` | backend/src/server.js:32-36 | the loop over `wss.clients` appends the message to exactly the OPEN clients' outboxes |
| `Server.ItemServer.constructor` | backend/src/server.js:19-22 | the store, the SSE set and the socket set start empty |
| `Server.ItemServer.Find` | backend/src/server.js:78 | the search loop returns the index of the first item with the id, as `Items.IndexOf` |
| `Server.ItemServer.Broadcast` | backend/src/server.js:39-47 | the outboxes become `Events.Delivered` of the old ones; store and client sets unchanged |
| `Server.ItemServer.Ingest` | backend/src/server.js:59-68 | response and store are `Handlers.IngestStep`; the `created` event, if any, reaches every connected client once |
| `Server.ItemServer.List` | backend/src/server.js:71-73 | answers 200 with the current list |
| `Server.ItemServer.Accept` | backend/src/server.js:76-112 | response, forward-call body and store are `Handlers.AcceptStep`; outboxes get its event, if any |
| `Server.ItemServer.Cancel` | backend/src/server.js:115-124 | response and store are `Handlers.CancelStep`; outboxes get its event, if any |
| `Server.ItemServer.SseConnect` | backend/src/server.js:127-134 | a new SSE client's first frame is `init` with the whole current list, and then it is registered |
| `Server.ItemServer.SseClose` | backend/src/server.js:135-138 | a closed SSE client leaves the set, so later broadcasts write nothing to it |
| `Server.ItemServer.WsConnect` | backend/src/server.js:49-52 | a new socket is OPEN and its first frame is `init` with the whole current list |
| `Server.ItemServer.WsClose` | backend/src/server.js:33 | a socket whose `readyState` leaves OPEN gets no later messages |
| `Server.SseObserverReads` | backend/src/server.js:132 | every SSE observer of a running server reads back exactly its event-stream frames, in order; a registered observer's first event is `init`, which the class invariant keeps from `SseConnect` on |
| `Client.NonEmpty` | frontend/src/App.jsx:6 | `filter(Boolean)` keeps every non-empty argument, as often as it occurs, and drops every empty one; it is empty exactly when every argument is |
| `Client.ClassNames` | frontend/src/App.jsx:5-7 | the result is empty exactly when every argument is empty |
| `Client.AllTokensNonEmpty` | frontend/src/App.jsx:6 | dropping the empty arguments keeps the arguments' class names and their order |
| `Client.ClassNamesTokens` | frontend/src/App.jsx:5-7 | the class names of the result are those of the arguments, in argument order: empty arguments add none, and the single-space join never merges or splits a name |
| `Client.OnCreated` | frontend/src/App.jsx:35 | length grows by one; the new message is the head and the old list the tail |
| `Client.OnAccepted` | frontend/src/App.jsx:39 | length and order kept; items with the id get status `accepted`; every other field and item unchanged; an unknown id leaves the list unchanged |
| `Client.OnCancelled` | frontend/src/App.jsx:43 | the same with status `cancelled` |
| `Client.ReducersIdempotent` | frontend/src/App.jsx:39 | a repeated `accepted` or `cancelled` event changes nothing more |
| `Client.IsDone` | frontend/src/App.jsx:76 | done exactly when the status is not `pending` |
| `Client.AcceptDisabled` | frontend/src/App.jsx:91 | disabled only for done items, and never for cancelled ones |
| `Client.CancelDisabled` | frontend/src/App.jsx:101 | disabled only for done items, and never for accepted ones |
| `Client.DoneIsOneDisabled` | frontend/src/App.jsx:76-101 | an item is done exactly when one of its buttons is disabled, and never both are |
| `Client.Trim` | frontend/src/App.jsx:50 | `trim()` is the input minus its leading and trailing ECMAScript whitespace; it is empty exactly when the input is all whitespace |
| `Client.IngestText` | frontend/src/App.jsx:50-51 | nothing is sent exactly when the input is all whitespace; otherwise the trimmed text is sent, and it passes the server's check |
| `Sync.ApplyEvent` | frontend/src/App.jsx:33-44 | the three listeners: `created` with a full item puts that item at the head of the old list; `accepted` and `cancelled` set that status on every item with the event's id and leave every other status; other events change at most statuses; an event name with no listener leaves the list unchanged |
| `Sync.IngestInStep` | frontend/src/App.jsx:33-36 | a `created` event applied to an in-step client list keeps it in step with the store |
| `Sync.AcceptInStep` | frontend/src/App.jsx:37-40 | an `accepted` event keeps the client in step; this needs unique ids, since the reducer marks every match |
| `Sync.CancelInStep` | frontend/src/App.jsx:41-44 | a `cancelled` event keeps the client in step |
| `Sync.StepInStep` | frontend/src/App.jsx:33-44 | for any request, the client list after the request's broadcast event matches the store after the request |
| `Sync.RunInStep` | frontend/src/App.jsx:30-44 | for any sequence of requests with fresh ingest ids, a client that starts from `GET /items` and applies every broadcast event shows the store's ids, texts, statuses and creation times |
| `Sync.AcceptDisabledIffNoOp` | frontend/src/App.jsx:91 | the accept button is disabled exactly when `POST /accept/:id` would answer 200 with the item as it is, make no forward call and change nothing, for every forward setting and outcome |
| `Sync.CancelDisabledIffNoOp` | frontend/src/App.jsx:101 | the cancel button is disabled exactly when `POST /cancel/:id` would answer 200 with the item as it is and change nothing |
| `Sync.SentTextIsIngested` | frontend/src/App.jsx:51 | text that `handleIngest` sends is always answered with 201 |

## Left out

- Express, cors, morgan, `server.listen` and `/health` (backend/src/server.js:9-16, 54-56, 141-143) are framework plumbing.
- The forward HTTP request is not modelled. That covers `node-fetch`, the `AbortController` with its 10-second timer, and `r.text()` (backend/src/server.js:92-102). Its result is the `outcome` parameter. `r.ok` is given as `ForwardOk` versus `NotOk`, and the body of a failed call is part of `NotOk`.
- `nanoid()` and `new Date().toISOString()` are parameters, and ingest requires the id to be fresh.
- `JSON.stringify` is the `encode` parameter of the SSE text. The forward body `{ text, id }` (backend/src/server.js:97) and the `accepted` event's `{ id, text }` (87, 107) are the same payload in the model, so the model does not capture their different key order in the JSON text. The proofs assume its output holds no raw CR or LF, which JSON text never does. WebSocket messages are kept as structured frames, not as text.
- The handlers are atomic steps. The interleaving at `await fetch` is left out (backend/src/server.js:94-105). During that wait, a cancel can land, and the accept then overwrites the status.
- A failed `res.write` or `client.send` is swallowed by the source. The outbox records every write made, whether or not it reached the client.
- `res.end()` in the close handler is not modelled. The ws library dropping a closed socket from `wss.clients` is modelled as its OPEN flag turning false.
- `forwardSkipped` is a boolean in the model. The source leaves the field absent, rather than false, until it is set.
- Events.WsType: `map[event]` on a plain object also finds inherited members such as `constructor`; the model passes such names through unchanged. `broadcast` is only ever called with the three event kinds.
- EventStream.Parse ignores the `id` and `retry` fields and a leading byte-order mark. None of these ever appear in what the server writes.
- Client.ClassNamesTokens: the class list of an element also drops duplicate names; the model keeps them.
- Sync.ApplyEvent: a `created` event whose data is not a full item is ignored in the model; the client would prepend it. The server sends only full items on `created`. The client mirror applies events as structured values: it takes `JSON.parse` of the encoded data to give back the payload (`JSON.parse(JSON.stringify(p))` equals `p` for every payload), which `EventStream.WireRoundTrip` does not prove, since it stops at the encoded text.
- React state, effects, JSX rendering, the SVG icons, the `EventSource` subscription and the `fetch` calls are not modelled (frontend/src/App.jsx:9-32, 45-48, 51-75, 77-90, 92-100, 102-117); of line 51 the model keeps only the trimmed text it sends. Neither is the race between the initial `/items` fetch and incoming events.
- frontend/src/api.js is not part of this model. It holds only `fetch` wrappers and URL building.
