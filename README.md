# Netra signalling relay in Dafny

This project models the WebSocket signalling relay of Netra
(`Netra-sfu/server.js`). The relay brokers WebRTC negotiation between
browser peers. It keeps four in-memory maps:

- `rooms`: room id to its set of client ids.
- `clients`: client id to its socket.
- `clientRooms`: client id to the room it is tracked in, if any.
- `clientStates`: client id to `{connected, roomId}`.

Its handlers (`handleMessage`, `handleJoin`, `handleOffer`,
`handleAnswer`, `handleIceCandidate`, `handleLeave`,
`handleClientDisconnect`, and the connection registration) update those
maps and send JSON messages to room members.

Layout:

- `protocol.dfy` (module `Protocol`): inbound frames, the dispatcher's
  classification of a frame, and the outbound messages.
- `relay_spec.dfy` (module `RelaySpec`): the relay state as a value. Each
  handler is a pure transition on it. The invariant (`Valid`) says no room
  is empty or lists a member twice, a tracked room exists and holds its
  client, and `clientStates` mirrors `clientRooms`. Every handler keeps it.
- `relay_server.dfy` (module `RelayServer`): class `Server` with the four
  maps and an outbox as fields. Its methods mutate them in place the way
  the code does, with a loop per `room.forEach`. Each method is proved to
  produce exactly the transition of `RelaySpec`.
- `relay_properties.dfy` (module `RelayProperties`): what each handler
  changes, whom it sends to, when it drops a message, and the quirks of
  the code as written.
- `relay_trace.dfy` (module `RelayTrace`): a run of socket events from
  process start. Every reachable state keeps the invariant.
- `scenarios.dfy` (module `RelayScenarios`): three clients in one room.

Modelling choices:

- A room's member set is a sequence without duplicates in insertion
  order. A JavaScript `Set` iterates in that order, which fixes the order
  of sends and of the `room-info` client list.
- A socket is modelled only by whether its `readyState` is `OPEN`
  (`clients: map<ClientId, bool>`). `SocketClosed` is the ws library moving
  a socket out of `OPEN` before its close event runs.
- Every `client.send(...)` is appended to an outbox of (recipient,
  message) pairs.
- `uuidv4()` is a fresh-id precondition on `Connect`.
- `JSON.parse` is modelled by the frame shape: `Malformed` is a frame
  whose parse or field access threw (invalid JSON, or JSON `null`, whose
  `data.type` throws inside the same `try`). Fields `type`, `roomId` and
  `payload` are optional strings; the payload string is an opaque token
  for any JSON value. A field counts as present when it is
  JavaScript-truthy (present and not `""`), as in
  `roomId || clientRooms.get(clientId)`.

The code differs from the protocol the relay is usually described with.
The model follows the code:

- The relay assigns no host/participant role. `room-info` carries
  `roomId` and `clients`, with no role.
- Existing members are sent `user-joined` and `user-left`, each with only
  `clientId`, not `participant-joined` / `participant-left`.
- Forwarded messages carry `clientId` (the sender), not `fromUserId`.
- There is no targeted delivery. A `targetId` sent by a client is ignored.
  Offer, answer and ice-candidate always go to every other open member of
  the room.
- The candidate message type is `ice-candidate`.
- No handler checks that the sender is still registered. There is no
  `UnknownConnection` rejection.
- A client can end up in two rooms at once. See `MemberOfTwoRooms` and
  `StaleMemberAfterDisconnect`.
- An explicit `leave` for a room other than the tracked one still deletes
  the tracked entry. It also tells that room's members that the client
  left, even if the client was never a member there.

## Model

| member | source | states |
|---|---|---|
| Protocol.Classify | Netra-sfu/server.js:71-106 | A frame is dropped exactly when it did not parse, has no truthy `type`, is a `join` without a truthy `roomId`, or has an unknown type. Otherwise the command carries the frame's own type, room id and payload. |
| Protocol.ForwardKeepsType | Netra-sfu/server.js:91-99 | A forwarded message's outbound `type` is the inbound `type` that the dispatcher routed. |
| RelaySpec.Add | Netra-sfu/server.js:124 | `Set.add` keeps the earlier members in order, adds the new one, and never creates a duplicate. |
| RelaySpec.Remove | Netra-sfu/server.js:304 | `Set.delete` (and the `filter` for room-info) keeps exactly the other members, without duplicates. Removing an absent member changes nothing. |
| RelaySpec.RemoveConcat | Netra-sfu/server.js:149 | Removing a member keeps the others in their order: removal distributes over concatenation, drops the member itself and keeps any other single member. |
| RelaySpec.Resolve | Netra-sfu/server.js:161-171 | `roomId \|\| clientRooms.get(clientId)`: a truthy explicit room id wins. Otherwise the result is the tracked room when that is truthy, else none. |
| RelaySpec.FanoutReaches | Netra-sfu/server.js:188-202 | A `room.forEach` broadcast sends the message to exactly the members that are not skipped and have an open socket, and to nobody outside the room. |
| RelaySpec.FanoutOnce | Netra-sfu/server.js:188-202 | Over a duplicate-free member set, a broadcast sends to each recipient at most once. |
| RelaySpec.InitialValid | Netra-sfu/server.js:22-25 | The empty maps at process start satisfy the relay invariant. |
| RelaySpec.LeavePreservesValid | Netra-sfu/server.js:289-331 | handleLeave keeps the invariant, including deleting a room that becomes empty. |
| RelaySpec.EnterPreservesValid | Netra-sfu/server.js:118-156 | Admitting a client to a truthy room id keeps the invariant. |
| RelaySpec.JoinPreservesValid | Netra-sfu/server.js:108-157 | handleJoin, with its implicit leave of another tracked room, keeps the invariant. |
| RelaySpec.ForwardPreservesValid | Netra-sfu/server.js:159-287 | Forwarding an offer, answer or ice-candidate keeps the invariant. |
| RelaySpec.DisconnectPreservesValid | Netra-sfu/server.js:333-350 | handleClientDisconnect keeps the invariant. |
| RelaySpec.ConnectPreservesValid | Netra-sfu/server.js:41-45 | Registering a fresh client id keeps the invariant. |
| RelaySpec.SocketClosedPreservesValid | Netra-sfu/server.js:136 | A socket leaving the `OPEN` state keeps the invariant. |
| RelaySpec.HandleMessagePreservesValid | Netra-sfu/server.js:71-106 | Every dispatched frame keeps the invariant. |
| RelayServer.Server.constructor | Netra-sfu/server.js:22-25 | The four maps start empty, nothing is sent, and the invariant holds. |
| RelayServer.Server.Connect | Netra-sfu/server.js:41-45 | Registration stores an open socket and `{connected: true, roomId: null}` for a fresh id. The new state is exactly `RelaySpec.Connect`. |
| RelayServer.Server.SocketClosed | Netra-sfu/server.js:136 | Marks a registered socket as not open and changes nothing else. |
| RelayServer.Server.Broadcast | Netra-sfu/server.js:133-144 | The forEach loop appends one message per open member other than the skipped one, in member order, exactly as `Fanout` specifies. |
| RelayServer.Server.HandleMessage | Netra-sfu/server.js:50-106 | The parse guard and dispatch switch produce exactly `RelaySpec.HandleMessage` and keep the invariant. |
| RelayServer.Server.HandleJoin | Netra-sfu/server.js:108-157 | Leaves a different truthy tracked room first, then admits. The new state is exactly `RelaySpec.Join`, and the invariant is kept. |
| RelayServer.Server.Admit | Netra-sfu/server.js:118-156 | Creates the room if absent, adds and tracks the client, sends user-joined to the others, then room-info to an open joiner. The new state is exactly `RelaySpec.Enter`. |
| RelayServer.Server.ForwardSignal | Netra-sfu/server.js:159-202 | Resolves the room and drops the message if there is no room id, the room is missing, or the sender is not in it. Otherwise it broadcasts. The new state is exactly `RelaySpec.Forward`, and only the outbox can change. |
| RelayServer.Server.HandleOffer | Netra-sfu/server.js:159-203 | handleOffer is the shared forwarding with type `offer`. |
| RelayServer.Server.HandleAnswer | Netra-sfu/server.js:205-249 | handleAnswer is the shared forwarding with type `answer`. |
| RelayServer.Server.HandleIceCandidate | Netra-sfu/server.js:251-287 | handleIceCandidate is the shared forwarding with type `ice-candidate`. |
| RelayServer.Server.HandleLeave | Netra-sfu/server.js:289-331 | Produces exactly `RelaySpec.Leave`: remove the client, untrack it, notify the rest, delete the room if it is empty. The invariant is kept. |
| RelayServer.Server.HandleClientDisconnect | Netra-sfu/server.js:333-350 | Leaves the tracked room, then deletes the client from `clients`, `clientRooms` and `clientStates`. The new state is exactly `RelaySpec.Disconnect`. |
| RelayProperties.DroppedFrameChangesNothing | Netra-sfu/server.js:51-105 | An unparsable frame, a frame without a type, a join without a room id, or an unknown type changes no map and sends nothing. |
| RelayProperties.HandleMessageAppends | Netra-sfu/server.js:71-106 | Handling a message only appends to what was sent. |
| RelayProperties.JoinAppends | Netra-sfu/server.js:108-157 | A join only appends to what was sent. |
| RelayProperties.LeaveEffect | Netra-sfu/server.js:289-331 | With no resolvable room id, or a missing room, leave is a no-op. Otherwise: the client leaves the room and loses its tracked entry, the others keep theirs, and the room disappears exactly when nobody is left. No other room changes. Exactly the remaining open members get user-left. |
| RelayProperties.LeaveSendsOnlyUserLeft | Netra-sfu/server.js:310-319 | A leave sends only user-left for the leaver, and never to the leaver. |
| RelayProperties.LeaveLeavesNoEmptyRoom | Netra-sfu/server.js:321-325 | If no room was empty before a leave, none is empty after it. |
| RelayProperties.LeaveNotifiesOnce | Netra-sfu/server.js:311-319 | In a valid state, each remaining member is told of a leave at most once. |
| RelayProperties.EnterRooms | Netra-sfu/server.js:118-125 | Admission leaves the room holding its previous members plus the joiner, and changes no other room. |
| RelayProperties.EnterNotifies | Netra-sfu/server.js:133-156 | Admission sends user-joined to exactly the other open members. A room-info can only be at the last position, addressed to the open joiner, so there is at most one. |
| RelayProperties.EnterRoomInfo | Netra-sfu/server.js:146-156 | An open joiner's last message is room-info for the room, listing each other member exactly once. |
| RelayProperties.JoinAdmits | Netra-sfu/server.js:118-126 | After a join the room exists, holds the joiner, and is its tracked room. Earlier members keep their order. An absent room is created holding just the joiner. |
| RelayProperties.JoinLeavesPreviousRoom | Netra-sfu/server.js:112-116 | Joining another room removes the client from its tracked room. That room disappears exactly when the client was its only member. |
| RelayProperties.JoinNotifiesPreviousRoom | Netra-sfu/server.js:112-116 | The user-left messages of such a join go to exactly the remaining open members of the previous room. |
| RelayProperties.AdmissionSendsNoUserLeft | Netra-sfu/server.js:133-156 | The admission part of a join sends no user-left. |
| RelayProperties.JoinSentAfterLeave | Netra-sfu/server.js:112-156 | A join that leaves first sends the leave's user-left messages (none to the joiner), then the admission's messages. |
| RelayProperties.JoinNotifies | Netra-sfu/server.js:133-156 | Every other open member gets user-joined for the joiner, and nobody else does. The joiner receives only room-info. A room-info can only be at the last position of the join's sends and only when the joiner's socket is open. |
| RelayProperties.JoinSendsRoomInfo | Netra-sfu/server.js:146-156 | In a valid state, an open joiner gets room-info last. It lists exactly the room's other members, each once. |
| RelayProperties.JoinNewMember | Netra-sfu/server.js:118-156 | A first-time joiner is appended to an existing room. Earlier members get user-joined in joining order, and room-info lists them in that order. |
| RelayProperties.RemoveAppended | Netra-sfu/server.js:149 | Filtering out the joiner just appended gives back the earlier members. |
| RelayProperties.JoinCreatesRoom | Netra-sfu/server.js:118-156 | Joining an absent room creates it with just the joiner. The joiner gets room-info with an empty list and nothing else. |
| RelayProperties.ForwardEffect | Netra-sfu/server.js:159-202 | Forwarding changes none of the four maps. A message that does not resolve to a room the sender is in is dropped. Otherwise exactly the other open members get it, with the same type, the sender's id and the payload unchanged. |
| RelayProperties.ForwardOnce | Netra-sfu/server.js:188-202 | In a valid state, each member receives a forwarded message at most once. |
| RelayProperties.ForwardDrops | Netra-sfu/server.js:166-186 | Each drop condition on its own makes forwarding a no-op: no room id at all, an explicit room that is missing, or a room the sender is not in. |
| RelayProperties.DisconnectForgets | Netra-sfu/server.js:343-346 | Disconnect removes the client from `clients`, `clientRooms` and `clientStates`, and no other client's entries change. Without a tracked room it changes no room and sends nothing. |
| RelayProperties.DisconnectLeaves | Netra-sfu/server.js:336-341 | Disconnect leaves the tracked room as an explicit leave would. The remaining open members get user-left, and the room is deleted if it is empty. |
| RelayProperties.DisconnectTwiceIsOnce | Netra-sfu/server.js:60-68 | The close handler after the error handler runs a second disconnect, which changes nothing. |
| RelayProperties.LeaveAfterDisconnectIsNoOp | Netra-sfu/server.js:291-298 | An implicit leave after a disconnect is a no-op, because the tracked room is gone. |
| RelayProperties.ConnectRegisters | Netra-sfu/server.js:41-45 | Registration adds an open socket and an untracked state for the new id and touches nothing else. |
| RelayProperties.LeaveOfOtherRoomForgetsTrackedRoom | Netra-sfu/server.js:302-319 | A leave for room B while tracked in A deletes the tracked entry, though the client stays in A. B's open members are told it left. |
| RelayProperties.MemberOfTwoRooms | Netra-sfu/server.js:302-306 | Because of that, a leave of B followed by a join of B puts one client in two rooms. |
| RelayProperties.StaleMemberAfterDisconnect | Netra-sfu/server.js:336-346 | After that leave, a disconnect leaves the client a member of A with no socket and no tracked room. |
| RelayTrace.Step | Netra-sfu/server.js:41-69 | One socket event is handled to completion. Only a connection event with an id already in use has no outcome. |
| RelayTrace.StepPreservesValid | Netra-sfu/server.js:41-69 | Every handled event keeps the invariant and only appends to the outbox. |
| RelayTrace.DisconnectAppends | Netra-sfu/server.js:333-350 | A disconnect only appends to the outbox. |
| RelayTrace.RunPreservesValid | Netra-sfu/server.js:41-69 | Any run of events from a valid state ends in a valid state and never takes back a sent message. |
| RelayTrace.ReachableRoomsNeverEmpty | Netra-sfu/server.js:321-325 | In every state reachable from process start, no room is empty or lists a member twice, and a tracked room exists and holds its client. |
| RelayScenarios.ThirdJoin | Netra-sfu/server.js:133-156 | With a and b in a room, c joins. a and b get user-joined for c, and c gets room-info listing a then b. No message carries a role. |
| RelayScenarios.OfferIsBroadcast | Netra-sfu/server.js:188-202 | An offer from a reaches both b and c. There is no targeted delivery. |
| RelayScenarios.DisconnectNotifiesRest | Netra-sfu/server.js:333-346 | When b disconnects, a and c each get user-left for b, and the room keeps a then c. |

## Left out

- Express, the HTTP server, CORS, the `/health` endpoint and `listen`
  (server.js:1-19, 363-366): transport plumbing with no relay state.
- `logCurrentState` and the 30-second status interval (server.js:28-38,
  353-361): logging only; they change nothing.
- `uuidv4`: a foreign call. It is a fresh-id precondition on `Connect`.
- `JSON.parse` / `JSON.stringify`: frames and messages are datatypes.
  The payload is forwarded without being looked at (server.js:193-197),
  so it is any JSON value, represented by an opaque token; the WebRTC
  descriptions and candidates the pages send are covered by that. A
  `type` that is not a string matches no `case` and is dropped like an
  unknown type string, so it is covered by `Classify`. What is not
  modelled is a truthy room id that is not a string (a number, an
  object): in the code it keys its own `Map` entry.
- Sockets and sends: only the `OPEN` flag and the order of sends are
  modelled. Delivery, buffering and send errors are not.
- Concurrency: Node runs each handler to completion, so each handler is
  one atomic method or transition.
- The `clientStates.connected` flag is always `true` in the code. It is
  kept as written and never read.
- The React pages, the backend service and the frontend configuration
  are not part of this model: they are UI, database and authentication
  code outside the relay.
