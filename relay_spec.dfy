/** The relay's in-memory bookkeeping as a value, and each handler of
    Netra-sfu/server.js as a pure transition on that value. The class in
    RelayServer is proved to follow these functions step for step; the
    properties of the relay are proved here, about the functions. */
module RelaySpec {
  import opened Protocol

  /** The per-client record kept in `clientStates`. */
  datatype ClientState = ClientState(connected: bool, roomId: Option<RoomId>)

  /** The four module-level maps of the relay, plus everything sent so far.
      A room's member set is a sequence without duplicates, in insertion
      order, because a JavaScript Set iterates in that order. A socket is
      represented by whether its readyState is OPEN. */
  datatype State = State(
    rooms: map<RoomId, seq<ClientId>>,
    clients: map<ClientId, bool>,
    clientRooms: map<ClientId, RoomId>,
    clientStates: map<ClientId, ClientState>,
    outbox: seq<Send>)

  /** The state at process start: all four maps empty, nothing sent. */
  function Initial(): State {
    State(map[], map[], map[], map[], [])
  }

  // ---------------------------------------------------------------------
  // Small vocabulary

  /** `client && client.readyState === WebSocket.OPEN` for `clients.get(id)`. */
  predicate Open(clients: map<ClientId, bool>, id: ClientId) {
    id in clients && clients[id]
  }

  /** `clientRooms.get(c)`. */
  function Tracked(st: State, c: ClientId): Option<RoomId> {
    if c in st.clientRooms then Some(st.clientRooms[c]) else None
  }

  predicate NoDup(s: seq<ClientId>) {
    forall i, j :: 0 <= i < j < |s| ==> s[i] != s[j]
  }

  /** No client receives two messages from one broadcast. */
  predicate NoRepeats(sends: seq<Send>) {
    forall i, j :: 0 <= i < j < |sends| ==> sends[i].to != sends[j].to
  }

  /** Two maps agree on every key other than `c`. */
  ghost predicate SameExcept<V>(m: map<ClientId, V>, m': map<ClientId, V>, c: ClientId) {
    forall x :: x != c ==> (x in m <==> x in m') && (x in m ==> m[x] == m'[x])
  }

  /** `Set.add`: a member already present keeps its place. */
  function Add(s: seq<ClientId>, x: ClientId): (r: seq<ClientId>)
    ensures forall y :: y in r <==> y in s || y == x
    ensures s <= r
    ensures NoDup(s) ==> NoDup(r)
  {
    if x in s then s else s + [x]
  }

  /** `Set.delete`, and equally `Array.from(room).filter(id => id !== x)`:
      the members other than `x`, in their order. */
  function Remove(s: seq<ClientId>, x: ClientId): (r: seq<ClientId>)
    ensures forall y :: y in r <==> y in s && y != x
    ensures NoDup(s) ==> NoDup(r)
    ensures x !in s ==> r == s
  {
    if s == [] then []
    else if s[0] == x then Remove(s[1..], x)
    else
      var rest := Remove(s[1..], x);
      assert NoDup(s) ==> s[0] !in s[1..];
      [s[0]] + rest
  }

  /** Removing a member keeps the order of the others: deleting from a
      concatenation deletes from each part, so together with the one-member
      cases the result is the input with `x` filtered out, in order. */
  lemma {:induction false} RemoveConcat(s: seq<ClientId>, t: seq<ClientId>, x: ClientId)
    ensures Remove(s + t, x) == Remove(s, x) + Remove(t, x)
    ensures Remove([x], x) == [] && forall y :: y != x ==> Remove([y], x) == [y]
  {
    assert [x][1..] == [];
    if s == [] {
      assert s + t == t;
    } else {
      assert (s + t)[1..] == s[1..] + t;
      RemoveConcat(s[1..], t, x);
    }
  }

  /** The messages sent after a handler ran, given that it only appends. */
  function Sent(before: State, after: State): seq<Send>
    requires |before.outbox| <= |after.outbox|
  {
    after.outbox[|before.outbox|..]
  }

  // ---------------------------------------------------------------------
  // Broadcast: the `room.forEach` loops

  /** Whether member `id` is sent to: it is not the excluded sender and
      its socket is open. */
  predicate Delivers(id: ClientId, skip: Option<ClientId>, clients: map<ClientId, bool>) {
    skip != Some(id) && Open(clients, id)
  }

  /** The sends of `members.forEach(...)`, in iteration order, defined by
      the last member so that it follows a loop's progress. */
  function Fanout(members: seq<ClientId>, skip: Option<ClientId>, clients: map<ClientId, bool>, msg: Outbound): seq<Send>
  {
    if members == [] then []
    else
      var last := members[|members| - 1];
      Fanout(members[..|members| - 1], skip, clients, msg)
        + (if Delivers(last, skip, clients) then [Send(last, msg)] else [])
  }

  /** A broadcast reaches exactly the members it delivers to, each with
      the broadcast message, and nobody outside the members. */
  lemma {:induction false} FanoutReaches(members: seq<ClientId>, skip: Option<ClientId>, clients: map<ClientId, bool>, msg: Outbound)
    ensures forall s :: s in Fanout(members, skip, clients, msg) <==>
      s.to in members && Delivers(s.to, skip, clients) && s.msg == msg
  {
    if members != [] {
      var init := members[..|members| - 1];
      FanoutReaches(init, skip, clients, msg);
      assert members == init + [members[|members| - 1]];
    }
  }

  /** Over a member set without duplicates, nobody is sent to twice. */
  lemma {:induction false} FanoutOnce(members: seq<ClientId>, skip: Option<ClientId>, clients: map<ClientId, bool>, msg: Outbound)
    requires NoDup(members)
    ensures NoRepeats(Fanout(members, skip, clients, msg))
  {
    if members != [] {
      var init := members[..|members| - 1];
      var last := members[|members| - 1];
      assert NoDup(init);
      FanoutOnce(init, skip, clients, msg);
      FanoutReaches(init, skip, clients, msg);
      assert last !in init;
    }
  }

  // ---------------------------------------------------------------------
  // The handlers

  /** `roomId || clientRooms.get(clientId)`, then `if (!actualRoomId)`:
      the explicit room id when truthy, else the tracked room when truthy. */
  function Resolve(st: State, c: ClientId, roomId: Option<string>): (r: Option<RoomId>)
    ensures r.Some? ==> r.value != ""
    ensures Truthy(roomId) ==> r == roomId
    ensures !Truthy(roomId) ==> (r.Some? <==> Truthy(Tracked(st, c)))
    ensures !Truthy(roomId) && r.Some? ==> r == Tracked(st, c)
  {
    if Truthy(roomId) then roomId
    else if Truthy(Tracked(st, c)) then Tracked(st, c)
    else None
  }

  /** handleLeave (server.js:289-331). */
  function Leave(st: State, c: ClientId, roomId: Option<string>): State {
    match Resolve(st, c, roomId)
    case None => st
    case Some(r) =>
      if r !in st.rooms then st
      else
        var rest := Remove(st.rooms[r], c);
        st.(rooms := if rest == [] then st.rooms - {r} else st.rooms[r := rest],
            clientRooms := st.clientRooms - {c},
            clientStates := st.clientStates[c := ClientState(true, None)],
            outbox := st.outbox + Fanout(rest, None, st.clients, UserLeft(c)))
  }

  /** Leave of a room that exists, field by field: the rest of the room
      replaces it and, when empty, is then deleted. */
  lemma LeaveFields(st: State, c: ClientId, roomId: Option<string>, r: RoomId, rest: seq<ClientId>,
                    rooms: map<RoomId, seq<ClientId>>, outbox: seq<Send>)
    requires Resolve(st, c, roomId) == Some(r) && r in st.rooms
    requires rest == Remove(st.rooms[r], c)
    requires rooms == if |rest| == 0 then st.rooms[r := rest] - {r} else st.rooms[r := rest]
    requires outbox == st.outbox + Fanout(rest, None, st.clients, UserLeft(c))
    ensures Leave(st, c, roomId) == State(rooms, st.clients, st.clientRooms - {c},
                                          st.clientStates[c := ClientState(true, None)], outbox)
  {
    assert |rest| == 0 ==> rooms == st.rooms - {r};
  }

  /** The part of handleJoin after the implicit leave (server.js:118-156):
      create the room if absent, add the client, track it, notify the
      other members, then send room-info to the joiner. */
  function Enter(st: State, c: ClientId, r: RoomId): State {
    var room := Add(if r in st.rooms then st.rooms[r] else [], c);
    var info := if Open(st.clients, c) then [Send(c, RoomInfo(r, Remove(room, c)))] else [];
    st.(rooms := st.rooms[r := room],
        clientRooms := st.clientRooms[c := r],
        clientStates := st.clientStates[c := ClientState(true, Some(r))],
        outbox := st.outbox + Fanout(room, Some(c), st.clients, UserJoined(c)) + info)
  }

  /** Enter, field by field: the room with `c` added replaces the old
      one, user-joined goes out before room-info. */
  lemma EnterFields(st: State, c: ClientId, r: RoomId, room: seq<ClientId>,
                    rooms: map<RoomId, seq<ClientId>>, notified: seq<Send>, outbox: seq<Send>)
    requires room == Add(if r in st.rooms then st.rooms[r] else [], c)
    requires rooms == st.rooms[r := room]
    requires notified == st.outbox + Fanout(room, Some(c), st.clients, UserJoined(c))
    requires outbox == notified + if Open(st.clients, c) then [Send(c, RoomInfo(r, Remove(room, c)))] else []
    ensures Enter(st, c, r) == State(rooms, st.clients, st.clientRooms[c := r],
                                     st.clientStates[c := ClientState(true, Some(r))], outbox)
  {
  }

  /** handleJoin (server.js:108-157): leave a different tracked room first. */
  function Join(st: State, c: ClientId, r: RoomId): State {
    var existing := Tracked(st, c);
    var st1 := if Truthy(existing) && existing.value != r then Leave(st, c, existing) else st;
    Enter(st1, c, r)
  }

  /** The guards that handleOffer, handleAnswer and handleIceCandidate
      share: a room id resolves, the room exists, the sender is in it. */
  predicate Accepts(st: State, c: ClientId, roomId: Option<string>) {
    var r := Resolve(st, c, roomId);
    r.Some? && r.value in st.rooms && c in st.rooms[r.value]
  }

  /** handleOffer, handleAnswer and handleIceCandidate (server.js:159-287):
      broadcast to the other members, or drop. */
  function Forward(st: State, c: ClientId, kind: SignalKind, roomId: Option<string>, payload: Option<Payload>): State {
    if !Accepts(st, c, roomId) then st
    else
      var r := Resolve(st, c, roomId).value;
      st.(outbox := st.outbox + Fanout(st.rooms[r], Some(c), st.clients, Signal(kind, c, payload)))
  }

  /** handleClientDisconnect (server.js:333-350). */
  function Disconnect(st: State, c: ClientId): State {
    var t := Tracked(st, c);
    var st1 := if Truthy(t) then Leave(st, c, t) else st;
    st1.(clients := st1.clients - {c},
         clientRooms := st1.clientRooms - {c},
         clientStates := st1.clientStates - {c})
  }

  /** A uuid the relay has never handed out: it appears nowhere. */
  predicate Fresh(st: State, c: ClientId) {
    && c !in st.clients && c !in st.clientRooms && c !in st.clientStates
    && forall r :: r in st.rooms ==> c !in st.rooms[r]
  }

  /** The connection handler's registration (server.js:41-45). */
  function Connect(st: State, c: ClientId): State
    requires Fresh(st, c)
  {
    st.(clients := st.clients[c := true],
        clientStates := st.clientStates[c := ClientState(true, None)])
  }

  /** Not a handler of the relay: the ws library moving a socket out of
      the OPEN state (closing, or closed before its close event ran). */
  function SocketClosed(st: State, c: ClientId): State {
    if c in st.clients then st.(clients := st.clients[c := false]) else st
  }

  /** handleMessage (server.js:71-106) behind the parse in the message
      listener (server.js:50-58). */
  function HandleMessage(st: State, c: ClientId, f: Frame): State {
    match Classify(f)
    case None => st
    case Some(JoinCmd(r)) => Join(st, c, r)
    case Some(SignalCmd(kind, roomId, payload)) => Forward(st, c, kind, roomId, payload)
    case Some(LeaveCmd(roomId)) => Leave(st, c, roomId)
  }

  // ---------------------------------------------------------------------
  // The invariant the handlers keep

  /** No room is empty and no room lists a member twice. */
  predicate RoomsWellFormed(st: State) {
    forall r :: r in st.rooms ==> st.rooms[r] != [] && NoDup(st.rooms[r])
  }

  /** A tracked room id is truthy, the room exists and has the client
      as a member. */
  predicate TrackedIsMember(st: State) {
    forall c :: c in st.clientRooms ==>
      && st.clientRooms[c] != ""
      && st.clientRooms[c] in st.rooms
      && c in st.rooms[st.clientRooms[c]]
  }

  /** `clientStates` mirrors `clientRooms`. */
  predicate StatesAgree(st: State) {
    && (forall c :: c in st.clientRooms ==> c in st.clientStates)
    && (forall c :: c in st.clientStates ==> st.clientStates[c] == ClientState(true, Tracked(st, c)))
  }

  predicate Valid(st: State) {
    RoomsWellFormed(st) && TrackedIsMember(st) && StatesAgree(st)
  }

  lemma InitialValid()
    ensures Valid(Initial())
  {
  }

  lemma LeavePreservesValid(st: State, c: ClientId, roomId: Option<string>)
    requires Valid(st)
    ensures Valid(Leave(st, c, roomId))
  {
    var r := Resolve(st, c, roomId);
    if r.Some? && r.value in st.rooms {
      var st' := Leave(st, c, roomId);
      var rest := Remove(st.rooms[r.value], c);
      forall d | d in st'.clientRooms
        ensures st'.clientRooms[d] in st'.rooms && d in st'.rooms[st'.clientRooms[d]]
      {
        assert d != c && st'.clientRooms[d] == st.clientRooms[d];
        if st.clientRooms[d] == r.value {
          assert d in rest;
        }
      }
    }
  }

  /** handleJoin is reached only once the dispatcher has checked that the
      room id is truthy. */
  lemma EnterPreservesValid(st: State, c: ClientId, r: RoomId)
    requires Valid(st) && r != ""
    ensures Valid(Enter(st, c, r))
  {
    EnterKeepsRoomsWellFormed(st, c, r);
    EnterKeepsTrackedIsMember(st, c, r);
    EnterKeepsStatesAgree(st, c, r);
  }

  lemma EnterKeepsStatesAgree(st: State, c: ClientId, r: RoomId)
    requires StatesAgree(st)
    ensures StatesAgree(Enter(st, c, r))
  {
    var st' := Enter(st, c, r);
    assert st'.clientRooms == st.clientRooms[c := r];
    assert st'.clientStates == st.clientStates[c := ClientState(true, Some(r))];
  }

  lemma EnterKeepsRoomsWellFormed(st: State, c: ClientId, r: RoomId)
    requires RoomsWellFormed(st)
    ensures RoomsWellFormed(Enter(st, c, r))
  {
    var room := Add(if r in st.rooms then st.rooms[r] else [], c);
    assert Enter(st, c, r).rooms == st.rooms[r := room];
    assert c in room;
  }

  lemma EnterKeepsTrackedIsMember(st: State, c: ClientId, r: RoomId)
    requires TrackedIsMember(st) && r != ""
    ensures TrackedIsMember(Enter(st, c, r))
  {
    var room := Add(if r in st.rooms then st.rooms[r] else [], c);
    var st' := Enter(st, c, r);
    assert st'.rooms == st.rooms[r := room];
    assert st'.clientRooms == st.clientRooms[c := r];
    forall d | d in st'.clientRooms
      ensures st'.clientRooms[d] in st'.rooms && d in st'.rooms[st'.clientRooms[d]]
    {
      if d != c && st.clientRooms[d] == r {
        assert d in room;
      }
    }
  }

  lemma JoinPreservesValid(st: State, c: ClientId, r: RoomId)
    requires Valid(st) && r != ""
    ensures Valid(Join(st, c, r))
  {
    var existing := Tracked(st, c);
    if Truthy(existing) && existing.value != r {
      LeavePreservesValid(st, c, existing);
      EnterPreservesValid(Leave(st, c, existing), c, r);
    } else {
      EnterPreservesValid(st, c, r);
    }
  }

  lemma ForwardPreservesValid(st: State, c: ClientId, kind: SignalKind, roomId: Option<string>, payload: Option<Payload>)
    requires Valid(st)
    ensures Valid(Forward(st, c, kind, roomId, payload))
  {
  }

  lemma DisconnectPreservesValid(st: State, c: ClientId)
    requires Valid(st)
    ensures Valid(Disconnect(st, c))
  {
    var t := Tracked(st, c);
    if Truthy(t) {
      LeavePreservesValid(st, c, t);
    }
  }

  lemma ConnectPreservesValid(st: State, c: ClientId)
    requires Valid(st) && Fresh(st, c)
    ensures Valid(Connect(st, c))
  {
  }

  lemma SocketClosedPreservesValid(st: State, c: ClientId)
    requires Valid(st)
    ensures Valid(SocketClosed(st, c))
  {
  }

  lemma HandleMessagePreservesValid(st: State, c: ClientId, f: Frame)
    requires Valid(st)
    ensures Valid(HandleMessage(st, c, f))
  {
    match Classify(f)
    case None =>
    case Some(JoinCmd(r)) => JoinPreservesValid(st, c, r);
    case Some(SignalCmd(kind, roomId, payload)) => ForwardPreservesValid(st, c, kind, roomId, payload);
    case Some(LeaveCmd(roomId)) => LeavePreservesValid(st, c, roomId);
  }
}
