/** What the relay's handlers guarantee, proved about the transition
    functions of RelaySpec: what each handler changes, who it sends to, when
    it drops a message, and the quirks of the code as written. */
module RelayProperties {
  import opened Protocol
  import opened RelaySpec

  // ---------------------------------------------------------------------
  // Dispatch

  /** A frame the dispatcher rejects (unparsable, no type, join without a
      room id, unknown type) changes nothing and sends nothing. */
  lemma DroppedFrameChangesNothing(st: State, c: ClientId, f: Frame)
    requires Dropped(f)
    ensures HandleMessage(st, c, f) == st
  {
  }

  /** Every handler only appends to what has been sent. */
  lemma HandleMessageAppends(st: State, c: ClientId, f: Frame)
    ensures st.outbox <= HandleMessage(st, c, f).outbox
  {
    match Classify(f)
    case None =>
    case Some(JoinCmd(r)) => JoinAppends(st, c, r);
    case Some(SignalCmd(kind, roomId, payload)) =>
    case Some(LeaveCmd(roomId)) =>
  }

  lemma JoinAppends(st: State, c: ClientId, r: RoomId)
    ensures st.outbox <= Join(st, c, r).outbox
  {
    var existing := Tracked(st, c);
    if Truthy(existing) && existing.value != r {
      assert st.outbox <= Leave(st, c, existing).outbox;
    }
  }

  // ---------------------------------------------------------------------
  // Leave

  /** handleLeave: without a resolvable room id, or for a room that does
      not exist, nothing happens. Otherwise the client leaves the room and
      loses its tracked room, exactly the remaining open members are told,
      the room disappears exactly when nobody is left, and no other room
      changes. */
  lemma LeaveEffect(st: State, c: ClientId, roomId: Option<string>)
    ensures var st' := Leave(st, c, roomId);
      && st.outbox <= st'.outbox
      && st'.clients == st.clients
      && (Resolve(st, c, roomId).None? ==> st' == st)
      && (Resolve(st, c, roomId).Some? && Resolve(st, c, roomId).value !in st.rooms ==> st' == st)
    ensures var st' := Leave(st, c, roomId);
      var r := Resolve(st, c, roomId);
      r.Some? && r.value in st.rooms ==>
        && c !in st'.clientRooms
        && SameExcept(st.clientRooms, st'.clientRooms, c)
        && st'.clientStates == st.clientStates[c := ClientState(true, None)]
        && (r.value in st'.rooms ==> forall y :: y in st'.rooms[r.value] <==> y in st.rooms[r.value] && y != c)
        && (r.value !in st'.rooms <==> forall y :: y in st.rooms[r.value] ==> y == c)
        && (forall q :: q != r.value ==> (q in st'.rooms <==> q in st.rooms) && (q in st.rooms ==> st'.rooms[q] == st.rooms[q]))
        && (forall s :: s in Sent(st, st') <==>
              s.to in st.rooms[r.value] && s.to != c && Open(st.clients, s.to) && s.msg == UserLeft(c))
  {
    var r := Resolve(st, c, roomId);
    if r.Some? && r.value in st.rooms {
      var rest := Remove(st.rooms[r.value], c);
      assert rest != [] ==> rest[0] in rest;
      FanoutReaches(rest, None, st.clients, UserLeft(c));
      var st' := Leave(st, c, roomId);
      assert Sent(st, st') == Fanout(rest, None, st.clients, UserLeft(c));
    }
  }

  /** A leave sends only user-left for the leaver, never to the leaver,
      and leaves the sockets alone. */
  lemma LeaveSendsOnlyUserLeft(st: State, c: ClientId, roomId: Option<string>)
    ensures var st' := Leave(st, c, roomId);
      && st.outbox <= st'.outbox
      && st'.clients == st.clients
      && forall s :: s in Sent(st, st') ==> s.msg == UserLeft(c) && s.to != c
  {
    LeaveEffect(st, c, roomId);
  }

  /** No empty room survives a leave. */
  lemma LeaveLeavesNoEmptyRoom(st: State, c: ClientId, roomId: Option<string>)
    requires forall q :: q in st.rooms ==> st.rooms[q] != []
    ensures var st' := Leave(st, c, roomId);
      forall q :: q in st'.rooms ==> st'.rooms[q] != []
  {
  }

  /** Over a well-formed state a client told of a leave is told once. */
  lemma LeaveNotifiesOnce(st: State, c: ClientId, roomId: Option<string>)
    requires Valid(st)
    ensures st.outbox <= Leave(st, c, roomId).outbox
    ensures NoRepeats(Sent(st, Leave(st, c, roomId)))
  {
    var r := Resolve(st, c, roomId);
    if r.Some? && r.value in st.rooms {
      var rest := Remove(st.rooms[r.value], c);
      FanoutOnce(rest, None, st.clients, UserLeft(c));
      assert Sent(st, Leave(st, c, roomId)) == Fanout(rest, None, st.clients, UserLeft(c));
    }
  }

  // ---------------------------------------------------------------------
  // Join

  /** What is sent over two steps is what the first sent, then what the
      second sent. */
  lemma SentSplit(a: State, b: State, c: State)
    requires a.outbox <= b.outbox <= c.outbox
    ensures Sent(a, c) == Sent(a, b) + Sent(b, c)
  {
  }

  /** The admission part of handleJoin: the room holds its previous
      members plus `c`, no other room changes, and nothing is unsent. */
  lemma EnterRooms(st: State, c: ClientId, r: RoomId)
    ensures var st' := Enter(st, c, r);
      && st.outbox <= st'.outbox
      && st'.clients == st.clients
      && r in st'.rooms
      && (forall x :: x in st'.rooms[r] <==> x == c || (r in st.rooms && x in st.rooms[r]))
      && (forall q :: q != r ==> (q in st'.rooms <==> q in st.rooms) && (q in st.rooms ==> st'.rooms[q] == st.rooms[q]))
  {
  }

  /** The sends of the admission part: user-joined to exactly the other
      open members, and room-info, if any, as the last message. */
  lemma EnterNotifies(st: State, c: ClientId, r: RoomId)
    ensures st.outbox <= Enter(st, c, r).outbox
    ensures var st' := Enter(st, c, r);
      var sent := Sent(st, st');
      && (forall s :: s in sent ==> s.msg.UserJoined? || s.msg.RoomInfo?)
      && (forall s :: s in sent && s.msg.UserJoined? <==>
            s.to in st'.rooms[r] && s.to != c && Open(st.clients, s.to) && s.msg == UserJoined(c))
      && (forall i :: 0 <= i < |sent| && sent[i].msg.RoomInfo? ==>
            i == |sent| - 1 && sent[i].to == c && Open(st.clients, c))
  {
    var room := Add(if r in st.rooms then st.rooms[r] else [], c);
    var notes := Fanout(room, Some(c), st.clients, UserJoined(c));
    var info := if Open(st.clients, c) then [Send(c, RoomInfo(r, Remove(room, c)))] else [];
    var st' := Enter(st, c, r);
    assert st'.outbox == st.outbox + notes + info && st'.rooms[r] == room;
    assert Sent(st, st') == notes + info;
    FanoutReaches(room, Some(c), st.clients, UserJoined(c));
    NotesThenInfo(Sent(st, st'), notes, info, room, c, st.clients);
  }

  /** User-joined notes followed by at most one room-info for the joiner. */
  lemma NotesThenInfo(sent: seq<Send>, notes: seq<Send>, info: seq<Send>, room: seq<ClientId>,
                      c: ClientId, clients: map<ClientId, bool>)
    requires sent == notes + info
    requires forall s :: s in notes <==> s.to in room && Delivers(s.to, Some(c), clients) && s.msg == UserJoined(c)
    requires info == [] || (Open(clients, c) && |info| == 1 && info[0].to == c && info[0].msg.RoomInfo?)
    ensures forall s :: s in sent ==> s.msg.UserJoined? || s.msg.RoomInfo?
    ensures forall s :: s in sent && s.msg.UserJoined? <==>
      s.to in room && s.to != c && Open(clients, s.to) && s.msg == UserJoined(c)
    ensures forall i :: 0 <= i < |sent| && sent[i].msg.RoomInfo? ==>
      i == |sent| - 1 && sent[i].to == c && Open(clients, c)
  {
  }

  /** The last send is room-info for room `r` to `c`, listing each of
      `members` other than `c` exactly once. */
  ghost predicate EndsWithRoomInfo(outbox: seq<Send>, c: ClientId, r: RoomId, members: seq<ClientId>) {
    && |outbox| > 0
    && outbox[|outbox| - 1].to == c
    && outbox[|outbox| - 1].msg.RoomInfo?
    && outbox[|outbox| - 1].msg.roomId == r
    && NoDup(outbox[|outbox| - 1].msg.clients)
    && (forall y :: y in outbox[|outbox| - 1].msg.clients <==> y in members && y != c)
  }

  /** The joiner, when its socket is open, gets room-info last, listing
      exactly the other members of the room, each once. */
  lemma EnterRoomInfo(st: State, c: ClientId, r: RoomId)
    requires r in st.rooms ==> NoDup(st.rooms[r])
    requires Open(st.clients, c)
    ensures st.outbox < Enter(st, c, r).outbox
    ensures EndsWithRoomInfo(Enter(st, c, r).outbox, c, r, Enter(st, c, r).rooms[r])
  {
    var base := if r in st.rooms then st.rooms[r] else [];
    assert NoDup(base);
  }

  /** After handleJoin(c, r) the room exists, has `c`, and is c's tracked
      room. Its members are the previous ones, in their previous order,
      plus `c`; a room that did not exist is created holding just `c`. */
  lemma JoinAdmits(st: State, c: ClientId, r: RoomId)
    ensures var st' := Join(st, c, r);
      && r in st'.rooms && c in st'.rooms[r]
      && st'.clientRooms[c] == r
      && st'.clientStates[c] == ClientState(true, Some(r))
      && (forall x :: x in st'.rooms[r] <==> x == c || (r in st.rooms && x in st.rooms[r]))
      && (r in st.rooms ==> st.rooms[r] <= st'.rooms[r])
      && (r !in st.rooms ==> st'.rooms[r] == [c])
  {
    var existing := Tracked(st, c);
    if Truthy(existing) && existing.value != r {
      LeaveEffect(st, c, existing);
    }
  }

  /** Joining a room other than the tracked one first leaves the tracked
      one: `c` is no longer in it, and it disappears exactly when `c` was
      its only member. */
  lemma JoinLeavesPreviousRoom(st: State, c: ClientId, r: RoomId, p: RoomId)
    requires Valid(st)
    requires Tracked(st, c) == Some(p) && p != r
    ensures var st' := Join(st, c, r);
      && (p in st'.rooms ==> forall y :: y in st'.rooms[p] <==> y in st.rooms[p] && y != c)
      && (p !in st'.rooms <==> forall y :: y in st.rooms[p] ==> y == c)
  {
    var st1 := Leave(st, c, Some(p));
    assert p != "" && p in st.rooms;
    assert Resolve(st, c, Some(p)) == Some(p);
    LeaveEffect(st, c, Some(p));
    assert Join(st, c, r) == Enter(st1, c, r);
    EnterRooms(st1, c, r);
  }

  /** That implicit leave notifies exactly the remaining open members of
      the previous room with user-left; the admission sends none. */
  lemma JoinNotifiesPreviousRoom(st: State, c: ClientId, r: RoomId, p: RoomId)
    requires Valid(st)
    requires Tracked(st, c) == Some(p) && p != r
    ensures st.outbox <= Join(st, c, r).outbox
    ensures forall s :: s in Sent(st, Join(st, c, r)) && s.msg.UserLeft? <==>
      s.to in st.rooms[p] && s.to != c && Open(st.clients, s.to) && s.msg == UserLeft(c)
  {
    assert Resolve(st, c, Some(p)) == Some(p) && p in st.rooms;
    JoinSentAfterLeave(st, c, r);
    LeaveEffect(st, c, Some(p));
    AdmissionSendsNoUserLeft(st, c, r);
    OnlyLeaveSendsUserLeft(Sent(st, Join(st, c, r)), Sent(st, Leave(st, c, Some(p))),
                           Sent(Leave(st, c, Some(p)), Join(st, c, r)), st.rooms[p], c, st.clients);
  }

  /** The admission part of a join that left a room sends no user-left. */
  lemma AdmissionSendsNoUserLeft(st: State, c: ClientId, r: RoomId)
    requires Truthy(Tracked(st, c)) && Tracked(st, c).value != r
    ensures var st1 := Leave(st, c, Tracked(st, c));
      && st1.outbox <= Join(st, c, r).outbox
      && forall s :: s in Sent(st1, Join(st, c, r)) ==> !s.msg.UserLeft?
  {
    var st1 := Leave(st, c, Tracked(st, c));
    assert Join(st, c, r) == Enter(st1, c, r);
    EnterNotifies(st1, c, r);
  }

  /** The user-left messages of a leave followed by sends that carry none
      are those of the leave. */
  lemma OnlyLeaveSendsUserLeft(all: seq<Send>, left: seq<Send>, rest: seq<Send>,
                               members: seq<ClientId>, c: ClientId, clients: map<ClientId, bool>)
    requires all == left + rest
    requires forall s :: s in left <==>
      s.to in members && s.to != c && Open(clients, s.to) && s.msg == UserLeft(c)
    requires forall s :: s in rest ==> !s.msg.UserLeft?
    ensures forall s :: s in all && s.msg.UserLeft? <==>
      s.to in members && s.to != c && Open(clients, s.to) && s.msg == UserLeft(c)
  {
  }

  /** The sends of a join whose implicit leave ran are those of the leave
      followed by those of the admission. */
  lemma JoinSentAfterLeave(st: State, c: ClientId, r: RoomId)
    requires Truthy(Tracked(st, c)) && Tracked(st, c).value != r
    ensures var st1 := Leave(st, c, Tracked(st, c));
      var st' := Join(st, c, r);
      && st.outbox <= st1.outbox <= st'.outbox
      && st1.clients == st.clients
      && st'.rooms == Enter(st1, c, r).rooms
      && Sent(st, st') == Sent(st, st1) + Sent(st1, st')
      && (forall s :: s in Sent(st, st1) ==> s.msg == UserLeft(c) && s.to != c)
  {
    var st1 := Leave(st, c, Tracked(st, c));
    LeaveSendsOnlyUserLeft(st, c, Tracked(st, c));
    EnterRooms(st1, c, r);
    assert Join(st, c, r) == Enter(st1, c, r);
    SentSplit(st, st1, Join(st, c, r));
  }

  /** The notifications of a join: every other member with an open socket
      gets user-joined for `c` and nobody else does; the joiner itself
      gets nothing but room-info, which, if sent, is the last message and
      is sent only to an open joiner. */
  lemma JoinNotifies(st: State, c: ClientId, r: RoomId)
    ensures st.outbox <= Join(st, c, r).outbox
    ensures var st' := Join(st, c, r);
      var sent := Sent(st, st');
      && (forall s :: s in sent && s.msg.UserJoined? <==>
            s.to in st'.rooms[r] && s.to != c && Open(st.clients, s.to) && s.msg == UserJoined(c))
      && (forall s :: s in sent && s.to == c ==> s.msg.RoomInfo?)
      && (forall i :: 0 <= i < |sent| && sent[i].msg.RoomInfo? ==>
            i == |sent| - 1 && sent[i].to == c && Open(st.clients, c))
  {
    var existing := Tracked(st, c);
    if Truthy(existing) && existing.value != r {
      var st1 := Leave(st, c, existing);
      var st' := Join(st, c, r);
      JoinSentAfterLeave(st, c, r);
      assert st' == Enter(st1, c, r);
      EnterNotifies(st1, c, r);
      LeaveThenAdmission(Sent(st, st'), Sent(st, st1), Sent(st1, st'), st'.rooms[r], c, st.clients);
    } else {
      EnterNotifies(st, c, r);
    }
  }

  /** The sends of a leave (user-left, none to the joiner) followed by the
      sends of an admission keep the admission's guarantees: user-joined to
      exactly the other open members, nothing but room-info to the joiner,
      and room-info only in the last position. */
  lemma LeaveThenAdmission(all: seq<Send>, left: seq<Send>, post: seq<Send>, room: seq<ClientId>,
                           c: ClientId, clients: map<ClientId, bool>)
    requires all == left + post
    requires forall s :: s in left ==> s.msg == UserLeft(c) && s.to != c
    requires forall s :: s in post ==> s.msg.UserJoined? || s.msg.RoomInfo?
    requires forall s :: s in post && s.msg.UserJoined? <==>
      s.to in room && s.to != c && Open(clients, s.to) && s.msg == UserJoined(c)
    requires forall i :: 0 <= i < |post| && post[i].msg.RoomInfo? ==>
      i == |post| - 1 && post[i].to == c && Open(clients, c)
    ensures forall s :: s in all && s.msg.UserJoined? <==>
      s.to in room && s.to != c && Open(clients, s.to) && s.msg == UserJoined(c)
    ensures forall s :: s in all && s.to == c ==> s.msg.RoomInfo?
    ensures forall i :: 0 <= i < |all| && all[i].msg.RoomInfo? ==>
      i == |all| - 1 && all[i].to == c && Open(clients, c)
  {
    RoomInfoStaysLast(all, left, post, c, clients);
  }

  /** Sends that carry no room-info, followed by sends whose only
      room-info is the last one, end with that room-info. */
  lemma RoomInfoStaysLast(all: seq<Send>, left: seq<Send>, post: seq<Send>, c: ClientId, clients: map<ClientId, bool>)
    requires all == left + post
    requires forall s :: s in left ==> s.msg == UserLeft(c)
    requires forall i :: 0 <= i < |post| && post[i].msg.RoomInfo? ==>
      i == |post| - 1 && post[i].to == c && Open(clients, c)
    ensures forall i :: 0 <= i < |all| && all[i].msg.RoomInfo? ==>
      i == |all| - 1 && all[i].to == c && Open(clients, c)
  {
    forall i | 0 <= i < |all| && all[i].msg.RoomInfo?
      ensures i == |all| - 1 && all[i].to == c && Open(clients, c)
    {
      if i >= |left| {
        assert all[i] == post[i - |left|];
      }
    }
  }

  /** A joiner with an open socket gets room-info for the room as the last
      message of the join, listing exactly the other members, each once. */
  lemma JoinSendsRoomInfo(st: State, c: ClientId, r: RoomId)
    requires Valid(st)
    requires Open(st.clients, c)
    ensures st.outbox < Join(st, c, r).outbox
    ensures EndsWithRoomInfo(Join(st, c, r).outbox, c, r, Join(st, c, r).rooms[r])
  {
    var existing := Tracked(st, c);
    var st1 := if Truthy(existing) && existing.value != r then Leave(st, c, existing) else st;
    assert Join(st, c, r) == Enter(st1, c, r);
    assert RoomsWellFormed(st1) && st1.clients == st.clients && st.outbox <= st1.outbox by {
      if Truthy(existing) && existing.value != r {
        LeavePreservesValid(st, c, existing);
        LeaveSendsOnlyUserLeft(st, c, existing);
      }
    }
    EnterRoomInfo(st1, c, r);
  }

  /** A first-time joiner of an existing room is appended to it, the
      members before it get user-joined in their joining order, and its
      room-info lists exactly those members in that order. */
  lemma JoinNewMember(st: State, c: ClientId, r: RoomId)
    requires Tracked(st, c) == None && r in st.rooms && c !in st.rooms[r] && Open(st.clients, c)
    ensures Join(st, c, r).rooms == st.rooms[r := st.rooms[r] + [c]]
    ensures Join(st, c, r).outbox ==
      st.outbox + Fanout(st.rooms[r], Some(c), st.clients, UserJoined(c)) + [Send(c, RoomInfo(r, st.rooms[r]))]
  {
    var before := st.rooms[r];
    var room := before + [c];
    var notified := st.outbox + Fanout(before, Some(c), st.clients, UserJoined(c));
    assert Join(st, c, r) == Enter(st, c, r);
    assert Add(before, c) == room;
    assert Fanout(room, Some(c), st.clients, UserJoined(c)) == Fanout(before, Some(c), st.clients, UserJoined(c)) by {
      assert room[..|room| - 1] == before;
    }
    RemoveAppended(before, c);
    EnterFields(st, c, r, room, st.rooms[r := room], notified, notified + [Send(c, RoomInfo(r, before))]);
  }

  /** Deleting one appended element that was not there before undoes the
      append. */
  lemma {:induction false} RemoveAppended(s: seq<ClientId>, x: ClientId)
    requires x !in s
    ensures Remove(s + [x], x) == s
  {
    if s == [] {
      assert [x][1..] == [];
    } else {
      assert (s + [x])[1..] == s[1..] + [x];
      RemoveAppended(s[1..], x);
    }
  }

  /** A join from a client with no tracked room into a room that does not
      exist creates the room holding just the client and sends it
      room-info with an empty list, and nothing else. */
  lemma JoinCreatesRoom(st: State, c: ClientId, r: RoomId)
    requires Tracked(st, c) == None && r !in st.rooms && Open(st.clients, c)
    ensures Join(st, c, r).rooms == st.rooms[r := [c]]
    ensures Join(st, c, r).outbox == st.outbox + [Send(c, RoomInfo(r, []))]
  {
    var room := [c];
    assert Join(st, c, r) == Enter(st, c, r);
    assert Add([], c) == room;
    assert st.outbox + Fanout(room, Some(c), st.clients, UserJoined(c)) == st.outbox by {
      assert room[..0] == [];
    }
    assert Remove(room, c) == [] by {
      assert room[1..] == [];
    }
    EnterFields(st, c, r, room, st.rooms[r := room], st.outbox, st.outbox + [Send(c, RoomInfo(r, []))]);
  }

  // ---------------------------------------------------------------------
  // Offer, answer, ice-candidate

  /** Forwarding never changes the four maps. A message that does not
      resolve to a room the sender is in is dropped; otherwise it reaches
      exactly the other members with an open socket, with the same type,
      the sender's id and the payload unchanged, so the sender never
      receives its own message. */
  lemma ForwardEffect(st: State, c: ClientId, kind: SignalKind, roomId: Option<string>, payload: Option<Payload>)
    ensures var st' := Forward(st, c, kind, roomId, payload);
      && st'.rooms == st.rooms
      && st'.clients == st.clients
      && st'.clientRooms == st.clientRooms
      && st'.clientStates == st.clientStates
      && st.outbox <= st'.outbox
      && (!Accepts(st, c, roomId) ==> st' == st)
    ensures var st' := Forward(st, c, kind, roomId, payload);
      Accepts(st, c, roomId) ==>
        forall s :: s in Sent(st, st') <==>
          && s.to in st.rooms[Resolve(st, c, roomId).value]
          && s.to != c
          && Open(st.clients, s.to)
          && s.msg == Signal(kind, c, payload)
  {
    if Accepts(st, c, roomId) {
      var r := Resolve(st, c, roomId).value;
      FanoutReaches(st.rooms[r], Some(c), st.clients, Signal(kind, c, payload));
      assert Sent(st, Forward(st, c, kind, roomId, payload)) == Fanout(st.rooms[r], Some(c), st.clients, Signal(kind, c, payload));
    }
  }

  /** The forwarded message arrives at most once per member. */
  lemma ForwardOnce(st: State, c: ClientId, kind: SignalKind, roomId: Option<string>, payload: Option<Payload>)
    requires Valid(st)
    ensures st.outbox <= Forward(st, c, kind, roomId, payload).outbox
    ensures NoRepeats(Sent(st, Forward(st, c, kind, roomId, payload)))
  {
    if Accepts(st, c, roomId) {
      var r := Resolve(st, c, roomId).value;
      FanoutOnce(st.rooms[r], Some(c), st.clients, Signal(kind, c, payload));
      assert Sent(st, Forward(st, c, kind, roomId, payload)) == Fanout(st.rooms[r], Some(c), st.clients, Signal(kind, c, payload));
    }
  }

  /** The three drop conditions of the forwarders, each on its own. */
  lemma ForwardDrops(st: State, c: ClientId, kind: SignalKind, roomId: Option<string>, payload: Option<Payload>)
    requires || (!Truthy(roomId) && !Truthy(Tracked(st, c)))
             || (Truthy(roomId) && roomId.value !in st.rooms)
             || (Truthy(roomId) && roomId.value in st.rooms && c !in st.rooms[roomId.value])
    ensures Forward(st, c, kind, roomId, payload) == st
  {
  }

  // ---------------------------------------------------------------------
  // Disconnect

  /** handleClientDisconnect forgets the client: it is gone from clients,
      clientRooms and clientStates while every other client's entries stay
      as they were. Without a tracked room no room changes and nothing is
      sent. */
  lemma DisconnectForgets(st: State, c: ClientId)
    ensures var st' := Disconnect(st, c);
      && c !in st'.clients && c !in st'.clientRooms && c !in st'.clientStates
      && SameExcept(st.clients, st'.clients, c)
      && SameExcept(st.clientRooms, st'.clientRooms, c)
      && SameExcept(st.clientStates, st'.clientStates, c)
      && st.outbox <= st'.outbox
      && (c !in st.clientRooms ==> st'.rooms == st.rooms && st'.outbox == st.outbox)
  {
    var t := Tracked(st, c);
    if Truthy(t) {
      LeaveEffect(st, c, t);
    }
  }

  /** Before forgetting the client, handleClientDisconnect leaves its
      tracked room as an explicit leave would: the room loses the client,
      disappears when the client was its only member, no other room
      changes, and exactly its remaining open members get user-left. */
  lemma DisconnectLeaves(st: State, c: ClientId)
    requires Valid(st)
    requires c in st.clientRooms
    ensures st.outbox <= Disconnect(st, c).outbox
    ensures var st' := Disconnect(st, c);
      var r := st.clientRooms[c];
      && (r in st'.rooms ==> forall y :: y in st'.rooms[r] <==> y in st.rooms[r] && y != c)
      && (r !in st'.rooms <==> forall y :: y in st.rooms[r] ==> y == c)
      && (forall q :: q != r ==> (q in st'.rooms <==> q in st.rooms) && (q in st.rooms ==> st'.rooms[q] == st.rooms[q]))
      && (forall s :: s in Sent(st, st') <==>
            s.to in st.rooms[r] && s.to != c && Open(st.clients, s.to) && s.msg == UserLeft(c))
  {
    var r := st.clientRooms[c];
    assert Resolve(st, c, Tracked(st, c)) == Some(r) && r in st.rooms;
    var st1 := Leave(st, c, Tracked(st, c));
    assert Disconnect(st, c).rooms == st1.rooms && Disconnect(st, c).outbox == st1.outbox;
    LeaveEffect(st, c, Tracked(st, c));
  }

  /** The close event after an error event runs a second disconnect; it
      changes nothing. */
  lemma DisconnectTwiceIsOnce(st: State, c: ClientId)
    ensures Disconnect(Disconnect(st, c), c) == Disconnect(st, c)
  {
  }

  /** An implicit leave after a disconnect is a no-op: the tracked room is
      gone. */
  lemma LeaveAfterDisconnectIsNoOp(st: State, c: ClientId)
    ensures Leave(Disconnect(st, c), c, None) == Disconnect(st, c)
  {
  }

  // ---------------------------------------------------------------------
  // Connect

  /** Registration opens the client's socket entry and an untracked state,
      and touches nothing else. */
  lemma ConnectRegisters(st: State, c: ClientId)
    requires Fresh(st, c)
    ensures var st' := Connect(st, c);
      && Open(st'.clients, c)
      && st'.clientStates[c] == ClientState(true, None)
      && Tracked(st', c) == None
      && SameExcept(st.clients, st'.clients, c)
      && SameExcept(st.clientStates, st'.clientStates, c)
      && st'.rooms == st.rooms && st'.clientRooms == st.clientRooms && st'.outbox == st.outbox
  {
  }

  // ---------------------------------------------------------------------
  // Quirks of the code as written

  /** An explicit leave for a room `b` other than the tracked room `a`
      forgets the tracking of `a` although `c` stays a member of `a`, and
      tells b's open members that `c` left a room it was never in. */
  lemma LeaveOfOtherRoomForgetsTrackedRoom(st: State, c: ClientId, a: RoomId, b: RoomId)
    requires Valid(st)
    requires Tracked(st, c) == Some(a) && b != a && b != ""
    requires b in st.rooms && c !in st.rooms[b]
    ensures var st' := Leave(st, c, Some(b));
      && c !in st'.clientRooms
      && a in st'.rooms && c in st'.rooms[a]
      && b in st'.rooms && st'.rooms[b] == st.rooms[b]
      && st.outbox <= st'.outbox
      && forall y :: y in st.rooms[b] && Open(st.clients, y) ==> Send(y, UserLeft(c)) in Sent(st, st')
  {
    LeaveEffect(st, c, Some(b));
  }

  /** Because of that, one client can be a member of two rooms at once:
      leave `b` while tracked in `a`, then join `b`. */
  lemma MemberOfTwoRooms(st: State, c: ClientId, a: RoomId, b: RoomId)
    requires Valid(st)
    requires Tracked(st, c) == Some(a) && b != a && b != ""
    requires b in st.rooms && c !in st.rooms[b]
    ensures var st' := Join(Leave(st, c, Some(b)), c, b);
      a in st'.rooms && c in st'.rooms[a] && b in st'.rooms && c in st'.rooms[b]
  {
    LeaveOfOtherRoomForgetsTrackedRoom(st, c, a, b);
  }

  /** And a client that disconnects after such a leave stays a member of
      its old room with no socket and no tracked room. */
  lemma StaleMemberAfterDisconnect(st: State, c: ClientId, a: RoomId, b: RoomId)
    requires Valid(st)
    requires Tracked(st, c) == Some(a) && b != a && b != ""
    requires b in st.rooms && c !in st.rooms[b]
    ensures var st' := Disconnect(Leave(st, c, Some(b)), c);
      && c !in st'.clients && c !in st'.clientRooms && c !in st'.clientStates
      && a in st'.rooms && c in st'.rooms[a]
  {
    LeaveOfOtherRoomForgetsTrackedRoom(st, c, a, b);
  }
}
