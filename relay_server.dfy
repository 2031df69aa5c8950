/** The relay of Netra-sfu/server.js as the code runs it: the handlers
    mutate the module-level maps in place and send one message per room
    member from a `room.forEach` loop. Each handler runs to completion
    before the next event is handled, so each is one method here, and each
    is proved to produce exactly the transition of RelaySpec. */
module RelayServer {
  import opened Protocol
  import opened RelaySpec

  class Server {
    /** room id -> member ids, in insertion order */
    var rooms: map<RoomId, seq<ClientId>>
    /** client id -> whether its socket's readyState is OPEN */
    var clients: map<ClientId, bool>
    /** client id -> the room it last joined */
    var clientRooms: map<ClientId, RoomId>
    /** client id -> { connected, roomId } */
    var clientStates: map<ClientId, ClientState>
    /** every `client.send(...)` so far, in order */
    var outbox: seq<Send>

    /** The fields as a RelaySpec state. */
    ghost function Model(): State
      reads this
    {
      State(rooms, clients, clientRooms, clientStates, outbox)
    }

    ghost predicate Valid()
      reads this
    {
      RelaySpec.Valid(Model())
    }

    /** The maps as the module creates them (server.js:22-25). */
    constructor ()
      ensures Model() == Initial() && Valid()
    {
      rooms, clients, clientRooms, clientStates, outbox := map[], map[], map[], map[], [];
    }

    /** The connection handler (server.js:41-45); `c` is the uuid it drew. */
    method Connect(c: ClientId)
      requires Valid() && Fresh(Model(), c)
      modifies this
      ensures Model() == RelaySpec.Connect(old(Model()), c) && Valid()
    {
      ConnectPreservesValid(Model(), c);
      clients := clients[c := true];
      clientStates := clientStates[c := ClientState(true, None)];
    }

    /** The ws library taking a socket out of the OPEN state. */
    method SocketClosed(c: ClientId)
      requires Valid()
      modifies this`clients
      ensures Model() == RelaySpec.SocketClosed(old(Model()), c) && Valid()
    {
      SocketClosedPreservesValid(Model(), c);
      if c in clients {
        clients := clients[c := false];
      }
    }

    /** `members.forEach(id => ...)`: send `msg` to each member that is not
        `skip` and whose socket is open. */
    method Broadcast(members: seq<ClientId>, skip: Option<ClientId>, msg: Outbound)
      modifies this`outbox
      ensures outbox == old(outbox) + Fanout(members, skip, clients, msg)
    {
      var open := clients;
      for i := 0 to |members|
        invariant outbox == old(outbox) + Fanout(members[..i], skip, open, msg)
      {
        var id := members[i];
        assert members[..i + 1][..i] == members[..i];
        if skip != Some(id) && id in open && open[id] {
          outbox := outbox + [Send(id, msg)];
        }
      }
      assert members[..|members|] == members;
    }

    /** The message listener and handleMessage (server.js:50-58, 71-106). */
    method HandleMessage(c: ClientId, f: Frame)
      requires Valid()
      modifies this
      ensures Model() == RelaySpec.HandleMessage(old(Model()), c, f) && Valid()
    {
      if f.Malformed? {
        return;
      }
      var m := f.msg;
      if !Truthy(m.kind) {
        return;
      }
      var t := m.kind.value;
      if t == "join" {
        if !Truthy(m.roomId) {
          return;
        }
        HandleJoin(c, m.roomId.value);
      } else if t == "offer" {
        HandleOffer(c, m.roomId, m.payload);
      } else if t == "answer" {
        HandleAnswer(c, m.roomId, m.payload);
      } else if t == "ice-candidate" {
        HandleIceCandidate(c, m.roomId, m.payload);
      } else if t == "leave" {
        HandleLeave(c, m.roomId);
      }
    }

    /** handleJoin (server.js:108-157). */
    method HandleJoin(c: ClientId, r: RoomId)
      requires Valid() && r != ""
      modifies this
      ensures Model() == Join(old(Model()), c, r) && Valid()
    {
      ghost var before := Model();
      JoinPreservesValid(before, c, r);
      if c in clientRooms && clientRooms[c] != "" && clientRooms[c] != r {
        HandleLeave(c, Some(clientRooms[c]));
      }
      assert Model() == if Truthy(Tracked(before, c)) && Tracked(before, c).value != r
                        then Leave(before, c, Tracked(before, c)) else before;
      Admit(c, r);
    }

    /** The rest of handleJoin, once any other tracked room is left
        (server.js:118-156): create the room if absent, add and track the
        client, notify the other members, send room-info to the joiner. */
    method Admit(c: ClientId, r: RoomId)
      modifies this
      ensures Model() == Enter(old(Model()), c, r)
    {
      ghost var st := Model();
      if r !in rooms {
        rooms := rooms[r := []];
      }
      var room := Add(rooms[r], c);
      rooms := rooms[r := room];
      assert rooms == st.rooms[r := room];
      clientRooms := clientRooms[c := r];
      clientStates := clientStates[c := ClientState(true, Some(r))];
      Broadcast(room, Some(c), UserJoined(c));
      ghost var notified := outbox;
      if c in clients && clients[c] {
        var existingClients := Remove(room, c);
        outbox := outbox + [Send(c, RoomInfo(r, existingClients))];
      }
      EnterFields(st, c, r, room, rooms, notified, outbox);
    }

    /** The body shared by handleOffer, handleAnswer and handleIceCandidate
        (server.js:159-287): resolve the room, check it exists and has the
        sender, then forward to the other members. */
    method ForwardSignal(c: ClientId, kind: SignalKind, roomId: Option<string>, payload: Option<Payload>)
      requires Valid()
      modifies this`outbox
      ensures Model() == Forward(old(Model()), c, kind, roomId, payload) && Valid()
    {
      ForwardPreservesValid(Model(), c, kind, roomId, payload);
      var actualRoomId := if Truthy(roomId) then roomId
                          else if c in clientRooms then Some(clientRooms[c])
                          else None;
      if !Truthy(actualRoomId) {
        return;
      }
      var r := actualRoomId.value;
      if r !in rooms {
        return;
      }
      var room := rooms[r];
      if c !in room {
        return;
      }
      Broadcast(room, Some(c), Signal(kind, c, payload));
    }

    /** handleOffer (server.js:159-203). */
    method HandleOffer(c: ClientId, roomId: Option<string>, payload: Option<Payload>)
      requires Valid()
      modifies this`outbox
      ensures Model() == Forward(old(Model()), c, Offer, roomId, payload) && Valid()
    {
      ForwardSignal(c, Offer, roomId, payload);
    }

    /** handleAnswer (server.js:205-249). */
    method HandleAnswer(c: ClientId, roomId: Option<string>, payload: Option<Payload>)
      requires Valid()
      modifies this`outbox
      ensures Model() == Forward(old(Model()), c, Answer, roomId, payload) && Valid()
    {
      ForwardSignal(c, Answer, roomId, payload);
    }

    /** handleIceCandidate (server.js:251-287). */
    method HandleIceCandidate(c: ClientId, roomId: Option<string>, payload: Option<Payload>)
      requires Valid()
      modifies this`outbox
      ensures Model() == Forward(old(Model()), c, IceCandidate, roomId, payload) && Valid()
    {
      ForwardSignal(c, IceCandidate, roomId, payload);
    }

    /** handleLeave (server.js:289-331). */
    method HandleLeave(c: ClientId, roomId: Option<string>)
      requires Valid()
      modifies this
      ensures Model() == Leave(old(Model()), c, roomId) && Valid()
    {
      LeavePreservesValid(Model(), c, roomId);
      var actualRoomId := if Truthy(roomId) then roomId
                          else if c in clientRooms then Some(clientRooms[c])
                          else None;
      if !Truthy(actualRoomId) {
        return;
      }
      var r := actualRoomId.value;
      if r in rooms {
        ghost var st := Model();
        var room := Remove(rooms[r], c);
        rooms := rooms[r := room];
        clientRooms := clientRooms - {c};
        clientStates := clientStates[c := ClientState(true, None)];
        Broadcast(room, None, UserLeft(c));
        if |room| == 0 {
          rooms := rooms - {r};
        }
        LeaveFields(st, c, roomId, r, room, rooms, outbox);
      }
    }

    /** handleClientDisconnect (server.js:333-350), run on close and on error. */
    method HandleClientDisconnect(c: ClientId)
      requires Valid()
      modifies this
      ensures Model() == Disconnect(old(Model()), c) && Valid()
    {
      DisconnectPreservesValid(Model(), c);
      if c in clientRooms && clientRooms[c] != "" {
        HandleLeave(c, Some(clientRooms[c]));
      }
      clients := clients - {c};
      clientRooms := clientRooms - {c};
      clientStates := clientStates - {c};
    }
  }
}
