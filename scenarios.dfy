/** Small runs of the relay over three distinct clients `a`, `b`, `c` in
    one room: the third joiner learns the other two in joining order, an
    offer reaches everybody else in the room, and a disconnect notifies
    the rest. */
module RelayScenarios {
  import opened Protocol
  import opened RelaySpec
  import RelayProperties

  predicate Distinct(a: ClientId, b: ClientId, c: ClientId) {
    a != b && b != c && a != c
  }

  /** A broadcast over two open members, neither of them skipped. */
  lemma FanoutToTwo(a: ClientId, b: ClientId, skip: Option<ClientId>, clients: map<ClientId, bool>, msg: Outbound)
    requires skip != Some(a) && skip != Some(b) && Open(clients, a) && Open(clients, b)
    ensures Fanout([a, b], skip, clients, msg) == [Send(a, msg), Send(b, msg)]
  {
    var ab: seq<ClientId> := [a, b];
    var one: seq<ClientId> := [a];
    assert ab[..1] == one && one[..0] == [];
    assert Fanout(one, skip, clients, msg) == [Send(a, msg)];
  }

  /** With `a` and `b` in the room, `c` joins: `a` and `b` get user-joined
      for `c` and `c` gets room-info listing `a` then `b`. No message
      carries a role. */
  lemma ThirdJoin(st: State, a: ClientId, b: ClientId, c: ClientId, r: RoomId)
    requires Distinct(a, b, c)
    requires r in st.rooms && st.rooms[r] == [a, b] && Tracked(st, c) == None
    requires Open(st.clients, a) && Open(st.clients, b) && Open(st.clients, c)
    ensures Join(st, c, r).rooms[r] == [a, b, c]
    ensures Join(st, c, r).outbox ==
      st.outbox + [Send(a, UserJoined(c)), Send(b, UserJoined(c)), Send(c, RoomInfo(r, [a, b]))]
  {
    RelayProperties.JoinNewMember(st, c, r);
    FanoutToTwo(a, b, Some(c), st.clients, UserJoined(c));
  }

  /** With `a`, `b` and `c` in the room, an offer from `a` reaches both `b`
      and `c`: the relay broadcasts and has no targeted delivery. */
  lemma OfferIsBroadcast(st: State, a: ClientId, b: ClientId, c: ClientId, r: RoomId, sdp: Payload)
    requires Distinct(a, b, c) && r != ""
    requires r in st.rooms && st.rooms[r] == [a, b, c]
    requires Open(st.clients, b) && Open(st.clients, c)
    ensures Forward(st, a, Offer, Some(r), Some(sdp)).outbox ==
      st.outbox + [Send(b, Signal(Offer, a, Some(sdp))), Send(c, Signal(Offer, a, Some(sdp)))]
  {
    var abc: seq<ClientId> := [a, b, c];
    var ab: seq<ClientId> := [a, b];
    var one: seq<ClientId> := [a];
    var m := Signal(Offer, a, Some(sdp));
    assert Accepts(st, a, Some(r));
    assert abc[..2] == ab && ab[..1] == one && one[..0] == [];
    assert Fanout(one, Some(a), st.clients, m) == [];
    assert Fanout(ab, Some(a), st.clients, m) == [Send(b, m)];
  }

  /** With `a`, `b` and `c` in the room, `b` disconnects: `a` and `c` each
      get user-left for `b`, and the room keeps `a` and `c` in order. */
  lemma DisconnectNotifiesRest(st: State, a: ClientId, b: ClientId, c: ClientId, r: RoomId)
    requires Distinct(a, b, c) && r != ""
    requires r in st.rooms && st.rooms[r] == [a, b, c] && Tracked(st, b) == Some(r)
    requires Open(st.clients, a) && Open(st.clients, c)
    ensures Disconnect(st, b).rooms[r] == [a, c]
    ensures Disconnect(st, b).outbox == st.outbox + [Send(a, UserLeft(b)), Send(c, UserLeft(b))]
  {
    var abc: seq<ClientId> := [a, b, c];
    var bc: seq<ClientId> := [b, c];
    var last: seq<ClientId> := [c];
    assert abc[1..] == bc && bc[1..] == last;
    assert Remove(bc, b) == last;
    assert Remove(abc, b) == [a, c];
    FanoutToTwo(a, c, None, st.clients, UserLeft(b));
  }
}
