/** The relay as the ws library drives it: a stream of socket events, each
    handled to completion before the next. Every state reached from process
    start keeps the relay's invariant, and the outbox only ever grows. */
module RelayTrace {
  import opened Protocol
  import opened RelaySpec
  import RelayProperties

  /** The events the connection handler subscribes to (server.js:41-69),
      plus a socket leaving the OPEN state before its close event runs. */
  datatype Event =
    | Connection(id: ClientId)
    | Message(id: ClientId, frame: Frame)
    | Close(id: ClientId)
    | Error(id: ClientId)
    | SocketClosing(id: ClientId)

  /** One event handled to completion. A connection event for an id that is
      already in use is `None`: uuidv4 does not repeat, so such a run does
      not happen. */
  function Step(st: State, e: Event): (r: Option<State>)
    ensures r.None? <==> e.Connection? && !Fresh(st, e.id)
  {
    match e
    case Connection(c) => if Fresh(st, c) then Some(Connect(st, c)) else None
    case Message(c, f) => Some(HandleMessage(st, c, f))
    case Close(c) => Some(Disconnect(st, c))
    case Error(c) => Some(Disconnect(st, c))
    case SocketClosing(c) => Some(SocketClosed(st, c))
  }

  /** The events handled one after the other, from `st`. */
  function Run(st: State, events: seq<Event>): Option<State>
    decreases |events|
  {
    if events == [] then Some(st)
    else
      match Step(st, events[0])
      case None => None
      case Some(st1) => Run(st1, events[1..])
  }

  /** One handled event keeps the invariant and only appends to the
      outbox. */
  lemma StepPreservesValid(st: State, e: Event)
    requires Valid(st) && Step(st, e).Some?
    ensures Valid(Step(st, e).value)
    ensures st.outbox <= Step(st, e).value.outbox
  {
    match e
    case Connection(c) => ConnectPreservesValid(st, c);
    case Message(c, f) =>
      HandleMessagePreservesValid(st, c, f);
      RelayProperties.HandleMessageAppends(st, c, f);
    case Close(c) =>
      DisconnectPreservesValid(st, c);
      DisconnectAppends(st, c);
    case Error(c) =>
      DisconnectPreservesValid(st, c);
      DisconnectAppends(st, c);
    case SocketClosing(c) => SocketClosedPreservesValid(st, c);
  }

  lemma DisconnectAppends(st: State, c: ClientId)
    ensures st.outbox <= Disconnect(st, c).outbox
  {
    var t := Tracked(st, c);
    if Truthy(t) {
      assert Disconnect(st, c).outbox == Leave(st, c, t).outbox;
    }
  }

  /** Every run from a valid state ends in a valid state and never takes
      back a message that was sent. */
  lemma {:induction false} RunPreservesValid(st: State, events: seq<Event>)
    requires Valid(st) && Run(st, events).Some?
    ensures Valid(Run(st, events).value)
    ensures st.outbox <= Run(st, events).value.outbox
    decreases |events|
  {
    if events != [] {
      var st1 := Step(st, events[0]).value;
      StepPreservesValid(st, events[0]);
      RunPreservesValid(st1, events[1..]);
    }
  }

  /** From process start, whatever the clients send and whenever their
      sockets close: no room is ever empty, no room lists a member twice,
      and a tracked room always exists and holds its client. */
  lemma ReachableRoomsNeverEmpty(events: seq<Event>)
    requires Run(Initial(), events).Some?
    ensures var st := Run(Initial(), events).value;
      && (forall r :: r in st.rooms ==> st.rooms[r] != [] && NoDup(st.rooms[r]))
      && (forall c :: c in st.clientRooms ==> st.clientRooms[c] in st.rooms && c in st.rooms[st.clientRooms[c]])
  {
    InitialValid();
    RunPreservesValid(Initial(), events);
  }
}
