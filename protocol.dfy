/** The wire protocol of the Netra signalling relay: the inbound frames a
    client sends, how the dispatcher classifies them, and the outbound
    messages the relay writes to sockets. JSON encoding is not modelled;
    a frame that JSON.parse rejects is the `Malformed` frame. */
module Protocol {

  datatype Option<T> = None | Some(value: T)

  /** Connection ids are the uuid strings the relay assigns; room ids are
      whatever string a client chose. */
  type ClientId = string
  type RoomId = string
  /** A negotiation payload is opaque to the relay: it is forwarded as is,
      and may be missing. A string token stands for whatever JSON value
      (typically an SDP description or ICE candidate object) it carries. */
  type Payload = string

  /** JavaScript truthiness of an optional string field: present and not
      the empty string. */
  predicate Truthy(field: Option<string>) {
    field.Some? && field.value != ""
  }

  /** The destructured fields `type`, `roomId` and `payload` of a parsed
      frame; a missing field is `None`. */
  datatype Inbound = Inbound(kind: Option<string>, roomId: Option<string>, payload: Option<Payload>)

  /** A text frame as received: either it parsed, or JSON.parse threw. */
  datatype Frame = Malformed | Parsed(msg: Inbound)

  /** The three negotiation messages the relay forwards. */
  datatype SignalKind = Offer | Answer | IceCandidate {
    /** The `type` string used on the wire, both inbound and outbound. */
    function Name(): string {
      match this
      case Offer => "offer"
      case Answer => "answer"
      case IceCandidate => "ice-candidate"
    }
  }

  /** What the dispatcher hands to a handler. */
  datatype Command =
    | JoinCmd(room: RoomId)
    | SignalCmd(kind: SignalKind, roomId: Option<string>, payload: Option<Payload>)
    | LeaveCmd(roomId: Option<string>)

  /** The `type` strings the dispatcher's switch recognises. */
  predicate KnownType(t: string) {
    t == "join" || t == "offer" || t == "answer" || t == "ice-candidate" || t == "leave"
  }

  /** The dispatcher drops a frame, with no reply and no state change,
      when it did not parse, has no (truthy) type, is a join without a
      (truthy) room id, or has a type it does not know. */
  predicate Dropped(f: Frame) {
    || f.Malformed?
    || !Truthy(f.msg.kind)
    || (f.msg.kind.value == "join" && !Truthy(f.msg.roomId))
    || !KnownType(f.msg.kind.value)
  }

  /** The dispatch of a frame to a handler: the parse error is caught, a
      missing type returns early, `join` needs a room id, and the switch
      routes the five known types. */
  function Classify(f: Frame): (cmd: Option<Command>)
    ensures cmd.None? <==> Dropped(f)
    ensures cmd.Some? && cmd.value.JoinCmd? ==>
      f.msg.kind == Some("join") && f.msg.roomId == Some(cmd.value.room) && cmd.value.room != ""
    ensures cmd.Some? && cmd.value.SignalCmd? ==>
      && f.msg.kind == Some(cmd.value.kind.Name())
      && cmd.value.roomId == f.msg.roomId
      && cmd.value.payload == f.msg.payload
    ensures cmd.Some? && cmd.value.LeaveCmd? ==>
      f.msg.kind == Some("leave") && cmd.value.roomId == f.msg.roomId
  {
    match f
    case Malformed => None
    case Parsed(m) =>
      if !Truthy(m.kind) then None
      else if m.kind.value == "join" then
        if !Truthy(m.roomId) then None else Some(JoinCmd(m.roomId.value))
      else if m.kind.value == "offer" then Some(SignalCmd(Offer, m.roomId, m.payload))
      else if m.kind.value == "answer" then Some(SignalCmd(Answer, m.roomId, m.payload))
      else if m.kind.value == "ice-candidate" then Some(SignalCmd(IceCandidate, m.roomId, m.payload))
      else if m.kind.value == "leave" then Some(LeaveCmd(m.roomId))
      else None
  }

  /** The messages the relay sends. `room-info` carries no role and
      `user-joined` / `user-left` carry only the client id; forwarded
      negotiation messages carry the sender's id and the payload. */
  datatype Outbound =
    | UserJoined(joiner: ClientId)
    | RoomInfo(roomId: RoomId, clients: seq<ClientId>)
    | Signal(kind: SignalKind, sender: ClientId, payload: Option<Payload>)
    | UserLeft(leaver: ClientId)
  {
    /** The `type` string of the serialised message. */
    function TypeName(): string {
      match this
      case UserJoined(_) => "user-joined"
      case RoomInfo(_, _) => "room-info"
      case Signal(k, _, _) => k.Name()
      case UserLeft(_) => "user-left"
    }
  }

  /** One `client.send(...)`: the recipient and the message. */
  datatype Send = Send(to: ClientId, msg: Outbound)

  /** A forwarded negotiation message keeps the inbound `type`: the
      dispatcher and the forwarder agree on the wire names. */
  lemma ForwardKeepsType(f: Frame, sender: ClientId)
    requires Classify(f).Some? && Classify(f).value.SignalCmd?
    ensures Signal(Classify(f).value.kind, sender, f.msg.payload).TypeName() == f.msg.kind.value
  {
  }
}
