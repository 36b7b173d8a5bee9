/** The server's session state machine, as functions on values. */
module ServerSession {
  import opened Bytes
  import opened Wire
  import opened Control
  import opened Packets
  import opened Leases

  datatype State = AwaitingHello | Established | Closing | Closed

  datatype Failure =
    | UnexpectedMessage
    | InvalidSequence
    | InvalidControlPayload
    | LeaseUnavailable
    | InvalidIpv4Packet
    | SourceAddressMismatch
    | InvalidIpv6Packet

  function CodeOf(e: Failure): u16 {
    match e
    case UnexpectedMessage => 1
    case InvalidSequence => 2
    case InvalidControlPayload => 3
    case LeaseUnavailable => 4
    case InvalidIpv4Packet => 5
    case SourceAddressMismatch => 6
    case InvalidIpv6Packet => 7
  }

  datatype Session = Session(
    identity: string,
    state: State,
    lease: Option<Lease>,
    mtu: u16,
    expected: u64,
    outbound: u64)

  /** Frames for the peer, packets for the TUN device, and whether to close once the frames are written. */
  datatype Reply = Reply(frames: seq<Frame>, packets: seq<bytes>, close: bool)

  const SILENT := Reply([], [], false)

  /** The pool, the session and the reply after one event. */
  datatype Effect = Effect(pool: Pool, session: Session, reply: Reply)

  function NewSession(identity: string): Session {
    Session(identity, AwaitingHello, None, 1400, 1, 1)
  }

  /** A session holds a lease exactly while it is established. */
  predicate HoldsIffEstablished(s: Session) {
    s.lease.Some? <==> s.state == Established
  }

  /** The pool after the session gives its lease back. */
  function Released(p: Pool, s: Session): Pool {
    if s.lease.None? then p else ReleaseSpec(p, s.lease.value).0
  }

  function ErrorFrame(sequence: u64, code: u16, note: ErrorText): Frame {
    Frame(MessageType.Error, 0, sequence, ErrorPayload(ErrorMessage(code, note)))
  }

  /** Report an error, close after it is written, and give the lease back. */
  function Fail(p: Pool, s: Session, e: Failure, note: ErrorText): Effect {
    Effect(Released(p, s), s.(state := Closing, lease := None, outbound := Next64(s.outbound)),
            Reply([ErrorFrame(s.outbound, CodeOf(e), note)], [], true))
  }

  function Shut(p: Pool, s: Session): Effect {
    Effect(Released(p, s), s.(state := Closed, lease := None), Reply([], [], true))
  }

  function Send(p: Pool, s: Session, kind: MessageType, payload: bytes): Effect {
    Effect(p, s.(outbound := Next64(s.outbound)), Reply([Frame(kind, 0, s.outbound, payload)], [], false))
  }

  function HandleHello(c: Config, p: Pool, s: Session, f: Frame, now: int, note: ErrorText): Effect
    requires ValidConfig(c)
  {
    if f.kind != ClientHello then Fail(p, s, UnexpectedMessage, note)
    else if DecodeHello(f.payload).None? then Fail(p, s, InvalidControlPayload, note)
    else Admit(c, p, s, DecodeHello(f.payload).value, now, note)
  }

  /** The assignment sent for a lease: the smaller of the requested and the pool MTU. */
  function Offer(c: Config, l: Lease, hello: Hello): Assignment
    requires ValidConfig(c)
  {
    ToAssignment(c, l).(mtu := if hello.requestedMtu < c.mtu then hello.requestedMtu else c.mtu)
  }

  function Admit(c: Config, p: Pool, s: Session, hello: Hello, now: int, note: ErrorText): Effect
    requires ValidConfig(c)
  {
    var (p1, r) := AcquireSpec(c, p, s.identity, now);
    match r
    case Err(e) => Fail(p1, s, if e == EmptyIdentity then InvalidControlPayload else LeaseUnavailable, note)
    case Ok(l) =>
      var offer := Offer(c, l, hello);
      var s1 := s.(state := Established, lease := Some(l), mtu := offer.mtu);
      if ValidAssignment(offer) then Send(p1, s1, IpAssign, AssignmentPayload(offer))
      else Fail(p1, s1, InvalidControlPayload, note)
  }

  /** Does this kind of frame renew the lease before it is examined? */
  predicate Renews(kind: MessageType) {
    kind in {DataIpv4, DataIpv6, MessageType.Ping}
  }

  /** Why an uplink IPv4 packet is refused, if so. */
  function UplinkFaultV4(l: Lease, mtu: u16, packet: bytes): Option<Failure> {
    if |packet| > mtu || !ShapedV4(packet) then Some(InvalidIpv4Packet)
    else if SourceV4(packet) != l.address then Some(SourceAddressMismatch)
    else None
  }

  function UplinkFaultV6(l: Lease, mtu: u16, packet: bytes): Option<Failure> {
    if l.addressV6 == IPV6_ZERO || |packet| > mtu || !ShapedV6(packet) then Some(InvalidIpv6Packet)
    else if SourceV6(packet) != l.addressV6 then Some(SourceAddressMismatch)
    else None
  }

  function UplinkFault(l: Lease, mtu: u16, f: Frame): Option<Failure> {
    if f.kind == DataIpv4 then UplinkFaultV4(l, mtu, f.payload) else UplinkFaultV6(l, mtu, f.payload)
  }

  function HandleRenewing(c: Config, p: Pool, s: Session, f: Frame, now: int, note: ErrorText): Effect
    requires s.lease.Some?
  {
    var (p1, r) := RenewSpec(c, p, s.lease.value, now);
    if r.None? then Fail(p1, s, LeaseUnavailable, note)
    else
      var s1 := s.(lease := r);
      if f.kind == MessageType.Ping then
        if DecodeProbe(f.payload).None? then Fail(p1, s1, InvalidControlPayload, note)
        else Send(p1, s1, Pong, ProbePayload(DecodeProbe(f.payload).value))
      else
        var fault := UplinkFault(r.value, s.mtu, f);
        if fault.Some? then Fail(p1, s1, fault.value, note)
        else Effect(p1, s1, Reply([], [f.payload], false))
  }

  function HandleControl(p: Pool, s: Session, f: Frame, note: ErrorText): Effect {
    match f.kind
    case Close => if DecodeClose(f.payload).None? then Fail(p, s, InvalidControlPayload, note) else Shut(p, s)
    case Error => if DecodeError(f.payload).None? then Fail(p, s, InvalidControlPayload, note) else Shut(p, s)
    case _ => Fail(p, s, UnexpectedMessage, note)
  }

  /** `handle`: one frame from the peer; `note` is the diagnostic text of an ERROR this may send. */
  function Handle(c: Config, p: Pool, s: Session, f: Frame, now: int, note: ErrorText): Effect
    requires ValidConfig(c) && HoldsIffEstablished(s)
  {
    if s.state == Closing || s.state == Closed then Effect(p, s, Reply([], [], true))
    else if f.sequence != s.expected then Fail(p, s, InvalidSequence, note)
    else
      var s1 := s.(expected := Next64(s.expected));
      if s.state == AwaitingHello then HandleHello(c, p, s1, f, now, note)
      else if Renews(f.kind) then HandleRenewing(c, p, s1, f, now, note)
      else HandleControl(p, s1, f, note)
  }

  /** Is the packet well formed, small enough and addressed to the leased address? */
  predicate Addressed(l: Lease, mtu: u16, packet: bytes) {
    && 0 < |packet| <= mtu
    && (if packet[0] / 16 == 6
        then ShapedV6(packet) && l.addressV6 != IPV6_ZERO && DestinationV6(packet) == l.addressV6
        else ShapedV4(packet) && DestinationV4(packet) == l.address)
  }

  function DataKind(packet: bytes): MessageType
    requires packet != []
  {
    if packet[0] / 16 == 6 then DataIpv6 else DataIpv4
  }

  /** `make_data_to_client`: a packet read from the TUN device; the reply holds at most one DATA frame. */
  function MakeData(c: Config, p: Pool, s: Session, packet: bytes, now: int): Effect
    requires HoldsIffEstablished(s)
  {
    if s.state != Established || !Addressed(s.lease.value, s.mtu, packet) then Effect(p, s, SILENT)
    else
      var (p1, r) := RenewSpec(c, p, s.lease.value, now);
      if r.None? then Effect(Released(p1, s), s.(state := Closing, lease := None), SILENT)
      else Send(p1, s.(lease := r), DataKind(packet), packet)
  }

  /** `on_transport_closed`, and equally the destructor. */
  function TransportClosed(p: Pool, s: Session): Effect {
    Effect(Released(p, s), s.(state := Closed, lease := None), SILENT)
  }
}
