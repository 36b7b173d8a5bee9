/** The client's session state machine, as functions on values, and when it accepts an assignment. */
module ClientSession {
  import opened Bytes
  import opened Wire
  import opened Control
  import opened Packets
  import opened Leases

  datatype State = Idle | AwaitingAssignment | Established | Closing | Closed

  datatype Failure =
    | UnexpectedMessage
    | InvalidSequence
    | InvalidControlPayload
    | InvalidAssignment
    | InvalidIpv4Packet
    | AddressMismatch
    | InvalidIpv6Packet

  function CodeOf(e: Failure): u16 {
    match e
    case UnexpectedMessage => 101
    case InvalidSequence => 102
    case InvalidControlPayload => 103
    case InvalidAssignment => 104
    case InvalidIpv4Packet => 105
    case AddressMismatch => 106
    case InvalidIpv6Packet => 107
  }

  datatype Client = Client(
    requestedMtu: u16,
    state: State,
    assignment: Option<Assignment>,
    pendingNonce: Option<u64>,
    expected: u64,
    outbound: u64)

  datatype Reply = Reply(
    frames: seq<Frame>,
    packets: seq<bytes>,
    assignment: Option<Assignment>,
    remoteError: Option<ErrorMessage>,
    close: bool)

  datatype Effect = Effect(client: Client, reply: Reply)

  const SILENT := Reply([], [], None, None, false)
  const JUST_CLOSE := Reply([], [], None, None, true)

  /** The constructor refuses an MTU that no CLIENT_HELLO may carry. */
  predicate ValidMtu(mtu: u16) {
    ValidHello(Hello(mtu, CAPABILITIES))
  }

  function NewClient(mtu: u16): Client {
    Client(mtu, Idle, None, None, 1, 1)
  }

  function Sending(c: Client, kind: MessageType, payload: bytes): (Client, Frame) {
    (c.(outbound := Next64(c.outbound)), Frame(kind, 0, c.outbound, payload))
  }

  /** `start`; a second call is refused. */
  function Start(c: Client): (Client, Option<Frame>) {
    if c.state != Idle then (c, None)
    else
      var (c1, f) := Sending(c, ClientHello, HelloPayload(Hello(c.requestedMtu, CAPABILITIES)));
      (c1.(state := AwaitingAssignment), Some(f))
  }

  function ErrorFrame(sequence: u64, code: u16, note: ErrorText): Frame {
    Frame(MessageType.Error, 0, sequence, ErrorPayload(ErrorMessage(code, note)))
  }

  function Fail(c: Client, e: Failure, note: ErrorText): Effect {
    Effect(c.(state := Closing, outbound := Next64(c.outbound)),
           Reply([ErrorFrame(c.outbound, CodeOf(e), note)], [], None, None, true))
  }

  /** The client's own policy for an assignment: its subnet, its host part, its MTU and its /64. */
  predicate Acceptable(requestedMtu: u16, a: Assignment)
    requires 1 <= a.prefixLength <= 32
  {
    var client, gateway := ToInteger(a.client), ToInteger(a.gateway);
    var network := Masked(gateway, a.prefixLength);
    var broadcast := Broadcast(gateway, a.prefixLength);
    && a.mtu <= requestedMtu && a.client != a.gateway
    && Masked(client, a.prefixLength) == network
    && (a.prefixLength <= 30 ==>
          client != network && client != broadcast && gateway != network && gateway != broadcast)
    && (if a.prefixLengthV6 == 0
        then a.clientV6 == IPV6_ZERO && a.gatewayV6 == IPV6_ZERO
        else a.prefixLengthV6 == 64 && a.clientV6 != a.gatewayV6 && a.clientV6[..8] == a.gatewayV6[..8])
  }

  function HandleAssignment(c: Client, f: Frame, note: ErrorText): Effect {
    if f.kind != IpAssign then Fail(c, UnexpectedMessage, note)
    else
      var a := DecodeAssignment(f.payload);
      if a.None? then Fail(c, InvalidControlPayload, note)
      else if !Acceptable(c.requestedMtu, a.value) then Fail(c, InvalidAssignment, note)
      else Effect(c.(state := Established, assignment := a), SILENT.(assignment := a))
  }

  /** Why a packet is refused: downlink packets are matched by destination, uplink ones by source. */
  function FaultV4(a: Assignment, fromServer: bool, packet: bytes): Option<Failure> {
    if |packet| > a.mtu || !ShapedV4(packet) then Some(InvalidIpv4Packet)
    else if (if fromServer then DestinationV4(packet) else SourceV4(packet)) != a.client then Some(AddressMismatch)
    else None
  }

  function FaultV6(a: Assignment, fromServer: bool, packet: bytes): Option<Failure> {
    if a.prefixLengthV6 == 0 || |packet| > a.mtu || !ShapedV6(packet) then Some(InvalidIpv6Packet)
    else if (if fromServer then DestinationV6(packet) else SourceV6(packet)) != a.clientV6 then Some(AddressMismatch)
    else None
  }

  function Fault(a: Assignment, fromServer: bool, kind: MessageType, packet: bytes): Option<Failure> {
    if kind == DataIpv4 then FaultV4(a, fromServer, packet) else FaultV6(a, fromServer, packet)
  }

  function HandleData(c: Client, f: Frame, note: ErrorText): Effect
    requires c.assignment.Some?
  {
    var fault := Fault(c.assignment.value, true, f.kind, f.payload);
    if fault.Some? then Fail(c, fault.value, note) else Effect(c, SILENT.(packets := [f.payload]))
  }

  function HandleEstablished(c: Client, f: Frame, note: ErrorText): Effect
    requires c.assignment.Some?
  {
    match f.kind
    case DataIpv4 => HandleData(c, f, note)
    case DataIpv6 => HandleData(c, f, note)
    case Ping =>
      if DecodeProbe(f.payload).None? then Fail(c, InvalidControlPayload, note)
      else
        var (c1, g) := Sending(c, Pong, ProbePayload(DecodeProbe(f.payload).value));
        Effect(c1, SILENT.(frames := [g]))
    case Pong =>
      if c.pendingNonce.Some? && DecodeProbe(f.payload) == c.pendingNonce
      then Effect(c.(pendingNonce := None), SILENT)
      else Fail(c, InvalidControlPayload, note)
    case Error =>
      if DecodeError(f.payload).None? then Fail(c, InvalidControlPayload, note)
      else Effect(c.(state := Closed), JUST_CLOSE.(remoteError := DecodeError(f.payload)))
    case Close =>
      if DecodeClose(f.payload).None? then Fail(c, InvalidControlPayload, note)
      else Effect(c.(state := Closed), JUST_CLOSE)
    case _ => Fail(c, UnexpectedMessage, note)
  }

  /** An established client has an assignment. */
  predicate Assigned(c: Client) {
    c.state == Established ==> c.assignment.Some?
  }

  /** `handle`: one frame from the server. */
  function Handle(c: Client, f: Frame, note: ErrorText): Effect
    requires Assigned(c)
  {
    if c.state == Idle || c.state == Closing || c.state == Closed then Effect(c, JUST_CLOSE)
    else if f.sequence != c.expected then Fail(c, InvalidSequence, note)
    else
      var c1 := c.(expected := Next64(c.expected));
      if c.state == AwaitingAssignment then HandleAssignment(c1, f, note) else HandleEstablished(c1, f, note)
  }

  /** `make_data_to_server`: a packet from the local device, if it may be sent. */
  function MakeData(c: Client, packet: bytes): (Client, Option<Frame>)
    requires Assigned(c)
  {
    if c.state != Established then (c, None)
    else
      var kind := if packet != [] && packet[0] / 16 == 6 then DataIpv6 else DataIpv4;
      if Fault(c.assignment.value, false, kind, packet).Some? then (c, None)
      else
        var (c1, f) := Sending(c, kind, packet);
        (c1, Some(f))
  }

  /** `make_ping`: at most one probe is outstanding. */
  function MakePing(c: Client, nonce: u64): (Client, Option<Frame>) {
    if c.state != Established || c.pendingNonce.Some? then (c, None)
    else
      var (c1, f) := Sending(c, MessageType.Ping, ProbePayload(nonce));
      (c1.(pendingNonce := Some(nonce)), Some(f))
  }

  function MakeClose(c: Client, code: u16): (Client, Option<Frame>) {
    if c.state != AwaitingAssignment && c.state != Established then (c, None)
    else
      var (c1, f) := Sending(c, MessageType.Close, ClosePayload(code));
      (c1.(state := Closing), Some(f))
  }

  // ---------- Every assignment the pool can issue ----------

  /** What the constructor does not check but the client insists on. */
  predicate Serviceable(c: Config)
    requires ValidConfig(c)
  {
    var gateway := ToInteger(c.gateway);
    && (c.prefixLength <= 30 ==>
          gateway != Masked(gateway, c.prefixLength) && gateway != Broadcast(gateway, c.prefixLength))
    && (if c.prefixLengthV6 != 0 then c.mtu >= MIN_IPV6_MTU else c.gatewayV6 == IPV6_ZERO)
    && (c.prefixLength > 30 ==> c.first != 0)
  }

  /** Between two numbers that agree above bit `k`, every number agrees with them. */
  lemma {:induction false} SameBlock(a: nat, b: nat, x: nat, k: nat)
    requires a <= x <= b && ClearLow(a, k) == ClearLow(b, k)
    ensures ClearLow(x, k) == ClearLow(a, k)
  {
    if k > 0 {
      SameBlock(a / 2, b / 2, x / 2, k - 1);
    }
  }

  /** The offer made for pool address `n` to a client asking for `mtu`. */
  function OfferFor(c: Config, n: u32, mtu: u16): Assignment
    requires ValidConfig(c)
  {
    var a := FromInteger(n);
    Assignment(a, c.gateway, c.prefixLength, if mtu < c.mtu then mtu else c.mtu, c.duration,
               DeriveV6(c, a), c.gatewayV6, c.prefixLengthV6)
  }

  lemma ZeroIsZero(a: Ipv4)
    ensures a == IPV4_ZERO <==> ToInteger(a) == 0
  {
    FromToInteger(a);
    FromToInteger(IPV4_ZERO);
  }

  lemma DerivedIsNotZero(c: Config, a: Ipv4)
    requires c.prefixLengthV6 != 0 && a != IPV4_ZERO
    ensures DeriveV6(c, a) != IPV6_ZERO
  {
    assert DeriveV6(c, a)[12..] == a;
    assert IPV6_ZERO[12..] == IPV4_ZERO;
  }

  /** A /31 leaves a single pool address beside the gateway; a /32 leaves none. */
  lemma NarrowPool(c: Config)
    requires ValidConfig(c) && c.prefixLength > 30
    ensures c.first == c.last
  {
    assert Pow2(0) == 1 && Pow2(1) == 2;
    assert ClearLow(c.first, 1) == 2 * ClearLow(c.first / 2, 0) && ClearLow(c.last, 1) == 2 * ClearLow(c.last / 2, 0);
    assert ClearLow(ToInteger(c.gateway), 1) == 2 * ClearLow(ToInteger(c.gateway) / 2, 0);
  }

  /**
   * For every configuration the constructor accepts: every address the pool can issue, to every client
   * with a valid MTU, yields an assignment that encodes and passes the client's checks, if and only if
   * the configuration is serviceable.
   */
  lemma EveryOfferAcceptable(c: Config)
    requires ValidConfig(c)
    requires exists n: u32 :: Issuable(c, n)
    ensures Serviceable(c) <==>
            forall n: u32, mtu: u16 :: Issuable(c, n) && ValidMtu(mtu) ==> OfferAccepted(c, n, mtu)
  {
    if Serviceable(c) {
      forall n: u32, mtu: u16 | Issuable(c, n) && ValidMtu(mtu)
        ensures OfferAccepted(c, n, mtu)
      {
        ServiceableOffer(c, n, mtu);
      }
    } else {
      var n: u32 :| Issuable(c, n);
      UnserviceableOffer(c, n, 1280);
      assert ValidMtu(1280);
    }
  }

  /** An address `acquire` may hand out: in the pool and not deriving the IPv6 gateway. */
  predicate Issuable(c: Config, n: u32) {
    c.first <= n <= c.last && (c.prefixLengthV6 != 0 ==> DeriveV6(c, FromInteger(n)) != c.gatewayV6)
  }

  predicate OfferAccepted(c: Config, n: u32, mtu: u16)
    requires ValidConfig(c)
  {
    ValidAssignment(OfferFor(c, n, mtu)) && Acceptable(mtu, OfferFor(c, n, mtu))
  }

  lemma ServiceableOffer(c: Config, n: u32, mtu: u16)
    requires ValidConfig(c) && Serviceable(c) && Issuable(c, n) && ValidMtu(mtu)
    ensures OfferAccepted(c, n, mtu)
  {
    ServiceableTerms(c, n, mtu);
    SameBlock(c.first, c.last, n, 32 - c.prefixLength);
    if c.prefixLengthV6 != 0 {
      assert DeriveV6(c, FromInteger(n))[..8] == c.prefixV6[..8];
    }
  }

  lemma ServiceableTerms(c: Config, n: u32, mtu: u16)
    requires ValidConfig(c) && Serviceable(c) && Issuable(c, n) && ValidMtu(mtu)
    ensures ValidAssignment(OfferFor(c, n, mtu))
  {
    var a := FromInteger(n);
    ZeroIsZero(a);
    SameBlock(c.first, c.last, n, 32 - c.prefixLength);
    if c.prefixLength > 30 {
      NarrowPool(c);
    }
    if c.prefixLengthV6 != 0 {
      DerivedIsNotZero(c, a);
    }
  }

  lemma UnserviceableOffer(c: Config, n: u32, mtu: u16)
    requires ValidConfig(c) && !Serviceable(c) && Issuable(c, n)
    ensures !OfferAccepted(c, n, mtu)
  {
    if c.prefixLength > 30 {
      NarrowPool(c);
      ZeroIsZero(FromInteger(n));
    }
  }

  /** Addresses 10.0.0.2 to 10.0.0.10 with the network address as gateway. */
  function NetworkGatewayPool(): Config {
    Config(0x0A00_0002, 0x0A00_000A, [10, 0, 0, 0], 24, 1400, 60, IPV6_ZERO, IPV6_ZERO, 0)
  }

  lemma NetworkGatewayPoolIsValid()
    ensures ValidConfig(NetworkGatewayPool()) && !Serviceable(NetworkGatewayPool())
  {
    assert ToInteger([10, 0, 0, 0]) == 0x0A00_0000;
  }

  /** A pool that the constructor accepts and no client does. */
  lemma NetworkAddressAsGateway(mtu: u16)
    ensures var c := NetworkGatewayPool();
            && ValidConfig(c) && !Serviceable(c)
            && Issuable(c, 0x0A00_0002) && !OfferAccepted(c, 0x0A00_0002, mtu)
  {
    NetworkGatewayPoolIsValid();
    UnserviceableOffer(NetworkGatewayPool(), 0x0A00_0002, mtu);
  }
}
