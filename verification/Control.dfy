/** The five control payloads: validity, printers and parsers. */
module Control {
  import opened Bytes

  type Ipv4 = s: bytes | |s| == 4 witness [0, 0, 0, 0]
  type Ipv6 = s: bytes | |s| == 16 witness [0, 0, 0, 0, 0, 0, 0, 0, 0, 0, 0, 0, 0, 0, 0, 0]

  const IPV4_ZERO: Ipv4 := [0, 0, 0, 0]
  const IPV6_ZERO: Ipv6 := [0, 0, 0, 0, 0, 0, 0, 0, 0, 0, 0, 0, 0, 0, 0, 0]

  const MIN_IPV4_MTU := 576
  const MIN_IPV6_MTU := 1280
  const MAX_MTU := 9000
  const CAPABILITIES: u32 := 3
  const MAX_ERROR_TEXT := 1024

  datatype Hello = Hello(requestedMtu: u16, capabilities: u32)

  datatype Assignment = Assignment(
    client: Ipv4,
    gateway: Ipv4,
    prefixLength: byte,
    mtu: u16,
    leaseSeconds: u32,
    clientV6: Ipv6,
    gatewayV6: Ipv6,
    prefixLengthV6: byte)

  datatype ErrorMessage = ErrorMessage(code: u16, text: bytes)

  // ---------- CLIENT_HELLO ----------

  /** Dual-stack MTU range; both address-family bits set and no unknown bit. */
  predicate ValidHello(h: Hello) {
    && MIN_IPV6_MTU <= h.requestedMtu <= MAX_MTU
    && h.capabilities % 2 == 1 && h.capabilities / 2 % 2 == 1 && h.capabilities / 4 == 0
  }

  function HelloPayload(h: Hello): (p: bytes)
    ensures |p| == 8
  {
    U16(h.requestedMtu) + U16(0) + U32(h.capabilities)
  }

  function DecodeHello(p: bytes): Option<Hello>
  {
    if |p| != 8 || ReadU16(p, 2) != 0 then None
    else
      var h := Hello(ReadU16(p, 0), ReadU32(p, 4));
      if ValidHello(h) then Some(h) else None
  }

  lemma DecodeHelloPayload(h: Hello)
    ensures DecodeHello(HelloPayload(h)) == if ValidHello(h) then Some(h) else None
  {
    var p := HelloPayload(h);
    assert p[0..2] == U16(h.requestedMtu) && p[2..4] == U16(0) && p[4..8] == U32(h.capabilities);
    ReadU16OfU16(h.requestedMtu, p, 0);
    ReadU16OfU16(0, p, 2);
    ReadU32OfU32(h.capabilities, p, 4);
  }

  lemma DecodedHelloPrintsBack(p: bytes)
    requires DecodeHello(p).Some?
    ensures ValidHello(DecodeHello(p).value) && HelloPayload(DecodeHello(p).value) == p
  {
    U16OfReadU16(p, 0);
    U16OfReadU16(p, 2);
    U32OfReadU32(p, 4);
    assert p == p[0..2] + p[2..4] + p[4..8];
  }

  // ---------- IP_ASSIGN ----------

  predicate ValidAssignment(a: Assignment) {
    && a.client != IPV4_ZERO && a.gateway != IPV4_ZERO
    && 1 <= a.prefixLength <= 32
    && MIN_IPV4_MTU <= a.mtu <= MAX_MTU
    && a.leaseSeconds != 0
    && (if a.prefixLengthV6 != 0
        then
          && a.prefixLengthV6 <= 128 && a.clientV6 != IPV6_ZERO && a.gatewayV6 != IPV6_ZERO
          && a.clientV6 != a.gatewayV6 && a.mtu >= MIN_IPV6_MTU
        else a.clientV6 == IPV6_ZERO && a.gatewayV6 == IPV6_ZERO)
  }

  function AssignmentPayload(a: Assignment): (p: bytes)
    ensures |p| == 52
  {
    a.client + a.gateway + [a.prefixLength, 0] + U16(a.mtu) + U32(a.leaseSeconds)
    + a.clientV6 + a.gatewayV6 + [a.prefixLengthV6, 0, 0, 0]
  }

  function AssignmentFields(p: bytes): Assignment
    requires |p| == 52
  {
    Assignment(p[0..4], p[4..8], p[8], ReadU16(p, 10), ReadU32(p, 12), p[16..32], p[32..48], p[48])
  }

  function DecodeAssignment(p: bytes): Option<Assignment>
  {
    if |p| != 52 || p[9] != 0 || p[49] != 0 || p[50] != 0 || p[51] != 0 then None
    else if ValidAssignment(AssignmentFields(p)) then Some(AssignmentFields(p))
    else None
  }

  method EncodeIpAssignment(a: Assignment) returns (r: Option<bytes>)
    ensures r == if ValidAssignment(a) then Some(AssignmentPayload(a)) else None
  {
    if a.client == IPV4_ZERO || a.gateway == IPV4_ZERO || a.prefixLength == 0 || a.prefixLength > 32 {
      return None;
    }
    if a.mtu < MIN_IPV4_MTU || a.mtu > MAX_MTU || a.leaseSeconds == 0 {
      return None;
    }
    var hasV6 := a.prefixLengthV6 != 0;
    if hasV6 && (a.prefixLengthV6 > 128 || a.clientV6 == IPV6_ZERO || a.gatewayV6 == IPV6_ZERO
                 || a.clientV6 == a.gatewayV6 || a.mtu < MIN_IPV6_MTU) {
      return None;
    }
    if !hasV6 && (a.clientV6 != IPV6_ZERO || a.gatewayV6 != IPV6_ZERO) {
      return None;
    }
    var output: bytes := a.client;
    output := output + a.gateway;
    output := output + [a.prefixLength, 0];
    output := output + U16(a.mtu);
    output := output + U32(a.leaseSeconds);
    output := output + a.clientV6;
    output := output + a.gatewayV6;
    output := output + [a.prefixLengthV6, 0, 0, 0];
    r := Some(output);
  }

  lemma AssignmentLayout(a: Assignment)
    ensures var p := AssignmentPayload(a);
            && p[0..4] == a.client && p[4..8] == a.gateway && p[8] == a.prefixLength && p[9] == 0
            && p[10..12] == U16(a.mtu) && p[12..16] == U32(a.leaseSeconds)
            && p[16..32] == a.clientV6 && p[32..48] == a.gatewayV6
            && p[48] == a.prefixLengthV6 && p[49] == 0 && p[50] == 0 && p[51] == 0
  {
  }

  lemma DecodeAssignmentPayload(a: Assignment)
    ensures DecodeAssignment(AssignmentPayload(a)) == if ValidAssignment(a) then Some(a) else None
  {
    var p := AssignmentPayload(a);
    AssignmentLayout(a);
    ReadU16OfU16(a.mtu, p, 10);
    ReadU32OfU32(a.leaseSeconds, p, 12);
    assert AssignmentFields(p) == a;
  }

  lemma DecodedAssignmentPrintsBack(p: bytes)
    requires DecodeAssignment(p).Some?
    ensures ValidAssignment(DecodeAssignment(p).value) && AssignmentPayload(DecodeAssignment(p).value) == p
  {
    U16OfReadU16(p, 10);
    U32OfReadU32(p, 12);
    assert p == p[0..4] + p[4..8] + [p[8], p[9]] + p[10..12] + p[12..16] + p[16..32] + p[32..48]
                + [p[48], p[49], p[50], p[51]];
  }

  // ---------- PING and PONG ----------

  function ProbePayload(nonce: u64): (p: bytes)
    ensures |p| == 8
  {
    U64(nonce)
  }

  function DecodeProbe(p: bytes): Option<u64>
  {
    if |p| != 8 then None else Some(ReadU64(p, 0))
  }

  lemma DecodeProbePayload(nonce: u64)
    ensures DecodeProbe(ProbePayload(nonce)) == Some(nonce)
  {
    var p := ProbePayload(nonce);
    assert p[0..8] == p;
    ReadU64OfU64(nonce, p, 0);
  }

  lemma DecodedProbePrintsBack(p: bytes)
    requires DecodeProbe(p).Some?
    ensures ProbePayload(DecodeProbe(p).value) == p
  {
    U64OfReadU64(p, 0);
    assert p[0..8] == p;
  }

  // ---------- ERROR ----------

  /** Diagnostic text short enough for an ERROR payload. */
  type ErrorText = t: bytes | |t| <= MAX_ERROR_TEXT witness []

  predicate ValidError(e: ErrorMessage) {
    |e.text| <= MAX_ERROR_TEXT
  }

  function ErrorPayload(e: ErrorMessage): (p: bytes)
    ensures |p| == 2 + |e.text|
  {
    U16(e.code) + e.text
  }

  function DecodeError(p: bytes): Option<ErrorMessage>
  {
    if |p| < 2 || |p| > 2 + MAX_ERROR_TEXT then None else Some(ErrorMessage(ReadU16(p, 0), p[2..]))
  }

  lemma DecodeErrorPayload(e: ErrorMessage)
    ensures DecodeError(ErrorPayload(e)) == if ValidError(e) then Some(e) else None
  {
    var p := ErrorPayload(e);
    assert p[0..2] == U16(e.code) && p[2..] == e.text;
    ReadU16OfU16(e.code, p, 0);
  }

  lemma DecodedErrorPrintsBack(p: bytes)
    requires DecodeError(p).Some?
    ensures ValidError(DecodeError(p).value) && ErrorPayload(DecodeError(p).value) == p
  {
    U16OfReadU16(p, 0);
    assert p == p[0..2] + p[2..];
  }

  // ---------- CLOSE ----------

  function ClosePayload(code: u16): (p: bytes)
    ensures |p| == 2
  {
    U16(code)
  }

  function DecodeClose(p: bytes): Option<u16>
  {
    if |p| != 2 then None else Some(ReadU16(p, 0))
  }

  lemma DecodeClosePayload(code: u16)
    ensures DecodeClose(ClosePayload(code)) == Some(code)
  {
    var p := ClosePayload(code);
    assert p[0..2] == p;
    ReadU16OfU16(code, p, 0);
  }

  lemma DecodedClosePrintsBack(p: bytes)
    requires DecodeClose(p).Some?
    ensures ClosePayload(DecodeClose(p).value) == p
  {
    U16OfReadU16(p, 0);
    assert p[0..2] == p;
  }
}
