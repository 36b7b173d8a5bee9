/**
 * What exactly the server's controller does with each frame and each packet, said in terms of packets,
 * payloads, numbers and the pool's operations and not of the controller's own functions.
 */
module ServerOutcomes {
  import opened Bytes
  import opened Wire
  import opened Control
  import opened Packets
  import opened Leases
  import S = ServerSession

  // ---------- Packets ----------

  predicate FitsV4(mtu: u16, packet: bytes) {
    ShapedV4(packet) && |packet| <= mtu
  }

  /** IPv6 only for a lease with an IPv6 address. */
  predicate FitsV6(l: Lease, mtu: u16, packet: bytes) {
    l.addressV6 != IPV6_ZERO && ShapedV6(packet) && |packet| <= mtu
  }

  /** Sent from the leased address. */
  predicate FromPeerV4(l: Lease, mtu: u16, packet: bytes) {
    FitsV4(mtu, packet) && packet[12..16] == l.address
  }

  predicate FromPeerV6(l: Lease, mtu: u16, packet: bytes) {
    FitsV6(l, mtu, packet) && packet[8..24] == l.addressV6
  }

  /** Sent to the leased address of its family. */
  predicate ToPeer(l: Lease, mtu: u16, packet: bytes) {
    || (FitsV4(mtu, packet) && packet[16..20] == l.address)
    || (FitsV6(l, mtu, packet) && packet[24..40] == l.addressV6)
  }

  function Numbered(s: S.Session, kind: MessageType, payload: bytes): Frame {
    Frame(kind, 0, s.outbound, payload)
  }

  function Counted(s: S.Session): S.Session {
    s.(outbound := if s.outbound == 0xFFFF_FFFF_FFFF_FFFF then 0 else s.outbound + 1)
  }

  function Advanced(s: S.Session): S.Session {
    s.(expected := if s.expected == 0xFFFF_FFFF_FFFF_FFFF then 0 else s.expected + 1)
  }

  /** The pool without the session's lease, if that is still the pool's generation. */
  function WithoutLease(p: Pool, s: S.Session): Pool {
    if s.lease.None? then p else ReleaseSpec(p, s.lease.value).0
  }

  /** The session has reported `code` and closes; its lease is given back. */
  function Objected(p: Pool, s: S.Session, code: u16, note: ErrorText): S.Effect {
    S.Effect(WithoutLease(p, s), Counted(s).(state := S.Closing, lease := None),
             S.Reply([Numbered(s, MessageType.Error, ErrorPayload(ErrorMessage(code, note)))], [], true))
  }

  // ---------- Packets from the device ----------

  /**
   * A packet from the device is sent exactly by an established session to whose leased address it goes, well
   * formed and within the MTU, if the lease can still be renewed; it is then the next DATA frame of its family,
   * unchanged. If the lease cannot be renewed the session ends without a word; any other packet leaves no trace.
   */
  lemma DataExactly(c: Config, p: Pool, s: S.Session, packet: bytes, now: int)
    requires S.HoldsIffEstablished(s)
    ensures var e := S.MakeData(c, p, s, packet, now);
            if s.state == S.Established && ToPeer(s.lease.value, s.mtu, packet)
            then var (p1, r) := RenewSpec(c, p, s.lease.value, now);
                 e == if r.None?
                      then S.Effect(WithoutLease(p1, s), s.(state := S.Closing, lease := None), S.Reply([], [], false))
                      else S.Effect(p1, Counted(s).(lease := r),
                                    S.Reply([Numbered(s, if ShapedV6(packet) then DataIpv6 else DataIpv4, packet)], [], false))
            else e == S.Effect(p, s, S.Reply([], [], false))
  {
  }

  /** The transport is gone: the session is closed and its lease given back. */
  lemma ClosedExactly(p: Pool, s: S.Session)
    ensures S.TransportClosed(p, s)
         == S.Effect(WithoutLease(p, s), s.(state := S.Closed, lease := None), S.Reply([], [], false))
  {
  }

  // ---------- Frames ----------

  /** The payload prints a hello: an MTU from 1280 to 9000 and exactly the two address families. */
  predicate Greets(payload: bytes, mtu: u16) {
    1280 <= mtu <= 9000 && payload == HelloPayload(Hello(mtu, 3))
  }

  lemma GreetingIsRead(payload: bytes)
    ensures DecodeHello(payload).Some? <==> exists mtu :: Greets(payload, mtu)
    ensures DecodeHello(payload).Some? ==>
              Greets(payload, DecodeHello(payload).value.requestedMtu) && DecodeHello(payload).value.capabilities == 3
    ensures forall mtu :: Greets(payload, mtu) ==> DecodeHello(payload) == Some(Hello(mtu, 3))
  {
    forall mtu | Greets(payload, mtu)
      ensures DecodeHello(payload) == Some(Hello(mtu, 3))
    {
      DecodeHelloPayload(Hello(mtu, 3));
    }
    if DecodeHello(payload).Some? {
      DecodedHelloPrintsBack(payload);
      assert Greets(payload, DecodeHello(payload).value.requestedMtu);
    }
  }

  /** The terms of a lease for a client that asked for `mtu`: the pool's, with the smaller MTU. */
  function Terms(c: Config, l: Lease, mtu: u16): Assignment
    requires 0 <= c.duration < 0x1_0000_0000
  {
    Assignment(l.address, c.gateway, c.prefixLength, if mtu < c.mtu then mtu else c.mtu, c.duration,
               l.addressV6, c.gatewayV6, c.prefixLengthV6)
  }

  /** A hello that is one: the pool decides, and the terms must be encodable. */
  lemma AdmitsExactly(c: Config, p: Pool, s: S.Session, f: Frame, mtu: u16, now: int, note: ErrorText)
    requires ValidConfig(c) && s.state == S.AwaitingHello && s.lease.None? && f.sequence == s.expected
    requires f.kind == ClientHello && Greets(f.payload, mtu)
    ensures var (p1, r) := AcquireSpec(c, p, s.identity, now);
            var s1 := Advanced(s);
            S.Handle(c, p, s, f, now, note)
            == match r
               case Err(EmptyIdentity) => Objected(p1, s1, 3, note)
               case Err(_) => Objected(p1, s1, 4, note)
               case Ok(l) =>
                 var terms := Terms(c, l, mtu);
                 var s2 := s1.(state := S.Established, lease := Some(l), mtu := terms.mtu);
                 if ValidAssignment(terms)
                 then S.Effect(p1, Counted(s2), S.Reply([Numbered(s1, IpAssign, AssignmentPayload(terms))], [], false))
                 else Objected(p1, s2, 3, note)
  {
    GreetingIsRead(f.payload);
  }

  /** Before its hello a session objects to anything else. */
  lemma AwaitingObjects(c: Config, p: Pool, s: S.Session, f: Frame, now: int, note: ErrorText)
    requires ValidConfig(c) && s.state == S.AwaitingHello && s.lease.None?
    ensures f.sequence != s.expected ==> S.Handle(c, p, s, f, now, note) == Objected(p, s, 2, note)
    ensures f.sequence == s.expected && f.kind != ClientHello ==>
              S.Handle(c, p, s, f, now, note) == Objected(p, Advanced(s), 1, note)
    ensures f.sequence == s.expected && f.kind == ClientHello && (forall mtu :: !Greets(f.payload, mtu)) ==>
              S.Handle(c, p, s, f, now, note) == Objected(p, Advanced(s), 3, note)
  {
    GreetingIsRead(f.payload);
  }

  /** Why an established session objects to an expected frame that renewed its lease, if so. */
  function Objection(l: Lease, mtu: u16, f: Frame): Option<u16> {
    match f.kind
    case DataIpv4 => if FromPeerV4(l, mtu, f.payload) then None else if FitsV4(mtu, f.payload) then Some(6) else Some(5)
    case DataIpv6 => if FromPeerV6(l, mtu, f.payload) then None else if FitsV6(l, mtu, f.payload) then Some(6) else Some(7)
    case Ping => if |f.payload| == 8 then None else Some(3)
    case Close => if |f.payload| == 2 then None else Some(3)
    case Error => if 2 <= |f.payload| <= 1026 then None else Some(3)
    case _ => Some(1)
  }

  /**
   * DATA and PING first renew the lease, and without it the session objects; then the packet goes to the device,
   * the probe is answered, or the session objects to it under the code of its fault.
   */
  lemma RenewingExactly(c: Config, p: Pool, s: S.Session, f: Frame, now: int, note: ErrorText)
    requires ValidConfig(c) && s.state == S.Established && s.lease.Some? && f.sequence == s.expected
    requires f.kind == DataIpv4 || f.kind == DataIpv6 || f.kind == Ping
    ensures var (p1, r) := RenewSpec(c, p, s.lease.value, now);
            S.Handle(c, p, s, f, now, note)
            == if r.None? then Objected(p1, Advanced(s), 4, note)
               else
                 var s1 := Advanced(s).(lease := r);
                 match Objection(r.value, s.mtu, f)
                 case Some(code) => Objected(p1, s1, code, note)
                 case None =>
                   if f.kind == Ping then S.Effect(p1, Counted(s1), S.Reply([Numbered(s1, Pong, f.payload)], [], false))
                   else S.Effect(p1, s1, S.Reply([], [f.payload], false))
  {
    assert S.Handle(c, p, s, f, now, note) == S.HandleRenewing(c, p, Advanced(s), f, now, note);
    if f.kind == Ping && |f.payload| == 8 {
      DecodedProbePrintsBack(f.payload);
    }
  }

  /** A farewell closes quietly; a malformed one, or a frame the server never expects, is objected to. */
  lemma ControlExactly(c: Config, p: Pool, s: S.Session, f: Frame, now: int, note: ErrorText)
    requires ValidConfig(c) && s.state == S.Established && s.lease.Some? && f.sequence == s.expected
    requires f.kind != DataIpv4 && f.kind != DataIpv6 && f.kind != Ping
    ensures S.Handle(c, p, s, f, now, note)
            == match Objection(s.lease.value, s.mtu, f)
               case Some(code) => Objected(p, Advanced(s), code, note)
               case None => S.Effect(WithoutLease(p, s), Advanced(s).(state := S.Closed, lease := None), S.Reply([], [], true))
  {
  }

  /** A frame out of order is objected to, and one for an ended session only asks to close. */
  lemma OutOfTurnExactly(c: Config, p: Pool, s: S.Session, f: Frame, now: int, note: ErrorText)
    requires ValidConfig(c) && S.HoldsIffEstablished(s)
    ensures s.state == S.Established && f.sequence != s.expected ==>
              S.Handle(c, p, s, f, now, note) == Objected(p, s, 2, note)
    ensures s.state == S.Closing || s.state == S.Closed ==>
              S.Handle(c, p, s, f, now, note) == S.Effect(p, s, S.Reply([], [], true))
  {
  }
}
