/** The two session controllers as objects that update their fields; each method computes its model function. */
module Controllers {
  import opened Bytes
  import opened Wire
  import opened Control
  import opened Leases
  import opened LeaseManagers
  import C = ClientSession
  import S = ServerSession

  class SessionController {
    const manager: LeaseManager
    const identity: string
    var state: S.State
    var lease: Option<Lease>
    var negotiatedMtu: u16
    var nextExpected: u64
    var nextOutbound: u64

    ghost predicate Valid()
      reads this, manager
    {
      manager.Valid() && S.HoldsIffEstablished(Model())
    }

    ghost function Model(): S.Session
      reads this
    {
      S.Session(identity, state, lease, negotiatedMtu, nextExpected, nextOutbound)
    }

    /** The manager, the controller and the reply are as in `e`. */
    ghost predicate Matches(e: S.Effect, reply: S.Reply)
      reads this, manager
    {
      manager.Model() == e.pool && Model() == e.session && reply == e.reply
    }

    constructor (manager: LeaseManager, identity: string)
      requires manager.Valid()
      ensures Valid() && this.manager == manager && Model() == S.NewSession(identity)
    {
      this.manager, this.identity := manager, identity;
      state, lease, negotiatedMtu, nextExpected, nextOutbound := S.AwaitingHello, None, 1400, 1, 1;
    }

    method MakeOutbound(kind: MessageType, payload: bytes) returns (f: Frame)
      modifies this`nextOutbound
      ensures f == Frame(kind, 0, old(nextOutbound), payload) && nextOutbound == Next64(old(nextOutbound))
    {
      f := Frame(kind, 0, nextOutbound, payload);
      nextOutbound := Next64(nextOutbound);
    }

    method ReleaseLease()
      requires manager.Valid()
      modifies this`lease, manager
      ensures manager.Valid() && lease == None && manager.Model() == S.Released(old(manager.Model()), old(Model()))
    {
      if lease.Some? {
        var _ := manager.Release(lease.value);
        lease := None;
      }
    }

    method Fail(error: S.Failure, note: ErrorText) returns (reply: S.Reply)
      requires manager.Valid()
      modifies this, manager
      ensures Valid() && Matches(S.Fail(old(manager.Model()), old(Model()), error, note), reply)
    {
      var f := MakeOutbound(MessageType.Error, ErrorPayload(ErrorMessage(S.CodeOf(error), note)));
      reply := S.Reply([f], [], true);
      state := S.Closing;
      ReleaseLease();
    }

    method OnTransportClosed()
      requires manager.Valid()
      modifies this, manager
      ensures Valid() && Matches(S.TransportClosed(old(manager.Model()), old(Model())), S.SILENT)
    {
      state := S.Closed;
      ReleaseLease();
    }

    /** The cascade of checks on an uplink IPv4 packet; the result is the error code, if any. */
    method ValidateIpv4(packet: bytes) returns (fault: Option<S.Failure>)
      ensures fault == if lease.None? then Some(S.InvalidIpv4Packet)
                       else S.UplinkFaultV4(lease.value, negotiatedMtu, packet)
    {
      if lease.None? {
        return Some(S.InvalidIpv4Packet);
      }
      if |packet| < 20 || |packet| > negotiatedMtu {
        return Some(S.InvalidIpv4Packet);
      }
      var headerLength := packet[0] % 16 * 4;
      if packet[0] / 16 != 4 || headerLength < 20 || headerLength > |packet| {
        return Some(S.InvalidIpv4Packet);
      }
      if ReadU16(packet, 2) != |packet| {
        return Some(S.InvalidIpv4Packet);
      }
      if [packet[12], packet[13], packet[14], packet[15]] != lease.value.address {
        return Some(S.SourceAddressMismatch);
      }
      fault := None;
    }

    method ValidateIpv6(packet: bytes) returns (fault: Option<S.Failure>)
      ensures fault == if lease.None? then Some(S.InvalidIpv6Packet)
                       else S.UplinkFaultV6(lease.value, negotiatedMtu, packet)
    {
      if lease.None? || lease.value.addressV6 == IPV6_ZERO || |packet| < 40 || |packet| > negotiatedMtu || packet[0] / 16 != 6 {
        return Some(S.InvalidIpv6Packet);
      }
      if ReadU16(packet, 4) + 40 != |packet| {
        return Some(S.InvalidIpv6Packet);
      }
      if packet[8..24] != lease.value.addressV6 {
        return Some(S.SourceAddressMismatch);
      }
      fault := None;
    }

    method HandleHello(f: Frame, now: int, note: ErrorText) returns (reply: S.Reply)
      requires Valid() && state == S.AwaitingHello
      modifies this, manager
      ensures Valid()
      ensures Matches(S.HandleHello(manager.config, old(manager.Model()), old(Model()), f, now, note), reply)
    {
      if f.kind != ClientHello {
        reply := Fail(S.UnexpectedMessage, note);
        return;
      }
      var hello := DecodeHello(f.payload);
      if hello.None? {
        reply := Fail(S.InvalidControlPayload, note);
        return;
      }
      reply := Admit(hello.value, now, note);
    }

    method Admit(hello: Hello, now: int, note: ErrorText) returns (reply: S.Reply)
      requires Valid() && state == S.AwaitingHello
      modifies this, manager
      ensures Valid()
      ensures Matches(S.Admit(manager.config, old(manager.Model()), old(Model()), hello, now, note), reply)
    {
      var acquired := manager.Acquire(identity, now);
      if acquired.Err? {
        reply := Fail(if acquired.error == EmptyIdentity then S.InvalidControlPayload else S.LeaseUnavailable, note);
        return;
      }
      lease := Some(acquired.value);
      reply := SendTerms(hello, note);
    }

    /** Fix the MTU and send the terms of the lease, or fail if they cannot be encoded. */
    method SendTerms(hello: Hello, note: ErrorText) returns (reply: S.Reply)
      requires manager.Valid() && lease.Some?
      modifies this, manager
      ensures Valid()
      ensures var c, p := manager.config, old(manager.Model());
              var offer := S.Offer(c, old(lease).value, hello);
              var s := old(Model()).(state := S.Established, mtu := offer.mtu);
              Matches(if ValidAssignment(offer) then S.Send(p, s, IpAssign, AssignmentPayload(offer))
                      else S.Fail(p, s, S.InvalidControlPayload, note), reply)
    {
      var assignment := ToAssignment(manager.config, lease.value);
      negotiatedMtu := if hello.requestedMtu < assignment.mtu then hello.requestedMtu else assignment.mtu;
      assignment := assignment.(mtu := negotiatedMtu);
      state := S.Established;
      var payload := EncodeIpAssignment(assignment);
      if payload.None? {
        reply := Fail(S.InvalidControlPayload, note);
        return;
      }
      var f := MakeOutbound(IpAssign, payload.value);
      reply := S.Reply([f], [], false);
    }

    method HandleRenewing(f: Frame, now: int, note: ErrorText) returns (reply: S.Reply)
      requires Valid() && lease.Some? && S.Renews(f.kind)
      modifies this, manager
      ensures Valid()
      ensures Matches(S.HandleRenewing(manager.config, old(manager.Model()), old(Model()), f, now, note), reply)
    {
      var renewed := manager.Renew(lease.value, now);
      if renewed.None? {
        reply := Fail(S.LeaseUnavailable, note);
        return;
      }
      lease := renewed;
      if f.kind == MessageType.Ping {
        var probe := DecodeProbe(f.payload);
        if probe.None? {
          reply := Fail(S.InvalidControlPayload, note);
          return;
        }
        var g := MakeOutbound(Pong, ProbePayload(probe.value));
        reply := S.Reply([g], [], false);
        return;
      }
      var fault;
      if f.kind == DataIpv4 {
        fault := ValidateIpv4(f.payload);
      } else {
        fault := ValidateIpv6(f.payload);
      }
      if fault.Some? {
        reply := Fail(fault.value, note);
      } else {
        reply := S.Reply([], [f.payload], false);
      }
    }

    method HandleControl(f: Frame, note: ErrorText) returns (reply: S.Reply)
      requires Valid()
      modifies this, manager
      ensures Valid() && Matches(S.HandleControl(old(manager.Model()), old(Model()), f, note), reply)
    {
      var wellFormed := match f.kind
        case Close => DecodeClose(f.payload).Some?
        case Error => DecodeError(f.payload).Some?
        case _ => false;
      if f.kind != Close && f.kind != MessageType.Error {
        reply := Fail(S.UnexpectedMessage, note);
      } else if !wellFormed {
        reply := Fail(S.InvalidControlPayload, note);
      } else {
        state := S.Closed;
        ReleaseLease();
        reply := S.Reply([], [], true);
      }
    }

    method Handle(f: Frame, now: int, note: ErrorText) returns (reply: S.Reply)
      requires Valid()
      modifies this, manager
      ensures Valid()
      ensures Matches(S.Handle(manager.config, old(manager.Model()), old(Model()), f, now, note), reply)
    {
      if state == S.Closing || state == S.Closed {
        return S.Reply([], [], true);
      }
      if f.sequence != nextExpected {
        reply := Fail(S.InvalidSequence, note);
        return;
      }
      nextExpected := Next64(nextExpected);
      if state == S.AwaitingHello {
        reply := HandleHello(f, now, note);
      } else if S.Renews(f.kind) {
        reply := HandleRenewing(f, now, note);
      } else {
        reply := HandleControl(f, note);
      }
    }

    /** The checks on a downlink packet, in the order of the original. */
    method IsForClient(packet: bytes) returns (ok: bool)
      requires lease.Some?
      ensures ok == S.Addressed(lease.value, negotiatedMtu, packet)
    {
      if |packet| == 0 || |packet| > negotiatedMtu {
        return false;
      }
      if packet[0] / 16 == 6 {
        if |packet| < 40 || lease.value.addressV6 == IPV6_ZERO {
          return false;
        }
        return ReadU16(packet, 4) + 40 == |packet| && packet[24..40] == lease.value.addressV6;
      }
      if |packet| < 20 {
        return false;
      }
      var headerLength := packet[0] % 16 * 4;
      ok := packet[0] / 16 == 4 && 20 <= headerLength <= |packet| && ReadU16(packet, 2) == |packet|
            && [packet[16], packet[17], packet[18], packet[19]] == lease.value.address;
    }

    method MakeDataToClient(packet: bytes, now: int) returns (f: Option<Frame>)
      requires Valid()
      modifies this, manager
      ensures Valid()
      ensures Matches(S.MakeData(manager.config, old(manager.Model()), old(Model()), packet, now),
                      S.SILENT.(frames := if f.Some? then [f.value] else []))
    {
      f := None;
      if state != S.Established {
        return;
      }
      var ok := IsForClient(packet);
      if !ok {
        return;
      }
      var renewed := manager.Renew(lease.value, now);
      if renewed.None? {
        state := S.Closing;
        ReleaseLease();
        return;
      }
      lease := renewed;
      var g := MakeOutbound(if packet[0] / 16 == 6 then DataIpv6 else DataIpv4, packet);
      f := Some(g);
    }
  }

  class ClientSessionController {
    const requestedMtu: u16
    var state: C.State
    var assignment: Option<Assignment>
    var pendingNonce: Option<u64>
    var nextExpected: u64
    var nextOutbound: u64

    ghost predicate Valid()
      reads this
    {
      C.ValidMtu(requestedMtu) && C.Assigned(Model())
    }

    ghost function Model(): C.Client
      reads this
    {
      C.Client(requestedMtu, state, assignment, pendingNonce, nextExpected, nextOutbound)
    }

    ghost predicate Matches(e: C.Effect, reply: C.Reply)
      reads this
    {
      Model() == e.client && reply == e.reply
    }

    /** A null result stands for the thrown error of an MTU that cannot be encoded. */
    static method Create(mtu: u16) returns (k: ClientSessionController?)
      ensures k != null <==> C.ValidMtu(mtu)
      ensures k != null ==> fresh(k) && k.Valid() && k.Model() == C.NewClient(mtu)
    {
      if !ValidHello(Hello(mtu, CAPABILITIES)) {
        return null;
      }
      k := new ClientSessionController(mtu);
    }

    constructor (mtu: u16)
      requires C.ValidMtu(mtu)
      ensures Valid() && Model() == C.NewClient(mtu)
    {
      requestedMtu := mtu;
      state, assignment, pendingNonce, nextExpected, nextOutbound := C.Idle, None, None, 1, 1;
    }

    method MakeOutbound(kind: MessageType, payload: bytes) returns (f: Frame)
      modifies this`nextOutbound
      ensures f == Frame(kind, 0, old(nextOutbound), payload) && nextOutbound == Next64(old(nextOutbound))
    {
      f := Frame(kind, 0, nextOutbound, payload);
      nextOutbound := Next64(nextOutbound);
    }

    method Fail(error: C.Failure, note: ErrorText) returns (reply: C.Reply)
      requires Valid()
      modifies this
      ensures Valid() && Matches(C.Fail(old(Model()), error, note), reply)
    {
      var f := MakeOutbound(MessageType.Error, ErrorPayload(ErrorMessage(C.CodeOf(error), note)));
      reply := C.JUST_CLOSE.(frames := [f]);
      state := C.Closing;
    }

    /** A second `start` is refused. */
    method Start() returns (f: Option<Frame>)
      requires Valid()
      modifies this
      ensures Valid() && (Model(), f) == C.Start(old(Model()))
    {
      if state != C.Idle {
        return None;
      }
      state := C.AwaitingAssignment;
      var g := MakeOutbound(ClientHello, HelloPayload(Hello(requestedMtu, CAPABILITIES)));
      f := Some(g);
    }

    method ValidateIpv4(packet: bytes, fromServer: bool) returns (fault: Option<C.Failure>)
      ensures fault == if assignment.None? then Some(C.InvalidIpv4Packet)
                       else C.FaultV4(assignment.value, fromServer, packet)
    {
      if assignment.None? || |packet| < 20 || |packet| > assignment.value.mtu {
        return Some(C.InvalidIpv4Packet);
      }
      var headerLength := packet[0] % 16 * 4;
      if packet[0] / 16 != 4 || headerLength < 20 || headerLength > |packet|
         || ReadU16(packet, 2) != |packet| {
        return Some(C.InvalidIpv4Packet);
      }
      var address := if fromServer then [packet[16], packet[17], packet[18], packet[19]]
                     else [packet[12], packet[13], packet[14], packet[15]];
      fault := if address != assignment.value.client then Some(C.AddressMismatch) else None;
    }

    method ValidateIpv6(packet: bytes, fromServer: bool) returns (fault: Option<C.Failure>)
      ensures fault == if assignment.None? then Some(C.InvalidIpv6Packet)
                       else C.FaultV6(assignment.value, fromServer, packet)
    {
      if assignment.None? || assignment.value.prefixLengthV6 == 0 || |packet| < 40 || |packet| > assignment.value.mtu
         || packet[0] / 16 != 6 {
        return Some(C.InvalidIpv6Packet);
      }
      if ReadU16(packet, 4) + 40 != |packet| {
        return Some(C.InvalidIpv6Packet);
      }
      var offset := if fromServer then 24 else 8;
      fault := if packet[offset..offset + 16] != assignment.value.clientV6 then Some(C.AddressMismatch) else None;
    }

    method AssignmentIsAcceptable(a: Assignment) returns (ok: bool)
      requires 1 <= a.prefixLength <= 32
      ensures ok == C.Acceptable(requestedMtu, a)
    {
      if a.mtu > requestedMtu || a.client == a.gateway {
        return false;
      }
      var client, gateway := ToInteger(a.client), ToInteger(a.gateway);
      if Masked(client, a.prefixLength) != Masked(gateway, a.prefixLength) {
        return false;
      }
      if a.prefixLength <= 30 {
        var network, broadcast := Masked(gateway, a.prefixLength), Broadcast(gateway, a.prefixLength);
        if client == network || client == broadcast || gateway == network || gateway == broadcast {
          return false;
        }
      }
      if a.prefixLengthV6 == 0 {
        return a.clientV6 == IPV6_ZERO && a.gatewayV6 == IPV6_ZERO;
      }
      ok := a.prefixLengthV6 == 64 && a.clientV6 != a.gatewayV6 && a.clientV6[..8] == a.gatewayV6[..8];
    }

    method HandleAssignment(f: Frame, note: ErrorText) returns (reply: C.Reply)
      requires Valid() && state == C.AwaitingAssignment
      modifies this
      ensures Valid() && Matches(C.HandleAssignment(old(Model()), f, note), reply)
    {
      if f.kind != IpAssign {
        reply := Fail(C.UnexpectedMessage, note);
        return;
      }
      var a := DecodeAssignment(f.payload);
      if a.None? {
        reply := Fail(C.InvalidControlPayload, note);
        return;
      }
      var ok := AssignmentIsAcceptable(a.value);
      if !ok {
        reply := Fail(C.InvalidAssignment, note);
        return;
      }
      assignment := a;
      state := C.Established;
      reply := C.SILENT.(assignment := a);
    }

    method HandleData(f: Frame, note: ErrorText) returns (reply: C.Reply)
      requires Valid() && state == C.Established && f.kind in {DataIpv4, DataIpv6}
      modifies this
      ensures Valid() && Matches(C.HandleData(old(Model()), f, note), reply)
    {
      var fault;
      if f.kind == DataIpv4 {
        fault := ValidateIpv4(f.payload, true);
      } else {
        fault := ValidateIpv6(f.payload, true);
      }
      if fault.Some? {
        reply := Fail(fault.value, note);
      } else {
        reply := C.SILENT.(packets := [f.payload]);
      }
    }

    method HandleProbe(f: Frame, note: ErrorText) returns (reply: C.Reply)
      requires Valid() && state == C.Established && f.kind in {MessageType.Ping, Pong}
      modifies this
      ensures Valid() && Matches(C.HandleEstablished(old(Model()), f, note), reply)
    {
      var probe := DecodeProbe(f.payload);
      if probe.None? {
        reply := Fail(C.InvalidControlPayload, note);
      } else if f.kind == MessageType.Ping {
        var g := MakeOutbound(Pong, ProbePayload(probe.value));
        reply := C.SILENT.(frames := [g]);
      } else if pendingNonce.None? || probe.value != pendingNonce.value {
        reply := Fail(C.InvalidControlPayload, note);
      } else {
        pendingNonce := None;
        reply := C.SILENT;
      }
    }

    method HandleEnd(f: Frame, note: ErrorText) returns (reply: C.Reply)
      requires Valid() && state == C.Established && f.kind in {MessageType.Error, Close}
      modifies this
      ensures Valid() && Matches(C.HandleEstablished(old(Model()), f, note), reply)
    {
      var malformed := if f.kind == Close then DecodeClose(f.payload).None? else DecodeError(f.payload).None?;
      if malformed {
        reply := Fail(C.InvalidControlPayload, note);
        return;
      }
      state := C.Closed;
      reply := if f.kind == Close then C.JUST_CLOSE else C.JUST_CLOSE.(remoteError := DecodeError(f.payload));
    }

    method Handle(f: Frame, note: ErrorText) returns (reply: C.Reply)
      requires Valid()
      modifies this
      ensures Valid() && Matches(C.Handle(old(Model()), f, note), reply)
    {
      if state == C.Idle || state == C.Closing || state == C.Closed {
        return C.JUST_CLOSE;
      }
      if f.sequence != nextExpected {
        reply := Fail(C.InvalidSequence, note);
        return;
      }
      nextExpected := Next64(nextExpected);
      if state == C.AwaitingAssignment {
        reply := HandleAssignment(f, note);
        return;
      }
      match f.kind {
        case DataIpv4 => reply := HandleData(f, note);
        case DataIpv6 => reply := HandleData(f, note);
        case Ping => reply := HandleProbe(f, note);
        case Pong => reply := HandleProbe(f, note);
        case Error => reply := HandleEnd(f, note);
        case Close => reply := HandleEnd(f, note);
        case _ => reply := Fail(C.UnexpectedMessage, note);
      }
    }

    method MakeDataToServer(packet: bytes) returns (f: Option<Frame>)
      requires Valid()
      modifies this
      ensures Valid() && (Model(), f) == C.MakeData(old(Model()), packet)
    {
      if state != C.Established {
        return None;
      }
      var v6 := |packet| > 0 && packet[0] / 16 == 6;
      var fault;
      if v6 {
        fault := ValidateIpv6(packet, false);
      } else {
        fault := ValidateIpv4(packet, false);
      }
      if fault.Some? {
        return None;
      }
      var g := MakeOutbound(if v6 then DataIpv6 else DataIpv4, packet);
      f := Some(g);
    }

    method MakePing(nonce: u64) returns (f: Option<Frame>)
      requires Valid()
      modifies this
      ensures Valid() && (Model(), f) == C.MakePing(old(Model()), nonce)
    {
      if state != C.Established || pendingNonce.Some? {
        return None;
      }
      pendingNonce := Some(nonce);
      var g := MakeOutbound(MessageType.Ping, ProbePayload(nonce));
      f := Some(g);
    }

    method MakeClose(code: u16) returns (f: Option<Frame>)
      requires Valid()
      modifies this
      ensures Valid() && (Model(), f) == C.MakeClose(old(Model()), code)
    {
      if state != C.AwaitingAssignment && state != C.Established {
        return None;
      }
      state := C.Closing;
      var g := MakeOutbound(MessageType.Close, ClosePayload(code));
      f := Some(g);
    }

    method OnTransportClosed()
      requires Valid()
      modifies this
      ensures Valid() && Model() == old(Model()).(state := C.Closed)
    {
      state := C.Closed;
    }
  }
}
