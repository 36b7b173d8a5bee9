/**
 * What exactly the client's controller does with each frame and each request, said in terms of packets,
 * payloads and numbers and not of the controller's own functions.
 */
module ClientOutcomes {
  import opened Bytes
  import opened Wire
  import opened Control
  import opened Packets
  import C = ClientSession

  // ---------- Packets ----------

  /** A well-formed IPv4 packet within the MTU. */
  predicate FitsV4(a: Assignment, packet: bytes) {
    ShapedV4(packet) && |packet| <= a.mtu
  }

  /** A well-formed IPv6 packet within the MTU, where IPv6 was assigned. */
  predicate FitsV6(a: Assignment, packet: bytes) {
    a.prefixLengthV6 != 0 && ShapedV6(packet) && |packet| <= a.mtu
  }

  /** Sent from the assigned address of its family. */
  predicate FromUs(a: Assignment, packet: bytes) {
    || (FitsV4(a, packet) && packet[12..16] == a.client)
    || (FitsV6(a, packet) && packet[8..24] == a.clientV6)
  }

  /** Sent to the assigned address. */
  predicate ToUsV4(a: Assignment, packet: bytes) {
    FitsV4(a, packet) && packet[16..20] == a.client
  }

  predicate ToUsV6(a: Assignment, packet: bytes) {
    FitsV6(a, packet) && packet[24..40] == a.clientV6
  }

  /** The frame with the client's next number. */
  function Numbered(k: C.Client, kind: MessageType, payload: bytes): Frame {
    Frame(kind, 0, k.outbound, payload)
  }

  function Counted(k: C.Client): C.Client {
    k.(outbound := if k.outbound == 0xFFFF_FFFF_FFFF_FFFF then 0 else k.outbound + 1)
  }

  /**
   * A packet is taken exactly by an established client from whose address it comes, well formed and within the
   * MTU; it becomes the next DATA frame of its family, unchanged. Any other packet leaves no trace.
   */
  lemma DataExactly(k: C.Client, packet: bytes)
    requires C.Assigned(k)
    ensures var (k', f) := C.MakeData(k, packet);
            if k.state == C.Established && FromUs(k.assignment.value, packet)
            then && k' == Counted(k)
                 && f == Some(Numbered(k, if ShapedV6(packet) then DataIpv6 else DataIpv4, packet))
            else f.None? && k' == k
  {
  }

  // ---------- Requests ----------

  /** A client starts once, probes once at a time, and asks to close once. */
  lemma RequestsExactly(k: C.Client, nonce: u64, code: u16)
    ensures C.Start(k) == if k.state != C.Idle then (k, None)
                          else (Counted(k).(state := C.AwaitingAssignment),
                                Some(Numbered(k, ClientHello, HelloPayload(Hello(k.requestedMtu, 3)))))
    ensures C.MakePing(k, nonce) == if k.state != C.Established || k.pendingNonce.Some? then (k, None)
                                    else (Counted(k).(pendingNonce := Some(nonce)),
                                          Some(Numbered(k, MessageType.Ping, ProbePayload(nonce))))
    ensures C.MakeClose(k, code) == if k.state != C.AwaitingAssignment && k.state != C.Established then (k, None)
                                    else (Counted(k).(state := C.Closing),
                                          Some(Numbered(k, MessageType.Close, ClosePayload(code))))
  {
  }

  // ---------- Frames ----------

  predicate Open(k: C.Client) {
    k.state == C.AwaitingAssignment || k.state == C.Established
  }

  /** The payload prints a valid assignment. */
  predicate Assigns(payload: bytes, a: Assignment) {
    ValidAssignment(a) && payload == AssignmentPayload(a)
  }

  /** The payload prints an ERROR whose text is short enough. */
  predicate Tells(payload: bytes, e: ErrorMessage) {
    |e.text| <= 1024 && payload == ErrorPayload(e)
  }

  lemma AssignmentIsRead(payload: bytes)
    ensures forall a :: Assigns(payload, a) <==> DecodeAssignment(payload) == Some(a)
  {
    forall a
      ensures Assigns(payload, a) <==> DecodeAssignment(payload) == Some(a)
    {
      DecodeAssignmentPayload(a);
      if DecodeAssignment(payload).Some? {
        DecodedAssignmentPrintsBack(payload);
      }
    }
  }

  lemma ErrorIsRead(payload: bytes)
    ensures forall e :: Tells(payload, e) <==> DecodeError(payload) == Some(e)
  {
    forall e
      ensures Tells(payload, e) <==> DecodeError(payload) == Some(e)
    {
      DecodeErrorPayload(e);
      if DecodeError(payload).Some? {
        DecodedErrorPrintsBack(payload);
      }
    }
  }

  lemma ProbeIsRead(payload: bytes, n: u64)
    ensures payload == ProbePayload(n) <==> DecodeProbe(payload) == Some(n)
  {
    DecodeProbePayload(n);
    if DecodeProbe(payload).Some? {
      DecodedProbePrintsBack(payload);
    }
  }

  /** Why an established client objects to a frame with the expected number, by the code it will report. */
  function EstablishedObjection(k: C.Client, f: Frame): Option<u16>
    requires k.assignment.Some?
  {
    var a := k.assignment.value;
    match f.kind
    case DataIpv4 => if ToUsV4(a, f.payload) then None else if FitsV4(a, f.payload) then Some(106) else Some(105)
    case DataIpv6 => if ToUsV6(a, f.payload) then None else if FitsV6(a, f.payload) then Some(106) else Some(107)
    case Ping => if |f.payload| == 8 then None else Some(103)
    case Pong => if k.pendingNonce.Some? && f.payload == ProbePayload(k.pendingNonce.value) then None else Some(103)
    case Error => if 2 <= |f.payload| <= 1026 then None else Some(103)
    case Close => if |f.payload| == 2 then None else Some(103)
    case ClientHello => Some(101)
    case IpAssign => Some(101)
  }

  /** Likewise for a client that awaits its assignment. */
  ghost function AwaitingObjection(k: C.Client, f: Frame): Option<u16> {
    if f.kind != IpAssign then Some(101)
    else if !exists a :: Assigns(f.payload, a) then Some(103)
    else if !exists a :: Assigns(f.payload, a) && C.Acceptable(k.requestedMtu, a) then Some(104)
    else None
  }

  /** The code of the ERROR with which the client answers the frame, if it does. */
  ghost function Objection(k: C.Client, f: Frame): Option<u16>
    requires C.Assigned(k)
  {
    if !Open(k) then None
    else if f.sequence != k.expected then Some(102)
    else if k.state == C.AwaitingAssignment then AwaitingObjection(k, f)
    else EstablishedObjection(k, f)
  }

  /** The client once it has counted an expected frame. */
  function Advanced(k: C.Client, f: Frame): C.Client {
    if f.sequence != k.expected then k
    else k.(expected := if k.expected == 0xFFFF_FFFF_FFFF_FFFF then 0 else k.expected + 1)
  }

  lemma AwaitingObjects(k: C.Client, f: Frame, note: ErrorText)
    ensures var e := C.HandleAssignment(k, f, note);
            match AwaitingObjection(k, f)
            case Some(code) =>
              e == C.Effect(Counted(k).(state := C.Closing),
                            C.Reply([Numbered(k, MessageType.Error, ErrorPayload(ErrorMessage(code, note)))], [], None, None, true))
            case None =>
              exists a :: && Assigns(f.payload, a) && C.Acceptable(k.requestedMtu, a)
                          && e == C.Effect(k.(state := C.Established, assignment := Some(a)),
                                           C.Reply([], [], Some(a), None, false))
  {
    AssignmentIsRead(f.payload);
    var d := DecodeAssignment(f.payload);
    if d.Some? {
      assert Assigns(f.payload, d.value);
    }
  }

  lemma EstablishedObjects(k: C.Client, f: Frame, note: ErrorText)
    requires k.assignment.Some? && EstablishedObjection(k, f).Some?
    ensures C.HandleEstablished(k, f, note)
         == C.Effect(Counted(k).(state := C.Closing),
                     C.Reply([Numbered(k, MessageType.Error, ErrorPayload(ErrorMessage(EstablishedObjection(k, f).value, note)))],
                             [], None, None, true))
  {
    var code := EstablishedObjection(k, f).value;
    if k.pendingNonce.Some? {
      ProbeIsRead(f.payload, k.pendingNonce.value);
    }
    FailsWith(k, code, note);
  }

  lemma FailsWith(k: C.Client, code: u16, note: ErrorText)
    ensures forall x :: C.CodeOf(x) == code ==>
              C.Fail(k, x, note)
              == C.Effect(Counted(k).(state := C.Closing),
                          C.Reply([Numbered(k, MessageType.Error, ErrorPayload(ErrorMessage(code, note)))], [], None, None, true))
  {
  }

  /** An objection is reported under its code, with nothing delivered, and closes. */
  lemma ObjectsExactly(k: C.Client, f: Frame, note: ErrorText)
    requires C.Assigned(k) && Objection(k, f).Some?
    ensures C.Handle(k, f, note)
         == C.Effect(Counted(Advanced(k, f)).(state := C.Closing),
                     C.Reply([Numbered(k, MessageType.Error, ErrorPayload(ErrorMessage(Objection(k, f).value, note)))],
                             [], None, None, true))
  {
    if f.sequence == k.expected {
      if k.state == C.AwaitingAssignment {
        AwaitingObjects(Advanced(k, f), f, note);
      } else {
        EstablishedObjects(Advanced(k, f), f, note);
      }
    }
  }

  /** What an established client does with a frame it does not object to. */
  lemma AcceptsExactly(k: C.Client, f: Frame, note: ErrorText)
    requires k.state == C.Established && k.assignment.Some? && Objection(k, f).None?
    ensures var k1, e := Advanced(k, f), C.Handle(k, f, note);
            match f.kind
            case Ping =>
              e == C.Effect(Counted(k1), C.Reply([Numbered(k, Pong, f.payload)], [], None, None, false))
            case Pong => e == C.Effect(k1.(pendingNonce := None), C.Reply([], [], None, None, false))
            case Close => e == C.Effect(k1.(state := C.Closed), C.Reply([], [], None, None, true))
            case Error =>
              exists m :: Tells(f.payload, m)
                          && e == C.Effect(k1.(state := C.Closed), C.Reply([], [], None, Some(m), true))
            case _ => f.kind in DATA && e == C.Effect(k1, C.Reply([], [f.payload], None, None, false))
  {
    if f.kind == MessageType.Ping {
      DecodedProbePrintsBack(f.payload);
    } else if f.kind == Pong {
      ProbeIsRead(f.payload, k.pendingNonce.value);
    } else if f.kind == MessageType.Error {
      ErrorIsRead(f.payload);
      assert Tells(f.payload, DecodeError(f.payload).value);
    }
  }

  /** A client that awaits its assignment and does not object is established with it. */
  lemma EstablishesExactly(k: C.Client, f: Frame, note: ErrorText)
    requires k.state == C.AwaitingAssignment && Objection(k, f).None?
    ensures exists a :: && Assigns(f.payload, a) && C.Acceptable(k.requestedMtu, a)
                        && C.Handle(k, f, note)
                           == C.Effect(Advanced(k, f).(state := C.Established, assignment := Some(a)),
                                       C.Reply([], [], Some(a), None, false))
  {
    AwaitingObjects(Advanced(k, f), f, note);
  }

  /** A client not started, or closing, only asks to close. */
  lemma ClosedExactly(k: C.Client, f: Frame, note: ErrorText)
    requires C.Assigned(k) && !Open(k)
    ensures C.Handle(k, f, note) == C.Effect(k, C.Reply([], [], None, None, true))
  {
  }

  /** A packet reaches the device exactly when it is the payload of the expected DATA frame, well formed and for us. */
  lemma DeliversExactly(k: C.Client, f: Frame, note: ErrorText)
    requires C.Assigned(k)
    ensures C.Handle(k, f, note).reply.packets
         == if && k.state == C.Established && f.sequence == k.expected
               && ((f.kind == DataIpv4 && ToUsV4(k.assignment.value, f.payload))
                   || (f.kind == DataIpv6 && ToUsV6(k.assignment.value, f.payload)))
            then [f.payload] else []
  {
    if Objection(k, f).Some? {
      ObjectsExactly(k, f, note);
    } else if k.state == C.Established {
      AcceptsExactly(k, f, note);
    } else if k.state == C.AwaitingAssignment {
      EstablishesExactly(k, f, note);
    }
  }

  /** The frame is the expected one of an established session, and reports the error `m`. */
  predicate HearsError(k: C.Client, f: Frame, m: ErrorMessage) {
    k.state == C.Established && f.sequence == k.expected && f.kind == MessageType.Error && Tells(f.payload, m)
  }

  /** The server's error is passed on exactly then, and the session ends with it. */
  lemma RemoteErrorExactly(k: C.Client, f: Frame, note: ErrorText, m: ErrorMessage)
    requires C.Assigned(k)
    ensures var e := C.Handle(k, f, note);
            && (e.reply.remoteError == Some(m) <==> HearsError(k, f, m))
            && (e.reply.remoteError == Some(m) ==>
                  e.client.state == C.Closed && e.reply == C.Reply([], [], None, Some(m), true))
  {
    ErrorIsRead(f.payload);
    if Objection(k, f).Some? {
      ObjectsExactly(k, f, note);
      if Tells(f.payload, m) {
        assert |f.payload| == 2 + |m.text|;
      }
    } else if k.state == C.Established {
      AcceptsExactly(k, f, note);
    } else if k.state == C.AwaitingAssignment {
      EstablishesExactly(k, f, note);
    }
  }
}
