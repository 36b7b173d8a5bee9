/** The honest server, with its shared pool, keeps the dialogue's script. */
module DialogueServer {
  import opened Bytes
  import opened Wire
  import opened Control
  import opened Leases
  import opened Dialogue
  import opened DialogueSteps
  import C = ClientSession
  import S = ServerSession

  /** The terms in force once `sent` has been sent. */
  function NewTerms(terms: Option<Assignment>, sent: seq<Frame>): Option<Assignment> {
    if sent != [] && sent[0].kind == IpAssign then DecodeAssignment(sent[0].payload) else terms
  }

  lemma AcquiredIsIssuable(c: Config, p: Pool, identity: string, now: int)
    requires ValidConfig(c)
    ensures var r := AcquireSpec(c, p, identity, now).1;
            r.Ok? ==> && C.Issuable(c, ToInteger(r.value.address)) && r.value.addressV6 == DeriveV6(c, r.value.address)
                      && FromInteger(ToInteger(r.value.address)) == r.value.address
  {
  }

  /** Renewal keeps the addresses of a lease whose IPv6 address was derived. */
  lemma RenewedKeepsAddresses(c: Config, p: Pool, l: Lease, now: int)
    requires PoolInv(c, p) && l.addressV6 == DeriveV6(c, l.address)
    ensures var r := RenewSpec(c, p, l, now).1;
            r.Some? ==> r.value.address == l.address && r.value.addressV6 == l.addressV6
  {
    ReapKeeps(c, p, now);
    var q := Reap(p, now);
    assert Current(q, l) ==> GoodEntry(c, q, l.identity);
  }

  lemma ErrorFrameOk(terms: Option<Assignment>, i: nat, sequence: u64, code: u16, note: ErrorText)
    requires i > 0 || terms.None?
    ensures DownFrameOk(terms, i, S.ErrorFrame(sequence, code, note))
  {
  }

  function Dead(s: S.Session): S.Session {
    s.(state := S.Closed, lease := None)
  }

  // ---------- The first frame ----------

  /** How the server answers a valid hello: with terms, or without a lease, or unable to encode its offer. */
  ghost predicate Answered(c: Config, s: S.Session, mtu: u16, r: Result<Lease, LeaseError>, e: S.Effect, note: ErrorText)
    requires ValidConfig(c)
  {
    && e.reply.packets == [] && e.session.identity == s.identity && S.HoldsIffEstablished(e.session)
    && (Objects(c, mtu, r).Some? ==>
          && !ServerLive(e.session) && e.reply.close && ServerFaultOk(c, Objects(c, mtu, r).value)
          && e.reply.frames == [S.ErrorFrame(s.outbound, Objects(c, mtu, r).value, note)])
    && (Objects(c, mtu, r).None? ==>
          var offer := C.OfferFor(c, ToInteger(r.value.address), mtu);
          && TermsOk(c, mtu, offer) && e.session.state == S.Established && Honours(c, e.session, offer)
          && e.session.expected == Next64(s.expected) && e.session.outbound == Next64(s.outbound)
          && e.reply.frames == [Frame(IpAssign, 0, s.outbound, AssignmentPayload(offer))]
          && !e.reply.close)
  }

  /** The ERROR instead of terms, if any. */
  function Objects(c: Config, mtu: u16, r: Result<Lease, LeaseError>): (code: Option<u16>)
    requires ValidConfig(c)
    ensures code.None? ==> r.Ok?
  {
    if r.Err? then Some(S.CodeOf(S.LeaseUnavailable))
    else if !ValidAssignment(C.OfferFor(c, ToInteger(r.value.address), mtu)) then Some(S.CodeOf(S.InvalidControlPayload))
    else None
  }

  lemma HonestHelloAnswered(c: Config, p: Pool, s: S.Session, mtu: u16, f: Frame, now: int, note: ErrorText)
    requires ValidConfig(c) && C.ValidMtu(mtu) && S.HoldsIffEstablished(s)
    requires s.state == S.AwaitingHello && s.identity != "" && f.sequence == s.expected
    requires f.kind == ClientHello && f.payload == HelloPayload(Hello(mtu, CAPABILITIES))
    ensures Answered(c, s, mtu, AcquireSpec(c, p, s.identity, now).1, S.Handle(c, p, s, f, now, note), note)
  {
    DecodeHelloPayload(Hello(mtu, CAPABILITIES));
    AcquiredIsIssuable(c, p, s.identity, now);
    var r := AcquireSpec(c, p, s.identity, now).1;
    if r.Ok? {
      var n := ToInteger(r.value.address);
      if Sound(c) {
        C.ServiceableOffer(c, n, mtu);
        assert C.OfferAccepted(c, n, mtu);
      }
      OfferHonoured(c, n, r.value, mtu);
    }
  }

  /** The offer the session makes is the one judged, and it carries the lease's addresses. */
  lemma OfferHonoured(c: Config, n: u32, l: Lease, mtu: u16)
    requires ValidConfig(c) && n == ToInteger(l.address) && FromInteger(n) == l.address
    requires l.addressV6 == DeriveV6(c, l.address)
    ensures S.Offer(c, l, Hello(mtu, CAPABILITIES)) == C.OfferFor(c, n, mtu)
  {
  }

  lemma HelloOutcome(c: Config, p: Pool, d: Dialogue, now: int, note: ErrorText)
    requires ValidConfig(c) && Script(c, d)
    requires d.server.state == S.AwaitingHello && d.up != []
    ensures Answered(c, d.server, d.client.requestedMtu, AcquireSpec(c, p, d.server.identity, now).1,
                     S.Handle(c, p, d.server, d.up[0], now, note), note)
  {
    assert UpFrameOk(d.client.requestedMtu, d.terms, 0, d.up[0]) && d.up[0].sequence == Number(0);
    HonestHelloAnswered(c, p, d.server, d.client.requestedMtu, d.up[0], now, note);
  }

  lemma HelloKeeps(c: Config, p: Pool, d: Dialogue, now: int, note: ErrorText)
    requires ValidConfig(c) && Script(c, d)
    requires d.server.state == S.AwaitingHello && d.up != []
    ensures var e := S.Handle(c, p, d.server, d.up[0], now, note);
            Script(c, ServerHandled(d, e, e.reply.frames, NewTerms(d.terms, e.reply.frames)))
  {
    HelloOutcome(c, p, d, now, note);
    var r := AcquireSpec(c, p, d.server.identity, now).1;
    AnswerKeeps(c, d, r, S.Handle(c, p, d.server, d.up[0], now, note), note);
  }

  lemma AnswerKeeps(c: Config, d: Dialogue, r: Result<Lease, LeaseError>, e: S.Effect, note: ErrorText)
    requires ValidConfig(c) && Script(c, d) && d.server.state == S.AwaitingHello && d.up != []
    requires Answered(c, d.server, d.client.requestedMtu, r, e, note)
    ensures Script(c, ServerHandled(d, e, e.reply.frames, NewTerms(d.terms, e.reply.frames)))
  {
    var f := e.reply.frames[0];
    AnsweredBy(d, e, f, NewTerms(d.terms, [f]));
    var objection := Objects(c, d.client.requestedMtu, r);
    if objection.None? {
      var offer := C.OfferFor(c, ToInteger(r.value.address), d.client.requestedMtu);
      DecodeAssignmentPayload(offer);
      NoErrorCode(f);
      FirstFrame(c, d, e.session, f, Some(offer), []);
    } else {
      ErrorFrameOk(d.terms, 0, d.server.outbound, objection.value, note);
      OneErrorCode(d.server.outbound, objection.value, note);
      FirstFrame(c, d, e.session, f, d.terms, [objection.value]);
    }
  }

  lemma AnsweredBy(d: Dialogue, e: S.Effect, f: Frame, terms: Option<Assignment>)
    requires e.reply.frames == [f] && e.reply.packets == []
    ensures ServerHandled(d, e, e.reply.frames, terms)
         == d.(server := e.session, down := d.down + [f], upHandled := d.upHandled + 1,
               upDelivered := d.upDelivered + [], terms := terms,
               serverFaults := d.serverFaults + ErrorCodes([f]))
  {
  }

  /** The server answers the hello: by its terms, establishing, or by a refusal. */
  lemma FirstFrame(c: Config, d: Dialogue, s: S.Session, f: Frame, terms: Option<Assignment>, codes: seq<u16>)
    requires Script(c, d) && d.server.state == S.AwaitingHello && d.up != []
    requires f.sequence == d.server.outbound && s.identity == d.server.identity && S.HoldsIffEstablished(s)
    requires DownFrameOk(terms, 0, f) && forall x :: x in codes ==> ServerFaultOk(c, x)
    requires if f.kind == IpAssign
             then && terms.Some? && TermsOk(c, d.client.requestedMtu, terms.value) && s.state == S.Established
                  && Honours(c, s, terms.value) && s.outbound == Next64(d.server.outbound)
                  && s.expected == Next64(d.server.expected)
             else terms == d.terms && !ServerLive(s)
    ensures Script(c, d.(server := s, down := d.down + [f], upHandled := d.upHandled + 1,
                         upDelivered := d.upDelivered + [], terms := terms, serverFaults := d.serverFaults + codes))
  {
    PastHello(c, d);
    var d1 := d.(server := Dead(d.server), upHandled := d.upHandled + 1, upDelivered := d.upDelivered + []);
    NextNumber(0);
    ServerSends(c, d1, s, f, terms, codes);
  }

  /** The hello handled, and nothing yet sent. */
  lemma PastHello(c: Config, d: Dialogue)
    requires Script(c, d) && d.server.state == S.AwaitingHello && d.up != []
    ensures Script(c, d.(server := Dead(d.server), upHandled := d.upHandled + 1, upDelivered := d.upDelivered + []))
    ensures d.upDelivered + [] == Select(d.up[..d.upHandled + 1], DATA)
  {
    assert UpFrameOk(d.client.requestedMtu, d.terms, 0, d.up[0]);
    SelectOne(d.up[0], DATA);
    ServerAdvances(c, d, Dead(d.server), []);
    SelectExtend(d.up, 0, DATA);
  }

  // ---------- Later frames ----------

  /** A packet the honest client may send is one the honest server accepts. */
  lemma UplinkAgrees(c: Config, s: S.Session, a: Assignment, l: Lease, f: Frame)
    requires Honours(c, s, a) && l.address == a.client && l.addressV6 == a.clientV6 && f.kind in DATA
    requires C.Fault(a, false, f.kind, f.payload).None?
    ensures S.UplinkFault(l, s.mtu, f).None?
  {
  }

  /** What an established server does with one frame of an honest client. */
  ghost predicate Served(c: Config, s: S.Session, a: Assignment, f: Frame, e: S.Effect, note: ErrorText) {
    && e.session.identity == s.identity && S.HoldsIffEstablished(e.session)
    && (ServerLive(e.session) ==>
          && e.session.state == S.Established && Honours(c, e.session, a) && !e.reply.close
          && e.session.expected == Next64(s.expected) && e.reply.packets == Select([f], DATA)
          && (if f.kind == Ping
              then e.reply.frames == [Frame(Pong, 0, s.outbound, f.payload)] && e.session.outbound == Next64(s.outbound)
              else e.reply.frames == [] && e.session.outbound == s.outbound))
    && (!ServerLive(e.session) ==>
          && e.reply.packets == [] && e.reply.close
          && (e.reply.frames == [] || e.reply.frames == [S.ErrorFrame(s.outbound, S.CodeOf(S.LeaseUnavailable), note)]))
  }

  lemma HonestFrameServed(c: Config, p: Pool, s: S.Session, a: Assignment, mtu: u16, i: nat, f: Frame, now: int, note: ErrorText)
    requires ValidConfig(c) && PoolInv(c, p) && S.HoldsIffEstablished(s)
    requires s.state == S.Established && Honours(c, s, a) && f.sequence == s.expected
    requires i > 0 && UpFrameOk(mtu, Some(a), i, f)
    ensures Served(c, s, a, f, S.Handle(c, p, s, f, now, note), note)
  {
    SelectOne(f, DATA);
    if S.Renews(f.kind) {
      RenewedKeepsAddresses(c, p, s.lease.value, now);
      var r := RenewSpec(c, p, s.lease.value, now).1;
      if r.Some? {
        if f.kind == Ping {
          DecodedProbePrintsBack(f.payload);
        } else {
          UplinkAgrees(c, s, a, r.value, f);
        }
      }
    }
  }

  lemma EstablishedOutcome(c: Config, p: Pool, d: Dialogue, now: int, note: ErrorText)
    requires ValidConfig(c) && PoolInv(c, p) && Script(c, d)
    requires d.server.state == S.Established && d.upHandled < |d.up|
    ensures Served(c, d.server, d.terms.value, d.up[d.upHandled],
                   S.Handle(c, p, d.server, d.up[d.upHandled], now, note), note)
  {
    var f := d.up[d.upHandled];
    assert UpFrameOk(d.client.requestedMtu, d.terms, d.upHandled, f) && f.sequence == Number(d.upHandled);
    HonestFrameServed(c, p, d.server, d.terms.value, d.client.requestedMtu, d.upHandled, f, now, note);
  }

  lemma LaterKeeps(c: Config, p: Pool, d: Dialogue, now: int, note: ErrorText)
    requires ValidConfig(c) && PoolInv(c, p) && Script(c, d)
    requires d.server.state == S.Established && d.upHandled < |d.up|
    ensures var e := S.Handle(c, p, d.server, d.up[d.upHandled], now, note);
            Script(c, ServerHandled(d, e, e.reply.frames, NewTerms(d.terms, e.reply.frames)))
  {
    EstablishedOutcome(c, p, d, now, note);
    ServedKeeps(c, d, S.Handle(c, p, d.server, d.up[d.upHandled], now, note), note);
  }

  lemma ServedKeeps(c: Config, d: Dialogue, e: S.Effect, note: ErrorText)
    requires Script(c, d) && d.server.state == S.Established && d.upHandled < |d.up|
    requires Served(c, d.server, d.terms.value, d.up[d.upHandled], e, note)
    ensures Script(c, ServerHandled(d, e, e.reply.frames, NewTerms(d.terms, e.reply.frames)))
  {
    if e.reply.frames == [] {
      ServerAdvances(c, d, e.session, e.reply.packets);
      assert d.down + [] == d.down && d.serverFaults + [] == d.serverFaults;
      assert ServerHandled(d, e, [], d.terms)
          == d.(server := e.session, upHandled := d.upHandled + 1, upDelivered := d.upDelivered + e.reply.packets);
    } else if ServerLive(e.session) {
      PongKeeps(c, d, e);
    } else {
      FaultKeeps(c, d, e, note);
    }
  }

  lemma PongKeeps(c: Config, d: Dialogue, e: S.Effect)
    requires Script(c, d) && d.server.state == S.Established && d.upHandled < |d.up| && d.up[d.upHandled].kind == Ping
    requires e.reply.frames == [Frame(Pong, 0, d.server.outbound, d.up[d.upHandled].payload)]
    requires e.reply.packets == Select([d.up[d.upHandled]], DATA) && e.session.identity == d.server.identity
    requires e.session.state == S.Established && Honours(c, e.session, d.terms.value)
    requires e.session.expected == Next64(d.server.expected) && e.session.outbound == Next64(d.server.outbound)
    ensures Script(c, ServerHandled(d, e, e.reply.frames, d.terms))
  {
    var f, g := d.up[d.upHandled], e.reply.frames[0];
    assert UpFrameOk(d.client.requestedMtu, d.terms, d.upHandled, f);
    var s1 := e.session.(outbound := d.server.outbound);
    ServerAdvances(c, d, s1, e.reply.packets);
    var d1 := d.(server := s1, upHandled := d.upHandled + 1, upDelivered := d.upDelivered + e.reply.packets);
    NextNumber(|d.down|);
    PongIsDue(d, d1);
    ServerSends(c, d1, e.session, g, d.terms, []);
    NoErrorCode(g);
  }

  /** The PING just handled was the only probe under way. */
  lemma PongIsDue(d: Dialogue, d1: Dialogue)
    requires Counters(d) && OneProbe(d) && d.upHandled < |d.up| && d.up[d.upHandled].kind == Ping
    requires d1.up == d.up && d1.down == d.down && d1.upHandled == d.upHandled + 1 && d1.downHandled == d.downHandled
    ensures ClientLive(d.client) ==>
              && Probes(d1) == [] && d.client.pendingNonce.Some?
              && d.up[d.upHandled].payload == ProbePayload(d.client.pendingNonce.value)
  {
    ProbesAfterUpHandled(d, d1);
    assert Probes(d)[0] == d.up[d.upHandled].payload && |Probes(d)| == 1 + |Probes(d1)|;
  }

  lemma FaultKeeps(c: Config, d: Dialogue, e: S.Effect, note: ErrorText)
    requires Script(c, d) && d.server.state == S.Established && d.upHandled < |d.up|
    requires e.reply.frames == [S.ErrorFrame(d.server.outbound, S.CodeOf(S.LeaseUnavailable), note)]
    requires e.reply.packets == [] && !ServerLive(e.session) && S.HoldsIffEstablished(e.session)
    requires e.session.identity == d.server.identity
    ensures Script(c, ServerHandled(d, e, e.reply.frames, d.terms))
  {
    ServerAdvances(c, d, e.session, []);
    var d1 := d.(server := e.session, upHandled := d.upHandled + 1, upDelivered := d.upDelivered + []);
    OneErrorCode(d.server.outbound, S.CodeOf(S.LeaseUnavailable), note);
    ErrorFrameOk(d.terms, |d.down|, d.server.outbound, S.CodeOf(S.LeaseUnavailable), note);
    ServerSends(c, d1, e.session, e.reply.frames[0], d.terms, [S.CodeOf(S.LeaseUnavailable)]);
  }

  /** Whatever honest frame comes next, and whatever the other sessions did to the pool. */
  lemma ServerHandlesKeeps(c: Config, p: Pool, d: Dialogue, now: int, note: ErrorText)
    requires ValidConfig(c) && PoolInv(c, p) && Script(c, d)
    requires ServerLive(d.server) && d.upHandled < |d.up|
    ensures var e := S.Handle(c, p, d.server, d.up[d.upHandled], now, note);
            && Script(c, ServerHandled(d, e, e.reply.frames, NewTerms(d.terms, e.reply.frames)))
            && |e.reply.frames| <= 1 && e.reply.close == !ServerLive(e.session)
            && (e.reply.frames != [] ==> e.reply.packets == [])
            && e.session.identity == d.server.identity && S.HoldsIffEstablished(e.session)
            && (forall f :: f in e.reply.frames ==> Encodable(f))
            && (forall f :: f in e.reply.frames && f.kind == MessageType.Error ==> !ServerLive(e.session))
  {
    if d.server.state == S.AwaitingHello {
      HelloOutcome(c, p, d, now, note);
      HelloKeeps(c, p, d, now, note);
    } else {
      assert UpFrameOk(d.client.requestedMtu, d.terms, d.upHandled, d.up[d.upHandled]);
      EstablishedOutcome(c, p, d, now, note);
      LaterKeeps(c, p, d, now, note);
      PongHasNoPacket(d.up[d.upHandled]);
    }
  }

  lemma PongHasNoPacket(f: Frame)
    ensures f.kind == Ping ==> Select([f], DATA) == []
  {
    SelectOne(f, DATA);
  }

  /** The server's transport ends, possibly while a frame is being handled. */
  lemma ServerEnds(c: Config, d: Dialogue, s: S.Session)
    requires Script(c, d) && !ServerLive(s) && S.HoldsIffEstablished(s) && s.identity == d.server.identity
    ensures Script(c, d.(server := s))
  {
    SameContents(d, d.(server := s));
  }

  // ---------- A packet from the TUN device ----------

  lemma ServerDataKeeps(c: Config, p: Pool, d: Dialogue, packet: bytes, now: int)
    requires ValidConfig(c) && PoolInv(c, p) && Script(c, d)
    ensures var e := S.MakeData(c, p, d.server, packet, now);
            && e.session.identity == d.server.identity && S.HoldsIffEstablished(e.session) && |e.reply.frames| <= 1
            && Script(c, d.(server := e.session, down := d.down + e.reply.frames))
            && (e.reply.frames != [] ==> && e.session.state == S.Established && Encodable(e.reply.frames[0])
                                         && e.reply.frames[0].kind in DATA && e.reply.frames[0].payload == packet)
  {
    MakeDataOutcome(c, p, d.server, packet, now);
    var e := S.MakeData(c, p, d.server, packet, now);
    if e.reply.frames != [] {
      DataSentKeeps(c, d, e, packet);
    } else {
      assert d.(server := e.session, down := d.down + e.reply.frames) == d.(server := e.session);
      if d.server != e.session {
        ServerEnds(c, d, e.session);
      } else {
        assert d.(server := e.session) == d;
      }
    }
  }

  lemma MakeDataOutcome(c: Config, p: Pool, s: S.Session, packet: bytes, now: int)
    requires ValidConfig(c) && PoolInv(c, p) && S.HoldsIffEstablished(s)
    requires s.lease.Some? ==> s.lease.value.addressV6 == DeriveV6(c, s.lease.value.address)
    ensures var e := S.MakeData(c, p, s, packet, now);
            && e.session.identity == s.identity && S.HoldsIffEstablished(e.session)
            && (e.reply.frames == [] ==> e.session == s || !ServerLive(e.session))
            && (e.reply.frames != [] ==>
                  && s.state == S.Established && S.Addressed(s.lease.value, s.mtu, packet)
                  && e.reply.frames == [Frame(S.DataKind(packet), 0, s.outbound, packet)]
                  && e.session.lease.Some? && e.session.lease.value.address == s.lease.value.address
                  && e.session.lease.value.addressV6 == s.lease.value.addressV6
                  && e.session == s.(lease := e.session.lease, outbound := Next64(s.outbound)))
  {
    if s.lease.Some? {
      RenewedKeepsAddresses(c, p, s.lease.value, now);
    }
  }

  lemma DataSentKeeps(c: Config, d: Dialogue, e: S.Effect, packet: bytes)
    requires Script(c, d) && d.server.state == S.Established && S.Addressed(d.server.lease.value, d.server.mtu, packet)
    requires e.reply.frames == [Frame(S.DataKind(packet), 0, d.server.outbound, packet)]
    requires && e.session.lease.Some? && e.session.lease.value.address == d.server.lease.value.address
             && e.session.lease.value.addressV6 == d.server.lease.value.addressV6
             && e.session == d.server.(lease := e.session.lease, outbound := Next64(d.server.outbound))
    ensures Script(c, d.(server := e.session, down := d.down + e.reply.frames))
  {
    var f := e.reply.frames[0];
    DownlinkAgrees(c, d.server, d.terms.value, packet);
    NextNumber(|d.down|);
    ServerSends(c, d, e.session, f, d.terms, []);
    assert d.serverFaults + [] == d.serverFaults;
    assert d.(server := e.session, down := d.down + [f], terms := d.terms, serverFaults := d.serverFaults + [])
        == d.(server := e.session, down := d.down + e.reply.frames);
  }

  /** A packet the honest server addresses to its client is one the client accepts. */
  lemma DownlinkAgrees(c: Config, s: S.Session, a: Assignment, packet: bytes)
    requires Honours(c, s, a) && S.Addressed(s.lease.value, s.mtu, packet)
    ensures C.Fault(a, true, S.DataKind(packet), packet).None?
  {
  }
}
