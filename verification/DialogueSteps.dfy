/** Handling a frame keeps the dialogue's script; the only ERRORs are the two honest ones. */
module DialogueSteps {
  import opened Bytes
  import opened Wire
  import opened Control
  import opened Leases
  import opened Dialogue
  import C = ClientSession
  import S = ServerSession

  // ---------- The client handles the next server frame ----------

  /** The dialogue after the client handles the next frame and its reply, if any, is sent. */
  function ClientHandled(d: Dialogue, e: C.Effect, sent: seq<Frame>): Dialogue {
    d.(client := e.client, up := d.up + sent, downHandled := d.downHandled + 1,
       downDelivered := d.downDelivered + e.reply.packets,
       clientFaults := d.clientFaults + ErrorCodes(e.reply.frames))
  }

  /** The server's first frame carries terms that the client accepts. */
  predicate Welcomes(d: Dialogue) {
    && d.down != [] && d.down[0].kind == IpAssign && d.terms.Some? && ValidAssignment(d.terms.value)
    && C.Acceptable(d.client.requestedMtu, d.terms.value)
  }

  /** The ERROR with which the client answers a first frame it does not accept. */
  function Objection(d: Dialogue): u16 {
    if d.down != [] && d.down[0].kind == IpAssign then C.CodeOf(C.InvalidAssignment) else C.CodeOf(C.UnexpectedMessage)
  }

  /** The client awaiting its assignment either establishes or objects. */
  lemma AwaitingHandles(c: Config, d: Dialogue, note: ErrorText)
    requires Script(c, d) && d.client.state == C.AwaitingAssignment && d.downHandled < |d.down|
    ensures var e := C.Handle(d.client, d.down[d.downHandled], note);
            && e.reply.packets == [] && e.client.expected == Next64(d.client.expected)
            && e.client.requestedMtu == d.client.requestedMtu && e.client.pendingNonce == None
            && (if Welcomes(d)
                then && e.client.state == C.Established && e.client.assignment == d.terms
                     && e.client.outbound == d.client.outbound && e.reply.frames == [] && !e.reply.close
                else && (d.down[0].kind == MessageType.Error || (d.down[0].kind == IpAssign && !Sound(c)))
                     && !ClientLive(e.client) && e.client.assignment.None? && e.reply.close
                     && e.reply.frames == [C.ErrorFrame(d.client.outbound, Objection(d), note)])
  {
    FirstFrame(c, d);
    FirstAnswer(d.client, d.down[0], d.terms, note);
  }

  /** The first frame under way is the server's refusal or its terms. */
  predicate Opens(f: Frame, terms: Option<Assignment>) {
    || f.kind == MessageType.Error
    || (f.kind == IpAssign && terms.Some? && ValidAssignment(terms.value) && f.payload == AssignmentPayload(terms.value))
  }

  lemma FirstFrame(c: Config, d: Dialogue)
    requires Script(c, d) && d.client.state == C.AwaitingAssignment && d.downHandled < |d.down|
    ensures d.downHandled == 0 && d.down[0].sequence == d.client.expected && Opens(d.down[0], d.terms)
    ensures d.client.pendingNonce.None? && d.client.assignment.None?
    ensures d.down[0].kind == IpAssign && Sound(c) ==> C.Acceptable(d.client.requestedMtu, d.terms.value)
  {
    assert DownFrameOk(d.terms, 0, d.down[0]) && d.down[0].sequence == Number(0);
  }

  lemma FirstAnswer(k: C.Client, f: Frame, terms: Option<Assignment>, note: ErrorText)
    requires k.state == C.AwaitingAssignment && k.assignment.None? && f.sequence == k.expected && Opens(f, terms)
    ensures var e := C.Handle(k, f, note);
            var k1 := k.(expected := Next64(k.expected));
            if f.kind == IpAssign && C.Acceptable(k.requestedMtu, terms.value)
            then e == C.Effect(k1.(state := C.Established, assignment := terms), C.Reply([], [], terms, None, false))
            else
              var code := if f.kind == IpAssign then C.CodeOf(C.InvalidAssignment) else C.CodeOf(C.UnexpectedMessage);
              e == C.Effect(k1.(state := C.Closing, outbound := Next64(k.outbound)),
                            C.Reply([C.ErrorFrame(k.outbound, code, note)], [], None, None, true))
  {
    if f.kind == IpAssign {
      DecodeAssignmentPayload(terms.value);
    }
  }

  lemma DownProbe(d: Dialogue)
    requires Counters(d) && OneProbe(d) && d.client.state == C.Established
    requires d.downHandled < |d.down| && d.down[d.downHandled].kind == Pong
    ensures d.client.pendingNonce.Some? && d.down[d.downHandled].payload == ProbePayload(d.client.pendingNonce.value)
    ensures Select(d.up[d.upHandled..], {Ping}) == [] && Select(d.down[d.downHandled + 1..], {Pong}) == []
  {
    var f := d.down[d.downHandled];
    SelectDrop(d.down, d.downHandled, {Pong});
    SelectOne(f, {Pong});
    var pings, rest := Select(d.up[d.upHandled..], {Ping}), Select(d.down[d.downHandled + 1..], {Pong});
    assert Probes(d) == pings + ([f.payload] + rest);
    assert |Probes(d)| == |pings| + 1 + |rest|;
    assert Probes(d) == [f.payload];
  }

  /** What an established client does with one frame of an honest server. */
  ghost predicate Accepted(k: C.Client, f: Frame, e: C.Effect) {
    && e.reply.frames == [] && e.client.expected == Next64(k.expected)
    && e.client.requestedMtu == k.requestedMtu && e.client.assignment == k.assignment
    && e.client.outbound == k.outbound && e.reply.packets == Select([f], DATA)
    && (if f.kind == MessageType.Error then e.client.state == C.Closed else e.client.state == C.Established)
    && e.reply.close == (f.kind == MessageType.Error)
    && e.client.pendingNonce == if f.kind == Pong then None else k.pendingNonce
  }

  lemma HonestFrameAccepted(k: C.Client, a: Assignment, i: nat, f: Frame, note: ErrorText)
    requires k.state == C.Established && k.assignment == Some(a) && f.sequence == k.expected
    requires i > 0 && DownFrameOk(Some(a), i, f)
    requires f.kind == Pong ==> k.pendingNonce.Some? && f.payload == ProbePayload(k.pendingNonce.value)
    ensures Accepted(k, f, C.Handle(k, f, note))
  {
    SelectOne(f, DATA);
    if f.kind == Pong {
      DecodeProbePayload(k.pendingNonce.value);
    }
  }

  /** An established client accepts whatever an honest server sends. */
  lemma EstablishedHandles(c: Config, d: Dialogue, note: ErrorText)
    requires Script(c, d) && d.client.state == C.Established && d.downHandled < |d.down|
    ensures Accepted(d.client, d.down[d.downHandled], C.Handle(d.client, d.down[d.downHandled], note))
  {
    var f := d.down[d.downHandled];
    assert DownFrameOk(d.terms, d.downHandled, f) && f.sequence == Number(d.downHandled);
    if f.kind == Pong {
      DownProbe(d);
    }
    HonestFrameAccepted(d.client, d.terms.value, d.downHandled, f, note);
  }

  lemma ProbesAfterDown(d: Dialogue, d': Dialogue)
    requires Counters(d) && OneProbe(d) && d.downHandled < |d.down|
    requires d'.up == d.up && d'.down == d.down && d'.upHandled == d.upHandled && d'.downHandled == d.downHandled + 1
    ensures d.down[d.downHandled].kind != Pong ==> Probes(d') == Probes(d)
    ensures d.down[d.downHandled].kind == Pong && d.client.state == C.Established ==> Probes(d') == []
  {
    SelectDrop(d.down, d.downHandled, {Pong});
    SelectOne(d.down[d.downHandled], {Pong});
    if d.down[d.downHandled].kind == Pong && d.client.state == C.Established {
      DownProbe(d);
    }
  }

  /** Moving past a frame that only the client's state and deliveries notice. */
  lemma ClientAdvances(c: Config, d: Dialogue, k: C.Client)
    requires Script(c, d) && d.downHandled < |d.down| && d.client.state in {C.AwaitingAssignment, C.Established}
    requires k.requestedMtu == d.client.requestedMtu && k.expected == Next64(d.client.expected)
    requires k.state == C.Established || !ClientLive(k)
    requires k.state == C.Established ==>
               && k.outbound == d.client.outbound && k.assignment.Some?
               && k.pendingNonce == if d.down[d.downHandled].kind == Pong then None else d.client.pendingNonce
    requires d.down[d.downHandled].kind == Pong ==> d.client.state == C.Established
    requires k.assignment.Some? ==> k.assignment == d.terms
    ensures Script(c, d.(client := k, downHandled := d.downHandled + 1,
                         downDelivered := d.downDelivered + Select([d.down[d.downHandled]], DATA)))
  {
    var d' := d.(client := k, downHandled := d.downHandled + 1,
                 downDelivered := d.downDelivered + Select([d.down[d.downHandled]], DATA));
    NextNumber(d.downHandled);
    SameContents(d, d');
    DeliversNext(d, d');
    ProbeFollows(d, d');
  }

  lemma DeliversNext(d: Dialogue, d': Dialogue)
    requires d.upHandled <= |d.up| && d.downHandled < |d.down| && Deliveries(d) && ClientLive(d.client)
    requires d'.up == d.up && d'.upHandled == d.upHandled && d'.upDelivered == d.upDelivered && d'.server == d.server
    requires d'.down == d.down && d'.downHandled == d.downHandled + 1
    requires d'.downDelivered == d.downDelivered + Select([d.down[d.downHandled]], DATA)
    ensures Deliveries(d')
  {
    SelectExtend(d.down, d.downHandled, DATA);
  }

  lemma ProbeFollows(d: Dialogue, d': Dialogue)
    requires Counters(d) && OneProbe(d) && d.downHandled < |d.down| && ClientLive(d.client)
    requires d'.up == d.up && d'.down == d.down && d'.upHandled == d.upHandled && d'.downHandled == d.downHandled + 1
    requires d.down[d.downHandled].kind == Pong ==> d.client.state == C.Established
    requires ClientLive(d'.client) && d.down[d.downHandled].kind != Pong ==>
               d'.client.pendingNonce == d.client.pendingNonce
    ensures OneProbe(d')
  {
    ProbesAfterDown(d, d');
  }

  /** Every frame the client can meet keeps the script, and its own ERROR only answers a refusal. */
  lemma ClientHandlesKeeps(c: Config, d: Dialogue, note: ErrorText)
    requires Script(c, d) && d.client.state in {C.AwaitingAssignment, C.Established} && d.downHandled < |d.down|
    ensures var e := C.Handle(d.client, d.down[d.downHandled], note);
            && Script(c, ClientHandled(d, e, e.reply.frames))
            && |e.reply.frames| <= 1 && e.reply.close == !ClientLive(e.client)
            && (e.reply.frames != [] ==> && d.client.state == C.AwaitingAssignment && e.reply.close && !Welcomes(d)
                                         && Encodable(e.reply.frames[0]) && e.reply.frames[0].kind == MessageType.Error)
  {
    var f := d.down[d.downHandled];
    assert DownFrameOk(d.terms, d.downHandled, f);
    if d.client.state == C.Established {
      EstablishedKeeps(c, d, note);
    } else {
      AwaitingHandles(c, d, note);
      if Welcomes(d) {
        AssignmentKeeps(c, d, note);
      } else {
        RefusalKeeps(c, d, note);
      }
    }
  }

  lemma EstablishedKeeps(c: Config, d: Dialogue, note: ErrorText)
    requires Script(c, d) && d.client.state == C.Established && d.downHandled < |d.down|
    ensures var e := C.Handle(d.client, d.down[d.downHandled], note);
            && Script(c, ClientHandled(d, e, [])) && e.reply.frames == [] && e.reply.close == !ClientLive(e.client)
  {
    var e := C.Handle(d.client, d.down[d.downHandled], note);
    EstablishedHandles(c, d, note);
    ClientAdvances(c, d, e.client);
    QuietReply(d, e);
  }

  lemma AssignmentKeeps(c: Config, d: Dialogue, note: ErrorText)
    requires Script(c, d) && d.client.state == C.AwaitingAssignment && Welcomes(d)
    ensures var e := C.Handle(d.client, d.down[0], note);
            Script(c, ClientHandled(d, e, [])) && e.reply.frames == []
  {
    var e := C.Handle(d.client, d.down[0], note);
    AwaitingHandles(c, d, note);
    SelectOne(d.down[0], DATA);
    ClientAdvances(c, d, e.client);
    QuietReply(d, e);
  }

  lemma QuietReply(d: Dialogue, e: C.Effect)
    requires d.downHandled < |d.down| && e.reply.frames == [] && e.reply.packets == Select([d.down[d.downHandled]], DATA)
    ensures ClientHandled(d, e, []) == d.(client := e.client, downHandled := d.downHandled + 1,
                                          downDelivered := d.downDelivered + Select([d.down[d.downHandled]], DATA))
  {
    assert d.up + [] == d.up && d.clientFaults + [] == d.clientFaults;
  }

  lemma RefusalKeeps(c: Config, d: Dialogue, note: ErrorText)
    requires Script(c, d) && d.client.state == C.AwaitingAssignment && d.down != [] && !Welcomes(d)
    ensures var e := C.Handle(d.client, d.down[0], note); Script(c, ClientHandled(d, e, e.reply.frames))
  {
    AwaitingHandles(c, d, note);
    var e := C.Handle(d.client, d.down[0], note);
    var reply := e.reply.frames[0];
    OneErrorCode(d.client.outbound, Objection(d), note);
    var ending := d.client.(outbound := Next64(d.client.outbound), state := C.Closing);
    ClientSends(c, d, ending, reply);
    var d1 := d.(client := ending, up := d.up + [reply]);
    PastRefusal(c, d1, e.client, Objection(d));
  }

  lemma PastRefusal(c: Config, d: Dialogue, k: C.Client, code: u16)
    requires Script(c, d) && !ClientLive(d.client) && !ClientLive(k) && d.downHandled == 0 && d.down != []
    requires d.down[0].kind == MessageType.Error || (d.down[0].kind == IpAssign && !Sound(c))
    requires ClientFaultOk(c, code) && k.requestedMtu == d.client.requestedMtu && k.assignment.None?
    ensures Script(c, d.(client := k, downHandled := 1, downDelivered := d.downDelivered + [],
                         clientFaults := d.clientFaults + [code]))
  {
    var d' := d.(client := k, downHandled := 1, downDelivered := d.downDelivered + [],
                 clientFaults := d.clientFaults + [code]);
    SameContents(d, d');
    assert Deliveries(d') by {
      SelectExtend(d.down, 0, DATA);
      SelectOne(d.down[0], DATA);
    }
  }

  // ---------- The server handles the next client frame ----------

  /** The dialogue after the server handles the next frame and its reply, if any, is sent. */
  function ServerHandled(d: Dialogue, e: S.Effect, sent: seq<Frame>, terms: Option<Assignment>): Dialogue {
    d.(server := e.session, down := d.down + sent, upHandled := d.upHandled + 1,
       upDelivered := d.upDelivered + e.reply.packets, terms := terms,
       serverFaults := d.serverFaults + ErrorCodes(e.reply.frames))
  }

  lemma MoreDown(d: Dialogue, d': Dialogue, f: Frame)
    requires Contents(d) && d'.up == d.up && d'.down == d.down + [f]
    requires d'.client.requestedMtu == d.client.requestedMtu
    requires d'.terms == d.terms || (d.terms.None? && d.down == [])
    requires DownFrameOk(d'.terms, |d.down|, f)
    ensures Contents(d')
  {
    forall i | 0 <= i < |d'.up|
      ensures UpFrameOk(d'.client.requestedMtu, d'.terms, i, d'.up[i])
    {
      assert UpFrameOk(d.client.requestedMtu, d.terms, i, d.up[i]);
    }
    forall i | 0 <= i < |d'.down|
      ensures DownFrameOk(d'.terms, i, d'.down[i])
    {
      assert i == |d.down| || DownFrameOk(d.terms, i, d.down[i]);
    }
  }

  /** The server moves past one frame, delivering its packet, without sending. */
  lemma ServerAdvances(c: Config, d: Dialogue, s: S.Session, delivered: seq<bytes>)
    requires Script(c, d) && d.upHandled < |d.up| && ServerLive(d.server)
    requires s.identity == d.server.identity && S.HoldsIffEstablished(s)
    requires !ServerLive(s) || (s.state == S.Established == d.server.state && s.expected == Next64(d.server.expected)
                                && s.outbound == d.server.outbound && Honours(c, s, d.terms.value))
    requires delivered == Select([d.up[d.upHandled]], DATA) || (!ServerLive(s) && delivered == [])
    ensures Script(c, d.(server := s, upHandled := d.upHandled + 1, upDelivered := d.upDelivered + delivered))
  {
    var d' := d.(server := s, upHandled := d.upHandled + 1, upDelivered := d.upDelivered + delivered);
    assert Counters(d') by {
      NextNumber(d.upHandled);
    }
    SameContents(d, d');
    assert Deliveries(d') by {
      SelectExtend(d.up, d.upHandled, DATA);
    }
    assert OneProbe(d') by {
      ProbesAfterUpHandled(d, d');
    }
  }

  lemma ProbesAfterUpHandled(d: Dialogue, d': Dialogue)
    requires d.upHandled < |d.up| && d.downHandled <= |d.down|
    requires d'.up == d.up && d'.down == d.down && d'.upHandled == d.upHandled + 1 && d'.downHandled == d.downHandled
    ensures Probes(d) == (if d.up[d.upHandled].kind == Ping then [d.up[d.upHandled].payload] else []) + Probes(d')
  {
    SelectDrop(d.up, d.upHandled, {Ping});
    SelectOne(d.up[d.upHandled], {Ping});
  }

  lemma ProbesAfterDownSent(d: Dialogue, d': Dialogue, f: Frame)
    requires d.upHandled <= |d.up| && d.downHandled <= |d.down| && d'.down == d.down + [f]
    requires d'.up == d.up && d'.upHandled == d.upHandled && d'.downHandled == d.downHandled
    ensures Probes(d') == Probes(d) + if f.kind == Pong then [f.payload] else []
  {
    assert d'.down[d.downHandled..] == d.down[d.downHandled..] + [f];
    SelectConcat(d.down[d.downHandled..], [f], {Pong});
    SelectOne(f, {Pong});
  }

  /** The server sends one frame; `codes` is what it adds to the recorded ERRORs. */
  lemma ServerSends(c: Config, d: Dialogue, s: S.Session, f: Frame, terms: Option<Assignment>, codes: seq<u16>)
    requires Script(c, d) && f.sequence == Number(|d.down|)
    requires s.identity == d.server.identity && S.HoldsIffEstablished(s)
    requires d.terms == terms || (d.terms.None? && d.down == [] && terms.Some? && f.kind == IpAssign
                                  && TermsOk(c, d.client.requestedMtu, terms.value))
    requires DownFrameOk(terms, |d.down|, f)
    requires forall x :: x in codes ==> ServerFaultOk(c, x)
    requires !ServerLive(s) || (&& s.state == S.Established && d.upHandled > 0 && terms.Some? && Honours(c, s, terms.value)
                                && s.outbound == Number(|d.down| + 1) && s.expected == Number(d.upHandled)
                                && d.upDelivered == Select(d.up[..d.upHandled], DATA))
    requires d.down == [] ==> f.kind == MessageType.Error || f.kind == IpAssign
    requires d.down == [] && terms.Some? ==> f.kind == IpAssign
    requires ClientLive(d.client) && f.kind == Pong ==>
               Probes(d) == [] && d.client.pendingNonce.Some? && f.payload == ProbePayload(d.client.pendingNonce.value)
    ensures Script(c, d.(server := s, down := d.down + [f], terms := terms, serverFaults := d.serverFaults + codes))
  {
    var d' := d.(server := s, down := d.down + [f], terms := terms, serverFaults := d.serverFaults + codes);
    assert Counters(d') by {
      NumberedAppend(d.down, f);
    }
    assert Contents(d') by {
      MoreDown(d, d', f);
    }
    assert Deliveries(d') by {
      assert d'.down[..d.downHandled] == d.down[..d.downHandled];
    }
    assert OneProbe(d') by {
      ProbesAfterDownSent(d, d', f);
    }
  }
}
