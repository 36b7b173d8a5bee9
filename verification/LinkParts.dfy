/**
 * The invariants of a link's parts under names that hide their definitions, and the effect of every
 * controller event on them.
 */
module LinkParts {
  import opened Bytes
  import opened Wire
  import opened Control
  import opened Leases
  import opened Transport
  import opened Dialogue
  import opened DialogueSteps
  import opened DialogueServer
  import opened Tunnel
  import C = ClientSession
  import S = ServerSession

  /** `PumpInv`, unfolded only where it is mentioned by name. */
  ghost predicate Pumping(lim: Limits, o: Outgoing) {
    forall x {:trigger PumpInv(lim, x)} :: x == o ==> PumpInv(lim, x)
  }

  /** `Script`, unfolded only where it is mentioned by name. */
  ghost predicate Scripted(c: Config, d: Dialogue) {
    forall x {:trigger Script(c, x)} :: x == d ==> Script(c, x)
  }

  /** `Conveys`, unfolded only where it is mentioned by name; and the decoder's leftover is a partial frame. */
  ghost predicate Conveying(o: Outgoing, i: Incoming) {
    forall x {:trigger Conveys(x, i)} :: x == o ==> Conveys(x, i) && ParseFirst(i.decoder.pending) == NeedMore
  }

  /** `Streams`, unfolded only where it is mentioned by name. */
  ghost predicate Streaming(o: Outgoing, i: Incoming) {
    forall x {:trigger Streams(x, i)} :: x == o ==> Streams(x, i)
  }

  // ---------- The pump and the stream ----------

  lemma IdleConveys(lim: Limits)
    ensures Pumping(lim, IDLE) && Conveying(IDLE, DEAF) && Streaming(IDLE, DEAF)
  {
  }

  /** The pump after a reply of at most one frame. */
  ghost predicate PumpStep(lim: Limits, o: Outgoing, o': Outgoing, frames: seq<Frame>, close: bool, posted: bool) {
    && Pumping(lim, o') && o.submitted <= o'.submitted && o'.sent == (if posted then o.sent + frames else o.sent)
    && (!posted ==> o'.stopped) && (Reading(o') <==> Reading(o) && posted && !close)
    && (Reading(o) || frames != [] ==> Draining(o'))
  }

  lemma Pumps(lim: Limits, o: Outgoing, frames: seq<Frame>, close: bool)
    requires Pumping(lim, o) && |frames| <= 1
    ensures PumpStep(lim, o, Pumped(lim, o, frames, close), frames, close, Post(lim, o, frames).1)
  {
    assert PumpInv(lim, o);
    PostOne(lim, o, frames);
    PumpedKeeps(lim, o, frames, close, Post(lim, o, frames).0, Post(lim, o, frames).1);
    if close || frames != [] {
      PumpedDrains(lim, o, frames, close);
    }
  }

  lemma Marks(lim: Limits, o: Outgoing)
    requires Pumping(lim, o)
    ensures Pumping(lim, o.(closing := true))
  {
    assert PumpInv(lim, o);
  }

  lemma Shuts(lim: Limits, o: Outgoing)
    requires Pumping(lim, o)
    ensures Pumping(lim, CloseNow(o)) && CloseNow(o).stopped
    ensures CloseNow(o).sent == o.sent && CloseNow(o).submitted == o.submitted
  {
    assert PumpInv(lim, o);
    CloseNowKeeps(lim, o);
  }

  lemma Completes(lim: Limits, o: Outgoing, ok: bool)
    requires Pumping(lim, o)
    ensures var o' := WriteDone(o, ok);
            && Pumping(lim, o') && o'.sent == o.sent && o.submitted <= o'.submitted
            && (o'.stopped || (!o.stopped && o'.closing == o.closing)) && (Draining(o) ==> Draining(o'))
  {
    assert PumpInv(lim, o);
    WriteDoneKeeps(lim, o, ok);
  }

  lemma Extends(lim: Limits, o: Outgoing, o': Outgoing, i: Incoming)
    requires Pumping(lim, o) && Pumping(lim, o') && Conveying(o, i)
    requires o.sent <= o'.sent && o.submitted <= o'.submitted
    ensures Conveying(o', i)
  {
    assert PumpInv(lim, o) && PumpInv(lim, o') && Conveys(o, i);
    SenderAdvances(lim, o, o', i);
  }

  lemma StreamExtends(lim: Limits, o: Outgoing, o': Outgoing, i: Incoming)
    requires Pumping(lim, o) && Pumping(lim, o') && Streaming(o, i)
    requires o.sent <= o'.sent && o.submitted <= o'.submitted
    ensures Streaming(o', i)
  {
    assert PumpInv(lim, o) && PumpInv(lim, o') && Streams(o, i);
    SenderStreams(lim, o, o', i);
  }

  /** The stream is what the decoder sees, not what is handled. */
  lemma StreamSkips(o: Outgoing, i: Incoming, i': Incoming)
    requires Streaming(o, i) && i' == i.(inbox := i'.inbox, handled := i'.handled)
    ensures Streaming(o, i')
  {
    assert Streams(o, i);
  }

  lemma ConveyingStreams(o: Outgoing, i: Incoming)
    requires Conveying(o, i)
    ensures Streaming(o, i) && !i.decoder.failed
  {
    assert Conveys(o, i);
  }

  /** The next `n` unread bytes of a stream, or as many as there are. */
  function Unread(written: bytes, consumed: nat, n: nat): bytes {
    if consumed > |written| then []
    else if consumed + n <= |written| then written[consumed..consumed + n]
    else written[consumed..]
  }

  lemma UnreadIs(written: bytes, consumed: nat, n: nat) returns (m: nat)
    requires consumed <= |written|
    ensures consumed + m <= |written| && Unread(written, consumed, n) == written[consumed..consumed + m]
  {
    m := if consumed + n <= |written| then n else |written| - consumed;
  }

  lemma Reads(o: Outgoing, i: Incoming, n: nat)
    requires Conveying(o, i)
    ensures var (i', ok) := Read(i, Unread(o.written, i.consumed, n)); ok && Conveying(o, i') && i'.handled == i.handled
  {
    assert Conveys(o, i);
    var m := UnreadIs(o.written, i.consumed, n);
    var i' := ReadConveys(o, i, m);
    LeavesPartial(i, o.written[i.consumed..i.consumed + m], i');
  }

  lemma LeavesPartial(i: Incoming, chunk: bytes, i': Incoming)
    requires ReadsTo(i, chunk, i')
    ensures ParseFirst(i'.decoder.pending) == NeedMore
  {
    assert Read(i, chunk) == (i', true);
    LeftoverIsPartial(i.decoder.pending + chunk);
  }

  /** A read after `stop`. */
  lemma LateReads(o: Outgoing, i: Incoming, n: nat)
    requires Streaming(o, i)
    ensures var (i', ok) := Read(i, Unread(o.written, i.consumed, n));
            ok && Streaming(o, i'.(inbox := [])) && i'.handled == i.handled && !i'.decoder.failed
  {
    assert Streams(o, i);
    var m := UnreadIs(o.written, i.consumed, n);
    var k, i' := ReadStreams(o, i, m);
    StreamSkips(o, i', i'.(inbox := []));
  }

  /** An idle pump whose bytes have all been read and whose frames have all been handled has lost nothing. */
  lemma QuietMeansHandled(lim: Limits, o: Outgoing, i: Incoming)
    requires Pumping(lim, o) && Conveying(o, i)
    requires !o.stopped && o.queue == [] && i.consumed == |o.written| && i.inbox == []
    ensures i.handled == |o.sent|
  {
    assert PumpInv(lim, o) && Conveys(o, i);
    assert |o.sent[o.submitted..]| == 0;
    var fs := o.sent[i.decoded..o.submitted];
    assert i.decoder.pending + [] == i.decoder.pending;
    if fs != [] {
      EncodeAllCons(fs);
      ParseFirstOfFrame(fs[0], EncodeAll(fs[1..]));
    }
    assert |o.sent[i.handled..i.decoded]| == 0;
  }

  lemma Takes(o: Outgoing, i: Incoming)
    requires Conveying(o, i) && i.inbox != []
    ensures i.handled < |o.sent| && i.inbox[0] == o.sent[i.handled] && Conveying(o, Take(i))
  {
    assert Conveys(o, i);
    TakeConveys(o, i);
  }

  // ---------- The client's controller ----------

  function ClosedClient(k: C.Client): C.Client {
    k.(state := C.Closed)
  }

  lemma ClientCloses(c: Config, d: Dialogue, k: C.Client)
    requires Scripted(c, d) && k.requestedMtu == d.client.requestedMtu
    requires k.assignment.Some? ==> k.assignment == d.terms
    ensures Scripted(c, d.(client := ClosedClient(k)))
  {
    assert Script(c, d);
    ClientEnds(c, d, ClosedClient(k));
  }

  /** A frame the controller makes on its own continues the script. */
  ghost predicate Makes(c: Config, d: Dialogue, made: (C.Client, Option<Frame>)) {
    && (made.1.None? ==> made.0 == d.client)
    && (made.1.Some? ==>
          && Scripted(c, d.(client := made.0, up := d.up + [made.1.value])) && ClientLive(d.client)
          && made.0.state != C.Idle && made.0.assignment == d.client.assignment
          && made.0.requestedMtu == d.client.requestedMtu && C.Assigned(made.0))
  }

  lemma StartMakes(c: Config, d: Dialogue)
    requires Scripted(c, d)
    ensures Makes(c, d, C.Start(d.client)) && (C.Start(d.client).1.Some? ==> ClientLive(C.Start(d.client).0))
  {
    assert Script(c, d);
    if d.client.state == C.Idle {
      StartKeeps(c, d);
    }
  }

  lemma DataMakes(c: Config, d: Dialogue, packet: bytes)
    requires Scripted(c, d) && C.Assigned(d.client)
    ensures var made := C.MakeData(d.client, packet);
            Makes(c, d, made) && (made.1.Some? ==> ClientLive(made.0) && made.1.value.payload == packet)
  {
    assert Script(c, d);
    ClientDataKeeps(c, d, packet);
  }

  lemma PingMakes(c: Config, d: Dialogue, nonce: u64)
    requires Scripted(c, d) && C.Assigned(d.client)
    ensures var made := C.MakePing(d.client, nonce); Makes(c, d, made) && (made.1.Some? ==> ClientLive(made.0))
  {
    assert Script(c, d);
    ClientPingKeeps(c, d, nonce);
  }

  lemma CloseMakes(c: Config, d: Dialogue, code: u16)
    requires Scripted(c, d) && C.Assigned(d.client)
    ensures var made := C.MakeClose(d.client, code); Makes(c, d, made) && (made.1.Some? ==> !ClientLive(made.0))
  {
    assert Script(c, d);
    ClientCloseKeeps(c, d, code);
  }

  /**
   * The client handles the next frame: the script goes on whether its reply is sent, or the queue refuses
   * it, or the host's network cannot be configured for a new assignment.
   */
  ghost predicate ClientOutcome(c: Config, d: Dialogue, e: C.Effect) {
    var past := d.(client := ClosedClient(e.client), downHandled := d.downHandled + 1);
    && |e.reply.frames| <= 1 && e.reply.close == !ClientLive(e.client) && C.Assigned(e.client)
    && e.client.state != C.Idle && e.client.requestedMtu == d.client.requestedMtu
    && (e.client.assignment.Some? ==> e.client.assignment == d.terms)
    && Scripted(c, ClientHandled(d, e, e.reply.frames))
    && (e.reply.frames != [] ==> Scripted(c, past.(downDelivered := d.downDelivered + e.reply.packets,
                                                   clientFaults := d.clientFaults + ErrorCodes(e.reply.frames))))
    && (e.reply.assignment.Some? ==> Scripted(c, past))
  }

  lemma ClientHandlesOutcome(c: Config, d: Dialogue, note: ErrorText)
    requires Scripted(c, d) && C.Assigned(d.client)
    requires d.client.state in {C.AwaitingAssignment, C.Established} && d.downHandled < |d.down|
    ensures ClientOutcome(c, d, C.Handle(d.client, d.down[d.downHandled], note))
  {
    var e := C.Handle(d.client, d.down[d.downHandled], note);
    HandledFacts(d.client, d.down[d.downHandled], note);
    ClientReplies(c, d, note);
    if e.reply.frames != [] {
      ClientUnsent(c, d, note);
    }
    if e.reply.assignment.Some? {
      NetworkRefused(c, d, e);
    }
  }

  /** The script goes on whether the reply is sent or not. */
  lemma ClientReplies(c: Config, d: Dialogue, note: ErrorText)
    requires Scripted(c, d) && C.Assigned(d.client)
    requires d.client.state in {C.AwaitingAssignment, C.Established} && d.downHandled < |d.down|
    ensures var e := C.Handle(d.client, d.down[d.downHandled], note);
            && |e.reply.frames| <= 1 && e.reply.close == !ClientLive(e.client)
            && Scripted(c, ClientHandled(d, e, e.reply.frames))
            && (e.client.assignment.Some? ==> e.client.assignment == d.terms)
            && (e.reply.frames != [] ==> d.client.state == C.AwaitingAssignment && !Welcomes(d))
  {
    assert Script(c, d);
    ClientHandlesKeeps(c, d, note);
    HandledTerms(c, d, C.Handle(d.client, d.down[d.downHandled], note));
  }

  /** The client objected but could not queue its answer. */
  lemma ClientUnsent(c: Config, d: Dialogue, note: ErrorText)
    requires Scripted(c, d) && C.Assigned(d.client) && d.downHandled < |d.down|
    requires d.client.state == C.AwaitingAssignment && !Welcomes(d)
    ensures var e := C.Handle(d.client, d.down[d.downHandled], note);
            Scripted(c, d.(client := ClosedClient(e.client), downHandled := d.downHandled + 1,
                           downDelivered := d.downDelivered + e.reply.packets,
                           clientFaults := d.clientFaults + ErrorCodes(e.reply.frames)))
  {
    assert Script(c, d);
    var e := C.Handle(d.client, d.down[d.downHandled], note);
    AwaitingHandles(c, d, note);
    OneErrorCode(d.client.outbound, Objection(d), note);
    Refused(c, d, ClosedClient(e.client));
  }

  lemma Refused(c: Config, d: Dialogue, k: C.Client)
    requires Scripted(c, d) && d.client.state == C.AwaitingAssignment && d.down != [] && !ClientLive(k)
    requires d.down[0].kind == MessageType.Error || (d.down[0].kind == IpAssign && !Sound(c))
    requires k.requestedMtu == d.client.requestedMtu && k.assignment.None?
    ensures Scripted(c, d.(client := k, downHandled := d.downHandled + 1, downDelivered := d.downDelivered + [],
                           clientFaults := d.clientFaults + [Objection(d)]))
  {
    assert Script(c, d);
    ClientEnds(c, d, ClosedClient(d.client));
    PastRefusal(c, d.(client := ClosedClient(d.client)), k, Objection(d));
  }

  lemma HandledTerms(c: Config, d: Dialogue, e: C.Effect)
    requires Script(c, ClientHandled(d, e, e.reply.frames))
    ensures e.client.assignment.Some? ==> e.client.assignment == d.terms
  {
    assert Phases(c, ClientHandled(d, e, e.reply.frames));
  }

  lemma NetworkRefused(c: Config, d: Dialogue, e: C.Effect)
    requires Scripted(c, ClientHandled(d, e, e.reply.frames)) && e.reply.frames == [] && e.reply.packets == []
    ensures Scripted(c, d.(client := ClosedClient(e.client), downHandled := d.downHandled + 1))
  {
    var d' := ClientHandled(d, e, e.reply.frames);
    assert Script(c, d');
    ClientEnds(c, d', ClosedClient(e.client));
    assert d.up + [] == d.up && d.downDelivered + [] == d.downDelivered && d.clientFaults + [] == d.clientFaults;
    assert d'.(client := ClosedClient(e.client))
        == d.(client := ClosedClient(e.client), downHandled := d.downHandled + 1);
  }

  lemma HandledFacts(k: C.Client, f: Frame, note: ErrorText)
    requires k.state in {C.AwaitingAssignment, C.Established} && C.Assigned(k)
    ensures var e := C.Handle(k, f, note);
            && e.client.state != C.Idle && e.client.requestedMtu == k.requestedMtu && C.Assigned(e.client)
            && (e.reply.assignment.Some? ==> e.reply.frames == [] && e.reply.packets == [])
  {
  }

  // ---------- The server's controller ----------

  lemma ServerCloses(c: Config, d: Dialogue, s: S.Session)
    requires Scripted(c, d) && s.identity == d.server.identity
    ensures Scripted(c, d.(server := Dead(s)))
  {
    assert Script(c, d);
    ServerEnds(c, d, Dead(s));
  }

  /** The server handles the next frame: likewise, and the route may be refused. */
  ghost predicate ServerOutcome(c: Config, d: Dialogue, e: S.Effect) {
    var past := d.(server := Dead(e.session), upHandled := d.upHandled + 1);
    var terms := NewTerms(d.terms, e.reply.frames);
    && |e.reply.frames| <= 1 && e.reply.close == !ServerLive(e.session) && S.HoldsIffEstablished(e.session)
    && e.session.identity == d.server.identity && (d.client.assignment.Some? ==> d.client.assignment == terms)
    && Scripted(c, ServerHandled(d, e, e.reply.frames, terms))
    && (e.reply.frames != [] ==> Scripted(c, past.(upDelivered := d.upDelivered + e.reply.packets,
                                                   serverFaults := d.serverFaults + ErrorCodes(e.reply.frames))))
    && Scripted(c, past)
  }

  lemma ServerHandlesOutcome(c: Config, p: Pool, d: Dialogue, now: int, note: ErrorText)
    requires ValidConfig(c) && PoolInv(c, p) && Scripted(c, d)
    requires ServerLive(d.server) && S.HoldsIffEstablished(d.server) && d.upHandled < |d.up|
    ensures ServerOutcome(c, d, S.Handle(c, p, d.server, d.up[d.upHandled], now, note))
  {
    var e := S.Handle(c, p, d.server, d.up[d.upHandled], now, note);
    ServerReplies(c, p, d, now, note);
    HandledFaults(c, d, e);
    RouteRefused(c, d, e.session);
    if e.reply.frames != [] {
      var past := d.(server := Dead(e.session), upHandled := d.upHandled + 1);
      MoreServerFaults(c, past, d.serverFaults + ErrorCodes(e.reply.frames));
      assert d.upDelivered + e.reply.packets == d.upDelivered;
    }
  }

  lemma ServerReplies(c: Config, p: Pool, d: Dialogue, now: int, note: ErrorText)
    requires ValidConfig(c) && PoolInv(c, p) && Scripted(c, d)
    requires ServerLive(d.server) && S.HoldsIffEstablished(d.server) && d.upHandled < |d.up|
    ensures var e := S.Handle(c, p, d.server, d.up[d.upHandled], now, note);
            && |e.reply.frames| <= 1 && e.reply.close == !ServerLive(e.session) && S.HoldsIffEstablished(e.session)
            && (e.reply.frames != [] ==> e.reply.packets == []) && e.session.identity == d.server.identity
            && Scripted(c, ServerHandled(d, e, e.reply.frames, NewTerms(d.terms, e.reply.frames)))
  {
    assert Script(c, d);
    ServerHandlesKeeps(c, p, d, now, note);
  }

  lemma RouteRefused(c: Config, d: Dialogue, s: S.Session)
    requires Scripted(c, d) && ServerLive(d.server) && d.upHandled < |d.up| && s.identity == d.server.identity
    ensures Scripted(c, d.(server := Dead(s), upHandled := d.upHandled + 1))
  {
    assert Script(c, d);
    ServerAdvances(c, d, Dead(s), []);
    assert d.upDelivered + [] == d.upDelivered;
    assert d.(server := Dead(s), upHandled := d.upHandled + 1)
        == d.(server := Dead(s), upHandled := d.upHandled + 1, upDelivered := d.upDelivered + []);
  }

  lemma HandledFaults(c: Config, d: Dialogue, e: S.Effect)
    requires Scripted(c, ServerHandled(d, e, e.reply.frames, NewTerms(d.terms, e.reply.frames)))
    ensures d.client.assignment.Some? ==> d.client.assignment == NewTerms(d.terms, e.reply.frames)
    ensures forall x :: x in d.serverFaults + ErrorCodes(e.reply.frames) ==> ServerFaultOk(c, x)
  {
    var d' := ServerHandled(d, e, e.reply.frames, NewTerms(d.terms, e.reply.frames));
    assert Script(c, d');
    assert Phases(c, d') && OnlyHonestFaults(c, d');
  }

  lemma MoreServerFaults(c: Config, d: Dialogue, faults: seq<u16>)
    requires Scripted(c, d) && forall x :: x in faults ==> ServerFaultOk(c, x)
    ensures Scripted(c, d.(serverFaults := faults))
  {
    assert Script(c, d);
    SameContents(d, d.(serverFaults := faults));
  }

  /** A packet from the TUN device becomes one DATA frame, or nothing, or the session has ended. */
  ghost predicate DataOutcome(c: Config, d: Dialogue, e: S.Effect) {
    && |e.reply.frames| <= 1 && S.HoldsIffEstablished(e.session) && e.session.identity == d.server.identity
    && Scripted(c, d.(server := e.session, down := d.down + e.reply.frames))
    && (e.reply.frames != [] ==> e.session.state == S.Established == d.server.state)
    && (e.reply.frames == [] ==> e.session == d.server || !ServerLive(e.session))
  }

  lemma ServerDataOutcome(c: Config, p: Pool, d: Dialogue, packet: bytes, now: int)
    requires ValidConfig(c) && PoolInv(c, p) && Scripted(c, d) && S.HoldsIffEstablished(d.server)
    ensures DataOutcome(c, d, S.MakeData(c, p, d.server, packet, now))
  {
    assert Script(c, d);
    ServerDataKeeps(c, p, d, packet, now);
    MakeDataOutcome(c, p, d.server, packet, now);
  }
}
