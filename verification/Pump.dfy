/** The write pump of both endpoints over every run, whatever the peer sends and whatever the pool holds. */
module Pump {
  import opened Bytes
  import opened Wire
  import opened Control
  import opened Leases
  import opened Transport
  import opened Dialogue
  import opened Tunnel
  import opened LinkParts
  import C = ClientSession
  import S = ServerSession

  // ---------- What the controllers may reply ----------

  /** A reply of at most one encodable frame with number `sequence`, after which the number is `next`. */
  ghost predicate Replies(frames: seq<Frame>, sequence: u64, next: u64) {
    && |frames| <= 1 && next == (if frames == [] then sequence else Next64(sequence))
    && forall f :: f in frames ==> f.sequence == sequence && Encodable(f)
  }

  /** The server's answer to any frame: never DATA, and it closes exactly when it ends. */
  ghost predicate ServerReplies(s: S.Session, e: S.Effect) {
    && Replies(e.reply.frames, s.outbound, e.session.outbound) && S.HoldsIffEstablished(e.session)
    && e.reply.close == !ServerLive(e.session)
    && (forall f :: f in e.reply.frames ==> f.kind !in DATA)
  }

  lemma ServerFailReplies(p: Pool, s: S.Session, e: S.Failure, note: ErrorText)
    ensures ServerReplies(s, S.Fail(p, s, e, note))
  {
  }

  lemma HelloReplies(c: Config, p: Pool, s: S.Session, f: Frame, now: int, note: ErrorText)
    requires ValidConfig(c) && s.state == S.AwaitingHello && s.lease.None?
    ensures ServerReplies(s, S.HandleHello(c, p, s, f, now, note))
  {
  }

  lemma RenewingReplies(c: Config, p: Pool, s: S.Session, f: Frame, now: int, note: ErrorText)
    requires s.state == S.Established && s.lease.Some?
    ensures ServerReplies(s, S.HandleRenewing(c, p, s, f, now, note))
  {
  }

  lemma ServerHandleReplies(c: Config, p: Pool, s: S.Session, f: Frame, now: int, note: ErrorText)
    requires ValidConfig(c) && S.HoldsIffEstablished(s) && ServerLive(s)
    ensures ServerReplies(s, S.Handle(c, p, s, f, now, note))
  {
    var s1 := s.(expected := Next64(s.expected));
    if f.sequence != s.expected {
      ServerFailReplies(p, s, S.InvalidSequence, note);
    } else if s.state == S.AwaitingHello {
      HelloReplies(c, p, s1, f, now, note);
    } else if S.Renews(f.kind) {
      RenewingReplies(c, p, s1, f, now, note);
    } else {
      assert ServerReplies(s1, S.HandleControl(p, s1, f, note));
    }
  }

  /** The client's answer to any frame. */
  ghost predicate ClientReplies(k: C.Client, e: C.Effect) {
    && Replies(e.reply.frames, k.outbound, e.client.outbound) && C.Assigned(e.client)
    && e.reply.close == !ClientLive(e.client) && (e.client.state != C.Idle)
    && (forall f :: f in e.reply.frames ==> f.kind !in DATA)
  }

  lemma ClientHandleReplies(k: C.Client, f: Frame, note: ErrorText)
    requires C.Assigned(k) && ClientLive(k) && k.state != C.Idle
    ensures ClientReplies(k, C.Handle(k, f, note))
  {
    var k1 := k.(expected := Next64(k.expected));
    if f.sequence != k.expected {
      assert ClientReplies(k, C.Fail(k, C.InvalidSequence, note));
    } else if k.state == C.AwaitingAssignment {
      assert ClientReplies(k1, C.HandleAssignment(k1, f, note));
    } else {
      EstablishedReplies(k1, f, note);
    }
  }

  lemma EstablishedReplies(k: C.Client, f: Frame, note: ErrorText)
    requires k.state == C.Established && k.assignment.Some?
    ensures ClientReplies(k, C.HandleEstablished(k, f, note))
  {
  }

  // ---------- One reply through the pump ----------

  /** `sent` grew by at most one frame: a DATA frame only if it carries the packet offered. */
  ghost predicate Grows(sent: seq<Frame>, sent': seq<Frame>, offered: Option<bytes>) {
    sent' == sent || exists f :: sent' == sent + [f] && Carries(f, offered)
  }

  predicate Carries(f: Frame, offered: Option<bytes>) {
    if f.kind in DATA then offered == Some(f.payload) else offered.None?
  }

  /** The pump of an endpoint whose controller is live exactly while a read is armed. */
  ghost predicate Running(lim: Limits, o: Outgoing, live: bool, outbound: u64) {
    && Pumping(lim, o) && Numbered(o.sent) && (Reading(o) <==> live) && Draining(o)
    && (live ==> outbound == Number(|o.sent|))
  }

  lemma ReplyRuns(lim: Limits, o: Outgoing, outbound: u64, frames: seq<Frame>, close: bool, next: u64, offered: Option<bytes>)
    requires Running(lim, o, true, outbound) && Replies(frames, outbound, next)
    requires forall f :: f in frames ==> Carries(f, offered)
    ensures var o' := Pumped(lim, o, frames, close);
            && Running(lim, o', !o'.stopped && !close, next) && Grows(o.sent, o'.sent, offered)
  {
    Pumps(lim, o, frames, close);
    NextNumber(|o.sent|);
    if frames != [] {
      assert frames[0] in frames && frames == [frames[0]];
      NumberedAppend(o.sent, frames[0]);
    } else {
      assert o.sent + frames == o.sent;
    }
  }

  /** Closing the transport, or a completed write, sends nothing new. */
  lemma StopRuns(lim: Limits, o: Outgoing, live: bool, outbound: u64)
    requires Running(lim, o, live, outbound)
    ensures Running(lim, CloseNow(o), false, outbound) && CloseNow(o).sent == o.sent && CloseNow(o).stopped
  {
    Shuts(lim, o);
  }

  lemma WrittenRuns(lim: Limits, o: Outgoing, live: bool, outbound: u64, ok: bool)
    requires Running(lim, o, live, outbound)
    ensures var o' := WriteDone(o, ok); Running(lim, o', live && !o'.stopped, outbound) && o'.sent == o.sent
  {
    Completes(lim, o, ok);
  }

  // ---------- The server's endpoint ----------

  ghost predicate ServerRunning(lim: Limits, t: ServerTunnel) {
    S.HoldsIffEstablished(t.session) && Running(lim, t.out, ServerLive(t.session), t.session.outbound)
  }

  /** Bytes from the peer, or a strand callback. */
  datatype ServerInput = Arrives(chunk: bytes) | ServerDoes(event: ServerEvent)

  function ServerTurn(c: Config, lim: Limits, p: Pool, t: ServerTunnel, i: ServerInput): ServerTunnel
    requires ValidConfig(c) && S.HoldsIffEstablished(t.session)
  {
    match i
    case Arrives(chunk) => Settled(p, ServerRead(t, chunk)).1
    case ServerDoes(ev) => ServerStep(c, lim, p, t, ev).1
  }

  function ServerOffered(i: ServerInput): Option<bytes> {
    if i.ServerDoes? && i.event.FromTun? then Some(i.event.packet) else None
  }

  /** Before the transport settles: the controller may still be live although the pump has stopped. */
  ghost predicate ServerUnsettled(lim: Limits, t: ServerTunnel) {
    && S.HoldsIffEstablished(t.session)
    && Running(lim, t.out, ServerLive(t.session) && !t.out.stopped, t.session.outbound)
  }

  lemma ServerSettles(lim: Limits, p: Pool, t: ServerTunnel)
    requires ServerUnsettled(lim, t)
    ensures ServerRunning(lim, Settled(p, t).1) && Settled(p, t).1.out == t.out
  {
  }

  lemma ServerProcessRuns(c: Config, lim: Limits, p: Pool, t: ServerTunnel, now: int, note: ErrorText, routeOk: bool)
    requires ValidConfig(c) && ServerRunning(lim, t)
    ensures var t' := ServerProcess(c, lim, p, t, now, note, routeOk).1;
            ServerUnsettled(lim, t') && Grows(t.out.sent, t'.out.sent, None)
  {
    if t.inn.inbox != [] && Reading(t.out) {
      ServerHandleReplies(c, p, t.session, t.inn.inbox[0], now, note);
      var e := S.Handle(c, p, t.session, t.inn.inbox[0], now, note);
      StopRuns(lim, t.out, true, t.session.outbound);
      ReplyRuns(lim, t.out, t.session.outbound, e.reply.frames, e.reply.close, e.session.outbound, None);
    }
  }

  lemma ServerFromTunRuns(c: Config, lim: Limits, p: Pool, t: ServerTunnel, packet: bytes, now: int)
    requires ValidConfig(c) && ServerRunning(lim, t)
    ensures var t' := ServerFromTun(c, lim, p, t, packet, now).1;
            ServerUnsettled(lim, t') && Grows(t.out.sent, t'.out.sent, Some(packet))
  {
    if !t.out.stopped {
      var e := S.MakeData(c, p, t.session, packet, now);
      StopRuns(lim, t.out, ServerLive(t.session), t.session.outbound);
      if e.reply.frames != [] {
        ReplyRuns(lim, t.out, t.session.outbound, e.reply.frames, false, e.session.outbound, Some(packet));
      }
    }
  }

  /**
   * Every step of a server endpoint, for any bytes and any pool: the pump's invariant and the numbering are
   * kept, DATA is sent only for the packet offered, and once closing nothing is sent or delivered any more.
   */
  lemma ServerTurnRuns(c: Config, lim: Limits, p: Pool, t: ServerTunnel, i: ServerInput)
    requires ValidConfig(c) && ServerRunning(lim, t)
    ensures var t' := ServerTurn(c, lim, p, t, i);
            && ServerRunning(lim, t') && Grows(t.out.sent, t'.out.sent, ServerOffered(i))
            && (!Reading(t.out) ==> t'.out.sent == t.out.sent && t'.delivered == t.delivered && !Reading(t'.out))
  {
    match i
    case Arrives(chunk) =>
      StopRuns(lim, t.out, ServerLive(t.session), t.session.outbound);
      ServerSettles(lim, p, ServerRead(t, chunk));
    case ServerDoes(ev) =>
      var (p1, t1) := ServerRaw(c, lim, p, t, ev);
      match ev {
        case Process(now, note, routeOk) => ServerProcessRuns(c, lim, p, t, now, note, routeOk);
        case FromTun(packet, now) => ServerFromTunRuns(c, lim, p, t, packet, now);
        case Written(ok) => WrittenRuns(lim, t.out, ServerLive(t.session), t.session.outbound, ok);
        case Kill => StopRuns(lim, t.out, ServerLive(t.session), t.session.outbound);
      }
      ServerSettles(lim, p1, t1);
  }

  /** A run: at each turn the pool is whatever the other sessions have made of it. */
  ghost function ServerRun(c: Config, lim: Limits, t: ServerTunnel, turns: seq<(Pool, ServerInput)>): (r: ServerTunnel)
    requires ValidConfig(c) && ServerRunning(lim, t)
    ensures ServerRunning(lim, r)
    decreases |turns|
  {
    if turns == [] then t
    else
      ServerTurnRuns(c, lim, turns[0].0, t, turns[0].1);
      ServerRun(c, lim, ServerTurn(c, lim, turns[0].0, t, turns[0].1), turns[1..])
  }

  // ---------- The client's endpoint ----------

  ghost predicate ClientRunning(lim: Limits, t: ClientTunnel) {
    C.Assigned(t.client) && Running(lim, t.out, ClientLive(t.client), t.client.outbound)
    && (t.client.state == C.Idle ==> t.inn.inbox == [])
  }

  datatype ClientInput = Incomes(chunk: bytes) | ClientDoes(event: ClientEvent)

  function ClientTurn(lim: Limits, t: ClientTunnel, i: ClientInput): ClientTunnel
    requires C.Assigned(t.client)
  {
    match i
    case Incomes(chunk) => ClientSettled(ClientRead(t, chunk))
    case ClientDoes(ev) => ClientStep(lim, t, ev)
  }

  function ClientOffered(i: ClientInput): Option<bytes> {
    if i.ClientDoes? && i.event.FromTun? then Some(i.event.packet) else None
  }

  ghost predicate ClientUnsettled(lim: Limits, t: ClientTunnel) {
    && C.Assigned(t.client) && (t.client.state == C.Idle ==> t.inn.inbox == [])
    && Running(lim, t.out, ClientLive(t.client) && !t.out.stopped, t.client.outbound)
  }

  lemma ClientSettles(lim: Limits, t: ClientTunnel)
    requires ClientUnsettled(lim, t)
    ensures ClientRunning(lim, ClientSettled(t)) && ClientSettled(t).out == t.out
  {
  }

  /** What `start`, `make_data_to_server`, `make_ping` and `make_close` may produce. */
  ghost predicate Produces(k: C.Client, made: (C.Client, Option<Frame>), offered: Option<bytes>) {
    && C.Assigned(made.0)
    && (made.1.None? ==> made.0 == k)
    && (made.1.Some? ==> && ClientLive(k) && made.0.state != C.Idle
                         && Replies([made.1.value], k.outbound, made.0.outbound)
                         && Carries(made.1.value, offered))
  }

  lemma ControllerProduces(k: C.Client, packet: bytes, nonce: u64, code: u16)
    requires C.Assigned(k)
    ensures Produces(k, C.Start(k), None) && ClientLive(C.Start(k).0) == ClientLive(k)
    ensures Produces(k, C.MakeData(k, packet), Some(packet)) && ClientLive(C.MakeData(k, packet).0) == ClientLive(k)
    ensures Produces(k, C.MakePing(k, nonce), None) && ClientLive(C.MakePing(k, nonce).0) == ClientLive(k)
    ensures Produces(k, C.MakeClose(k, code), None)
    ensures C.MakeClose(k, code).1.Some? ==> !ClientLive(C.MakeClose(k, code).0)
  {
  }

  lemma ClientSendRuns(lim: Limits, t: ClientTunnel, made: (C.Client, Option<Frame>), offered: Option<bytes>)
    requires ClientRunning(lim, t) && Produces(t.client, made, offered) && ClientLive(made.0) == ClientLive(t.client)
    ensures var t' := ClientSend(lim, t, made);
            ClientUnsettled(lim, t') && Grows(t.out.sent, t'.out.sent, offered)
  {
    if made.1.Some? {
      ReplyRuns(lim, t.out, t.client.outbound, [made.1.value], false, made.0.outbound, offered);
    }
  }

  lemma ClientStopRuns(lim: Limits, t: ClientTunnel, code: u16)
    requires ClientRunning(lim, t)
    ensures var t' := ClientStop(lim, t, code); ClientUnsettled(lim, t') && Grows(t.out.sent, t'.out.sent, None)
  {
    ControllerProduces(t.client, [], 0, code);
    StopRuns(lim, t.out, ClientLive(t.client), t.client.outbound);
    var made := C.MakeClose(t.client, code);
    if !t.out.stopped && made.1.Some? {
      Marks(lim, t.out);
      Pumps(lim, t.out.(closing := true), [made.1.value], false);
      assert made.1.value in [made.1.value];
      NumberedAppend(t.out.sent, made.1.value);
    }
  }

  lemma ClientProcessRuns(lim: Limits, t: ClientTunnel, note: ErrorText, networkOk: bool)
    requires ClientRunning(lim, t)
    ensures var t' := ClientProcess(lim, t, note, networkOk);
            ClientUnsettled(lim, t') && Grows(t.out.sent, t'.out.sent, None)
  {
    if t.inn.inbox != [] && Reading(t.out) {
      ClientHandleReplies(t.client, t.inn.inbox[0], note);
      var e := C.Handle(t.client, t.inn.inbox[0], note);
      StopRuns(lim, t.out, true, t.client.outbound);
      ReplyRuns(lim, t.out, t.client.outbound, e.reply.frames, e.reply.close, e.client.outbound, None);
    }
  }

  /** Every step of a client endpoint, for any bytes: as for the server. */
  lemma ClientTurnRuns(lim: Limits, t: ClientTunnel, i: ClientInput)
    requires ClientRunning(lim, t)
    ensures var t' := ClientTurn(lim, t, i);
            && ClientRunning(lim, t') && Grows(t.out.sent, t'.out.sent, ClientOffered(i))
            && (!Reading(t.out) ==> t'.out.sent == t.out.sent && t'.delivered == t.delivered && !Reading(t'.out))
  {
    match i
    case Incomes(chunk) =>
      StopRuns(lim, t.out, ClientLive(t.client), t.client.outbound);
      ClientSettles(lim, ClientRead(t, chunk));
    case ClientDoes(ev) =>
      ClientRawRuns(lim, t, ev);
      ClientSettles(lim, ClientRaw(lim, t, ev));
  }

  lemma ClientRawRuns(lim: Limits, t: ClientTunnel, ev: ClientEvent)
    requires ClientRunning(lim, t)
    ensures var t' := ClientRaw(lim, t, ev);
            && ClientUnsettled(lim, t') && Grows(t.out.sent, t'.out.sent, ClientOffered(ClientDoes(ev)))
            && (!Reading(t.out) ==> t'.out.sent == t.out.sent && t'.delivered == t.delivered && !Reading(t'.out))
  {
    match ev
    case Connected =>
      ControllerProduces(t.client, [], 0, 0);
      ClientSendRuns(lim, t, C.Start(t.client), None);
    case Process(note, networkOk) =>
      ClientProcessRuns(lim, t, note, networkOk);
    case FromTun(packet) =>
      ControllerProduces(t.client, packet, 0, 0);
      ClientSendRuns(lim, t, C.MakeData(t.client, packet), Some(packet));
    case Probe(nonce) =>
      ControllerProduces(t.client, [], nonce, 0);
      ClientSendRuns(lim, t, C.MakePing(t.client, nonce), None);
    case Stop(code) =>
      ClientStopRuns(lim, t, code);
    case Written(ok) =>
      WrittenRuns(lim, t.out, ClientLive(t.client), t.client.outbound, ok);
    case Kill =>
      StopRuns(lim, t.out, ClientLive(t.client), t.client.outbound);
  }

  ghost function ClientRun(lim: Limits, t: ClientTunnel, turns: seq<ClientInput>): (r: ClientTunnel)
    requires ClientRunning(lim, t)
    ensures ClientRunning(lim, r)
    decreases |turns|
  {
    if turns == [] then t
    else
      ClientTurnRuns(lim, t, turns[0]);
      ClientRun(lim, ClientTurn(lim, t, turns[0]), turns[1..])
  }

  // ---------- What every run promises ----------

  /**
   * At every step boundary: at most one write in flight, and it is the front of the queue; the bytes
   * submitted are the encodings of the frames numbered 1, 2, 3, … mod 2^64, without gaps; the queue keeps
   * its limits; an endpoint waiting to close always has a write to wait for; the close callback has run
   * once if the endpoint is stopped, and otherwise not at all.
   */
  ghost predicate WellPumped(lim: Limits, o: Outgoing) {
    && o.inFlight <= 1 && (!o.stopped ==> (o.inFlight == 1 <==> o.queue != []))
    && AllEncodable(o.sent) && (forall i {:trigger o.sent[i]} :: 0 <= i < |o.sent| ==> o.sent[i].sequence == Number(i))
    && o.submitted <= |o.sent| && o.written == EncodeAll(o.sent[..o.submitted])
    && (!o.stopped && o.inFlight == 1 ==> o.submitted > 0 && o.queue[0] == FrameBytes(o.sent[o.submitted - 1]))
    && |o.queue| <= lim.frames && Total(o.queue) <= lim.octets
    && o.closes == (if o.stopped then 1 else 0) && (o.closing && !o.stopped ==> o.inFlight == 1)
  }

  lemma RunningIsWellPumped(lim: Limits, o: Outgoing, live: bool, outbound: u64)
    requires Running(lim, o, live, outbound)
    ensures WellPumped(lim, o)
  {
    assert PumpInv(lim, o);
  }

  lemma FreshEndpoints(lim: Limits, mtu: u16, identity: string)
    ensures ServerRunning(lim, NewServerTunnel(identity)) && ClientRunning(lim, NewClientTunnel(mtu))
  {
    IdleConveys(lim);
  }

  /** Over every run of a server endpoint against any peer. */
  lemma ServerPumpSafety(c: Config, lim: Limits, identity: string, turns: seq<(Pool, ServerInput)>)
    requires ValidConfig(c)
    ensures ServerRunning(lim, NewServerTunnel(identity))
    ensures WellPumped(lim, ServerRun(c, lim, NewServerTunnel(identity), turns).out)
  {
    FreshEndpoints(lim, 0, identity);
    var t := ServerRun(c, lim, NewServerTunnel(identity), turns);
    RunningIsWellPumped(lim, t.out, ServerLive(t.session), t.session.outbound);
  }

  /** Over every run of a client endpoint against any peer. */
  lemma ClientPumpSafety(lim: Limits, mtu: u16, turns: seq<ClientInput>)
    ensures ClientRunning(lim, NewClientTunnel(mtu))
    ensures WellPumped(lim, ClientRun(lim, NewClientTunnel(mtu), turns).out)
  {
    FreshEndpoints(lim, mtu, "");
    var t := ClientRun(lim, NewClientTunnel(mtu), turns);
    RunningIsWellPumped(lim, t.out, ClientLive(t.client), t.client.outbound);
  }

  /** Once an endpoint closes or stops, no later step sends or delivers anything. */
  lemma {:induction false} ServerClosingIsFinal(c: Config, lim: Limits, t: ServerTunnel, turns: seq<(Pool, ServerInput)>)
    requires ValidConfig(c) && ServerRunning(lim, t) && !Reading(t.out)
    ensures var t' := ServerRun(c, lim, t, turns);
            t'.out.sent == t.out.sent && t'.delivered == t.delivered && !Reading(t'.out)
    decreases |turns|
  {
    if turns != [] {
      ServerTurnRuns(c, lim, turns[0].0, t, turns[0].1);
      ServerClosingIsFinal(c, lim, ServerTurn(c, lim, turns[0].0, t, turns[0].1), turns[1..]);
    }
  }

  lemma {:induction false} ClientClosingIsFinal(lim: Limits, t: ClientTunnel, turns: seq<ClientInput>)
    requires ClientRunning(lim, t) && !Reading(t.out)
    ensures var t' := ClientRun(lim, t, turns);
            t'.out.sent == t.out.sent && t'.delivered == t.delivered && !Reading(t'.out)
    decreases |turns|
  {
    if turns != [] {
      ClientTurnRuns(lim, t, turns[0]);
      ClientClosingIsFinal(lim, ClientTurn(lim, t, turns[0]), turns[1..]);
    }
  }

  /** `n` writes in a row complete. */
  function Completed(o: Outgoing, n: nat): Outgoing
    decreases n
  {
    if n == 0 then o else Completed(WriteDone(o, true), n - 1)
  }

  /**
   * The queue's length measures the drain: a closing endpoint stops after exactly as many completed writes
   * as it has blocks queued, and by then every frame it ever enqueued has been submitted, in order.
   */
  lemma {:induction false} DrainsExactly(lim: Limits, o: Outgoing)
    requires PumpInv(lim, o) && o.closing && !o.stopped && o.queue != []
    ensures forall n: nat :: n < |o.queue| ==> !Completed(o, n).stopped
    ensures var done := Completed(o, |o.queue|);
            done.stopped && done.closes == 1 && done.sent == o.sent && done.written == EncodeAll(o.sent)
    decreases |o.queue|
  {
    WriteDoneKeeps(lim, o, true);
    DrainsToClose(lim, o);
    var o' := WriteDone(o, true);
    if |o.queue| == 1 {
      assert |o.sent[o.submitted - 1..]| == 1;
      assert o.sent[..o.submitted] == o.sent;
      assert Completed(o, 1) == Completed(o', 0) == o';
    } else {
      DrainsExactly(lim, o');
      forall n: nat | n < |o.queue|
        ensures !Completed(o, n).stopped
      {
        if n > 0 {
          assert Completed(o, n) == Completed(o', n - 1);
        }
      }
    }
  }

  /** The packets of the run's offers that were accepted: the pump's history grew. */
  ghost function ServerAccepted(c: Config, lim: Limits, t: ServerTunnel, turns: seq<(Pool, ServerInput)>): seq<bytes>
    requires ValidConfig(c) && ServerRunning(lim, t)
    decreases |turns|
  {
    if turns == [] then []
    else
      ServerTurnRuns(c, lim, turns[0].0, t, turns[0].1);
      var t' := ServerTurn(c, lim, turns[0].0, t, turns[0].1);
      Taken(t.out.sent, t'.out.sent, ServerOffered(turns[0].1)) + ServerAccepted(c, lim, t', turns[1..])
  }

  ghost function ClientAccepted(lim: Limits, t: ClientTunnel, turns: seq<ClientInput>): seq<bytes>
    requires ClientRunning(lim, t)
    decreases |turns|
  {
    if turns == [] then []
    else
      ClientTurnRuns(lim, t, turns[0]);
      var t' := ClientTurn(lim, t, turns[0]);
      Taken(t.out.sent, t'.out.sent, ClientOffered(turns[0])) + ClientAccepted(lim, t', turns[1..])
  }

  function Taken(sent: seq<Frame>, sent': seq<Frame>, offered: Option<bytes>): seq<bytes> {
    if sent' != sent && offered.Some? then [offered.value] else []
  }

  lemma GrowsByTaken(sent: seq<Frame>, sent': seq<Frame>, offered: Option<bytes>)
    requires Grows(sent, sent', offered)
    ensures Select(sent', DATA) == Select(sent, DATA) + Taken(sent, sent', offered)
  {
    if sent' != sent {
      var f :| sent' == sent + [f] && Carries(f, offered);
      SelectConcat(sent, [f], DATA);
      SelectOne(f, DATA);
    }
  }

  /** The DATA an endpoint sends over a run is exactly the packets its device offered and it accepted. */
  lemma {:induction false} ServerSendsAccepted(c: Config, lim: Limits, t: ServerTunnel, turns: seq<(Pool, ServerInput)>)
    requires ValidConfig(c) && ServerRunning(lim, t)
    ensures Select(ServerRun(c, lim, t, turns).out.sent, DATA)
         == Select(t.out.sent, DATA) + ServerAccepted(c, lim, t, turns)
    decreases |turns|
  {
    if turns != [] {
      ServerTurnRuns(c, lim, turns[0].0, t, turns[0].1);
      var t' := ServerTurn(c, lim, turns[0].0, t, turns[0].1);
      GrowsByTaken(t.out.sent, t'.out.sent, ServerOffered(turns[0].1));
      ServerSendsAccepted(c, lim, t', turns[1..]);
      JoinAssociates(Select(t.out.sent, DATA), Taken(t.out.sent, t'.out.sent, ServerOffered(turns[0].1)),
                     ServerAccepted(c, lim, t', turns[1..]));
    }
  }

  lemma {:induction false} ClientSendsAccepted(lim: Limits, t: ClientTunnel, turns: seq<ClientInput>)
    requires ClientRunning(lim, t)
    ensures Select(ClientRun(lim, t, turns).out.sent, DATA) == Select(t.out.sent, DATA) + ClientAccepted(lim, t, turns)
    decreases |turns|
  {
    if turns != [] {
      ClientTurnRuns(lim, t, turns[0]);
      var t' := ClientTurn(lim, t, turns[0]);
      GrowsByTaken(t.out.sent, t'.out.sent, ClientOffered(turns[0]));
      ClientSendsAccepted(lim, t', turns[1..]);
      JoinAssociates(Select(t.out.sent, DATA), Taken(t.out.sent, t'.out.sent, ClientOffered(turns[0])),
                     ClientAccepted(lim, t', turns[1..]));
    }
  }

  // ---------- The assignment is reported once ----------

  /** Has the client not yet met the server's first frame? */
  predicate Expectant(k: C.Client) {
    k.state == C.Idle || k.state == C.AwaitingAssignment
  }

  /** A frame yields an assignment only to a client still awaiting one, which then awaits none. */
  lemma AssignmentEndsWaiting(k: C.Client, f: Frame, note: ErrorText)
    requires C.Assigned(k)
    ensures C.Handle(k, f, note).reply.assignment.Some? ==>
              k.state == C.AwaitingAssignment && !Expectant(C.Handle(k, f, note).client)
    ensures !Expectant(k) ==> !Expectant(C.Handle(k, f, note).client)
  {
    if k.state == C.Established && f.sequence == k.expected {
      EstablishedReplies(k.(expected := Next64(k.expected)), f, note);
    }
  }

  /** Whether this input makes the endpoint report an assignment to its owner. */
  predicate Reports(t: ClientTunnel, i: ClientInput)
    requires C.Assigned(t.client)
  {
    && i.ClientDoes? && i.event.Process? && t.inn.inbox != [] && Reading(t.out)
    && C.Handle(t.client, t.inn.inbox[0], i.event.note).reply.assignment.Some?
  }

  lemma ReportEndsWaiting(lim: Limits, t: ClientTunnel, i: ClientInput)
    requires ClientRunning(lim, t)
    ensures Reports(t, i) ==> Expectant(t.client) && !Expectant(ClientTurn(lim, t, i).client)
    ensures !Expectant(t.client) ==> !Expectant(ClientTurn(lim, t, i).client)
  {
    if i.ClientDoes? && i.event.Process? && t.inn.inbox != [] {
      AssignmentEndsWaiting(t.client, t.inn.inbox[0], i.event.note);
    }
  }

  ghost function ReportCount(lim: Limits, t: ClientTunnel, turns: seq<ClientInput>): nat
    requires ClientRunning(lim, t)
    decreases |turns|
  {
    if turns == [] then 0
    else
      ClientTurnRuns(lim, t, turns[0]);
      (if Reports(t, turns[0]) then 1 else 0) + ReportCount(lim, ClientTurn(lim, t, turns[0]), turns[1..])
  }

  /** Over every run, an endpoint reports at most one assignment. */
  lemma {:induction false} AssignmentReportedOnce(lim: Limits, t: ClientTunnel, turns: seq<ClientInput>)
    requires ClientRunning(lim, t)
    ensures ReportCount(lim, t, turns) <= if Expectant(t.client) then 1 else 0
    decreases |turns|
  {
    if turns != [] {
      ClientTurnRuns(lim, t, turns[0]);
      ReportEndsWaiting(lim, t, turns[0]);
      AssignmentReportedOnce(lim, ClientTurn(lim, t, turns[0]), turns[1..]);
    }
  }
}
