/** An honest client and an honest server joined by byte streams that are cut anywhere. */
module Link {
  import opened Bytes
  import opened Wire
  import opened Control
  import opened Leases
  import opened Transport
  import opened Dialogue
  import opened DialogueSteps
  import opened DialogueServer
  import opened Tunnel
  import opened LinkParts
  import C = ClientSession
  import S = ServerSession

  datatype Link = Link(client: ClientTunnel, server: ServerTunnel)

  datatype Event =
    | AtClient(client: ClientEvent)
    | AtServer(server: ServerEvent)
    | ClientReads(n: nat)
    | ServerReads(n: nat)

  function NewLink(mtu: u16, identity: string): Link {
    Link(NewClientTunnel(mtu), NewServerTunnel(identity))
  }

  /** The frame-level dialogue carried by the link. */
  function View(l: Link): Dialogue {
    Dialogue(l.client.client, l.client.out.sent, l.server.inn.handled, l.server.delivered,
             l.server.session, l.server.out.sent, l.client.inn.handled, l.client.delivered,
             l.server.terms, l.client.faults, l.server.faults)
  }

  ghost predicate LinkInv(c: Config, lim: Limits, l: Link) {
    && Pumping(lim, l.client.out) && Pumping(lim, l.server.out)
    && Scripted(c, View(l))
    && (Reading(l.server.out) ==> Conveying(l.client.out, l.server.inn))
    && (Reading(l.client.out) ==> Conveying(l.server.out, l.client.inn))
    && (!l.client.out.stopped ==> Streaming(l.server.out, l.client.inn))
    && !l.server.inn.decoder.failed && !l.client.inn.decoder.failed
    && (Reading(l.server.out) <==> ServerLive(l.server.session))
    && (Reading(l.client.out) <==> ClientLive(l.client.client))
    && (l.client.client.state == C.Idle ==> l.client.inn.inbox == [])
    && S.HoldsIffEstablished(l.server.session) && C.Assigned(l.client.client)
    && (l.client.client.assignment.Some? ==> l.client.client.assignment == l.server.terms)
  }

  lemma NewLinkInv(c: Config, lim: Limits, mtu: u16, identity: string)
    requires C.ValidMtu(mtu) && identity != ""
    ensures LinkInv(c, lim, NewLink(mtu, identity))
  {
    NewScript(c, mtu, identity);
    IdleConveys(lim);
    assert View(NewLink(mtu, identity)) == NewDialogue(mtu, identity);
  }

  /** One event of the link, against the pool as other sessions have left it. */
  function Step(c: Config, lim: Limits, p: Pool, l: Link, ev: Event): (Pool, Link)
    requires ValidConfig(c) && S.HoldsIffEstablished(l.server.session) && C.Assigned(l.client.client)
  {
    match ev
    case AtClient(e) => (p, l.(client := ClientStep(lim, l.client, e)))
    case AtServer(e) =>
      var (p1, t) := ServerStep(c, lim, p, l.server, e);
      (p1, l.(server := t))
    case ClientReads(n) =>
      (p, l.(client := ClientSettled(ClientRead(l.client, Unread(l.server.out.written, l.client.inn.consumed, n)))))
    case ServerReads(n) =>
      var (p1, t) := Settled(p, ServerRead(l.server, Unread(l.client.out.written, l.server.inn.consumed, n)));
      (p1, l.(server := t))
  }

  // ---------- Replacing one end ----------

  /** A client that only extended its outgoing history. */
  lemma ClientMoves(c: Config, lim: Limits, l: Link, t: ClientTunnel)
    requires LinkInv(c, lim, l) && Pumping(lim, t.out) && Scripted(c, View(l.(client := t)))
    requires l.client.out.sent <= t.out.sent && l.client.out.submitted <= t.out.submitted
    requires Reading(t.out) <==> ClientLive(t.client)
    requires Reading(t.out) ==> Conveying(l.server.out, t.inn)
    requires !t.out.stopped ==> Streaming(l.server.out, t.inn)
    requires !t.inn.decoder.failed && (t.client.state == C.Idle ==> t.inn.inbox == [])
    requires C.Assigned(t.client) && (t.client.assignment.Some? ==> t.client.assignment == l.server.terms)
    ensures LinkInv(c, lim, l.(client := t))
  {
    if Reading(l.server.out) {
      Extends(lim, l.client.out, t.out, l.server.inn);
    }
  }

  lemma ServerMoves(c: Config, lim: Limits, l: Link, t: ServerTunnel)
    requires LinkInv(c, lim, l) && Pumping(lim, t.out) && Scripted(c, View(l.(server := t)))
    requires l.server.out.sent <= t.out.sent && l.server.out.submitted <= t.out.submitted
    requires Reading(t.out) <==> ServerLive(t.session)
    requires Reading(t.out) ==> Conveying(l.client.out, t.inn)
    requires S.HoldsIffEstablished(t.session) && !t.inn.decoder.failed
    requires l.client.client.assignment.Some? ==> l.client.client.assignment == t.terms
    ensures LinkInv(c, lim, l.(server := t))
  {
    if Reading(l.client.out) {
      Extends(lim, l.server.out, t.out, l.client.inn);
    }
    if !l.client.out.stopped {
      StreamExtends(lim, l.server.out, t.out, l.client.inn);
    }
  }

  /** The client's transport stops, whatever else its pump did. */
  lemma ClientStops(c: Config, lim: Limits, l: Link, o: Outgoing)
    requires LinkInv(c, lim, l) && Pumping(lim, o) && o.stopped
    requires o.sent == l.client.out.sent && l.client.out.submitted <= o.submitted
    ensures LinkInv(c, lim, l.(client := ClientSettled(l.client.(out := o))))
  {
    var t := ClientSettled(l.client.(out := o));
    ClientCloses(c, View(l), l.client.client);
    assert View(l.(client := t)) == View(l).(client := ClosedClient(l.client.client));
    ClientMoves(c, lim, l, t);
  }

  lemma ServerStops(c: Config, lim: Limits, p: Pool, l: Link, o: Outgoing)
    requires LinkInv(c, lim, l) && Pumping(lim, o) && o.stopped
    requires o.sent == l.server.out.sent && l.server.out.submitted <= o.submitted
    ensures LinkInv(c, lim, l.(server := Settled(p, l.server.(out := o)).1))
  {
    var t := Settled(p, l.server.(out := o)).1;
    ServerCloses(c, View(l), l.server.session);
    assert View(l.(server := t)) == View(l).(server := Dead(l.server.session));
    ServerMoves(c, lim, l, t);
  }

  /** The client's pump moves on its own. */
  lemma ClientPumps(c: Config, lim: Limits, l: Link, o: Outgoing)
    requires LinkInv(c, lim, l) && Pumping(lim, o)
    requires o.sent == l.client.out.sent && l.client.out.submitted <= o.submitted
    requires o.stopped || (o.closing == l.client.out.closing && !l.client.out.stopped)
    ensures LinkInv(c, lim, l.(client := ClientSettled(l.client.(out := o))))
  {
    if o.stopped {
      ClientStops(c, lim, l, o);
    } else {
      var t := l.client.(out := o);
      assert View(l.(client := t)) == View(l);
      ClientMoves(c, lim, l, t);
    }
  }

  lemma ServerPumps(c: Config, lim: Limits, p: Pool, l: Link, o: Outgoing)
    requires LinkInv(c, lim, l) && Pumping(lim, o)
    requires o.sent == l.server.out.sent && l.server.out.submitted <= o.submitted
    requires o.stopped || (o.closing == l.server.out.closing && !l.server.out.stopped)
    ensures LinkInv(c, lim, l.(server := Settled(p, l.server.(out := o)).1))
  {
    if o.stopped {
      ServerStops(c, lim, p, l, o);
    } else {
      var t := l.server.(out := o);
      assert View(l.(server := t)) == View(l);
      ServerMoves(c, lim, l, t);
    }
  }

  lemma ClientIdles(c: Config, lim: Limits, l: Link)
    requires LinkInv(c, lim, l)
    ensures LinkInv(c, lim, l.(client := ClientSettled(l.client)))
  {
    ClientPumps(c, lim, l, l.client.out);
    assert l.client.(out := l.client.out) == l.client;
  }

  lemma ServerIdles(c: Config, lim: Limits, p: Pool, l: Link)
    requires LinkInv(c, lim, l)
    ensures LinkInv(c, lim, l.(server := Settled(p, l.server).1))
  {
    ServerPumps(c, lim, p, l, l.server.out);
    assert l.server.(out := l.server.out) == l.server;
  }

  lemma ClientKilled(c: Config, lim: Limits, l: Link)
    requires LinkInv(c, lim, l)
    ensures LinkInv(c, lim, l.(client := ClientSettled(l.client.(out := CloseNow(l.client.out)))))
  {
    Shuts(lim, l.client.out);
    ClientPumps(c, lim, l, CloseNow(l.client.out));
  }

  lemma ServerKilled(c: Config, lim: Limits, p: Pool, l: Link)
    requires LinkInv(c, lim, l)
    ensures LinkInv(c, lim, l.(server := Settled(p, l.server.(out := CloseNow(l.server.out))).1))
  {
    Shuts(lim, l.server.out);
    ServerPumps(c, lim, p, l, CloseNow(l.server.out));
  }

  // ---------- The client's steps ----------

  /** The controller made a frame; it is queued, or the full queue closes the transport. */
  lemma ClientSends(c: Config, lim: Limits, l: Link, o: Outgoing, made: (C.Client, Option<Frame>))
    requires LinkInv(c, lim, l) && Pumping(lim, o) && !o.stopped && Makes(c, View(l), made) && made.1.Some?
    requires o.sent == l.client.out.sent && o.submitted == l.client.out.submitted
    requires ClientLive(made.0) <==> Reading(o)
    ensures LinkInv(c, lim, l.(client := ClientSettled(l.client.(client := made.0,
                                                                  out := Pumped(lim, o, [made.1.value], false)))))
  {
    Pumps(lim, o, [made.1.value], false);
    var o' := Pumped(lim, o, [made.1.value], false);
    var t := l.client.(client := made.0, out := o');
    if Post(lim, o, [made.1.value]).1 {
      assert View(l.(client := t)) == View(l).(client := made.0, up := View(l).up + [made.1.value]);
      if o'.stopped {
        ClientCloses(c, View(l.(client := t)), made.0);
        assert View(l.(client := ClientSettled(t))) == View(l.(client := t)).(client := ClosedClient(made.0));
      }
      ClientMoves(c, lim, l, ClientSettled(t));
    } else {
      ClientCloses(c, View(l), made.0);
      assert View(l.(client := ClientSettled(t))) == View(l).(client := ClosedClient(made.0));
      ClientMoves(c, lim, l, ClientSettled(t));
    }
  }

  lemma ClientMakes(c: Config, lim: Limits, l: Link, made: (C.Client, Option<Frame>))
    requires LinkInv(c, lim, l) && !l.client.out.stopped && Makes(c, View(l), made)
    requires made.1.Some? ==> ClientLive(made.0)
    ensures LinkInv(c, lim, l.(client := ClientSettled(ClientSend(lim, l.client, made))))
  {
    if made.1.Some? {
      ClientSends(c, lim, l, l.client.out, made);
    } else {
      ClientIdles(c, lim, l);
      assert ClientSend(lim, l.client, made) == l.client;
    }
  }

  lemma ClientStopKeeps(c: Config, lim: Limits, l: Link, code: u16)
    requires LinkInv(c, lim, l)
    ensures LinkInv(c, lim, l.(client := ClientSettled(ClientStop(lim, l.client, code))))
  {
    CloseMakes(c, View(l), code);
    var made := C.MakeClose(l.client.client, code);
    if l.client.out.stopped {
      ClientIdles(c, lim, l);
    } else if made.1.Some? {
      Marks(lim, l.client.out);
      ClientSends(c, lim, l, l.client.out.(closing := true), made);
    } else {
      ClientKilled(c, lim, l);
    }
  }

  lemma ClientReadsKeeps(c: Config, lim: Limits, l: Link, n: nat)
    requires LinkInv(c, lim, l)
    ensures LinkInv(c, lim, l.(client := ClientSettled(ClientRead(l.client, Unread(l.server.out.written, l.client.inn.consumed, n)))))
  {
    if l.client.out.stopped || l.client.client.state == C.Idle || l.client.inn.inbox != [] {
      ClientIdles(c, lim, l);
    } else {
      var i := Read(l.client.inn, Unread(l.server.out.written, l.client.inn.consumed, n)).0;
      LateReads(l.server.out, l.client.inn, n);
      if l.client.out.closing {
        ClientReads(c, lim, l, i.(inbox := []));
      } else {
        Reads(l.server.out, l.client.inn, n);
        ConveyingStreams(l.server.out, i);
        ClientReads(c, lim, l, i);
      }
    }
  }

  lemma ClientReads(c: Config, lim: Limits, l: Link, i: Incoming)
    requires LinkInv(c, lim, l) && !l.client.out.stopped && l.client.client.state != C.Idle
    requires Streaming(l.server.out, i) && (Reading(l.client.out) ==> Conveying(l.server.out, i))
    requires i.handled == l.client.inn.handled && !i.decoder.failed
    ensures LinkInv(c, lim, l.(client := l.client.(inn := i)))
  {
    var t := l.client.(inn := i);
    assert View(l.(client := t)) == View(l);
    ClientMoves(c, lim, l, t);
  }

  /** The client handled a frame: its reply is queued, refused by a full queue, or moot. */
  lemma ClientApplies(c: Config, lim: Limits, l: Link, e: C.Effect, networkOk: bool)
    requires LinkInv(c, lim, l) && Reading(l.client.out) && l.client.inn.inbox != []
    requires ClientOutcome(c, View(l), e) && Conveying(l.server.out, Take(l.client.inn))
    ensures LinkInv(c, lim, l.(client := ClientSettled(
                    ClientApply(lim, l.client.(client := e.client, inn := Take(l.client.inn)), e.reply, networkOk))))
  {
    var t := l.client.(client := e.client, inn := Take(l.client.inn));
    var d, o := View(l), l.client.out;
    if e.reply.assignment.Some? && !networkOk {
      Shuts(lim, o);
      var t' := ClientSettled(t.(out := CloseNow(o)));
      assert View(l.(client := t')) == d.(client := ClosedClient(e.client), downHandled := d.downHandled + 1);
      ClientMoves(c, lim, l, t');
    } else {
      Pumps(lim, o, e.reply.frames, e.reply.close);
      ClientPosts(c, lim, l, e, Pumped(lim, o, e.reply.frames, e.reply.close), Post(lim, o, e.reply.frames).1);
    }
  }

  lemma ClientPosts(c: Config, lim: Limits, l: Link, e: C.Effect, o: Outgoing, posted: bool)
    requires LinkInv(c, lim, l) && Reading(l.client.out) && l.client.inn.inbox != []
    requires ClientOutcome(c, View(l), e) && Conveying(l.server.out, Take(l.client.inn))
    requires PumpStep(lim, l.client.out, o, e.reply.frames, e.reply.close, posted)
    requires !posted ==> e.reply.frames != []
    ensures LinkInv(c, lim, l.(client := ClientSettled(
                    l.client.(client := e.client, inn := Take(l.client.inn), out := o,
                              delivered := l.client.delivered + e.reply.packets,
                              faults := l.client.faults + ErrorCodes(e.reply.frames)))))
  {
    var d := View(l);
    var t := l.client.(client := e.client, inn := Take(l.client.inn), out := o,
                       delivered := l.client.delivered + e.reply.packets,
                       faults := l.client.faults + ErrorCodes(e.reply.frames));
    if posted {
      var d' := ClientHandled(d, e, e.reply.frames);
      assert View(l.(client := t)) == d';
      if o.stopped {
        ClientCloses(c, d', e.client);
        assert View(l.(client := ClientSettled(t))) == d'.(client := ClosedClient(e.client));
      }
    } else {
      assert View(l.(client := ClientSettled(t)))
          == d.(client := ClosedClient(e.client), downHandled := d.downHandled + 1,
                downDelivered := d.downDelivered + e.reply.packets,
                clientFaults := d.clientFaults + ErrorCodes(e.reply.frames));
    }
    if !l.client.out.stopped {
      StreamSkips(l.server.out, l.client.inn, Take(l.client.inn));
    }
    ClientMoves(c, lim, l, ClientSettled(t));
  }

  lemma ClientProcessKeeps(c: Config, lim: Limits, l: Link, note: ErrorText, networkOk: bool)
    requires LinkInv(c, lim, l)
    ensures LinkInv(c, lim, l.(client := ClientSettled(ClientProcess(lim, l.client, note, networkOk))))
  {
    var t := l.client;
    if t.inn.inbox == [] {
      ClientIdles(c, lim, l);
    } else if !Reading(t.out) {
      var t' := t.(inn := t.inn.(inbox := []));
      if !t.out.stopped {
        StreamSkips(l.server.out, t.inn, t'.inn);
      }
      assert View(l.(client := t')) == View(l);
      ClientMoves(c, lim, l, t');
      ClientIdles(c, lim, l.(client := t'));
      assert l.(client := t').(client := ClientSettled(t')) == l.(client := ClientSettled(t'));
    } else {
      Takes(l.server.out, t.inn);
      ClientHandlesOutcome(c, View(l), note);
      ClientApplies(c, lim, l, C.Handle(t.client, t.inn.inbox[0], note), networkOk);
    }
  }

  lemma ClientKeeps(c: Config, lim: Limits, l: Link, ev: ClientEvent)
    requires LinkInv(c, lim, l)
    ensures LinkInv(c, lim, l.(client := ClientStep(lim, l.client, ev)))
  {
    match ev
    case Connected =>
      StartMakes(c, View(l));
      if l.client.out.stopped || l.client.client.state != C.Idle {
        ClientIdles(c, lim, l);
      } else {
        ClientMakes(c, lim, l, C.Start(l.client.client));
      }
    case Process(note, networkOk) =>
      ClientProcessKeeps(c, lim, l, note, networkOk);
    case FromTun(packet) =>
      DataMakes(c, View(l), packet);
      if Reading(l.client.out) {
        ClientMakes(c, lim, l, C.MakeData(l.client.client, packet));
      } else {
        ClientIdles(c, lim, l);
      }
    case Probe(nonce) =>
      PingMakes(c, View(l), nonce);
      if Reading(l.client.out) {
        ClientMakes(c, lim, l, C.MakePing(l.client.client, nonce));
      } else {
        ClientIdles(c, lim, l);
      }
    case Stop(code) =>
      ClientStopKeeps(c, lim, l, code);
    case Written(ok) =>
      Completes(lim, l.client.out, ok);
      ClientPumps(c, lim, l, WriteDone(l.client.out, ok));
    case Kill =>
      ClientKilled(c, lim, l);
  }

  // ---------- The server's steps ----------

  lemma ServerReadsKeeps(c: Config, lim: Limits, p: Pool, l: Link, n: nat)
    requires LinkInv(c, lim, l)
    ensures LinkInv(c, lim, l.(server := Settled(p, ServerRead(l.server, Unread(l.client.out.written, l.server.inn.consumed, n))).1))
  {
    if !Reading(l.server.out) || l.server.inn.inbox != [] {
      ServerIdles(c, lim, p, l);
    } else {
      Reads(l.client.out, l.server.inn, n);
      ConveyingStreams(l.client.out, Read(l.server.inn, Unread(l.client.out.written, l.server.inn.consumed, n)).0);
      var t := l.server.(inn := Read(l.server.inn, Unread(l.client.out.written, l.server.inn.consumed, n)).0);
      assert View(l.(server := t)) == View(l);
      ServerMoves(c, lim, l, t);
    }
  }

  /** The server handled a frame: its reply is queued or refused by a full queue. */
  lemma ServerPosts(c: Config, lim: Limits, p: Pool, l: Link, e: S.Effect, o: Outgoing, posted: bool, routed: bool)
    requires LinkInv(c, lim, l) && Reading(l.server.out) && l.server.inn.inbox != []
    requires ServerOutcome(c, View(l), e) && Conveying(l.client.out, Take(l.server.inn))
    requires PumpStep(lim, l.server.out, o, e.reply.frames, e.reply.close, posted)
    requires !posted ==> e.reply.frames != []
    ensures LinkInv(c, lim, l.(server := Settled(p,
                    l.server.(session := e.session, inn := Take(l.server.inn), routed := routed, out := o,
                              delivered := l.server.delivered + e.reply.packets,
                              faults := l.server.faults + ErrorCodes(e.reply.frames),
                              terms := if posted then NewTerms(l.server.terms, e.reply.frames) else l.server.terms)).1))
  {
    var d := View(l);
    var terms := if posted then NewTerms(l.server.terms, e.reply.frames) else l.server.terms;
    var t := l.server.(session := e.session, inn := Take(l.server.inn), routed := routed, out := o,
                       delivered := l.server.delivered + e.reply.packets,
                       faults := l.server.faults + ErrorCodes(e.reply.frames), terms := terms);
    var t' := Settled(p, t).1;
    if posted {
      var d' := ServerHandled(d, e, e.reply.frames, terms);
      assert View(l.(server := t)) == d';
      if o.stopped {
        ServerCloses(c, d', e.session);
        assert View(l.(server := t')) == d'.(server := Dead(e.session));
      }
    } else {
      assert View(l.(server := t'))
          == d.(server := Dead(e.session), upHandled := d.upHandled + 1,
                upDelivered := d.upDelivered + e.reply.packets,
                serverFaults := d.serverFaults + ErrorCodes(e.reply.frames));
    }
    ServerMoves(c, lim, l, t');
  }

  lemma ServerApplies(c: Config, lim: Limits, p: Pool, l: Link, e: S.Effect, routed: bool)
    requires LinkInv(c, lim, l) && Reading(l.server.out) && l.server.inn.inbox != []
    requires ServerOutcome(c, View(l), e) && Conveying(l.client.out, Take(l.server.inn))
    ensures LinkInv(c, lim, l.(server := Settled(p,
                    ServerApply(lim, l.server.(session := e.session, inn := Take(l.server.inn), routed := routed), e.reply)).1))
  {
    var o := l.server.out;
    Pumps(lim, o, e.reply.frames, e.reply.close);
    ServerPosts(c, lim, p, l, e, Pumped(lim, o, e.reply.frames, e.reply.close), Post(lim, o, e.reply.frames).1, routed);
  }

  lemma RouteRefusalKeeps(c: Config, lim: Limits, p: Pool, l: Link, e: S.Effect, routed: bool)
    requires LinkInv(c, lim, l) && Reading(l.server.out) && l.server.inn.inbox != []
    requires ServerOutcome(c, View(l), e)
    ensures LinkInv(c, lim, l.(server := Settled(p,
                    l.server.(session := e.session, inn := Take(l.server.inn), routed := routed,
                              out := CloseNow(l.server.out))).1))
  {
    Shuts(lim, l.server.out);
    var d := View(l);
    var t := Settled(p, l.server.(session := e.session, inn := Take(l.server.inn), routed := routed,
                                  out := CloseNow(l.server.out))).1;
    assert View(l.(server := t)) == d.(server := Dead(e.session), upHandled := d.upHandled + 1);
    ServerMoves(c, lim, l, t);
  }

  lemma ServerProcessKeeps(c: Config, lim: Limits, p: Pool, l: Link, now: int, note: ErrorText, routeOk: bool)
    requires ValidConfig(c) && PoolInv(c, p) && LinkInv(c, lim, l)
    ensures var (p1, t) := ServerProcess(c, lim, p, l.server, now, note, routeOk);
            LinkInv(c, lim, l.(server := Settled(p1, t).1))
  {
    var t := l.server;
    if t.inn.inbox == [] {
      ServerIdles(c, lim, p, l);
    } else if !Reading(t.out) {
      var t' := t.(inn := t.inn.(inbox := []));
      assert View(l.(server := t')) == View(l);
      ServerMoves(c, lim, l, t');
      ServerIdles(c, lim, p, l.(server := t'));
      assert l.(server := t').(server := Settled(p, t').1) == l.(server := Settled(p, t').1);
    } else {
      Takes(l.client.out, t.inn);
      ServerHandlesOutcome(c, p, View(l), now, note);
      var e := S.Handle(c, p, t.session, t.inn.inbox[0], now, note);
      var established := !t.routed && e.session.state == S.Established;
      if established && !routeOk {
        RouteRefusalKeeps(c, lim, e.pool, l, e, true);
      } else {
        ServerApplies(c, lim, e.pool, l, e, t.routed || established);
      }
    }
  }

  /** A packet from the TUN device was answered by `e`. */
  lemma ServerForwards(c: Config, lim: Limits, p: Pool, l: Link, e: S.Effect)
    requires LinkInv(c, lim, l) && !l.server.out.stopped && DataOutcome(c, View(l), e) && e.reply.frames != []
    ensures LinkInv(c, lim, l.(server := Settled(p,
                    l.server.(session := e.session, out := Pumped(lim, l.server.out, e.reply.frames, false))).1))
  {
    var d, o := View(l), l.server.out;
    Pumps(lim, o, e.reply.frames, false);
    var t := l.server.(session := e.session, out := Pumped(lim, o, e.reply.frames, false));
    var t' := Settled(p, t).1;
    if Post(lim, o, e.reply.frames).1 {
      assert View(l.(server := t')) == d.(server := e.session, down := d.down + e.reply.frames);
    } else {
      ServerCloses(c, d, e.session);
      assert View(l.(server := t')) == d.(server := Dead(e.session));
    }
    ServerMoves(c, lim, l, t');
  }

  /** A packet that is not for this client, or whose session has ended. */
  lemma ServerDrops(c: Config, lim: Limits, p: Pool, l: Link, e: S.Effect)
    requires LinkInv(c, lim, l) && !l.server.out.stopped && DataOutcome(c, View(l), e) && e.reply.frames == []
    ensures var t1 := l.server.(session := e.session);
            var t := if e.session.state == S.Established then t1 else t1.(out := CloseNow(l.server.out));
            LinkInv(c, lim, l.(server := Settled(p, t).1))
  {
    if e.session.state == S.Established {
      assert l.server.(session := e.session) == l.server;
      ServerIdles(c, lim, p, l);
    } else {
      Shuts(lim, l.server.out);
      var t := Settled(p, l.server.(session := e.session, out := CloseNow(l.server.out))).1;
      ServerCloses(c, View(l), e.session);
      assert View(l.(server := t)) == View(l).(server := Dead(e.session));
      ServerMoves(c, lim, l, t);
    }
  }

  lemma ServerFromTunKeeps(c: Config, lim: Limits, p: Pool, l: Link, packet: bytes, now: int)
    requires ValidConfig(c) && PoolInv(c, p) && LinkInv(c, lim, l)
    ensures var (p1, t) := ServerFromTun(c, lim, p, l.server, packet, now);
            LinkInv(c, lim, l.(server := Settled(p1, t).1))
  {
    if l.server.out.stopped {
      ServerIdles(c, lim, p, l);
    } else {
      ServerDataOutcome(c, p, View(l), packet, now);
      var e := S.MakeData(c, p, l.server.session, packet, now);
      if e.reply.frames == [] {
        ServerDrops(c, lim, e.pool, l, e);
      } else {
        ServerForwards(c, lim, e.pool, l, e);
      }
    }
  }

  lemma ServerKeeps(c: Config, lim: Limits, p: Pool, l: Link, ev: ServerEvent)
    requires ValidConfig(c) && PoolInv(c, p) && LinkInv(c, lim, l)
    ensures LinkInv(c, lim, l.(server := ServerStep(c, lim, p, l.server, ev).1))
  {
    match ev
    case Process(now, note, routeOk) =>
      ServerProcessKeeps(c, lim, p, l, now, note, routeOk);
    case FromTun(packet, now) =>
      ServerFromTunKeeps(c, lim, p, l, packet, now);
    case Written(ok) =>
      Completes(lim, l.server.out, ok);
      ServerPumps(c, lim, p, l, WriteDone(l.server.out, ok));
    case Kill =>
      ServerKilled(c, lim, p, l);
  }

  /** Every event at either end, and every cut of either stream, keeps the link's invariant. */
  lemma StepKeeps(c: Config, lim: Limits, p: Pool, l: Link, ev: Event)
    requires ValidConfig(c) && PoolInv(c, p) && LinkInv(c, lim, l)
    ensures LinkInv(c, lim, Step(c, lim, p, l, ev).1)
  {
    match ev
    case AtClient(e) => ClientKeeps(c, lim, l, e);
    case AtServer(e) => ServerKeeps(c, lim, p, l, e);
    case ClientReads(n) => ClientReadsKeeps(c, lim, l, n);
    case ServerReads(n) => ServerReadsKeeps(c, lim, p, l, n);
  }
}
