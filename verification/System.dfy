/**
 * The whole system: one pool, any number of sessions with arbitrary peers, and any number of sessions
 * whose peer is an honest client at the other end of a byte stream.
 */
module System {
  import opened Bytes
  import opened Wire
  import opened Control
  import opened Leases
  import opened Transport
  import opened Dialogue
  import opened Tunnel
  import opened LinkParts
  import opened Pump
  import C = ClientSession
  import S = ServerSession
  import F = Fleet
  import L = Link

  /** `fleet` has every session's controller, `links` the endpoints of those with an honest client. */
  datatype System = System(fleet: F.Fleet, links: map<nat, L.Link>)

  datatype Event =
    | Connect(who: nat, mtu: u16, identity: string)
    | At(who: nat, event: L.Event)
    | Elsewhere(other: F.Event)

  const EMPTY := System(F.EMPTY, map[])

  ghost predicate Linked(c: Config, lim: Limits, y: System, k: nat) {
    && k in y.links && k in y.fleet.sessions && y.fleet.sessions[k] == y.links[k].server.session
    && L.LinkInv(c, lim, y.links[k]) && Runs(lim, y.links[k])
  }

  /** Both endpoints keep the pump's invariant, which they would against any peer. */
  ghost predicate Runs(lim: Limits, l: L.Link) {
    ServerRunning(lim, l.server) && ClientRunning(lim, l.client)
  }

  ghost predicate SystemInv(c: Config, lim: Limits, y: System) {
    && F.FleetInv(c, y.fleet)
    && forall k {:trigger Linked(c, lim, y, k)} {:trigger k in y.links} :: k in y.links ==> Linked(c, lim, y, k)
  }

  /** One event; events that name an unknown session, or interfere with an honest one, do nothing. */
  ghost function Step(c: Config, lim: Limits, y: System, ev: Event): System
    requires ValidConfig(c) && SystemInv(c, lim, y)
  {
    match ev
    case Connect(k, mtu, identity) =>
      if k in y.fleet.sessions || identity == "" || !C.ValidMtu(mtu) then y
      else System(F.Step(c, y.fleet, F.Open(k, identity)).0, y.links[k := L.NewLink(mtu, identity)])
    case At(k, e) =>
      if k !in y.links then y
      else
        var (p, l) := L.Step(c, lim, y.fleet.pool, y.links[k], e);
        System(F.Fleet(p, y.fleet.sessions[k := l.server.session]), y.links[k := l])
    case Elsewhere(e) =>
      if !e.Sweep? && e.who in y.links then y else y.(fleet := F.Step(c, y.fleet, e).0)
  }

  // ---------- Every link event is a few fleet events ----------

  /** What the frame handling part of a link event is to the fleet. */
  function Handling(k: nat, t: ServerTunnel, ev: L.Event): seq<F.Event> {
    match ev
    case AtServer(Process(now, note, _)) =>
      if t.inn.inbox == [] || !Reading(t.out) then [] else [F.Receive(k, t.inn.inbox[0], now, note)]
    case AtServer(FromTun(packet, now)) => if t.out.stopped then [] else [F.FromTun(k, packet, now)]
    case _ => []
  }

  function Trace(k: nat, t: ServerTunnel, ev: L.Event, stopped: bool): seq<F.Event> {
    Handling(k, t, ev) + if stopped && (ev.AtServer? || ev.ServerReads?) then [F.Disconnect(k)] else []
  }

  lemma RunOne(c: Config, fl: F.Fleet, ev: F.Event)
    requires ValidConfig(c) && F.FleetInv(c, fl)
    ensures F.FleetInv(c, F.Step(c, fl, ev).0) && F.Run(c, fl, [ev]) == F.Step(c, fl, ev).0
  {
    F.StepKeeps(c, fl, ev);
    assert [ev][1..] == [];
    assert F.Run(c, F.Step(c, fl, ev).0, []) == F.Step(c, fl, ev).0;
  }

  lemma {:induction false} RunAppend(c: Config, fl: F.Fleet, a: seq<F.Event>, b: seq<F.Event>)
    requires ValidConfig(c) && F.FleetInv(c, fl)
    ensures F.Run(c, fl, a + b) == F.Run(c, F.Run(c, fl, a), b)
    decreases |a|
  {
    if a == [] {
      assert a + b == b;
    } else {
      F.StepKeeps(c, fl, a[0]);
      RunAppend(c, F.Step(c, fl, a[0]).0, a[1..], b);
      assert (a + b)[1..] == a[1..] + b;
    }
  }

  /** The pool and session once the frame handling part is done, before the transport settles. */
  function Raw(c: Config, lim: Limits, p: Pool, l: L.Link, ev: L.Event): (Pool, S.Session)
    requires ValidConfig(c) && S.HoldsIffEstablished(l.server.session) && C.Assigned(l.client.client)
  {
    if ev.AtServer? then (ServerRaw(c, lim, p, l.server, ev.server).0, ServerRaw(c, lim, p, l.server, ev.server).1.session)
    else (p, l.server.session)
  }

  lemma HandlingIsFleet(c: Config, lim: Limits, fl: F.Fleet, k: nat, l: L.Link, ev: L.Event)
    requires ValidConfig(c) && F.FleetInv(c, fl) && C.Assigned(l.client.client)
    requires k in fl.sessions && fl.sessions[k] == l.server.session
    ensures var (p, s) := Raw(c, lim, fl.pool, l, ev);
            F.Run(c, fl, Handling(k, l.server, ev)) == F.Fleet(p, fl.sessions[k := s])
  {
    var evs := Handling(k, l.server, ev);
    if evs == [] {
      assert fl.sessions[k := l.server.session] == fl.sessions;
      assert fl == F.Fleet(fl.pool, fl.sessions);
    } else {
      RunOne(c, fl, evs[0]);
    }
  }

  /** A server that has run `handling` and then settles has run a disconnection more if it stopped. */
  lemma SettlingIsDisconnect(c: Config, fl: F.Fleet, k: nat, handling: seq<F.Event>, p: Pool, t: ServerTunnel)
    requires ValidConfig(c) && F.FleetInv(c, fl) && k in fl.sessions
    requires F.Run(c, fl, handling) == F.Fleet(p, fl.sessions[k := t.session])
    ensures var (p', t') := Settled(p, t);
            && t'.out == t.out
            && F.Run(c, fl, handling + if t.out.stopped then [F.Disconnect(k)] else [])
               == F.Fleet(p', fl.sessions[k := t'.session])
  {
    if t.out.stopped {
      var fl1 := F.Run(c, fl, handling);
      RunOne(c, fl1, F.Disconnect(k));
      RunAppend(c, fl, handling, [F.Disconnect(k)]);
      assert fl.sessions[k := t.session][k := Settled(p, t).1.session] == fl.sessions[k := Settled(p, t).1.session];
    } else {
      assert handling + [] == handling;
    }
  }

  lemma LinkStepIsFleet(c: Config, lim: Limits, fl: F.Fleet, k: nat, l: L.Link, ev: L.Event)
    requires ValidConfig(c) && F.FleetInv(c, fl) && C.Assigned(l.client.client)
    requires k in fl.sessions && fl.sessions[k] == l.server.session && S.HoldsIffEstablished(l.server.session)
    ensures var (p, l') := L.Step(c, lim, fl.pool, l, ev);
            F.Run(c, fl, Trace(k, l.server, ev, l'.server.out.stopped)) == F.Fleet(p, fl.sessions[k := l'.server.session])
  {
    HandlingIsFleet(c, lim, fl, k, l, ev);
    var (p, s) := Raw(c, lim, fl.pool, l, ev);
    match ev
    case AtServer(e) =>
      SettlingIsDisconnect(c, fl, k, Handling(k, l.server, ev), p, ServerRaw(c, lim, fl.pool, l.server, e).1);
    case ServerReads(n) =>
      SettlingIsDisconnect(c, fl, k, [], p, ServerRead(l.server, Unread(l.client.out.written, l.server.inn.consumed, n)));
    case _ =>
  }

  // ---------- Every link event is a turn of one endpoint ----------

  /** The packet a link event offers to the client, or to the server. */
  function OfferedUp(ev: L.Event): Option<bytes> {
    if ev.AtClient? && ev.client.FromTun? then Some(ev.client.packet) else None
  }

  function OfferedDown(ev: L.Event): Option<bytes> {
    if ev.AtServer? && ev.server.FromTun? then Some(ev.server.packet) else None
  }

  lemma LinkStepRuns(c: Config, lim: Limits, p: Pool, l: L.Link, ev: L.Event)
    requires ValidConfig(c) && Runs(lim, l)
    ensures var l' := L.Step(c, lim, p, l, ev).1;
            && Runs(lim, l') && Grows(l.client.out.sent, l'.client.out.sent, OfferedUp(ev))
            && Grows(l.server.out.sent, l'.server.out.sent, OfferedDown(ev))
  {
    match ev
    case AtClient(e) => ClientTurnRuns(lim, l.client, ClientDoes(e));
    case AtServer(e) => ServerTurnRuns(c, lim, p, l.server, ServerDoes(e));
    case ClientReads(n) =>
      ClientTurnRuns(lim, l.client, Incomes(Unread(l.server.out.written, l.client.inn.consumed, n)));
    case ServerReads(n) =>
      ServerTurnRuns(c, lim, p, l.server, Arrives(Unread(l.client.out.written, l.server.inn.consumed, n)));
  }

  // ---------- The invariant ----------

  lemma EmptySystemInv(c: Config, lim: Limits)
    ensures SystemInv(c, lim, EMPTY)
  {
  }

  lemma PoolIsGood(c: Config, fl: F.Fleet)
    requires F.FleetInv(c, fl)
    ensures PoolInv(c, fl.pool)
  {
  }

  lemma FleetStepSpares(c: Config, fl: F.Fleet, ev: F.Event, k: nat)
    requires ValidConfig(c) && F.FleetInv(c, fl) && k in fl.sessions && (ev.Sweep? || ev.who != k)
    ensures k in F.Step(c, fl, ev).0.sessions && F.Step(c, fl, ev).0.sessions[k] == fl.sessions[k]
  {
  }

  lemma StepKeeps(c: Config, lim: Limits, y: System, ev: Event)
    requires ValidConfig(c) && SystemInv(c, lim, y)
    ensures SystemInv(c, lim, Step(c, lim, y, ev))
  {
    var y' := Step(c, lim, y, ev);
    match ev
    case Connect(k, mtu, identity) =>
      F.StepKeeps(c, y.fleet, F.Open(k, identity));
      if y' != y {
        L.NewLinkInv(c, lim, mtu, identity);
        FreshEndpoints(lim, mtu, identity);
        OthersLinked(c, lim, y, y', k);
      }
    case At(k, e) =>
      if k in y.links {
        assert Linked(c, lim, y, k);
        PoolIsGood(c, y.fleet);
        L.StepKeeps(c, lim, y.fleet.pool, y.links[k], e);
        LinkStepRuns(c, lim, y.fleet.pool, y.links[k], e);
        LinkStepIsFleet(c, lim, y.fleet, k, y.links[k], e);
        OthersLinked(c, lim, y, y', k);
      }
    case Elsewhere(e) =>
      F.StepKeeps(c, y.fleet, e);
      forall k | k in y'.links
        ensures Linked(c, lim, y', k)
      {
        assert Linked(c, lim, y, k);
        if y' != y {
          FleetStepSpares(c, y.fleet, e, k);
        }
      }
  }

  /** Only link `k` and its session were replaced. */
  lemma OthersLinked(c: Config, lim: Limits, y: System, y': System, k: nat)
    requires SystemInv(c, lim, y) && Linked(c, lim, y', k)
    requires y'.links == y.links[k := y'.links[k]] && y'.fleet.sessions == y.fleet.sessions[k := y'.fleet.sessions[k]]
    ensures forall j :: j in y'.links ==> Linked(c, lim, y', j)
  {
    forall j | j in y'.links
      ensures Linked(c, lim, y', j)
    {
      if j != k {
        assert Linked(c, lim, y, j);
      }
    }
  }

  /** The system after any number of events. */
  ghost function Run(c: Config, lim: Limits, y: System, evs: seq<Event>): (r: System)
    requires ValidConfig(c) && SystemInv(c, lim, y)
    ensures SystemInv(c, lim, r)
    decreases |evs|
  {
    if evs == [] then y
    else
      StepKeeps(c, lim, y, evs[0]);
      Run(c, lim, Step(c, lim, y, evs[0]), evs[1..])
  }

  ghost function After(c: Config, lim: Limits, evs: seq<Event>): (r: System)
    requires ValidConfig(c)
    ensures SystemInv(c, lim, r)
  {
    EmptySystemInv(c, lim);
    Run(c, lim, EMPTY, evs)
  }

  /**
   * Refinement: what the tunnels do to the pool and the controllers, they do by a run of the fleet. So
   * whatever holds over all runs of a fleet holds over all runs of the system.
   */
  lemma RefinesFleet(c: Config, lim: Limits, evs: seq<Event>) returns (trace: seq<F.Event>)
    requires ValidConfig(c)
    ensures F.After(c, trace) == After(c, lim, evs).fleet
  {
    EmptySystemInv(c, lim);
    trace := RunRefines(c, lim, EMPTY, evs);
  }

  lemma {:induction false} RunRefines(c: Config, lim: Limits, y: System, evs: seq<Event>) returns (trace: seq<F.Event>)
    requires ValidConfig(c) && SystemInv(c, lim, y)
    ensures F.Run(c, y.fleet, trace) == Run(c, lim, y, evs).fleet
    decreases |evs|
  {
    if evs == [] {
      trace := [];
    } else {
      StepKeeps(c, lim, y, evs[0]);
      var y1 := Step(c, lim, y, evs[0]);
      var first := StepRefines(c, lim, y, evs[0]);
      var later := RunRefines(c, lim, y1, evs[1..]);
      RunAppend(c, y.fleet, first, later);
      trace := first + later;
    }
  }

  lemma StepRefines(c: Config, lim: Limits, y: System, ev: Event) returns (trace: seq<F.Event>)
    requires ValidConfig(c) && SystemInv(c, lim, y)
    ensures F.Run(c, y.fleet, trace) == Step(c, lim, y, ev).fleet
  {
    trace := [];
    match ev
    case Connect(k, mtu, identity) =>
      if Step(c, lim, y, ev) != y {
        trace := [F.Open(k, identity)];
        RunOne(c, y.fleet, trace[0]);
      }
    case At(k, e) =>
      if k in y.links {
        assert Linked(c, lim, y, k);
        LinkStepIsFleet(c, lim, y.fleet, k, y.links[k], e);
        var l' := L.Step(c, lim, y.fleet.pool, y.links[k], e).1;
        trace := Trace(k, y.links[k].server, e, l'.server.out.stopped);
      }
    case Elsewhere(e) =>
      if e.Sweep? || e.who !in y.links {
        trace := [e];
        RunOne(c, y.fleet, e);
      }
  }

  // ---------- What every run promises ----------

  /** The packets that one event gives link `k`'s client and that it takes, and likewise its server. */
  function TakenUp(y: System, y': System, ev: Event, k: nat): seq<bytes> {
    if ev.At? && ev.who == k && k in y.links && k in y'.links
    then Taken(y.links[k].client.out.sent, y'.links[k].client.out.sent, OfferedUp(ev.event)) else []
  }

  function TakenDown(y: System, y': System, ev: Event, k: nat): seq<bytes> {
    if ev.At? && ev.who == k && k in y.links && k in y'.links
    then Taken(y.links[k].server.out.sent, y'.links[k].server.out.sent, OfferedDown(ev.event)) else []
  }

  /** The packets that link `k`'s client accepted from its device during the run. */
  ghost function AcceptedUp(c: Config, lim: Limits, y: System, evs: seq<Event>, k: nat): seq<bytes>
    requires ValidConfig(c) && SystemInv(c, lim, y)
    decreases |evs|
  {
    if evs == [] then []
    else
      StepKeeps(c, lim, y, evs[0]);
      var y' := Step(c, lim, y, evs[0]);
      TakenUp(y, y', evs[0], k) + AcceptedUp(c, lim, y', evs[1..], k)
  }

  /** The packets that link `k`'s server accepted from its device during the run. */
  ghost function AcceptedDown(c: Config, lim: Limits, y: System, evs: seq<Event>, k: nat): seq<bytes>
    requires ValidConfig(c) && SystemInv(c, lim, y)
    decreases |evs|
  {
    if evs == [] then []
    else
      StepKeeps(c, lim, y, evs[0]);
      var y' := Step(c, lim, y, evs[0]);
      TakenDown(y, y', evs[0], k) + AcceptedDown(c, lim, y', evs[1..], k)
  }

  /** The DATA link `k` has sent so far in either direction; a link not yet made has sent none. */
  function SentUp(y: System, k: nat): seq<bytes> {
    if k in y.links then Select(y.links[k].client.out.sent, DATA) else []
  }

  function SentDown(y: System, k: nat): seq<bytes> {
    if k in y.links then Select(y.links[k].server.out.sent, DATA) else []
  }

  lemma LinkStepSends(c: Config, lim: Limits, p: Pool, l: L.Link, ev: L.Event)
    requires ValidConfig(c) && Runs(lim, l)
    ensures var l' := L.Step(c, lim, p, l, ev).1;
            && Select(l'.client.out.sent, DATA)
               == Select(l.client.out.sent, DATA) + Taken(l.client.out.sent, l'.client.out.sent, OfferedUp(ev))
            && Select(l'.server.out.sent, DATA)
               == Select(l.server.out.sent, DATA) + Taken(l.server.out.sent, l'.server.out.sent, OfferedDown(ev))
  {
    LinkStepRuns(c, lim, p, l, ev);
    var l' := L.Step(c, lim, p, l, ev).1;
    GrowsByTaken(l.client.out.sent, l'.client.out.sent, OfferedUp(ev));
    GrowsByTaken(l.server.out.sent, l'.server.out.sent, OfferedDown(ev));
  }

  /** An event of something else leaves link `k` as it is, or makes it. */
  lemma LinkStays(c: Config, lim: Limits, y: System, ev: Event, k: nat)
    requires ValidConfig(c) && SystemInv(c, lim, y) && !(ev.At? && ev.who == k)
    ensures var y' := Step(c, lim, y, ev); SentUp(y', k) == SentUp(y, k) && SentDown(y', k) == SentDown(y, k)
  {
    match ev
    case Connect(j, mtu, identity) =>
      if k in y.links {
        assert Linked(c, lim, y, k);
      }
    case At(j, e) =>
      OtherLinkStays(c, lim, y, j, e, k);
    case Elsewhere(e) =>
      ElsewhereStays(c, lim, y, e);
  }

  lemma OtherLinkStays(c: Config, lim: Limits, y: System, j: nat, e: L.Event, k: nat)
    requires ValidConfig(c) && SystemInv(c, lim, y) && j != k
    ensures var y' := Step(c, lim, y, At(j, e)); SentUp(y', k) == SentUp(y, k) && SentDown(y', k) == SentDown(y, k)
  {
    if j in y.links {
      assert Linked(c, lim, y, j);
    }
  }

  lemma ElsewhereStays(c: Config, lim: Limits, y: System, e: F.Event)
    requires ValidConfig(c) && SystemInv(c, lim, y)
    ensures Step(c, lim, y, Elsewhere(e)).links == y.links
  {
  }

  lemma StepSends(c: Config, lim: Limits, y: System, ev: Event, k: nat)
    requires ValidConfig(c) && SystemInv(c, lim, y)
    ensures var y' := Step(c, lim, y, ev);
            && SentUp(y', k) == SentUp(y, k) + TakenUp(y, y', ev, k)
            && SentDown(y', k) == SentDown(y, k) + TakenDown(y, y', ev, k)
  {
    if ev.At? && ev.who == k {
      if k in y.links {
        assert Linked(c, lim, y, k);
        LinkStepSends(c, lim, y.fleet.pool, y.links[k], ev.event);
      }
    } else {
      LinkStays(c, lim, y, ev, k);
    }
  }

  /** The DATA a link sends over a run is exactly the packets its ends were offered and accepted, in order. */
  lemma {:induction false} RunSendsAccepted(c: Config, lim: Limits, y: System, evs: seq<Event>, k: nat)
    requires ValidConfig(c) && SystemInv(c, lim, y)
    ensures SentUp(Run(c, lim, y, evs), k) == SentUp(y, k) + AcceptedUp(c, lim, y, evs, k)
    ensures SentDown(Run(c, lim, y, evs), k) == SentDown(y, k) + AcceptedDown(c, lim, y, evs, k)
    decreases |evs|
  {
    if evs != [] {
      StepKeeps(c, lim, y, evs[0]);
      StepSends(c, lim, y, evs[0], k);
      var y' := Step(c, lim, y, evs[0]);
      RunSendsAccepted(c, lim, y', evs[1..], k);
      JoinAssociates(SentUp(y, k), TakenUp(y, y', evs[0], k), AcceptedUp(c, lim, y', evs[1..], k));
      JoinAssociates(SentDown(y, k), TakenDown(y, y', evs[0], k), AcceptedDown(c, lim, y', evs[1..], k));
    }
  }

  /**
   * End to end: at every moment of every run, the packets delivered at either end of an honest link are a
   * byte-identical, in-order prefix of the packets the other end accepted from its device during that run;
   * and all of them once the end is live and the stream to it is quiet.
   */
  lemma EndToEnd(c: Config, lim: Limits, evs: seq<Event>, k: nat)
    requires ValidConfig(c)
    ensures k in After(c, lim, evs).links ==>
              Conveyed(After(c, lim, evs).links[k], AcceptedUp(c, lim, EMPTY, evs, k), AcceptedDown(c, lim, EMPTY, evs, k))
  {
    if k in After(c, lim, evs).links {
      assert Linked(c, lim, After(c, lim, evs), k);
      LinkConveys(c, lim, After(c, lim, evs).links[k]);
      RunSendsAccepted(c, lim, EMPTY, evs, k);
    }
  }

  /** Each end has delivered a prefix of what the other accepted, and all of it when live and quiet. */
  predicate Conveyed(l: L.Link, up: seq<bytes>, down: seq<bytes>) {
    && l.server.delivered <= up && l.client.delivered <= down
    && (ServerLive(l.server.session) && Quiet(l.client.out, l.server.inn) ==> l.server.delivered == up)
    && (ClientLive(l.client.client) && Quiet(l.server.out, l.client.inn) ==> l.client.delivered == down)
  }

  lemma LinkConveys(c: Config, lim: Limits, l: L.Link)
    requires L.LinkInv(c, lim, l)
    ensures Conveyed(l, Select(l.client.out.sent, DATA), Select(l.server.out.sent, DATA))
  {
    DeliveredIsPrefix(c, L.View(l));
    if ServerLive(l.server.session) && Quiet(l.client.out, l.server.inn) {
      QuietMeansHandled(lim, l.client.out, l.server.inn);
    }
    if ClientLive(l.client.client) && Quiet(l.server.out, l.client.inn) {
      QuietMeansHandled(lim, l.server.out, l.client.inn);
    }
  }

  /** Nothing queued, in flight, unread or unhandled. */
  predicate Quiet(o: Outgoing, i: Incoming) {
    !o.stopped && o.queue == [] && i.consumed == |o.written| && i.inbox == []
  }

  lemma DeliveredIsPrefix(c: Config, d: Dialogue)
    requires Scripted(c, d)
    ensures d.upDelivered <= Select(d.up, DATA) && d.downDelivered <= Select(d.down, DATA)
    ensures ServerLive(d.server) && d.upHandled == |d.up| ==> d.upDelivered == Select(d.up, DATA)
    ensures ClientLive(d.client) && d.downHandled == |d.down| ==> d.downDelivered == Select(d.down, DATA)
  {
    assert Script(c, d);
    SelectPrefix(d.up, d.upHandled, DATA);
    SelectPrefix(d.down, d.downHandled, DATA);
    assert d.up[..|d.up|] == d.up && d.down[..|d.down|] == d.down;
  }

  /** The frames sent and not yet handled. */
  function UnderWay(o: Outgoing, i: Incoming): int {
    |o.sent| - i.handled
  }

  /**
   * Honest peers never reject each other: over every run on a pool whose offers are all acceptable, the
   * server's only ERROR is LeaseUnavailable and the client's only ERROR is UnexpectedMessage, which only
   * answers a refusal; no decoder ever fails; each outbound counter is the peer's expected counter plus the
   * frames under way, mod 2^64; an established client has the terms its server honours; and at most one
   * probe is under way, with the nonce its client waits for.
   */
  lemma HonestPeersNeverReject(c: Config, lim: Limits, evs: seq<Event>, k: nat)
    requires ValidConfig(c) && C.Serviceable(c)
    ensures k in After(c, lim, evs).links ==>
              Harmonious(c, After(c, lim, evs).links[k]) && NoRejection(After(c, lim, evs).links[k])
  {
    if k in After(c, lim, evs).links {
      HonestPeersAgree(c, lim, evs, k);
      assert Sound(c);
    }
  }

  /** The server lacked a lease, the client met that refusal, and nothing else went wrong. */
  predicate NoRejection(l: L.Link) {
    && (forall x :: x in l.server.faults ==> x == S.CodeOf(S.LeaseUnavailable))
    && (forall x :: x in l.client.faults ==> x == C.CodeOf(C.UnexpectedMessage))
    && (l.client.faults != [] ==> l.server.out.sent != [] && l.server.out.sent[0].kind == MessageType.Error)
  }

  /** Whatever pool the constructor accepts, the ends of a link stay in harmony but for its unacceptable offers. */
  lemma HonestPeersAgree(c: Config, lim: Limits, evs: seq<Event>, k: nat)
    requires ValidConfig(c)
    ensures k in After(c, lim, evs).links ==>
              Harmonious(c, After(c, lim, evs).links[k]) && HonestFaults(c, After(c, lim, evs).links[k])
  {
    if k in After(c, lim, evs).links {
      assert Linked(c, lim, After(c, lim, evs), k);
      LinkHarmonious(c, lim, After(c, lim, evs).links[k]);
    }
  }

  /** As above, and from an unsound pool also the ERRORs about its offers. */
  predicate HonestFaults(c: Config, l: L.Link) {
    && (forall x :: x in l.server.faults ==> ServerFaultOk(c, x))
    && (forall x :: x in l.client.faults ==> ClientFaultOk(c, x))
    && (l.client.faults != [] ==>
          l.server.out.sent != [] && (l.server.out.sent[0].kind == MessageType.Error || !Sound(c)))
  }

  ghost predicate Harmonious(c: Config, l: L.Link) {
    && !l.server.inn.decoder.failed && !l.client.inn.decoder.failed
    && (ClientLive(l.client.client) && ServerLive(l.server.session) ==> InStep(l))
    && (l.client.client.state == C.Established && l.server.session.state == S.Established ==>
          && l.client.client.assignment.Some? && l.client.client.assignment == l.server.terms
          && Honours(c, l.server.session, l.client.client.assignment.value))
  }

  lemma LinkHarmonious(c: Config, lim: Limits, l: L.Link)
    requires L.LinkInv(c, lim, l)
    ensures Harmonious(c, l) && HonestFaults(c, l)
  {
    FaultsAreHonest(c, L.View(l));
    if ClientLive(l.client.client) && ServerLive(l.server.session) {
      LiveInStep(c, l);
    }
  }

  ghost predicate InStep(l: L.Link) {
    && UnderWay(l.client.out, l.server.inn) >= 0 && UnderWay(l.server.out, l.client.inn) >= 0
    && l.client.client.outbound == (l.server.session.expected + UnderWay(l.client.out, l.server.inn)) % U64_MODULUS
    && l.server.session.outbound == (l.client.client.expected + UnderWay(l.server.out, l.client.inn)) % U64_MODULUS
    && var probes := Select(l.client.out.sent[l.server.inn.handled..], {Ping})
                     + Select(l.server.out.sent[l.client.inn.handled..], {Pong});
       probes == [] || exists nonce :: l.client.client.pendingNonce == Some(nonce) && probes == [ProbePayload(nonce)]
  }

  lemma FaultsAreHonest(c: Config, d: Dialogue)
    requires Scripted(c, d)
    ensures forall x :: x in d.serverFaults ==> ServerFaultOk(c, x)
    ensures forall x :: x in d.clientFaults ==> ClientFaultOk(c, x)
    ensures d.clientFaults != [] ==> d.down != [] && (d.down[0].kind == MessageType.Error || !Sound(c))
    ensures d.client.state == C.Established && d.server.state == S.Established ==>
              && d.client.assignment.Some? && d.client.assignment == d.terms
              && Honours(c, d.server, d.client.assignment.value)
  {
    assert Script(c, d);
  }

  lemma NumbersAdd(a: nat, b: nat)
    requires a <= b
    ensures Number(b) == (Number(a) + (b - a)) % U64_MODULUS
  {
  }

  lemma LiveInStep(c: Config, l: L.Link)
    requires Scripted(c, L.View(l)) && ClientLive(l.client.client) && ServerLive(l.server.session)
    ensures InStep(l)
  {
    var d := L.View(l);
    LiveCounters(c, d);
    NumbersAdd(d.upHandled, |d.up|);
    NumbersAdd(d.downHandled, |d.down|);
  }

  lemma LiveCounters(c: Config, d: Dialogue)
    requires Scripted(c, d) && ClientLive(d.client) && ServerLive(d.server)
    ensures d.upHandled <= |d.up| && d.downHandled <= |d.down|
    ensures d.client.outbound == Number(|d.up|) && d.client.expected == Number(d.downHandled)
    ensures d.server.outbound == Number(|d.down|) && d.server.expected == Number(d.upHandled)
    ensures Probes(d) == [] || exists nonce :: d.client.pendingNonce == Some(nonce) && Probes(d) == [ProbePayload(nonce)]
  {
    assert Script(c, d);
    if Probes(d) != [] {
      assert d.client.pendingNonce == Some(d.client.pendingNonce.value);
    }
  }
}
