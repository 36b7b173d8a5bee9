/**
 * The server's sessions, their shared pool and the router. Every strand callback or lock-protected call is
 * one step; claiming and leaving take several, and other sessions run in between.
 */
module Registry {
  import opened Bytes
  import opened Control
  import opened Packets
  import opened Leases
  import opened Ledger
  import opened Router
  import opened Wire
  import S = ServerSession
  import F = Fleet
  import FI = FleetIsolation

  /**
   * Where a session stands with the router: not yet established; claiming its IPv4 route, then its IPv6
   * route; giving the first back because the second was refused; refused; ready; leaving by giving up the
   * IPv4 route, then the IPv6 route; gone.
   */
  datatype Phase = Greeting | Claiming | HalfClaimed | Yielding | Refused | Ready | Leaving | HalfLeft | Gone

  /** `claim` is the session's copy of its lease from the moment it was established. */
  datatype Peer = Peer(phase: Phase, claim: Option<Lease>)

  datatype Hub = Hub(fleet: F.Fleet, peers: map<nat, Peer>, v4: Table<u32>, v6: Table<Ipv6>, alive: set<nat>)

  datatype Event =
    | Controller(event: F.Event)
    | Advance(who: nat)
    | Destroy(who: nat)
    | Lookup4(address: Ipv4)
    | Lookup6(addressV6: Ipv6)
    | SweepRoutes

  const EMPTY := Hub(F.EMPTY, map[], map[], map[], {})

  function AddressOf(l: Lease): u32 {
    ToInteger(l.address)
  }

  /** May session `k`'s strand run this controller event now? */
  predicate Allowed(h: Hub, ev: F.Event) {
    match ev
    case Open(k, identity) => k !in h.peers && k !in h.fleet.sessions && identity != ""
    case Receive(k, _, _, _) => k in h.peers && h.peers[k].phase in {Greeting, Ready}
    case FromTun(k, _, _) => k in h.peers && h.peers[k].phase in {Greeting, Ready}
    case Disconnect(k) => k in h.peers && h.peers[k].phase in {Greeting, Ready, Refused}
    case Sweep(_) => true
  }

  /** What a controller event makes of its session's peer. */
  function PeerAfter(ev: F.Event, peer: Peer, s: S.Session): Peer {
    if ev.Disconnect? then peer.(phase := if peer.claim.None? then Gone else Leaving)
    else if peer.phase == Greeting && s.state == S.Established then Peer(Claiming, s.lease)
    else peer
  }

  function AfterController(h: Hub, fl: F.Fleet, ev: F.Event): Hub {
    match ev
    case Open(k, _) => h.(fleet := fl, peers := h.peers[k := Peer(Greeting, None)], alive := h.alive + {k})
    case Sweep(_) => h.(fleet := fl)
    case _ =>
      if ev.who !in h.peers || ev.who !in fl.sessions then h.(fleet := fl)
      else h.(fleet := fl, peers := h.peers[ev.who := PeerAfter(ev, h.peers[ev.who], fl.sessions[ev.who])])
  }

  function Moved(h: Hub, k: nat, phase: Phase): Hub
    requires k in h.peers
  {
    h.(peers := h.peers[k := h.peers[k].(phase := phase)])
  }

  /** The next router call of session `k`. */
  function AdvancePeer(h: Hub, k: nat): (r: Hub)
    requires k in h.peers
    ensures k in r.peers
  {
    var peer := h.peers[k];
    if peer.claim.None? then h
    else
      var l := peer.claim.value;
      match peer.phase
      case Claiming =>
        var (t, ok) := Claim(h.v4, h.alive, AddressOf(l), k);
        Moved(h.(v4 := t), k, if !ok then Refused else if HasV6(l) then HalfClaimed else Ready)
      case HalfClaimed =>
        var (t, ok) := Claim(h.v6, h.alive, l.addressV6, k);
        Moved(h.(v6 := t), k, if ok then Ready else Yielding)
      case Yielding => Moved(h.(v4 := Unclaim(h.v4, h.alive, AddressOf(l), k).0), k, Refused)
      case Leaving =>
        Moved(h.(v4 := Unclaim(h.v4, h.alive, AddressOf(l), k).0), k, if HasV6(l) then HalfLeft else Gone)
      case HalfLeft => Moved(h.(v6 := Unclaim(h.v6, h.alive, l.addressV6, k).0), k, Gone)
      case _ => h
  }

  ghost function Step(c: Config, h: Hub, ev: Event): Hub
    requires ValidConfig(c) && F.FleetInv(c, h.fleet)
  {
    match ev
    case Controller(e) => if Allowed(h, e) then AfterController(h, F.Step(c, h.fleet, e).0, e) else h
    case Advance(k) => if k in h.peers then AdvancePeer(h, k) else h
    case Destroy(k) => if k in h.peers && h.peers[k].phase == Gone then h.(alive := h.alive - {k}) else h
    case Lookup4(a) => h.(v4 := Find(h.v4, h.alive, ToInteger(a)).0)
    case Lookup6(a) => h.(v6 := Find(h.v6, h.alive, a).0)
    case SweepRoutes => h.(v4 := Swept(h.v4, h.alive), v6 := Swept(h.v6, h.alive))
  }

  // ---------- The invariant ----------

  /** In these phases the session's IPv4 route leads to it; only in `Ready` the IPv6 route does too. */
  predicate Owns4(peer: Peer) {
    peer.phase in {HalfClaimed, Yielding, Ready}
  }

  ghost predicate GoodPeer(c: Config, h: Hub, k: nat)
    requires k in h.peers
  {
    var peer := h.peers[k];
    && k in h.fleet.sessions && (peer.phase != Gone ==> k in h.alive)
    && (peer.phase == Greeting ==> peer.claim.None? && h.fleet.sessions[k].lease.None?)
    && (peer.phase !in {Greeting, Gone} ==> peer.claim.Some?)
    && (peer.phase in {HalfClaimed, Yielding, HalfLeft} ==> HasV6(peer.claim.value))
    && (peer.claim.Some? ==> h.fleet.sessions[k].state != S.AwaitingHello)
    && (peer.claim.Some? ==> peer.claim.value.addressV6 == DeriveV6(c, peer.claim.value.address))
    && (Owns4(peer) ==> AddressOf(peer.claim.value) in h.v4 && h.v4[AddressOf(peer.claim.value)] == k)
    && (peer.phase == Ready && HasV6(peer.claim.value) ==>
          peer.claim.value.addressV6 in h.v6 && h.v6[peer.claim.value.addressV6] == k)
    && (peer.claim.Some? && h.fleet.sessions[k].lease.Some? ==>
          h.fleet.sessions[k].lease.value.address == peer.claim.value.address)
  }

  predicate GoodRoute4(h: Hub, a: u32)
    requires a in h.v4
  {
    var k := h.v4[a];
    k in h.peers && h.peers[k].claim.Some? && AddressOf(h.peers[k].claim.value) == a
    && h.peers[k].phase in {HalfClaimed, Yielding, Ready, Leaving}
  }

  predicate GoodRoute6(h: Hub, a: Ipv6)
    requires a in h.v6
  {
    var k := h.v6[a];
    k in h.peers && h.peers[k].claim.Some? && h.peers[k].claim.value.addressV6 == a != IPV6_ZERO
    && h.peers[k].phase in {Ready, Leaving, HalfLeft}
  }

  ghost predicate HubInv(c: Config, h: Hub) {
    && F.FleetInv(c, h.fleet)
    && (forall k {:trigger GoodPeer(c, h, k)} :: k in h.peers ==> GoodPeer(c, h, k))
    && (forall a {:trigger GoodRoute4(h, a)} :: a in h.v4 ==> GoodRoute4(h, a))
    && (forall a {:trigger GoodRoute6(h, a)} :: a in h.v6 ==> GoodRoute6(h, a))
  }

  lemma EmptyHubInv(c: Config)
    ensures HubInv(c, EMPTY)
  {
  }

  // ---------- Router steps ----------

  /** Both route tables and one peer's phase changed, the rest did not. */
  ghost predicate RouterMove(h: Hub, h': Hub, k: nat) {
    && k in h.peers && h'.fleet == h.fleet && h'.alive == h.alive && h'.peers.Keys == h.peers.Keys
    && h'.peers[k].claim == h.peers[k].claim
    && (forall j :: j in h.peers && j != k ==> h'.peers[j] == h.peers[j])
  }

  /** The tables changed only where `k`'s claim or its leaving allows. */
  ghost predicate Respects<K(!new)>(t: Table<K>, t': Table<K>, k: nat, key: K) {
    && (forall a :: a in t && t[a] != k ==> a in t' && t'[a] == t[a])
    && (forall a :: a in t' && t'[a] != k ==> a in t && t[a] == t'[a])
    && (forall a :: a != key ==> (a in t' <==> a in t))
    && (forall a :: a in t && a in t' ==> t'[a] == t[a])
  }

  lemma ClaimRespects<K(!new)>(t: Table<K>, alive: set<nat>, key: K, k: nat)
    requires forall a :: a in t ==> t[a] in alive
    ensures Respects(t, Claim(t, alive, key, k).0, k, key)
  {
  }

  lemma UnclaimRespects<K(!new)>(t: Table<K>, alive: set<nat>, key: K, k: nat)
    requires forall a :: a in t ==> t[a] in alive
    ensures Respects(t, Unclaim(t, alive, key, k).0, k, key) && !(key in Unclaim(t, alive, key, k).0
            && Unclaim(t, alive, key, k).0[key] == k)
  {
  }

  /** Routes name living peers, so no route is ever dropped for a vanished one. */
  lemma RoutesAreAlive(c: Config, h: Hub)
    requires HubInv(c, h)
    ensures forall a :: a in h.v4 ==> h.v4[a] in h.alive
    ensures forall a :: a in h.v6 ==> h.v6[a] in h.alive
    ensures Swept(h.v4, h.alive) == h.v4 && Swept(h.v6, h.alive) == h.v6
  {
    forall a | a in h.v4
      ensures h.v4[a] in h.alive
    {
      assert GoodRoute4(h, a) && GoodPeer(c, h, h.v4[a]);
    }
    forall a | a in h.v6
      ensures h.v6[a] in h.alive
    {
      assert GoodRoute6(h, a) && GoodPeer(c, h, h.v6[a]);
    }
  }

  lemma RouterMoveKeeps(c: Config, h: Hub, h': Hub, k: nat)
    requires HubInv(c, h) && RouterMove(h, h', k) && h.peers[k].claim.Some?
    requires Respects(h.v4, h'.v4, k, AddressOf(h.peers[k].claim.value))
    requires Respects(h.v6, h'.v6, k, h.peers[k].claim.value.addressV6)
    requires GoodPeer(c, h', k)
    requires var a := AddressOf(h.peers[k].claim.value);
             a in h'.v4 && h'.v4[a] == k ==> h'.peers[k].phase in {HalfClaimed, Yielding, Ready, Leaving}
    requires var a := h.peers[k].claim.value.addressV6;
             a in h'.v6 && h'.v6[a] == k ==> a != IPV6_ZERO && h'.peers[k].phase in {Ready, Leaving, HalfLeft}
    ensures HubInv(c, h')
  {
    forall j | j in h'.peers
      ensures GoodPeer(c, h', j)
    {
      assert GoodPeer(c, h, j);
    }
    forall a | a in h'.v4
      ensures GoodRoute4(h', a)
    {
      assert a in h.v4 ==> GoodRoute4(h, a);
    }
    forall a | a in h'.v6
      ensures GoodRoute6(h', a)
    {
      assert a in h.v6 ==> GoodRoute6(h, a);
    }
  }

  lemma SameTable<K(!new)>(t: Table<K>, k: nat, key: K)
    ensures Respects(t, t, k, key)
  {
  }

  lemma ClaimingKeeps(c: Config, h: Hub, k: nat)
    requires HubInv(c, h) && k in h.peers && h.peers[k].phase in {Claiming, HalfClaimed}
    ensures HubInv(c, AdvancePeer(h, k))
  {
    assert GoodPeer(c, h, k);
    var l := h.peers[k].claim.value;
    RoutesAreAlive(c, h);
    assert AddressOf(l) in h.v4 ==> GoodRoute4(h, AddressOf(l));
    assert l.addressV6 in h.v6 ==> GoodRoute6(h, l.addressV6);
    if h.peers[k].phase == Claiming {
      ClaimRespects(h.v4, h.alive, AddressOf(l), k);
      SameTable(h.v6, k, l.addressV6);
    } else {
      SameTable(h.v4, k, AddressOf(l));
      ClaimRespects(h.v6, h.alive, l.addressV6, k);
    }
    RouterMoveKeeps(c, h, AdvancePeer(h, k), k);
  }

  lemma LeavingKeeps(c: Config, h: Hub, k: nat)
    requires HubInv(c, h) && k in h.peers && h.peers[k].phase in {Yielding, Leaving}
    ensures HubInv(c, AdvancePeer(h, k))
  {
    assert GoodPeer(c, h, k);
    var l := h.peers[k].claim.value;
    RoutesAreAlive(c, h);
    assert AddressOf(l) in h.v4 ==> GoodRoute4(h, AddressOf(l));
    assert l.addressV6 in h.v6 ==> GoodRoute6(h, l.addressV6);
    UnclaimRespects(h.v4, h.alive, AddressOf(l), k);
    SameTable(h.v6, k, l.addressV6);
    RouterMoveKeeps(c, h, AdvancePeer(h, k), k);
  }

  lemma LastLeaveKeeps(c: Config, h: Hub, k: nat)
    requires HubInv(c, h) && k in h.peers && h.peers[k].phase == HalfLeft
    ensures HubInv(c, AdvancePeer(h, k))
  {
    assert GoodPeer(c, h, k);
    var l := h.peers[k].claim.value;
    RoutesAreAlive(c, h);
    assert AddressOf(l) in h.v4 ==> GoodRoute4(h, AddressOf(l));
    SameTable(h.v4, k, AddressOf(l));
    UnclaimRespects(h.v6, h.alive, l.addressV6, k);
    RouterMoveKeeps(c, h, AdvancePeer(h, k), k);
  }

  lemma AdvanceKeeps(c: Config, h: Hub, k: nat)
    requires HubInv(c, h) && k in h.peers
    ensures HubInv(c, AdvancePeer(h, k))
  {
    if h.peers[k].phase in {Claiming, HalfClaimed} {
      ClaimingKeeps(c, h, k);
    } else if h.peers[k].phase in {Yielding, Leaving} {
      LeavingKeeps(c, h, k);
    } else if h.peers[k].phase == HalfLeft {
      LastLeaveKeeps(c, h, k);
    } else {
      assert AdvancePeer(h, k) == h;
    }
  }

  // ---------- Controller steps ----------

  /** A controller event leaves other sessions alone, and never moves a held lease to another address. */
  lemma ControllerKeepsAddress(c: Config, fl: F.Fleet, ev: F.Event, k: nat)
    requires ValidConfig(c) && F.FleetInv(c, fl) && k in fl.sessions
    ensures var fl' := F.Step(c, fl, ev).0;
            && k in fl'.sessions
            && (!F.Concerns(ev, k) ==> fl'.sessions[k] == fl.sessions[k])
            && (fl'.sessions[k].lease.Some? && fl.sessions[k].lease.Some? ==>
                  fl'.sessions[k].lease.value.address == fl.sessions[k].lease.value.address)
            && (fl'.sessions[k].lease.Some? && fl.sessions[k].lease.None? ==> fl.sessions[k].state == S.AwaitingHello)
            && (fl'.sessions[k].state == S.AwaitingHello ==> fl.sessions[k].state == S.AwaitingHello)
  {
    if ev.Receive? && ev.who == k {
      HandleKeepsAddress(c, fl.pool, fl.sessions[k], ev.frame, ev.now, ev.note);
    }
  }

  lemma HandleKeepsAddress(c: Config, p: Pool, s: S.Session, f: Frame, now: int, note: ErrorText)
    requires ValidConfig(c) && S.HoldsIffEstablished(s)
    ensures var s' := S.Handle(c, p, s, f, now, note).session;
            && (s'.lease.Some? && s.lease.Some? ==> s'.lease.value.address == s.lease.value.address)
            && (s'.lease.Some? && s.lease.None? ==> s.state == S.AwaitingHello)
            && (s'.state == S.AwaitingHello ==> s.state == S.AwaitingHello)
  {
    if s.state == S.Established && f.sequence == s.expected && S.Renews(f.kind) {
      var s1 := s.(expected := Next64(s.expected));
      RenewingKeepsAddress(c, p, s1, f, now, note);
    }
  }

  lemma RenewingKeepsAddress(c: Config, p: Pool, s: S.Session, f: Frame, now: int, note: ErrorText)
    requires s.lease.Some?
    ensures var s' := S.HandleRenewing(c, p, s, f, now, note).session;
            && (s'.lease.Some? ==> s'.lease.value.address == s.lease.value.address)
            && (s'.state == s.state || s'.state == S.Closing)
  {
  }

  lemma HeldIsDerived(c: Config, fl: F.Fleet, k: nat)
    requires F.FleetInv(c, fl) && k in fl.sessions && fl.sessions[k].lease.Some?
    ensures fl.sessions[k].lease.value.addressV6 == DeriveV6(c, fl.sessions[k].lease.value.address)
  {
    assert GoodCopy(c, fl.pool, F.HeldBy(fl.sessions)[k]);
  }

  /** What the other side of a controller event looks like to session `k`. */
  predicate Followed(c: Config, s: S.Session, s': S.Session, concerned: bool) {
    && (!concerned ==> s' == s) && S.HoldsIffEstablished(s')
    && (s'.lease.Some? ==> s'.lease.value.addressV6 == DeriveV6(c, s'.lease.value.address))
    && (s'.lease.Some? && s.lease.Some? ==> s'.lease.value.address == s.lease.value.address)
    && (s'.lease.Some? && s.lease.None? ==> s.state == S.AwaitingHello)
    && (s'.state == S.AwaitingHello ==> s.state == S.AwaitingHello)
  }

  lemma ControllerKeeps(c: Config, h: Hub, ev: F.Event)
    requires ValidConfig(c) && HubInv(c, h) && Allowed(h, ev)
    ensures HubInv(c, AfterController(h, F.Step(c, h.fleet, ev).0, ev))
  {
    F.StepKeeps(c, h.fleet, ev);
    var fl := F.Step(c, h.fleet, ev).0;
    forall k | k in h.peers
      ensures k in fl.sessions && Followed(c, h.fleet.sessions[k], fl.sessions[k], F.Concerns(ev, k))
    {
      assert GoodPeer(c, h, k);
      ControllerKeepsAddress(c, h.fleet, ev, k);
      if fl.sessions[k].lease.Some? {
        HeldIsDerived(c, fl, k);
      }
    }
    FollowedKeeps(c, h, fl, ev);
  }

  lemma FollowedKeeps(c: Config, h: Hub, fl: F.Fleet, ev: F.Event)
    requires HubInv(c, h) && F.FleetInv(c, fl) && Allowed(h, ev)
    requires forall k :: k in h.peers ==>
               && k in h.fleet.sessions && k in fl.sessions
               && Followed(c, h.fleet.sessions[k], fl.sessions[k], F.Concerns(ev, k))
    requires ev.Open? ==> ev.who in fl.sessions && fl.sessions[ev.who].lease.None?
    ensures HubInv(c, AfterController(h, fl, ev))
  {
    var h' := AfterController(h, fl, ev);
    forall k | k in h'.peers
      ensures GoodPeer(c, h', k)
    {
      if k in h.peers {
        PeerKeeps(c, h, fl, ev, k);
      }
    }
    forall a | a in h'.v4
      ensures GoodRoute4(h', a)
    {
      assert GoodRoute4(h, a);
      RoutePhase(h, fl, ev, h.v4[a]);
    }
    forall a | a in h'.v6
      ensures GoodRoute6(h', a)
    {
      assert GoodRoute6(h, a);
      RoutePhase(h, fl, ev, h.v6[a]);
    }
  }

  /** A session past its greeting keeps its claim; only its own close moves it on. */
  lemma RoutePhase(h: Hub, fl: F.Fleet, ev: F.Event, k: nat)
    requires Allowed(h, ev) && k in h.peers && h.peers[k].claim.Some? && h.peers[k].phase != Greeting
    ensures var h' := AfterController(h, fl, ev);
            && k in h'.peers && h'.peers[k].claim == h.peers[k].claim
            && (h'.peers[k].phase == h.peers[k].phase || h'.peers[k].phase == Leaving)
            && (h.peers[k].phase in {Yielding, HalfClaimed, HalfLeft} ==> h'.peers[k] == h.peers[k])
  {
  }

  lemma PeerKeeps(c: Config, h: Hub, fl: F.Fleet, ev: F.Event, k: nat)
    requires HubInv(c, h) && Allowed(h, ev) && k in h.peers && k in h.fleet.sessions && k in fl.sessions
    requires Followed(c, h.fleet.sessions[k], fl.sessions[k], F.Concerns(ev, k))
    ensures GoodPeer(c, AfterController(h, fl, ev), k)
  {
    assert GoodPeer(c, h, k);
  }

  /** Every step keeps the agreement of sessions and routes. */
  lemma StepKeeps(c: Config, h: Hub, ev: Event)
    requires ValidConfig(c) && HubInv(c, h)
    ensures HubInv(c, Step(c, h, ev))
  {
    match ev
    case Controller(e) =>
      if Allowed(h, e) {
        ControllerKeeps(c, h, e);
      }
    case Advance(k) =>
      if k in h.peers {
        AdvanceKeeps(c, h, k);
      }
    case Destroy(k) =>
      DestroyKeeps(c, h, k);
    case Lookup4(a) =>
      RoutesAreAlive(c, h);
      assert Step(c, h, ev) == h;
    case Lookup6(a) =>
      RoutesAreAlive(c, h);
      assert Step(c, h, ev) == h;
    case SweepRoutes =>
      RoutesAreAlive(c, h);
      assert Step(c, h, ev) == h;
  }

  lemma DestroyKeeps(c: Config, h: Hub, k: nat)
    requires ValidConfig(c) && HubInv(c, h)
    ensures HubInv(c, Step(c, h, Destroy(k)))
  {
    var h' := Step(c, h, Destroy(k));
    forall j | j in h'.peers
      ensures GoodPeer(c, h', j)
    {
      assert GoodPeer(c, h, j);
    }
    forall a | a in h'.v4
      ensures GoodRoute4(h', a)
    {
      assert GoodRoute4(h, a);
    }
    forall a | a in h'.v6
      ensures GoodRoute6(h', a)
    {
      assert GoodRoute6(h, a);
    }
  }

  ghost function Run(c: Config, h: Hub, evs: seq<Event>): (r: Hub)
    requires ValidConfig(c) && HubInv(c, h)
    ensures HubInv(c, r)
    decreases |evs|
  {
    if evs == [] then h
    else
      StepKeeps(c, h, evs[0]);
      Run(c, Step(c, h, evs[0]), evs[1..])
  }

  /** The hub reached from an empty server. */
  ghost function After(c: Config, evs: seq<Event>): (r: Hub)
    requires ValidConfig(c)
    ensures HubInv(c, r)
  {
    EmptyHubInv(c);
    Run(c, EMPTY, evs)
  }

  // ---------- What every run promises ----------

  predicate IsReady(h: Hub, k: nat) {
    k in h.peers && h.peers[k].phase == Ready && h.peers[k].claim.Some?
  }

  /** The session's own close is not among the events. */
  predicate StaysOpen(evs: seq<Event>, k: nat) {
    forall i :: 0 <= i < |evs| ==> evs[i] != Controller(F.Disconnect(k))
  }

  /** Whom the server hands a packet read from the TUN device to. */
  function RoutedTo(h: Hub, packet: bytes): Option<nat> {
    if packet != [] && packet[0] / 16 == 6
    then if ShapedV6(packet) then Find(h.v6, h.alive, DestinationV6(packet)).1 else None
    else if ShapedV4(packet) then Find(h.v4, h.alive, ToInteger(DestinationV4(packet))).1 else None
  }

  /** Addressed to the claim, in either family. */
  predicate Destined(l: Lease, packet: bytes) {
    || (ShapedV4(packet) && DestinationV4(packet) == l.address)
    || (ShapedV6(packet) && HasV6(l) && DestinationV6(packet) == l.addressV6)
  }

  /**
   * Route ownership: once a session is ready it stays ready with the same claim, and every well-formed
   * packet to its address is handed to it and to nobody else, until its own close, whatever other sessions
   * acquire, claim, fail to claim, expire, give up late or destroy in between.
   */
  lemma RouteOwnership(c: Config, before: seq<Event>, evs: seq<Event>, k: nat, packet: bytes)
    requires ValidConfig(c)
    ensures var h := After(c, before);
            var h' := Run(c, h, evs);
            IsReady(h, k) && StaysOpen(evs, k) ==>
              && IsReady(h', k) && h'.peers[k].claim == h.peers[k].claim
              && (Destined(h.peers[k].claim.value, packet) ==> RoutedTo(h', packet) == Some(k))
  {
    if IsReady(After(c, before), k) && StaysOpen(evs, k) {
      OwnsThroughout(c, After(c, before), evs, k, packet);
    }
  }

  lemma {:induction false} OwnsThroughout(c: Config, h: Hub, evs: seq<Event>, k: nat, packet: bytes)
    requires ValidConfig(c) && HubInv(c, h) && IsReady(h, k) && StaysOpen(evs, k)
    ensures var h' := Run(c, h, evs);
            IsReady(h', k) && h'.peers[k].claim == h.peers[k].claim
            && (Destined(h.peers[k].claim.value, packet) ==> RoutedTo(h', packet) == Some(k))
    decreases |evs|
  {
    if evs == [] {
      assert GoodPeer(c, h, k);
    } else {
      StepKeeps(c, h, evs[0]);
      assert evs[0] != Controller(F.Disconnect(k));
      StaysReady(c, h, evs[0], k);
      assert forall i :: 0 <= i < |evs[1..]| ==> evs[1..][i] == evs[i + 1];
      OwnsThroughout(c, Step(c, h, evs[0]), evs[1..], k, packet);
    }
  }

  lemma StaysReady(c: Config, h: Hub, ev: Event, k: nat)
    requires ValidConfig(c) && HubInv(c, h) && IsReady(h, k) && ev != Controller(F.Disconnect(k))
    ensures IsReady(Step(c, h, ev), k) && Step(c, h, ev).peers[k].claim == h.peers[k].claim
  {
    if ev.Controller? && Allowed(h, ev.event) {
      ReadyUnlessClosed(h, F.Step(c, h.fleet, ev.event).0, ev.event, k);
    }
  }

  lemma ReadyUnlessClosed(h: Hub, fl: F.Fleet, ev: F.Event, k: nat)
    requires Allowed(h, ev) && IsReady(h, k) && ev != F.Disconnect(k)
    ensures var h' := AfterController(h, fl, ev); IsReady(h', k) && h'.peers[k].claim == h.peers[k].claim
  {
  }

  /** The hub after `n` more router calls of session `k`, with nothing in between. */
  function Advanced(h: Hub, k: nat, n: nat): (r: Hub)
    requires k in h.peers
    ensures k in r.peers
  {
    if n == 0 then h else AdvancePeer(Advanced(h, k, n - 1), k)
  }

  /**
   * All routes or none: in every reachable state, a session that claims addresses nobody has a route for is
   * ready once its calls are through, and packets to it reach it; one whose IPv4 or IPv6 address is taken is
   * refused, and leaves both tables as they were.
   */
  lemma ClaimOutcome(c: Config, evs: seq<Event>, k: nat, packet: bytes)
    requires ValidConfig(c)
    requires k in After(c, evs).peers && After(c, evs).peers[k].phase == Claiming
    ensures var h := After(c, evs);
            h.peers[k].claim.Some? &&
            var l := h.peers[k].claim.value;
            var taken4 := AddressOf(l) in h.v4;
            var taken6 := HasV6(l) && l.addressV6 in h.v6;
            var h' := Advanced(h, k, if taken4 then 1 else if taken6 then 3 else if HasV6(l) then 2 else 1);
            && k in h'.peers && h'.fleet == h.fleet && h'.peers[k].claim == h.peers[k].claim
            && (if taken4 || taken6 then h'.peers[k].phase == Refused && h'.v4 == h.v4 && h'.v6 == h.v6
                else IsReady(h', k) && (Destined(l, packet) ==> RoutedTo(h', packet) == Some(k)))
  {
    var h := After(c, evs);
    ClaimMeetsOthers(c, h, k);
    ClaimFrom(h, k, packet);
    CallByCall(h, k);
  }

  lemma CallByCall(h: Hub, k: nat)
    requires k in h.peers
    ensures var h1 := AdvancePeer(h, k);
            && Advanced(h, k, 1) == h1 && k in h1.peers && Advanced(h, k, 2) == AdvancePeer(h1, k)
            && k in Advanced(h, k, 2).peers && Advanced(h, k, 3) == AdvancePeer(Advanced(h, k, 2), k)
  {
    assert Advanced(h, k, 1) == AdvancePeer(Advanced(h, k, 0), k);
    assert Advanced(h, k, 2) == AdvancePeer(Advanced(h, k, 1), k);
  }

  /** Whatever route a session finds at the address it claims belongs to another living session. */
  lemma ClaimMeetsOthers(c: Config, h: Hub, k: nat)
    requires HubInv(c, h) && k in h.peers && h.peers[k].phase == Claiming
    ensures h.peers[k].claim.Some? && k in h.alive
    ensures var l := h.peers[k].claim.value;
            && (AddressOf(l) in h.v4 ==> h.v4[AddressOf(l)] in h.alive && h.v4[AddressOf(l)] != k)
            && (l.addressV6 in h.v6 ==> h.v6[l.addressV6] in h.alive && h.v6[l.addressV6] != k)
  {
    assert GoodPeer(c, h, k);
    RoutesAreAlive(c, h);
    var l := h.peers[k].claim.value;
    assert AddressOf(l) in h.v4 ==> GoodRoute4(h, AddressOf(l));
    assert l.addressV6 in h.v6 ==> GoodRoute6(h, l.addressV6);
  }

  lemma ClaimFrom(h: Hub, k: nat, packet: bytes)
    requires k in h.peers && k in h.alive && h.peers[k].phase == Claiming && h.peers[k].claim.Some?
    requires var l := h.peers[k].claim.value;
             && (AddressOf(l) in h.v4 ==> h.v4[AddressOf(l)] in h.alive && h.v4[AddressOf(l)] != k)
             && (l.addressV6 in h.v6 ==> h.v6[l.addressV6] in h.alive && h.v6[l.addressV6] != k)
    ensures var l := h.peers[k].claim.value;
            var h1 := AdvancePeer(h, k);
            k in h1.peers && h1.fleet == h.fleet && h1.peers[k].claim == h.peers[k].claim &&
            if AddressOf(l) in h.v4 then h1.peers[k].phase == Refused && h1.v4 == h.v4 && h1.v6 == h.v6
            else if !HasV6(l) then IsReady(h1, k) && (Destined(l, packet) ==> RoutedTo(h1, packet) == Some(k))
            else
              var h2 := AdvancePeer(h1, k);
              k in h2.peers && h2.fleet == h.fleet && h2.peers[k].claim == h.peers[k].claim &&
              if l.addressV6 !in h.v6 then IsReady(h2, k) && (Destined(l, packet) ==> RoutedTo(h2, packet) == Some(k))
              else
                var h3 := AdvancePeer(h2, k);
                && k in h3.peers && h3.fleet == h.fleet && h3.peers[k].claim == h.peers[k].claim
                && h3.peers[k].phase == Refused && h3.v4 == h.v4 && h3.v6 == h.v6
  {
  }

  /** In every reachable state, a packet is handed only to a session that claimed its destination and still has it. */
  lemma RoutedToClaimant(c: Config, evs: seq<Event>, packet: bytes)
    requires ValidConfig(c)
    ensures var h := After(c, evs);
            RoutedTo(h, packet).Some? ==>
              var k := RoutedTo(h, packet).value;
              && k in h.peers && h.peers[k].claim.Some? && Destined(h.peers[k].claim.value, packet)
              && h.peers[k].phase !in {Greeting, Claiming, Refused, Gone}
  {
    var h := After(c, evs);
    if RoutedTo(h, packet).Some? {
      if packet[0] / 16 == 6 {
        assert GoodRoute6(h, DestinationV6(packet));
      } else {
        assert GoodRoute4(h, ToInteger(DestinationV4(packet)));
        FromToInteger(DestinationV4(packet));
        FromToInteger(h.peers[RoutedTo(h, packet).value].claim.value.address);
      }
    }
  }

  /** In every reachable state, routes lead to living sessions, and a closed session has left none behind. */
  lemma NothingLeftBehind(c: Config, evs: seq<Event>)
    requires ValidConfig(c)
    ensures var h := After(c, evs);
            && (forall a :: a in h.v4 ==> Present(h, h.v4[a])) && (forall a :: a in h.v6 ==> Present(h, h.v6[a]))
  {
    var h := After(c, evs);
    RoutesAreAlive(c, h);
    forall a | a in h.v4
      ensures Present(h, h.v4[a])
    {
      assert GoodRoute4(h, a);
    }
    forall a | a in h.v6
      ensures Present(h, h.v6[a])
    {
      assert GoodRoute6(h, a);
    }
  }

  predicate Present(h: Hub, k: nat) {
    k in h.alive && k in h.peers && h.peers[k].phase != Gone
  }

  /**
   * From the TUN device to the wire: in every reachable state, a packet for a ready session is routed to
   * it; it becomes a DATA frame exactly when the session's lease is still current, and then no other
   * session could have sent it.
   */
  lemma DownlinkReachesHolder(c: Config, evs: seq<Event>, k: nat, packet: bytes, now: int)
    requires ValidConfig(c)
    ensures var h := After(c, evs);
            IsReady(h, k) && Awaits(h.fleet, k, packet) ==>
              && RoutedTo(h, packet) == Some(k)
              && (Sends(c, h.fleet, k, packet, now) <==> Current(Reap(h.fleet.pool, now), h.fleet.sessions[k].lease.value))
              && (Sends(c, h.fleet, k, packet, now) ==> forall j :: Sends(c, h.fleet, j, packet, now) ==> j == k)
  {
    var h := After(c, evs);
    if IsReady(h, k) && Awaits(h.fleet, k, packet) {
      assert GoodPeer(c, h, k);
      HeldIsDerived(c, h.fleet, k);
      FI.DownlinkAuthority(c, h.fleet, k, packet, now);
      forall j | Sends(c, h.fleet, k, packet, now) && Sends(c, h.fleet, j, packet, now)
        ensures j == k
      {
        FI.DownlinkUniqueness(c, h.fleet, j, k, packet, now, now);
      }
    }
  }

  /** Session `k` is established and the packet is addressed to it and fits. */
  predicate Awaits(fl: F.Fleet, k: nat, packet: bytes) {
    && k in fl.sessions && fl.sessions[k].state == S.Established && fl.sessions[k].lease.Some?
    && S.Addressed(fl.sessions[k].lease.value, fl.sessions[k].mtu, packet)
  }

  /** Session `k` would send the packet if it were handed over now. */
  predicate Sends(c: Config, fl: F.Fleet, k: nat, packet: bytes, now: int)
    requires ValidConfig(c)
  {
    k in fl.sessions && S.HoldsIffEstablished(fl.sessions[k]) && FI.Emits(c, fl, k, packet, now)
  }
}
