/** The server's registry of sessions and its route callbacks, as an object over the router. */
module TunnelServer {
  import opened Bytes
  import opened Control
  import opened Leases
  import opened Router

  /** `peer` owns the routes of `l`: always the IPv4 one, and the IPv6 one if the lease has one. */
  predicate Leads(v4: Table<u32>, v6: Table<Ipv6>, l: Lease, peer: nat) {
    && ToInteger(l.address) in v4 && v4[ToInteger(l.address)] == peer
    && (HasV6(l) ==> l.addressV6 in v6 && v6[l.addressV6] == peer)
  }

  /** The routes that do not lead to `peer` are the same in both tables. */
  ghost predicate OthersKept<K(!new)>(t: Table<K>, t': Table<K>, peer: nat) {
    forall key :: (key in t && t[key] != peer) || (key in t' && t'[key] != peer) ==>
      key in t && key in t' && t[key] == t'[key]
  }

  /** Every route leads to a live peer. */
  ghost predicate AllAlive<K(!new)>(t: Table<K>, alive: set<nat>) {
    forall key :: key in t ==> t[key] in alive
  }

  ghost predicate Unknown<K(!new)>(t: Table<K>, peer: nat) {
    forall key :: key in t ==> t[key] != peer
  }

  /** How an accept completes. */
  datatype Accept = Arrived | Aborted | Broken

  class TlsTunnelServer {
    const router: TunnelRouter
    const maximumSessions: nat
    var sessions: set<nat>
    var activeCount: nat
    var stopping: bool

    ghost predicate Valid()
      reads this
    {
      activeCount == |sessions| <= maximumSessions
    }

    constructor (router: TunnelRouter, maximumSessions: nat)
      ensures Valid() && this.router == router && this.maximumSessions == maximumSessions && sessions == {} && !stopping
    {
      this.router, this.maximumSessions := router, maximumSessions;
      sessions, activeCount, stopping := {}, 0, false;
    }

    /**
     * A connection is accepted unless the server is stopping or full. An aborted connection is passed over;
     * any other error stops the server. `again` is whether the next accept is armed.
     */
    method HandleAccept(peer: nat, outcome: Accept) returns (accepted: bool, again: bool)
      requires Valid() && peer !in sessions
      modifies this
      ensures Valid() && accepted == (outcome == Arrived && !old(stopping) && |old(sessions)| < maximumSessions)
      ensures sessions == (if accepted then old(sessions) + {peer} else old(sessions)) && again == !stopping
      ensures stopping <==> old(stopping) || outcome == Broken
    {
      accepted, again := false, false;
      if stopping {
        return;
      }
      if outcome == Aborted {
        again := true;
        return;
      }
      if outcome == Broken {
        stopping := true;
        return;
      }
      if |sessions| < maximumSessions {
        sessions := sessions + {peer};
        activeCount := |sessions|;
        accepted := true;
      }
      again := true;
    }

    /**
     * A session is established: it gets all its routes, or none. While every route in the tables leads to a
     * live peer, a refusal leaves both tables as they were.
     */
    method OnEstablished(lease: Lease, peer: nat, alive: set<nat>) returns (ok: bool)
      modifies router
      ensures ok ==> Leads(router.peers, router.peersV6, lease, peer)
      ensures peer in alive && old(AllAlive(router.peers, alive) && AllAlive(router.peersV6, alive)) ==>
                OthersKept(old(router.peers), router.peers, peer) && OthersKept(old(router.peersV6), router.peersV6, peer)
      ensures peer in alive && old(AllAlive(router.peers, alive) && AllAlive(router.peersV6, alive)
                                   && Unknown(router.peers, peer) && Unknown(router.peersV6, peer)) ==>
                && (!ok ==> router.peers == old(router.peers) && router.peersV6 == old(router.peersV6))
                && (ok <==> ToInteger(lease.address) !in old(router.peers)
                            && (HasV6(lease) ==> lease.addressV6 !in old(router.peersV6)))
    {
      ok := router.RegisterPeer(lease.address, Some(peer), alive);
      if !ok {
        return;
      }
      if HasV6(lease) {
        ok := router.RegisterPeerV6(lease.addressV6, Some(peer), alive);
        if !ok {
          var _ := router.UnregisterPeer(lease.address, Some(peer), alive);
        }
      }
    }

    /** A session closed: its own routes go, and nobody else's. */
    method HandleSessionClosed(lease: Option<Lease>, peer: nat, alive: set<nat>)
      modifies router
      ensures lease.None? ==> router.peers == old(router.peers) && router.peersV6 == old(router.peersV6)
      ensures lease.Some? ==> !(ToInteger(lease.value.address) in router.peers
                                && router.peers[ToInteger(lease.value.address)] == peer)
      ensures lease.Some? && HasV6(lease.value) ==> !(lease.value.addressV6 in router.peersV6
                                                      && router.peersV6[lease.value.addressV6] == peer)
      ensures old(AllAlive(router.peers, alive) && AllAlive(router.peersV6, alive)) ==>
                OthersKept(old(router.peers), router.peers, peer) && OthersKept(old(router.peersV6), router.peersV6, peer)
    {
      if lease.Some? {
        var _ := router.UnregisterPeer(lease.value.address, Some(peer), alive);
        if HasV6(lease.value) {
          var _ := router.UnregisterPeerV6(lease.value.addressV6, Some(peer), alive);
        }
      }
    }

    /** The search for the closed session, in whatever order the set yields its elements. */
    method RemoveSession(peer: nat)
      requires Valid()
      modifies this
      ensures Valid() && sessions == old(sessions) - {peer} && stopping == old(stopping)
    {
      var todo := sessions;
      while todo != {}
        invariant todo <= sessions == old(sessions) && Valid() && stopping == old(stopping)
        invariant peer in sessions ==> peer in todo
        decreases todo
      {
        var current :| current in todo;
        if current == peer {
          sessions := sessions - {current};
          activeCount := |sessions|;
          return;
        }
        todo := todo - {current};
      }
    }
  }
}
