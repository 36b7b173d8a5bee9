/** Route tables from addresses to peers held by weak references, and the router object over them. */
module Router {
  import opened Bytes
  import opened Control
  import opened Packets
  import opened Leases

  predicate HasV6(l: Lease) {
    l.addressV6 != IPV6_ZERO
  }

  /** Peers are known by number; `alive` says whose object still exists, so that its weak reference locks. */
  type Table<!K> = map<K, nat>

  /** Register: a live owner is never displaced, and only it is told yes. */
  function Claim<K>(t: Table<K>, alive: set<nat>, key: K, peer: nat): (Table<K>, bool) {
    if key in t && t[key] in alive then (t, t[key] == peer) else (t[key := peer], true)
  }

  /** Unregister: another live peer's route is left alone. */
  function Unclaim<K>(t: Table<K>, alive: set<nat>, key: K, peer: nat): (Table<K>, bool) {
    if key !in t || (t[key] in alive && t[key] != peer) then (t, false) else (t - {key}, true)
  }

  /** Look up, dropping a route whose peer is gone. */
  function Find<K>(t: Table<K>, alive: set<nat>, key: K): (Table<K>, Option<nat>) {
    if key !in t then (t, None)
    else if t[key] in alive then (t, Some(t[key]))
    else (t - {key}, None)
  }

  /** The routes of the peers still alive. */
  function Swept<K>(t: Table<K>, alive: set<nat>): Table<K> {
    map key | key in t && t[key] in alive :: t[key]
  }

  /**
   * No operation on behalf of another peer changes who a live owner's address leads to, and a peer that
   * registered leads until it unregisters.
   */
  lemma OwnershipIsStable<K>(t: Table<K>, alive: set<nat>, key: K, owner: nat, other: K, peer: nat)
    requires owner in alive && key in t && t[key] == owner && peer != owner
    ensures forall t' :: t' == Claim(t, alive, other, peer).0 || t' == Unclaim(t, alive, other, peer).0
                         || t' == Find(t, alive, other).0 || t' == Swept(t, alive) ==>
                         key in t' && t'[key] == owner && Find(t', alive, key).1 == Some(owner)
    ensures Claim(t, alive, key, peer) == (t, false) && Unclaim(t, alive, key, peer) == (t, false)
    ensures Claim(t, alive, key, owner) == (t, true) && key !in Unclaim(t, alive, key, owner).0
  {
  }

  /** A free or abandoned address is taken over by the next peer to register it, and nothing else changes. */
  lemma AbandonedIsTakenOver<K>(t: Table<K>, alive: set<nat>, key: K, peer: nat)
    requires peer in alive && (key in t ==> t[key] !in alive)
    ensures Claim(t, alive, key, peer).1
    ensures var t' := Claim(t, alive, key, peer).0;
            && Find(t', alive, key) == (t', Some(peer)) && t'.Keys == t.Keys + {key}
            && forall other :: other in t && other != key ==> t'[other] == t[other]
    ensures Find(t, alive, key).1 == None && key !in Unclaim(t, alive, key, peer).0
  {
  }

  class TunnelRouter {
    var peers: Table<u32>
    var peersV6: Table<Ipv6>

    constructor ()
      ensures peers == map[] && peersV6 == map[]
    {
      peers, peersV6 := map[], map[];
    }

    /** A missing peer is refused. */
    method RegisterPeer(address: Ipv4, peer: Option<nat>, alive: set<nat>) returns (ok: bool)
      modifies this`peers
      ensures peer.None? ==> peers == old(peers) && !ok
      ensures peer.Some? ==> (peers, ok) == Claim(old(peers), alive, ToInteger(address), peer.value)
      ensures peer.Some? && (ToInteger(address) !in old(peers) || old(peers)[ToInteger(address)] !in alive) ==>
                ok && peers == old(peers)[ToInteger(address) := peer.value]
      ensures peer.Some? && ToInteger(address) in old(peers) && old(peers)[ToInteger(address)] in alive ==>
                (ok <==> old(peers)[ToInteger(address)] == peer.value) && peers == old(peers)
    {
      if peer.None? {
        return false;
      }
      var key := ToInteger(address);
      if key in peers {
        if peers[key] in alive {
          return peers[key] == peer.value;
        }
        peers := peers - {key};
      }
      peers := peers[key := peer.value];
      assert peers == old(peers)[key := peer.value];
      ok := true;
    }

    method UnregisterPeer(address: Ipv4, peer: Option<nat>, alive: set<nat>) returns (ok: bool)
      modifies this`peers
      ensures peer.None? ==> peers == old(peers) && !ok
      ensures peer.Some? ==> (peers, ok) == Unclaim(old(peers), alive, ToInteger(address), peer.value)
      ensures peer.Some? ==>
                && (ok <==> ToInteger(address) in old(peers) && (old(peers)[ToInteger(address)] !in alive || old(peers)[ToInteger(address)] == peer.value))
                && peers == (if ok then old(peers) - {ToInteger(address)} else old(peers))
    {
      if peer.None? {
        return false;
      }
      var key := ToInteger(address);
      if key !in peers || (peers[key] in alive && peers[key] != peer.value) {
        return false;
      }
      peers := peers - {key};
      ok := true;
    }

    method RegisterPeerV6(address: Ipv6, peer: Option<nat>, alive: set<nat>) returns (ok: bool)
      modifies this`peersV6
      ensures peer.None? ==> peersV6 == old(peersV6) && !ok
      ensures peer.Some? ==> (peersV6, ok) == Claim(old(peersV6), alive, address, peer.value)
      ensures peer.Some? && (address !in old(peersV6) || old(peersV6)[address] !in alive) ==>
                ok && peersV6 == old(peersV6)[address := peer.value]
      ensures peer.Some? && address in old(peersV6) && old(peersV6)[address] in alive ==>
                (ok <==> old(peersV6)[address] == peer.value) && peersV6 == old(peersV6)
    {
      if peer.None? {
        return false;
      }
      if address in peersV6 {
        if peersV6[address] in alive {
          return peersV6[address] == peer.value;
        }
        peersV6 := peersV6 - {address};
      }
      peersV6 := peersV6[address := peer.value];
      assert peersV6 == old(peersV6)[address := peer.value];
      ok := true;
    }

    method UnregisterPeerV6(address: Ipv6, peer: Option<nat>, alive: set<nat>) returns (ok: bool)
      modifies this`peersV6
      ensures peer.None? ==> peersV6 == old(peersV6) && !ok
      ensures peer.Some? ==> (peersV6, ok) == Unclaim(old(peersV6), alive, address, peer.value)
      ensures peer.Some? ==>
                && (ok <==> address in old(peersV6) && (old(peersV6)[address] !in alive || old(peersV6)[address] == peer.value))
                && peersV6 == (if ok then old(peersV6) - {address} else old(peersV6))
    {
      if peer.None? {
        return false;
      }
      if address !in peersV6 || (peersV6[address] in alive && peersV6[address] != peer.value) {
        return false;
      }
      peersV6 := peersV6 - {address};
      ok := true;
    }

    method FindPeer(address: Ipv4, alive: set<nat>) returns (peer: Option<nat>)
      modifies this`peers
      ensures (peers, peer) == Find(old(peers), alive, ToInteger(address))
      ensures var key := ToInteger(address);
              && (peer == if key in old(peers) && old(peers)[key] in alive then Some(old(peers)[key]) else None)
              && peers == (if peer.Some? then old(peers) else old(peers) - {key})
    {
      var key := ToInteger(address);
      if key !in peers {
        return None;
      }
      if peers[key] !in alive {
        peers := peers - {key};
        return None;
      }
      peer := Some(peers[key]);
    }

    /** The peer handed the packet, if any: only a well-formed packet to a live route's address. */
    method RouteIpv4Packet(packet: bytes, alive: set<nat>) returns (to: Option<nat>)
      modifies this`peers
      ensures (peers, to) == if ShapedV4(packet) then Find(old(peers), alive, ToInteger(DestinationV4(packet)))
                             else (old(peers), None)
    {
      if |packet| < 20 {
        return None;
      }
      var headerSize := packet[0] % 16 * 4;
      if packet[0] / 16 != 4 || headerSize < 20 || headerSize > |packet| || ReadU16(packet, 2) != |packet| {
        return None;
      }
      to := FindPeer(packet[16..20], alive);
    }

    method RouteIpv6Packet(packet: bytes, alive: set<nat>) returns (to: Option<nat>)
      modifies this`peersV6
      ensures (peersV6, to) == if ShapedV6(packet) then Find(old(peersV6), alive, DestinationV6(packet))
                               else (old(peersV6), None)
    {
      if |packet| < 40 || packet[0] / 16 != 6 || ReadU16(packet, 4) + 40 != |packet| {
        return None;
      }
      var destination: Ipv6 := packet[24..40];
      if destination !in peersV6 {
        return None;
      }
      if peersV6[destination] !in alive {
        peersV6 := peersV6 - {destination};
        return None;
      }
      to := Some(peersV6[destination]);
    }

    /** Drop the routes of vanished peers, in whatever order the maps yield them, and count the rest. */
    method ActiveRoutes(alive: set<nat>) returns (n: nat)
      modifies this
      ensures peers == Swept(old(peers), alive) && peersV6 == Swept(old(peersV6), alive)
      ensures n == |peers| + |peersV6|
    {
      peers := Sweep(peers, alive);
      peersV6 := Sweep(peersV6, alive);
      n := |peers| + |peersV6|;
    }
  }

  /** Erasing while iterating. */
  method Sweep<K(==)>(t: Table<K>, alive: set<nat>) returns (r: Table<K>)
    ensures r == Swept(t, alive)
  {
    r := t;
    var todo := t.Keys;
    while todo != {}
      invariant todo <= r.Keys <= t.Keys
      invariant forall key :: key in t ==> (key in r <==> key in todo || t[key] in alive)
      invariant forall key :: key in r ==> r[key] == t[key]
      decreases todo
    {
      var key :| key in todo;
      todo := todo - {key};
      if r[key] !in alive {
        r := r - {key};
      }
    }
  }
}
