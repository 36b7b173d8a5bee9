/** Which packets the ends of an honest link take, in every state that the whole system can reach. */
module Acceptance {
  import opened Bytes
  import opened Leases
  import opened Transport
  import opened Tunnel
  import opened Pump
  import opened System
  import opened TunnelOutcomes
  import C = ClientSession
  import S = ServerSession
  import L = Link
  import CO = ClientOutcomes
  import SO = ServerOutcomes

  /** There is room for a DATA frame with this packet. */
  predicate Roomy(lim: Limits, o: Outgoing, packet: bytes) {
    |o.queue| < lim.frames && Total(o.queue) + 20 + |packet| <= lim.octets
  }

  function ClientGets(k: nat, packet: bytes): Event {
    At(k, L.AtClient(ClientEvent.FromTun(packet)))
  }

  function ServerGets(k: nat, packet: bytes, now: int): Event {
    At(k, L.AtServer(ServerEvent.FromTun(packet, now)))
  }

  lemma ReachedRuns(c: Config, lim: Limits, y: System, k: nat)
    requires SystemInv(c, lim, y) && k in y.links
    ensures ServerRunning(lim, y.links[k].server) && ClientRunning(lim, y.links[k].client)
    ensures PumpInv(lim, y.links[k].server.out) && PumpInv(lim, y.links[k].client.out)
    ensures y.links[k].server.session.state == S.Established ==> Reading(y.links[k].server.out)
    ensures y.links[k].client.client.state == C.Established ==> Reading(y.links[k].client.out)
  {
    assert Linked(c, lim, y, k);
  }

  /**
   * In every reachable state the client takes a packet exactly if it is established, the packet is well formed,
   * within the MTU and from its assigned address, and the queue has room for it.
   */
  lemma UplinkTakenExactly(c: Config, lim: Limits, evs: seq<Event>, k: nat, packet: bytes)
    requires ValidConfig(c) && k in After(c, lim, evs).links
    ensures var y := After(c, lim, evs);
            var t := y.links[k].client;
            TakenUp(y, Step(c, lim, y, ClientGets(k, packet)), ClientGets(k, packet), k)
            == if t.client.state == C.Established && t.client.assignment.Some?
                  && CO.FromUs(t.client.assignment.value, packet) && Roomy(lim, t.out, packet)
               then [packet] else []
  {
    var y := After(c, lim, evs);
    ReachedRuns(c, lim, y, k);
    ClientTakes(lim, y.links[k].client, packet);
  }

  lemma ClientTakes(lim: Limits, t: ClientTunnel, packet: bytes)
    requires ClientRunning(lim, t) && PumpInv(lim, t.out) && (t.client.state == C.Established ==> Reading(t.out))
    ensures Taken(t.out.sent, ClientStep(lim, t, ClientEvent.FromTun(packet)).out.sent, Some(packet))
         == if t.client.state == C.Established && t.client.assignment.Some?
               && CO.FromUs(t.client.assignment.value, packet) && Roomy(lim, t.out, packet)
            then [packet] else []
  {
    if Reading(t.out) {
      ClientDeviceExactly(lim, t, packet);
    }
  }

  /**
   * In every reachable state the server takes a packet for a client exactly if the session is established, the
   * packet is well formed, within the MTU and to its leased address, the pool renews the lease, and there is room.
   */
  lemma DownlinkTakenExactly(c: Config, lim: Limits, evs: seq<Event>, k: nat, packet: bytes, now: int)
    requires ValidConfig(c) && k in After(c, lim, evs).links
    ensures var y := After(c, lim, evs);
            var t := y.links[k].server;
            TakenDown(y, Step(c, lim, y, ServerGets(k, packet, now)), ServerGets(k, packet, now), k)
            == if t.session.state == S.Established && t.session.lease.Some?
                  && SO.ToPeer(t.session.lease.value, t.session.mtu, packet)
                  && RenewSpec(c, y.fleet.pool, t.session.lease.value, now).1.Some? && Roomy(lim, t.out, packet)
               then [packet] else []
  {
    var y := After(c, lim, evs);
    ReachedRuns(c, lim, y, k);
    ServerTakes(c, lim, y.fleet.pool, y.links[k].server, packet, now);
  }

  lemma ServerTakes(c: Config, lim: Limits, p: Pool, t: ServerTunnel, packet: bytes, now: int)
    requires ValidConfig(c) && ServerRunning(lim, t) && PumpInv(lim, t.out)
    requires t.session.state == S.Established ==> Reading(t.out)
    ensures Taken(t.out.sent, ServerStep(c, lim, p, t, ServerEvent.FromTun(packet, now)).1.out.sent, Some(packet))
         == if t.session.state == S.Established && t.session.lease.Some?
               && SO.ToPeer(t.session.lease.value, t.session.mtu, packet)
               && RenewSpec(c, p, t.session.lease.value, now).1.Some? && Roomy(lim, t.out, packet)
            then [packet] else []
  {
    if !t.out.stopped {
      ServerDeviceExactly(c, lim, p, t, packet, now);
    }
  }
}
