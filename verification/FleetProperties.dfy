/** What holds over every run of a fleet of sessions, whatever the peers send and whenever events happen. */
module FleetProperties {
  import opened Bytes
  import opened Wire
  import opened Control
  import opened Packets
  import opened Leases
  import opened ServerSession
  import opened Ledger
  import opened Fleet

  // ---------- Conservation ----------

  /** Session `k` is established and holds exactly the pool's entry for `i`. */
  predicate HolderOf(fl: Fleet, i: string, k: nat) {
    && k in fl.sessions && fl.sessions[k].state == Established
    && i in fl.pool.leases && fl.sessions[k].lease == Some(fl.pool.leases[i])
  }

  /**
   * Over every run of any number of sessions: a session holds a lease exactly while established, every
   * pool entry is the copy of exactly one established session, and the two pool maps are inverse.
   */
  lemma LeaseConservation(c: Config, evs: seq<Event>)
    requires ValidConfig(c)
    ensures var fl := After(c, evs);
            && (forall k :: k in fl.sessions ==> (fl.sessions[k].lease.Some? <==> fl.sessions[k].state == Established))
            && (forall i :: i in fl.pool.leases ==>
                  exists k :: HolderOf(fl, i, k) && forall j :: HolderOf(fl, i, j) ==> j == k)
            && (forall i, a: u32 :: (i in fl.pool.leases && ToInteger(fl.pool.leases[i].address) == a)
                                    <==> (a in fl.pool.owners && fl.pool.owners[a] == i))
  {
    var fl := After(c, evs);
    forall i | i in fl.pool.leases
      ensures exists k :: HolderOf(fl, i, k) && forall j :: HolderOf(fl, i, j) ==> j == k
    {
      var k := UniqueHolder(c, fl, i);
    }
    forall i, a: u32
      ensures (i in fl.pool.leases && ToInteger(fl.pool.leases[i].address) == a)
              <==> (a in fl.pool.owners && fl.pool.owners[a] == i)
    {
      MapsAreInverse(c, fl.pool, i, a);
    }
  }

  lemma UniqueHolder(c: Config, fl: Fleet, i: string) returns (k: nat)
    requires FleetInv(c, fl) && i in fl.pool.leases
    ensures HolderOf(fl, i, k) && forall j :: HolderOf(fl, i, j) ==> j == k
  {
    var held := HeldBy(fl.sessions);
    assert Backed(fl.pool, held, i);
    k :| Backs(fl.pool, held, i, k);
    forall j | HolderOf(fl, i, j)
      ensures j == k
    {
      assert SameHeldId(held, j, k);
    }
  }

  /** However the sessions ended, once none is established every address is free again. */
  lemma NoAddressLeaks(c: Config, evs: seq<Event>)
    requires ValidConfig(c)
    requires var fl := After(c, evs); forall k :: k in fl.sessions ==> fl.sessions[k].state != Established
    ensures After(c, evs).pool.leases == map[] && After(c, evs).pool.owners == map[]
  {
    var fl := After(c, evs);
    if i :| i in fl.pool.leases {
      var k := UniqueHolder(c, fl, i);
    }
    if a :| a in fl.pool.owners {
      assert GoodOwner(fl.pool, a) by {
        assert a in fl.pool.owners;
      }
    }
  }

  // ---------- Uplink authority ----------

  /** The packet is well formed, fits the negotiated MTU, and its source is `l`'s address of that family. */
  predicate Authentic(l: Lease, mtu: u16, packet: bytes) {
    && |packet| <= mtu
    && ((ShapedV4(packet) && SourceV4(packet) == l.address)
        || (ShapedV6(packet) && l.addressV6 != IPV6_ZERO && SourceV6(packet) == l.addressV6))
  }

  /**
   * Against an arbitrary peer: a packet reaches the TUN device only as the payload of the frame with the
   * exact next sequence number, well formed, within the MTU, and with the source address that the pool
   * maps, at that moment and unexpired, to this session's identity.
   */
  lemma UplinkAuthority(c: Config, fl: Fleet, ev: Event, packet: bytes)
    requires ValidConfig(c) && FleetInv(c, fl) && packet in Step(c, fl, ev).1.packets
    ensures ev.Receive? && ev.who in fl.sessions
    ensures var s := fl.sessions[ev.who];
            var fl' := Step(c, fl, ev).0;
            && s.state == Established && ev.frame.sequence == s.expected && packet == ev.frame.payload
            && s.identity in fl'.pool.leases
            && (var entry := fl'.pool.leases[s.identity];
                && fl'.sessions[ev.who].lease == Some(entry) && entry.expiresAt == ev.now + c.duration > ev.now
                && Authentic(entry, s.mtu, packet)
                && ToInteger(entry.address) in fl'.pool.owners
                && fl'.pool.owners[ToInteger(entry.address)] == s.identity)
  {
    var s := fl.sessions[ev.who];
    HandleDelivers(c, fl.pool, s, ev.frame, ev.now, ev.note, packet);
    RenewKeeps(c, fl.pool, s.lease.value, ev.now);
    RenewOp(c, fl.pool, HeldBy(fl.sessions), ev.now, ev.who);
    assert GoodEntry(c, RenewSpec(c, fl.pool, s.lease.value, ev.now).0, s.identity);
  }

  lemma HandleDelivers(c: Config, p: Pool, s: Session, f: Frame, now: int, note: ErrorText, packet: bytes)
    requires ValidConfig(c) && HoldsIffEstablished(s) && packet in Handle(c, p, s, f, now, note).reply.packets
    ensures s.state == Established && f.sequence == s.expected && packet == f.payload
    ensures var (p1, r) := RenewSpec(c, p, s.lease.value, now);
            && r.Some? && Authentic(r.value, s.mtu, packet)
            && Handle(c, p, s, f, now, note).pool == p1 && Handle(c, p, s, f, now, note).session.lease == r
  {
  }

  predicate Ended(s: Session) {
    s.state == Closing || s.state == Closed
  }

  lemma EndedTurn(c: Config, fl: Fleet, ev: Event, k: nat)
    requires ValidConfig(c) && FleetInv(c, fl) && k in fl.sessions && Ended(fl.sessions[k])
    ensures var (fl', reply) := Step(c, fl, ev);
            && k in fl'.sessions && Ended(fl'.sessions[k]) && fl'.sessions[k].lease.None?
            && (Concerns(ev, k) ==> reply.packets == [] && reply.frames == [])
  {
  }

  /** A session that has failed or closed never delivers a packet or sends a frame again. */
  lemma {:induction false} SilentOnceEnded(c: Config, fl: Fleet, evs: seq<Event>, k: nat)
    requires ValidConfig(c) && FleetInv(c, fl) && k in fl.sessions && Ended(fl.sessions[k])
    ensures Delivered(c, fl, evs, k) == [] && Emitted(c, fl, evs, k) == []
    ensures k in Run(c, fl, evs).sessions && Ended(Run(c, fl, evs).sessions[k])
    decreases |evs|
  {
    if evs != [] {
      StepKeeps(c, fl, evs[0]);
      EndedTurn(c, fl, evs[0], k);
      SilentOnceEnded(c, Step(c, fl, evs[0]).0, evs[1..], k);
    }
  }

  /** Reporting an error or asking to close ends the session in the same step. */
  lemma CloseEnds(c: Config, p: Pool, s: Session, f: Frame, now: int, note: ErrorText)
    requires ValidConfig(c) && GoodSession(s)
    ensures var e := Handle(c, p, s, f, now, note);
            && (e.reply.close <==> Ended(e.session))
            && (e.reply.close ==> e.reply.packets == [])
            && (!e.reply.close ==> && f.sequence == s.expected && e.session.expected == Next64(s.expected)
                                   && e.reply.packets == Select([f], DATA))
  {
    SelectOne(f, DATA);
    if !Ended(s) && f.sequence == s.expected {
      var s1 := s.(expected := Next64(s.expected));
      if s.state == AwaitingHello {
        HelloEnds(c, p, s1, f, now, note);
      } else if Renews(f.kind) {
        RenewingEnds(c, p, s1, f, now, note);
      }
    }
  }

  lemma HelloEnds(c: Config, p: Pool, s: Session, f: Frame, now: int, note: ErrorText)
    requires ValidConfig(c)
    ensures var e := HandleHello(c, p, s, f, now, note);
            && (e.reply.close <==> Ended(e.session)) && e.reply.packets == []
            && (!e.reply.close ==> f.kind == ClientHello && e.session.expected == s.expected)
  {
  }

  lemma RenewingEnds(c: Config, p: Pool, s: Session, f: Frame, now: int, note: ErrorText)
    requires s.lease.Some? && Renews(f.kind) && !Ended(s)
    ensures var e := HandleRenewing(c, p, s, f, now, note);
            && (e.reply.close <==> Ended(e.session)) && (e.reply.close ==> e.reply.packets == [])
            && (!e.reply.close ==> e.session.expected == s.expected
                                   && e.reply.packets == if f.kind in DATA then [f.payload] else [])
  {
  }

  /** `delivered` is the DATA of the first `n` received frames, which are numbered `e`, `e + 1`, … mod 2^64. */
  ghost predicate Accounts(delivered: seq<bytes>, received: seq<Frame>, e: u64, n: nat) {
    && n <= |received| && delivered == Select(received[..n], DATA)
    && forall i :: 0 <= i < n ==> received[i].sequence == (e + i) % U64_MODULUS
  }

  /**
   * Over every run: what a session delivers is exactly the DATA of an initial segment of the frames it
   * received, and that segment is numbered without gap or repetition from the session's counter.
   */
  lemma {:induction false} DeliveredIsNumberedPrefix(c: Config, fl: Fleet, evs: seq<Event>, k: nat) returns (n: nat)
    requires ValidConfig(c) && FleetInv(c, fl) && k in fl.sessions
    ensures Accounts(Delivered(c, fl, evs, k), Received(evs, k), fl.sessions[k].expected, n)
    decreases |evs|
  {
    n := 0;
    if evs != [] {
      StepKeeps(c, fl, evs[0]);
      var fl1 := Step(c, fl, evs[0]).0;
      TurnDelivers(c, fl, evs[0], k);
      var rest, later := Delivered(c, fl1, evs[1..], k), Received(evs[1..], k);
      if !(evs[0].Receive? && evs[0].who == k) {
        assert Received(evs, k) == later && Delivered(c, fl, evs, k) == rest;
        n := DeliveredIsNumberedPrefix(c, fl1, evs[1..], k);
      } else if Ended(fl1.sessions[k]) {
        SilentOnceEnded(c, fl1, evs[1..], k);
        assert Select(Received(evs, k)[..0], DATA) == [];
      } else {
        var m := DeliveredIsNumberedPrefix(c, fl1, evs[1..], k);
        AccountCons(evs[0].frame, rest, later, fl.sessions[k].expected, m);
        n := m + 1;
      }
    }
  }

  /** What one event means for session `k`'s deliveries and its counter. */
  lemma TurnDelivers(c: Config, fl: Fleet, ev: Event, k: nat)
    requires ValidConfig(c) && FleetInv(c, fl) && k in fl.sessions
    ensures var (fl', reply) := Step(c, fl, ev);
            && k in fl'.sessions
            && (if ev.Receive? && ev.who == k
                then if Ended(fl'.sessions[k]) then reply.packets == []
                     else && reply.packets == Select([ev.frame], DATA) && ev.frame.sequence == fl.sessions[k].expected
                          && fl'.sessions[k].expected == Next64(fl.sessions[k].expected)
                else fl'.sessions[k].expected == fl.sessions[k].expected && (Concerns(ev, k) ==> reply.packets == []))
  {
    if ev.Receive? && ev.who == k {
      CloseEnds(c, fl.pool, fl.sessions[k], ev.frame, ev.now, ev.note);
    } else {
      OthersLeaveCounter(c, fl, ev, k);
    }
  }

  lemma OthersLeaveCounter(c: Config, fl: Fleet, ev: Event, k: nat)
    requires ValidConfig(c) && FleetInv(c, fl) && k in fl.sessions && !(ev.Receive? && ev.who == k)
    ensures var (fl', reply) := Step(c, fl, ev);
            && k in fl'.sessions && fl'.sessions[k].expected == fl.sessions[k].expected
            && (Concerns(ev, k) ==> reply.packets == [])
  {
  }

  lemma AccountCons(f: Frame, delivered: seq<bytes>, received: seq<Frame>, e: u64, m: nat)
    requires Accounts(delivered, received, Next64(e), m) && f.sequence == e
    ensures Accounts(Select([f], DATA) + delivered, [f] + received, e, m + 1)
  {
    var all := [f] + received;
    assert all[..m + 1] == [f] + received[..m];
    SelectConcat([f], received[..m], DATA);
    forall i | 0 <= i < m + 1
      ensures all[i].sequence == (e + i) % U64_MODULUS
    {
      if i > 0 {
        assert all[i] == received[i - 1];
      }
    }
  }
}
