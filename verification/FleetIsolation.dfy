/** Old generations are inert, live ones are undisturbed, and a destination has one sender. */
module FleetIsolation {
  import opened Bytes
  import opened Wire
  import opened Control
  import opened Leases
  import opened ServerSession
  import opened Ledger
  import opened Fleet
  import opened FleetProperties

  // ---------- Generation isolation ----------

  /** Issued once, and no longer what the pool holds. */
  predicate Retired(p: Pool, l: Lease) {
    Issued(p, l.id) && !Current(p, l)
  }

  lemma ReleasedRetires(c: Config, p: Pool, s: Session, l: Lease)
    requires c.first <= c.last && PoolInv(c, p) && Retired(p, l)
    ensures Retired(Released(p, s), l)
  {
    if s.lease.Some? {
      RetiredStaysRetired(c, p, l, "", s.lease.value, 0);
    }
  }

  lemma AdmitRetires(c: Config, p: Pool, s: Session, hello: Hello, now: int, note: ErrorText, l: Lease)
    requires ValidConfig(c) && PoolInv(c, p) && Retired(p, l)
    ensures Retired(Admit(c, p, s, hello, now, note).pool, l)
  {
    var (p1, r) := AcquireSpec(c, p, s.identity, now);
    RetiredStaysRetired(c, p, l, s.identity, l, now);
    AcquireKeeps(c, p, s.identity, now);
    ReleasedRetires(c, p1, s, l);
    if r.Ok? {
      ReleasedRetires(c, p1, s.(lease := Some(r.value)), l);
    }
  }

  lemma RenewingRetires(c: Config, p: Pool, s: Session, f: Frame, now: int, note: ErrorText, l: Lease)
    requires ValidConfig(c) && PoolInv(c, p) && Retired(p, l) && s.lease.Some?
    ensures Retired(HandleRenewing(c, p, s, f, now, note).pool, l)
  {
    var (p1, r) := RenewSpec(c, p, s.lease.value, now);
    RetiredStaysRetired(c, p, l, "", s.lease.value, now);
    RenewKeeps(c, p, s.lease.value, now);
    ReleasedRetires(c, p1, s, l);
    ReleasedRetires(c, p1, s.(lease := r), l);
  }

  lemma HandleRetires(c: Config, p: Pool, s: Session, f: Frame, now: int, note: ErrorText, l: Lease)
    requires ValidConfig(c) && PoolInv(c, p) && Retired(p, l) && HoldsIffEstablished(s)
    ensures Retired(Handle(c, p, s, f, now, note).pool, l)
  {
    var s1 := s.(expected := Next64(s.expected));
    ReleasedRetires(c, p, s, l);
    ReleasedRetires(c, p, s1, l);
    if s.state == AwaitingHello && DecodeHello(f.payload).Some? {
      AdmitRetires(c, p, s1, DecodeHello(f.payload).value, now, note, l);
    } else if s.state == Established {
      RenewingRetires(c, p, s1, f, now, note, l);
    }
  }

  /** No event of any session brings a retired generation back. */
  lemma StepRetires(c: Config, fl: Fleet, ev: Event, l: Lease)
    requires ValidConfig(c) && FleetInv(c, fl) && Retired(fl.pool, l)
    ensures Retired(Step(c, fl, ev).0.pool, l)
  {
    var p := fl.pool;
    match ev
    case Open(k, identity) =>
    case Receive(k, f, now, note) =>
      if k in fl.sessions {
        HandleRetires(c, p, fl.sessions[k], f, now, note, l);
      }
    case FromTun(k, packet, now) =>
      if k in fl.sessions && fl.sessions[k].state == Established {
        var other := fl.sessions[k].lease.value;
        RetiredStaysRetired(c, p, l, "", other, now);
        RenewKeeps(c, p, other, now);
        ReleasedRetires(c, RenewSpec(c, p, other, now).0, fl.sessions[k], l);
      }
    case Disconnect(k) =>
      if k in fl.sessions {
        ReleasedRetires(c, p, fl.sessions[k], l);
      }
    case Sweep(now) =>
      RetiredStaysRetired(c, p, l, "", l, now);
  }

  /** Session `k` is still established on a lease the pool no longer holds. */
  predicate Stale(fl: Fleet, k: nat) {
    k in fl.sessions && fl.sessions[k].lease.Some? && Retired(fl.pool, fl.sessions[k].lease.value)
  }

  function TimeOf(ev: Event): int {
    match ev
    case Receive(_, _, now, _) => now
    case FromTun(_, _, now) => now
    case Sweep(now) => now
    case _ => 0
  }

  /** Will the event, if the session is established, ask the pool to renew? */
  predicate AttemptsRenewal(s: Session, ev: Event)
    requires s.lease.Some?
  {
    || (ev.Receive? && Renews(ev.frame.kind) && ev.frame.sequence == s.expected)
    || (ev.FromTun? && Addressed(s.lease.value, s.mtu, ev.packet))
  }

  /**
   * A session whose lease expired, or was replaced by a newer generation for the same identity or
   * address, changes nothing in the pool beyond sweeping expired entries, delivers nothing and sends no
   * DATA; a frame that would renew ends it.
   */
  lemma StaleSessionIsInert(c: Config, fl: Fleet, ev: Event)
    requires ValidConfig(c) && FleetInv(c, fl) && (ev.Receive? || ev.FromTun? || ev.Disconnect?)
    requires ev.who in fl.sessions && fl.sessions[ev.who].lease.Some?
    requires var l := fl.sessions[ev.who].lease.value;
             || Retired(fl.pool, l)
             || (AttemptsRenewal(fl.sessions[ev.who], ev) && Retired(Reap(fl.pool, TimeOf(ev)), l))
    ensures var (fl', reply) := Step(c, fl, ev);
            && (fl'.pool == fl.pool || fl'.pool == Reap(fl.pool, TimeOf(ev)))
            && reply.packets == [] && (forall f :: f in reply.frames ==> f.kind == MessageType.Error)
            && (fl'.sessions[ev.who].lease.Some? ==> Stale(fl', ev.who) && !reply.close)
  {
    var s := fl.sessions[ev.who];
    assert GoodCopy(c, fl.pool, HeldBy(fl.sessions)[ev.who]);
    RetiredReaped(fl.pool, s.lease.value, TimeOf(ev));
    if ev.Receive? && !(Renews(ev.frame.kind) && ev.frame.sequence == s.expected) {
      StaleControl(c, fl.pool, s, ev.frame, ev.now, ev.note);
    }
  }

  lemma StaleControl(c: Config, p: Pool, s: Session, f: Frame, now: int, note: ErrorText)
    requires ValidConfig(c) && HoldsIffEstablished(s) && s.lease.Some? && ReleaseSpec(p, s.lease.value).0 == p
    requires !(Renews(f.kind) && f.sequence == s.expected)
    ensures var e := Handle(c, p, s, f, now, note);
            && e.pool == p && e.session.lease == None && e.reply.packets == []
            && forall g :: g in e.reply.frames ==> g.kind == MessageType.Error
  {
  }

  lemma RetiredReaped(p: Pool, l: Lease, now: int)
    ensures Retired(p, l) ==> Retired(Reap(p, now), l) && ReleaseSpec(p, l).0 == p
    ensures Retired(Reap(p, now), l) ==> ReleaseSpec(Reap(p, now), l).0 == Reap(p, now)
  {
  }

  /**
   * Over every run: once stale, a session never holds a current lease again, never delivers a packet and
   * never sends anything but an ERROR, whatever generations the pool issues meanwhile.
   */
  lemma {:induction false} StaleForever(c: Config, fl: Fleet, evs: seq<Event>, k: nat)
    requires ValidConfig(c) && FleetInv(c, fl) && Spent(fl, k)
    ensures Spent(Run(c, fl, evs), k) && Delivered(c, fl, evs, k) == []
    ensures forall f :: f in Emitted(c, fl, evs, k) ==> f.kind == MessageType.Error
    decreases |evs|
  {
    if evs != [] {
      StepKeeps(c, fl, evs[0]);
      SpentStep(c, fl, evs[0], k);
      StaleForever(c, Step(c, fl, evs[0]).0, evs[1..], k);
    }
  }

  /** Stale, or already ended. */
  predicate Spent(fl: Fleet, k: nat) {
    k in fl.sessions && fl.sessions[k].state != AwaitingHello && (fl.sessions[k].lease.Some? ==> Stale(fl, k))
  }

  lemma SpentStep(c: Config, fl: Fleet, ev: Event, k: nat)
    requires ValidConfig(c) && FleetInv(c, fl) && Spent(fl, k)
    ensures var (fl', reply) := Step(c, fl, ev);
            && Spent(fl', k)
            && (Concerns(ev, k) ==> reply.packets == [] && forall f :: f in reply.frames ==> f.kind == MessageType.Error)
  {
    var s := fl.sessions[k];
    if s.lease.Some? {
      StepRetires(c, fl, ev, s.lease.value);
      if Concerns(ev, k) && !ev.Open? {
        StaleSessionIsInert(c, fl, ev);
      } else {
        SessionStays(c, fl, ev, k);
      }
    } else {
      EndedTurn(c, fl, ev, k);
    }
  }

  // ---------- Downlink uniqueness ----------

  /** Session `k` turns `packet` into a DATA frame when it is handed over at time `now`. */
  predicate Emits(c: Config, fl: Fleet, k: nat, packet: bytes, now: int)
    requires ValidConfig(c) && k in fl.sessions && HoldsIffEstablished(fl.sessions[k])
  {
    MakeData(c, fl.pool, fl.sessions[k], packet, now).reply.frames != []
  }

  /**
   * A session emits a packet exactly when it is established, the packet is well formed, fits and is
   * addressed to it, and the pool, swept at that moment, still holds its generation; the frame carries
   * the packet unchanged under the next sequence number, and the pool then maps the destination to it.
   */
  lemma DownlinkAuthority(c: Config, fl: Fleet, k: nat, packet: bytes, now: int)
    requires ValidConfig(c) && FleetInv(c, fl) && k in fl.sessions
    ensures var s := fl.sessions[k];
            var e := MakeData(c, fl.pool, s, packet, now);
            && (Emits(c, fl, k, packet, now) <==>
                && s.state == Established && Addressed(s.lease.value, s.mtu, packet)
                && Current(Reap(fl.pool, now), s.lease.value))
            && (Emits(c, fl, k, packet, now) ==>
                && e.reply.frames == [Frame(DataKind(packet), 0, s.outbound, packet)]
                && ToInteger(s.lease.value.address) in e.pool.owners
                && e.pool.owners[ToInteger(s.lease.value.address)] == s.identity
                && e.pool.leases[s.identity].id == s.lease.value.id)
  {
    var s := fl.sessions[k];
    if Emits(c, fl, k, packet, now) {
      RenewKeeps(c, fl.pool, s.lease.value, now);
      RenewOp(c, fl.pool, HeldBy(fl.sessions), now, k);
      assert GoodEntry(c, RenewSpec(c, fl.pool, s.lease.value, now).0, s.identity);
    }
  }

  /** Two sessions whose generations are both current never share an address. */
  lemma OneCurrentHolder(c: Config, fl: Fleet, j: nat, k: nat)
    requires FleetInv(c, fl) && j in fl.sessions && k in fl.sessions
    requires fl.sessions[j].lease.Some? && fl.sessions[k].lease.Some?
    requires Current(fl.pool, fl.sessions[j].lease.value) && Current(fl.pool, fl.sessions[k].lease.value)
    requires fl.sessions[j].lease.value.address == fl.sessions[k].lease.value.address
    ensures j == k
  {
    var held := HeldBy(fl.sessions);
    CurrentIsExact(c, fl.pool, held, j);
    CurrentIsExact(c, fl.pool, held, k);
    assert GoodEntry(c, fl.pool, held[j].identity) && GoodEntry(c, fl.pool, held[k].identity);
    assert SameHeldId(held, j, k);
  }

  lemma DerivedV6Injective(c: Config, a: Ipv4, b: Ipv4)
    requires DeriveV6(c, a) == DeriveV6(c, b) != IPV6_ZERO
    ensures a == b
  {
    assert DeriveV6(c, a)[12..] == a && DeriveV6(c, b)[12..] == b;
  }

  /**
   * In every reachable fleet, for every packet and whatever the two hand-over times, at most one session
   * emits it, even when a stale route still leads to an expired holder.
   */
  lemma DownlinkUniqueness(c: Config, fl: Fleet, j: nat, k: nat, packet: bytes, nowJ: int, nowK: int)
    requires ValidConfig(c) && FleetInv(c, fl) && j in fl.sessions && k in fl.sessions
    requires Emits(c, fl, j, packet, nowJ) && Emits(c, fl, k, packet, nowK)
    ensures j == k
  {
    DownlinkAuthority(c, fl, j, packet, nowJ);
    DownlinkAuthority(c, fl, k, packet, nowK);
    var a, b := fl.sessions[j].lease.value, fl.sessions[k].lease.value;
    var held := HeldBy(fl.sessions);
    assert GoodCopy(c, fl.pool, held[j]) && GoodCopy(c, fl.pool, held[k]);
    if packet[0] / 16 == 6 {
      DerivedV6Injective(c, a.address, b.address);
    }
    OneCurrentHolder(c, fl, j, k);
  }

  // ---------- Keep-alive ----------

  /** The unexpired entry of `i` is untouched. */
  predicate Spares(p: Pool, p': Pool, i: string, now: int) {
    i in p.leases && p.leases[i].expiresAt > now ==> i in p'.leases && p'.leases[i] == p.leases[i]
  }

  /** The lease `l`, if any, is not the generation filed under `i`. */
  predicate Foreign(p: Pool, i: string, l: Option<Lease>) {
    l.Some? && i in p.leases ==> p.leases[i].id != l.value.id
  }

  lemma HandleSpares(c: Config, p: Pool, s: Session, f: Frame, now: int, note: ErrorText, i: string)
    requires ValidConfig(c) && PoolInv(c, p) && HoldsIffEstablished(s) && Foreign(p, i, s.lease)
    ensures Spares(p, Handle(c, p, s, f, now, note).pool, i, now)
  {
    var s1 := s.(expected := Next64(s.expected));
    if s.state == AwaitingHello && DecodeHello(f.payload).Some? {
      AdmitSpares(c, p, s1, DecodeHello(f.payload).value, now, note, i);
    } else if s.state == Established {
      RenewingSpares(c, p, s1, f, now, note, i);
    }
  }

  lemma AdmitSpares(c: Config, p: Pool, s: Session, hello: Hello, now: int, note: ErrorText, i: string)
    requires ValidConfig(c) && s.lease.None?
    ensures Spares(p, Admit(c, p, s, hello, now, note).pool, i, now)
  {
  }

  lemma RenewingSpares(c: Config, p: Pool, s: Session, f: Frame, now: int, note: ErrorText, i: string)
    requires Foreign(p, i, s.lease) && s.lease.Some?
    ensures Spares(p, HandleRenewing(c, p, s, f, now, note).pool, i, now)
  {
  }

  /** Session `k` holds the pool's entry for its identity. */
  predicate Live(fl: Fleet, k: nat) {
    k in fl.sessions && fl.sessions[k].lease.Some? && Current(fl.pool, fl.sessions[k].lease.value)
  }

  /** Every event happens before the expiry that session `k`'s last renewal set, while it is established. */
  ghost predicate Punctual(c: Config, fl: Fleet, evs: seq<Event>, k: nat)
    requires ValidConfig(c) && FleetInv(c, fl) && k in fl.sessions
    decreases |evs|
  {
    evs == [] ||
    (StepKeeps(c, fl, evs[0]);
     SessionStays(c, fl, evs[0], k);
     && ((evs[0].Receive? || evs[0].FromTun? || evs[0].Sweep?) && fl.sessions[k].lease.Some?
         ==> TimeOf(evs[0]) < fl.sessions[k].lease.value.expiresAt)
     && Punctual(c, Step(c, fl, evs[0]).0, evs[1..], k))
  }

  lemma SessionStays(c: Config, fl: Fleet, ev: Event, k: nat)
    requires ValidConfig(c) && FleetInv(c, fl) && k in fl.sessions
    ensures k in Step(c, fl, ev).0.sessions
    ensures !Concerns(ev, k) ==> Step(c, fl, ev).0.sessions[k] == fl.sessions[k]
  {
  }

  /** Another session's event spares session `k`'s unexpired entry. */
  lemma ForeignEventSpares(c: Config, fl: Fleet, ev: Event, k: nat)
    requires ValidConfig(c) && FleetInv(c, fl) && Live(fl, k) && !Concerns(ev, k)
    requires ev.Receive? || ev.FromTun? || ev.Sweep? ==> TimeOf(ev) < fl.sessions[k].lease.value.expiresAt
    ensures var i := fl.sessions[k].identity; var p' := Step(c, fl, ev).0.pool;
            i in p'.leases && p'.leases[i] == fl.pool.leases[i]
  {
    var held, i := HeldBy(fl.sessions), fl.sessions[k].identity;
    CurrentIsExact(c, fl.pool, held, k);
    if !ev.Sweep? && ev.who in fl.sessions {
      var s := fl.sessions[ev.who];
      assert Foreign(fl.pool, i, s.lease) by {
        assert s.lease.Some? ==> !SameHeldId(held, ev.who, k);
      }
      match ev
      case Receive(j, f, now, note) => HandleSpares(c, fl.pool, s, f, now, note, i);
      case _ =>
    }
  }

  predicate LeaseFault(f: Frame) {
    f.kind == MessageType.Error && |f.payload| >= 2 && ReadU16(f.payload, 0) == CodeOf(LeaseUnavailable)
  }

  lemma ErrorFrameCode(sequence: u64, code: u16, note: ErrorText)
    ensures ReadU16(ErrorFrame(sequence, code, note).payload, 0) == code
  {
    var p := ErrorFrame(sequence, code, note).payload;
    assert p[0..2] == U16(code);
    ReadU16OfU16(code, p, 0);
  }

  /** The frame itself ends an established session, whatever the pool says: out of order, refused or a farewell. */
  predicate Ends(s: Session, f: Frame)
    requires s.lease.Some?
  {
    || f.sequence != s.expected || !Renews(f.kind)
    || (if f.kind == MessageType.Ping then DecodeProbe(f.payload).None? else UplinkFault(s.lease.value, s.mtu, f).Some?)
  }

  /** Session `k` gives up its lease by this event: its transport closes, or its peer's frame ends it. */
  predicate GivesUp(fl: Fleet, ev: Event, k: nat) {
    && k in fl.sessions && fl.sessions[k].lease.Some?
    && (ev == Disconnect(k) || (ev.Receive? && ev.who == k && Ends(fl.sessions[k], ev.frame)))
  }

  /** A session whose generation is current and unexpired renews whenever it asks to. */
  lemma RenewalSucceeds(c: Config, p: Pool, s: Session, held: Held, k: nat, now: int)
    requires LedgerInv(c, p, held) && Agrees(held, k, s) && s.lease.Some?
    requires Current(p, s.lease.value) && now < s.lease.value.expiresAt
    ensures var (p1, r) := RenewSpec(c, p, s.lease.value, now);
            r == Some(s.lease.value.(expiresAt := now + c.duration)) && Current(p1, r.value)
  {
    CurrentIsExact(c, p, held, k);
    RenewOp(c, p, held, now, k);
  }

  /** Only the frame itself ends the session: its lease stays exactly if the frame is acceptable. */
  lemma HandleLive(c: Config, p: Pool, s: Session, f: Frame, now: int, note: ErrorText, held: Held, k: nat)
    requires ValidConfig(c) && LedgerInv(c, p, held) && Agrees(held, k, s) && GoodSession(s) && s.lease.Some?
    requires Current(p, s.lease.value) && now < s.lease.value.expiresAt
    ensures var e := Handle(c, p, s, f, now, note);
            && (e.session.lease.None? <==> Ends(s, f))
            && (e.session.lease.Some? ==> Current(e.pool, e.session.lease.value))
            && forall g :: g in e.reply.frames ==> !LeaseFault(g)
  {
    RenewalSucceeds(c, p, s, held, k, now);
    var codes := {InvalidSequence, InvalidControlPayload, UnexpectedMessage, InvalidIpv4Packet, InvalidIpv6Packet,
                  SourceAddressMismatch};
    forall x | x in codes
      ensures ReadU16(ErrorFrame(s.outbound, CodeOf(x), note).payload, 0) != CodeOf(LeaseUnavailable)
    {
      ErrorFrameCode(s.outbound, CodeOf(x), note);
    }
  }

  /** One event before the expiry: `k` stays live unless it gives up by this very event, and a renewal succeeds. */
  lemma LiveStep(c: Config, fl: Fleet, ev: Event, k: nat)
    requires ValidConfig(c) && FleetInv(c, fl) && Live(fl, k)
    requires ev.Receive? || ev.FromTun? || ev.Sweep? ==> TimeOf(ev) < fl.sessions[k].lease.value.expiresAt
    ensures var (fl', reply) := Step(c, fl, ev);
            && k in fl'.sessions && (fl'.sessions[k].lease.None? <==> GivesUp(fl, ev, k))
            && (fl'.sessions[k].lease.Some? ==> Live(fl', k))
            && (Renewing(fl, ev, k) ==> Renewed(c, fl, ev, k))
            && (Concerns(ev, k) ==> forall f :: f in reply.frames ==> !LeaseFault(f))
  {
    SessionStays(c, fl, ev, k);
    var held := HeldBy(fl.sessions);
    if !Concerns(ev, k) {
      ForeignEventSpares(c, fl, ev, k);
    } else if ev.Receive? {
      RenewalSucceeds(c, fl.pool, fl.sessions[k], held, k, ev.now);
      HandleLive(c, fl.pool, fl.sessions[k], ev.frame, ev.now, ev.note, held, k);
    } else if ev.FromTun? {
      RenewalSucceeds(c, fl.pool, fl.sessions[k], held, k, ev.now);
    }
  }

  /** The renewal that session `k` asks for at this event succeeds. */
  predicate Renewed(c: Config, fl: Fleet, ev: Event, k: nat)
    requires k in fl.sessions && fl.sessions[k].lease.Some?
  {
    RenewSpec(c, fl.pool, fl.sessions[k].lease.value, TimeOf(ev)).1
    == Some(fl.sessions[k].lease.value.(expiresAt := TimeOf(ev) + c.duration))
  }

  /** At some point of the run session `k` gives up its lease. */
  ghost predicate GivesUpDuring(c: Config, fl: Fleet, evs: seq<Event>, k: nat)
    requires ValidConfig(c) && FleetInv(c, fl)
    decreases |evs|
  {
    evs != [] &&
    (StepKeeps(c, fl, evs[0]);
     GivesUp(fl, evs[0], k) || GivesUpDuring(c, Step(c, fl, evs[0]).0, evs[1..], k))
  }

  /** Every renewal that session `k` asks for during the run succeeds. */
  ghost predicate AlwaysRenewed(c: Config, fl: Fleet, evs: seq<Event>, k: nat)
    requires ValidConfig(c) && FleetInv(c, fl)
    decreases |evs|
  {
    evs == [] ||
    (StepKeeps(c, fl, evs[0]);
     (Renewing(fl, evs[0], k) ==> Renewed(c, fl, evs[0], k)) && AlwaysRenewed(c, Step(c, fl, evs[0]).0, evs[1..], k))
  }

  /** An ended session neither renews nor gives anything up. */
  lemma {:induction false} EndedIsIdle(c: Config, fl: Fleet, evs: seq<Event>, k: nat)
    requires ValidConfig(c) && FleetInv(c, fl) && k in fl.sessions && Ended(fl.sessions[k])
    ensures AlwaysRenewed(c, fl, evs, k) && !Live(Run(c, fl, evs), k)
    decreases |evs|
  {
    assert fl.sessions[k].lease.None?;
    if evs != [] {
      StepKeeps(c, fl, evs[0]);
      EndedTurn(c, fl, evs[0], k);
      EndedIsIdle(c, Step(c, fl, evs[0]).0, evs[1..], k);
    }
  }

  lemma {:induction false} PunctualStaysLive(c: Config, fl: Fleet, evs: seq<Event>, k: nat)
    requires ValidConfig(c) && FleetInv(c, fl) && Live(fl, k) && Punctual(c, fl, evs, k)
    ensures Live(Run(c, fl, evs), k) <==> !GivesUpDuring(c, fl, evs, k)
    ensures AlwaysRenewed(c, fl, evs, k)
    ensures forall f :: f in Emitted(c, fl, evs, k) ==> !LeaseFault(f)
    decreases |evs|
  {
    if evs != [] {
      StepKeeps(c, fl, evs[0]);
      LiveStep(c, fl, evs[0], k);
      var fl1 := Step(c, fl, evs[0]).0;
      if fl1.sessions[k].lease.Some? {
        PunctualStaysLive(c, fl1, evs[1..], k);
      } else {
        EndedStays(c, fl, evs[0], k);
        SilentOnceEnded(c, fl1, evs[1..], k);
        EndedIsIdle(c, fl1, evs[1..], k);
      }
    }
  }

  lemma EndedStays(c: Config, fl: Fleet, ev: Event, k: nat)
    requires ValidConfig(c) && FleetInv(c, fl) && k in fl.sessions && fl.sessions[k].lease.Some?
    requires Step(c, fl, ev).0.sessions[k].lease.None?
    ensures Ended(Step(c, fl, ev).0.sessions[k])
  {
    if ev.Receive? && ev.who == k {
      LeaselessEnded(c, fl.pool, fl.sessions[k], ev.frame, ev.now, ev.note);
    }
  }

  lemma LeaselessEnded(c: Config, p: Pool, s: Session, f: Frame, now: int, note: ErrorText)
    requires ValidConfig(c) && HoldsIffEstablished(s) && s.lease.Some?
    ensures var e := Handle(c, p, s, f, now, note); e.session.lease.None? ==> Ended(e.session)
  {
  }

  /** The event makes session `k` renew its lease. */
  predicate Renewing(fl: Fleet, ev: Event, k: nat) {
    && (ev.Receive? || ev.FromTun?) && ev.who == k && k in fl.sessions && fl.sessions[k].lease.Some?
    && AttemptsRenewal(fl.sessions[k], ev)
  }

  /** The time after the event; opening and closing take none. */
  function ClockAfter(ev: Event, clock: int): int {
    if ev.Receive? || ev.FromTun? || ev.Sweep? then TimeOf(ev) else clock
  }

  /**
   * Time never runs backwards, every renewing event of session `k` comes less than one lease duration after
   * the previous one, at `last`, and the run ends before the next one is due.
   */
  ghost predicate Cadence(c: Config, fl: Fleet, evs: seq<Event>, k: nat, last: int, clock: int)
    requires ValidConfig(c) && FleetInv(c, fl) && k in fl.sessions
    decreases |evs|
  {
    if evs == [] then clock < last + c.duration
    else
      StepKeeps(c, fl, evs[0]);
      SessionStays(c, fl, evs[0], k);
      var t, fl1 := ClockAfter(evs[0], clock), Step(c, fl, evs[0]).0;
      && clock <= t
      && (if Renewing(fl, evs[0], k) then t < last + c.duration && Cadence(c, fl1, evs[1..], k, t, t)
          else Cadence(c, fl1, evs[1..], k, last, t))
  }

  /** Session `k` is past its greeting, and its lease, if it has one, was last renewed at `last`. */
  predicate RenewedAt(c: Config, fl: Fleet, k: nat, last: int) {
    && k in fl.sessions && fl.sessions[k].state != AwaitingHello
    && (fl.sessions[k].lease.Some? ==> fl.sessions[k].lease.value.expiresAt == last + c.duration)
  }

  lemma RenewalMovesExpiry(c: Config, fl: Fleet, ev: Event, k: nat, last: int)
    requires ValidConfig(c) && FleetInv(c, fl) && RenewedAt(c, fl, k, last)
    ensures RenewedAt(c, Step(c, fl, ev).0, k, if Renewing(fl, ev, k) then TimeOf(ev) else last)
  {
    if ev.Receive? && ev.who == k {
      HandleMovesExpiry(c, fl.pool, fl.sessions[k], ev.frame, ev.now, ev.note);
    }
  }

  lemma HandleMovesExpiry(c: Config, p: Pool, s: Session, f: Frame, now: int, note: ErrorText)
    requires ValidConfig(c) && HoldsIffEstablished(s) && s.state != AwaitingHello
    ensures var s' := Handle(c, p, s, f, now, note).session;
            && s'.state != AwaitingHello
            && (s'.lease.Some? ==> && s.lease.Some?
                                   && s'.lease.value.expiresAt == if Renews(f.kind) && f.sequence == s.expected
                                                                  then now + c.duration else s.lease.value.expiresAt)
  {
  }

  lemma {:induction false} CadenceBounds(c: Config, fl: Fleet, evs: seq<Event>, k: nat, last: int, clock: int)
    requires ValidConfig(c) && FleetInv(c, fl) && k in fl.sessions && Cadence(c, fl, evs, k, last, clock)
    ensures clock < last + c.duration
    decreases |evs|
  {
    if evs != [] && !Renewing(fl, evs[0], k) {
      StepKeeps(c, fl, evs[0]);
      SessionStays(c, fl, evs[0], k);
      CadenceBounds(c, Step(c, fl, evs[0]).0, evs[1..], k, last, ClockAfter(evs[0], clock));
    }
  }

  lemma {:induction false} CadenceIsPunctual(c: Config, fl: Fleet, evs: seq<Event>, k: nat, last: int, clock: int)
    requires ValidConfig(c) && FleetInv(c, fl) && RenewedAt(c, fl, k, last) && Cadence(c, fl, evs, k, last, clock)
    ensures Punctual(c, fl, evs, k)
    decreases |evs|
  {
    if evs != [] {
      StepKeeps(c, fl, evs[0]);
      SessionStays(c, fl, evs[0], k);
      RenewalMovesExpiry(c, fl, evs[0], k, last);
      var t, fl1 := ClockAfter(evs[0], clock), Step(c, fl, evs[0]).0;
      if Renewing(fl, evs[0], k) {
        CadenceIsPunctual(c, fl1, evs[1..], k, t, t);
      } else {
        CadenceBounds(c, fl1, evs[1..], k, last, t);
        CadenceIsPunctual(c, fl1, evs[1..], k, last, t);
      }
    }
  }

  /**
   * Keep-alive non-interference: with time that never runs backwards, a session whose renewing events come
   * less than one lease duration apart never loses its lease, whatever the others acquire, renew, release or
   * sweep: every renewal it asks for succeeds, it is never told its lease is gone, and at the end it still
   * holds the pool's generation exactly unless its own transport closed or its own peer's frame ended it.
   */
  lemma KeepAlive(c: Config, fl: Fleet, evs: seq<Event>, k: nat, last: int, clock: int)
    requires ValidConfig(c) && FleetInv(c, fl) && Live(fl, k) && RenewedAt(c, fl, k, last)
    requires Cadence(c, fl, evs, k, last, clock)
    ensures Live(Run(c, fl, evs), k) <==> !GivesUpDuring(c, fl, evs, k)
    ensures AlwaysRenewed(c, fl, evs, k)
    ensures forall f :: f in Emitted(c, fl, evs, k) ==> !LeaseFault(f)
  {
    CadenceIsPunctual(c, fl, evs, k, last, clock);
    PunctualStaysLive(c, fl, evs, k);
  }
}
