/** Any number of server sessions sharing one pool, driven by arbitrary peers at arbitrary times. */
module Fleet {
  import opened Bytes
  import opened Wire
  import opened Control
  import opened Leases
  import opened ServerSession
  import opened Ledger

  /** The shared pool and every session ever opened; closed sessions stay as inert records. */
  datatype Fleet = Fleet(pool: Pool, sessions: map<nat, Session>)

  datatype Event =
    | Open(who: nat, identity: string)
    | Receive(who: nat, frame: Frame, now: int, note: ErrorText)
    | FromTun(who: nat, packet: bytes, now: int)
    | Disconnect(who: nat)
    | Sweep(now: int)

  const EMPTY := Fleet(EMPTY_POOL, map[])

  /** Session identities are authenticated, so never empty; a lease belongs to its session's identity. */
  predicate GoodSession(s: Session) {
    HoldsIffEstablished(s) && s.identity != "" && (s.lease.Some? ==> s.lease.value.identity == s.identity)
  }

  function HeldBy(sessions: map<nat, Session>): Held {
    map k | k in sessions && sessions[k].lease.Some? :: sessions[k].lease.value
  }

  ghost predicate AllGood(sessions: map<nat, Session>) {
    forall k :: k in sessions ==> GoodSession(sessions[k])
  }

  ghost predicate FleetInv(c: Config, fl: Fleet) {
    && AllGood(fl.sessions)
    && LedgerInv(c, fl.pool, HeldBy(fl.sessions))
  }

  function Update(fl: Fleet, who: nat, e: Effect): (Fleet, Reply) {
    (Fleet(e.pool, fl.sessions[who := e.session]), e.reply)
  }

  /** One event; events that name no session, or reopen one, do nothing. */
  function Step(c: Config, fl: Fleet, ev: Event): (Fleet, Reply)
    requires ValidConfig(c) && AllGood(fl.sessions)
  {
    match ev
    case Open(k, identity) =>
      if k in fl.sessions || identity == "" then (fl, SILENT)
      else (fl.(sessions := fl.sessions[k := NewSession(identity)]), SILENT)
    case Receive(k, f, now, note) =>
      if k !in fl.sessions then (fl, SILENT) else Update(fl, k, Handle(c, fl.pool, fl.sessions[k], f, now, note))
    case FromTun(k, packet, now) =>
      if k !in fl.sessions then (fl, SILENT) else Update(fl, k, MakeData(c, fl.pool, fl.sessions[k], packet, now))
    case Disconnect(k) =>
      if k !in fl.sessions then (fl, SILENT) else Update(fl, k, TransportClosed(fl.pool, fl.sessions[k]))
    case Sweep(now) => (fl.(pool := Reap(fl.pool, now)), SILENT)
  }

  // ---------- Every session event is a few ledger operations ----------

  /** Session `k`'s lease as the ledger sees it. */
  predicate Agrees(held: Held, k: nat, s: Session) {
    s.lease == if k in held then Some(held[k]) else None
  }

  ghost predicate Balanced(c: Config, e: Effect, held: Held, k: nat) {
    GoodSession(e.session) && LedgerInv(c, e.pool, SetLease(held, k, e.session.lease))
  }

  lemma DropBalanced(c: Config, p: Pool, s: Session, held: Held, k: nat)
    requires LedgerInv(c, p, held) && Agrees(held, k, s)
    ensures LedgerInv(c, Released(p, s), held - {k})
  {
    ReleaseOp(c, p, held, k);
  }

  lemma DropAfter(c: Config, p: Pool, s: Session, held: Held, k: nat)
    requires s.lease.Some? && LedgerInv(c, p, held[k := s.lease.value])
    ensures LedgerInv(c, Released(p, s), held - {k})
  {
    DropBalanced(c, p, s, held[k := s.lease.value], k);
    assert held[k := s.lease.value] - {k} == held - {k};
  }

  lemma AdmitBalanced(c: Config, p: Pool, s: Session, hello: Hello, now: int, note: ErrorText, held: Held, k: nat)
    requires ValidConfig(c) && LedgerInv(c, p, held) && Agrees(held, k, s) && s.lease.None? && s.identity != ""
    ensures Balanced(c, Admit(c, p, s, hello, now, note), held, k)
  {
    AcquireOp(c, p, held, s.identity, now, k);
    var (p1, r) := AcquireSpec(c, p, s.identity, now);
    if r.Ok? {
      DropAfter(c, p1, s.(lease := Some(r.value)), held, k);
    } else {
      assert held - {k} == held;
    }
  }

  lemma RenewingBalanced(c: Config, p: Pool, s: Session, f: Frame, now: int, note: ErrorText, held: Held, k: nat)
    requires LedgerInv(c, p, held) && Agrees(held, k, s) && s.lease.Some? && GoodSession(s)
    ensures Balanced(c, HandleRenewing(c, p, s, f, now, note), held, k)
  {
    RenewOp(c, p, held, now, k);
    var (p1, r) := RenewSpec(c, p, s.lease.value, now);
    if r.Some? {
      DropAfter(c, p1, s.(lease := r), held, k);
    } else {
      DropBalanced(c, p1, s, held, k);
    }
  }

  lemma HandleBalanced(c: Config, p: Pool, s: Session, f: Frame, now: int, note: ErrorText, held: Held, k: nat)
    requires ValidConfig(c) && LedgerInv(c, p, held) && Agrees(held, k, s) && GoodSession(s)
    ensures Balanced(c, Handle(c, p, s, f, now, note), held, k)
  {
    assert SetLease(held, k, s.lease) == held;
    DropBalanced(c, p, s, held, k);
    var s1 := s.(expected := Next64(s.expected));
    if (s.state == AwaitingHello || s.state == Established) && f.sequence == s.expected {
      if s.state == AwaitingHello {
        if f.kind == ClientHello && DecodeHello(f.payload).Some? {
          AdmitBalanced(c, p, s1, DecodeHello(f.payload).value, now, note, held, k);
        }
      } else if Renews(f.kind) {
        RenewingBalanced(c, p, s1, f, now, note, held, k);
      }
    }
  }

  lemma MakeDataBalanced(c: Config, p: Pool, s: Session, packet: bytes, now: int, held: Held, k: nat)
    requires LedgerInv(c, p, held) && Agrees(held, k, s) && GoodSession(s)
    ensures Balanced(c, MakeData(c, p, s, packet, now), held, k)
  {
    assert SetLease(held, k, s.lease) == held;
    if s.state == Established {
      RenewOp(c, p, held, now, k);
      if RenewSpec(c, p, s.lease.value, now).1.None? {
        DropBalanced(c, RenewSpec(c, p, s.lease.value, now).0, s, held, k);
      }
    }
  }

  lemma HeldByUpdate(sessions: map<nat, Session>, k: nat, s: Session)
    ensures HeldBy(sessions[k := s]) == SetLease(HeldBy(sessions), k, s.lease)
  {
  }

  lemma UpdateKeeps(c: Config, fl: Fleet, k: nat, e: Effect)
    requires FleetInv(c, fl) && k in fl.sessions && Balanced(c, e, HeldBy(fl.sessions), k)
    ensures FleetInv(c, Update(fl, k, e).0)
  {
    HeldByUpdate(fl.sessions, k, e.session);
  }

  /** The conservation invariant survives every event of every session. */
  lemma StepKeeps(c: Config, fl: Fleet, ev: Event)
    requires ValidConfig(c) && FleetInv(c, fl)
    ensures FleetInv(c, Step(c, fl, ev).0)
  {
    var held := HeldBy(fl.sessions);
    match ev
    case Open(k, identity) =>
      HeldByUpdate(fl.sessions, k, NewSession(identity));
      assert held - {k} == held || k in fl.sessions;
    case Receive(k, f, now, note) =>
      if k in fl.sessions {
        HandleBalanced(c, fl.pool, fl.sessions[k], f, now, note, held, k);
        UpdateKeeps(c, fl, k, Handle(c, fl.pool, fl.sessions[k], f, now, note));
      }
    case FromTun(k, packet, now) =>
      if k in fl.sessions {
        MakeDataBalanced(c, fl.pool, fl.sessions[k], packet, now, held, k);
        UpdateKeeps(c, fl, k, MakeData(c, fl.pool, fl.sessions[k], packet, now));
      }
    case Disconnect(k) =>
      if k in fl.sessions {
        DropBalanced(c, fl.pool, fl.sessions[k], held, k);
        UpdateKeeps(c, fl, k, TransportClosed(fl.pool, fl.sessions[k]));
      }
    case Sweep(now) =>
      ReapOp(c, fl.pool, held, now);
  }

  /** The fleet after any number of events; the conservation invariant holds throughout. */
  ghost function Run(c: Config, fl: Fleet, evs: seq<Event>): (r: Fleet)
    requires ValidConfig(c) && FleetInv(c, fl)
    ensures FleetInv(c, r)
    decreases |evs|
  {
    if evs == [] then fl
    else
      StepKeeps(c, fl, evs[0]);
      Run(c, Step(c, fl, evs[0]).0, evs[1..])
  }

  lemma EmptyFleetInv(c: Config)
    ensures FleetInv(c, EMPTY)
  {
  }

  /** The fleet reached from an empty pool. */
  ghost function After(c: Config, evs: seq<Event>): (r: Fleet)
    requires ValidConfig(c)
    ensures FleetInv(c, r)
  {
    EmptyFleetInv(c);
    Run(c, EMPTY, evs)
  }

  /** Everything session `k` handed to the TUN device during the run. */
  ghost function Delivered(c: Config, fl: Fleet, evs: seq<Event>, k: nat): seq<bytes>
    requires ValidConfig(c) && FleetInv(c, fl)
    decreases |evs|
  {
    if evs == [] then []
    else
      StepKeeps(c, fl, evs[0]);
      var (fl1, reply) := Step(c, fl, evs[0]);
      (if Concerns(evs[0], k) then reply.packets else []) + Delivered(c, fl1, evs[1..], k)
  }

  /** Everything session `k` sent to its peer during the run. */
  ghost function Emitted(c: Config, fl: Fleet, evs: seq<Event>, k: nat): seq<Frame>
    requires ValidConfig(c) && FleetInv(c, fl)
    decreases |evs|
  {
    if evs == [] then []
    else
      StepKeeps(c, fl, evs[0]);
      var (fl1, reply) := Step(c, fl, evs[0]);
      (if Concerns(evs[0], k) then reply.frames else []) + Emitted(c, fl1, evs[1..], k)
  }

  /** The frames session `k` received during the run. */
  function Received(evs: seq<Event>, k: nat): seq<Frame>
  {
    if evs == [] then []
    else (if evs[0].Receive? && evs[0].who == k then [evs[0].frame] else []) + Received(evs[1..], k)
  }

  predicate Concerns(ev: Event, k: nat) {
    !ev.Sweep? && ev.who == k
  }
}
