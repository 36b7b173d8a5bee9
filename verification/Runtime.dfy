/** The client's runtime: connection generations, retries and the network transaction, over every event order. */
module Runtime {
  import opened Bytes

  /** What happened, in order. */
  datatype Note = Began(generation: nat) | Activated(generation: nat) | RolledBack | Retried(generation: nat) | Finished

  /**
   * A tunnel object: it reports its assignment at most once, and its close at most once; `asked` is whether it
   * has been asked to stop or abort.
   */
  datatype Tunnel = Tunnel(told: bool, closed: bool, asked: bool)

  /**
   * The handlers the I/O thread may still run: the first start, one per started timer, resolution and
   * connection, the callbacks of every tunnel ever made, and the reconnect timer's.
   */
  datatype Handlers = Handlers(
    starting: bool,
    timers: set<nat>,
    resolves: set<nat>,
    connects: set<nat>,
    tunnels: map<nat, Tunnel>,
    reconnects: nat)

  /** The runtime's fields, the outstanding handlers, and what happened so far. */
  datatype Runtime = Runtime(
    generation: nat,
    pending: bool,
    tunnel: Option<nat>,
    active: bool,
    reader: bool,
    attempt: nat,
    intentional: bool,
    stopRequested: bool,
    finished: bool,
    failed: bool,
    queue: Handlers,
    log: seq<Note>)

  const STARTED := Runtime(0, false, None, false, false, 0, false, false, false, false,
                           Handlers(true, {}, {}, {}, map[], 0), [])

  /** Handlers run with any outcome; a timer's handler may find no error although it was cancelled. */
  datatype Event =
    | Start
    | Timer(generation: nat, error: bool)
    | Resolved(generation: nat, error: bool, refused: bool)
    | Connected(generation: nat, error: bool)
    | Assigned(generation: nat, ok: bool)
    | Packet(generation: nat, ok: bool)
    | Closed(generation: nat, remoteError: bool, retryable: bool)
    | Reconnect(error: bool)
    | RequestStop
    | RunStop
    | ReaderFails

  // ---------- The runtime's own functions ----------

  /** Ask tunnel `g`, if any, to stop or abort. */
  function Asked(q: Handlers, g: Option<nat>): Handlers {
    if g.Some? && g.value in q.tunnels then q.(tunnels := q.tunnels[g.value := q.tunnels[g.value].(asked := true)]) else q
  }

  function Ask(r: Runtime): Runtime {
    r.(queue := Asked(r.queue, r.tunnel))
  }

  function Finish(r: Runtime): Runtime {
    if r.finished then r
    else r.(finished := true, stopRequested := true, reader := false, active := false, pending := false, tunnel := None,
            log := r.log + [RolledBack, Finished])
  }

  function Retry(r: Runtime): Runtime {
    if r.finished then r
    else if r.stopRequested || r.intentional then Finish(r)
    else r.(generation := r.generation + 1, pending := false, reader := false, active := false, tunnel := None,
            attempt := if r.attempt < 5 then r.attempt + 1 else r.attempt,
            queue := Asked(r.queue, r.tunnel).(reconnects := r.queue.reconnects + 1),
            log := r.log + [RolledBack, Retried(r.generation)])
  }

  function BeginConnect(r: Runtime): Runtime {
    if r.stopRequested then Finish(r)
    else
      var g := r.generation + 1;
      r.(generation := g, queue := r.queue.(timers := r.queue.timers + {g}, resolves := r.queue.resolves + {g}),
         log := r.log + [Began(g)])
  }

  function HandleResolve(r: Runtime, g: nat, error: bool, refused: bool): Runtime {
    if g != r.generation then r
    else if r.stopRequested then Finish(r)
    else if error then Retry(r)
    else if refused then Finish(r.(failed := true))
    else r.(pending := true, queue := r.queue.(connects := r.queue.connects + {g}))
  }

  function HandleConnect(r: Runtime, g: nat, error: bool): Runtime {
    if g != r.generation then r
    else if r.stopRequested then Finish(r)
    else if error then Retry(r)
    else
      r.(tunnel := Some(g), pending := false,
         queue := r.queue.(tunnels := r.queue.tunnels[g := Tunnel(false, false, false)]))
  }

  /** The assignment handler; `ok` is whether the host could be configured. */
  function HandleAssignment(r: Runtime, g: nat, ok: bool): Runtime {
    if g != r.generation || r.stopRequested then r
    else if !ok then r.(failed := true)
    else r.(active := true, attempt := 0, reader := true, log := r.log + [Activated(g)])
  }

  function HandlePacket(r: Runtime, g: nat, ok: bool): Runtime {
    if g != r.generation || ok then r else Ask(r).(failed := true, stopRequested := true)
  }

  function HandleClosed(r: Runtime, g: nat, remoteError: bool, retryable: bool): Runtime {
    if g != r.generation then r
    else if r.intentional || r.stopRequested then Finish(r)
    else
      var r1 := r.(failed := r.failed || remoteError || !retryable);
      if r1.failed then Finish(r1) else Retry(r1)
  }

  // ---------- Steps ----------

  /** Is this handler outstanding, or this thread able to act? */
  predicate Enabled(r: Runtime, ev: Event) {
    match ev
    case Start => r.queue.starting
    case Timer(g, _) => g in r.queue.timers
    case Resolved(g, _, _) => g in r.queue.resolves
    case Connected(g, _) => g in r.queue.connects
    case Assigned(g, _) => g in r.queue.tunnels && !r.queue.tunnels[g].told && !r.queue.tunnels[g].closed
    case Packet(g, _) => g in r.queue.tunnels && r.queue.tunnels[g].told && !r.queue.tunnels[g].closed
    case Closed(g, _, _) => g in r.queue.tunnels && !r.queue.tunnels[g].closed
    case Reconnect(_) => r.queue.reconnects > 0
    case RequestStop => true
    case RunStop => r.intentional
    case ReaderFails => r.reader
  }

  /** The handler is taken off the queue. */
  function Taken(r: Runtime, ev: Event): Runtime
    requires Enabled(r, ev)
  {
    r.(queue := Remaining(r.queue, ev))
  }

  function Remaining(q: Handlers, ev: Event): Handlers {
    match ev
    case Start => q.(starting := false)
    case Timer(g, _) => q.(timers := q.timers - {g})
    case Resolved(g, _, _) => q.(resolves := q.resolves - {g})
    case Connected(g, _) => q.(connects := q.connects - {g})
    case Assigned(g, _) => if g in q.tunnels then q.(tunnels := q.tunnels[g := q.tunnels[g].(told := true)]) else q
    case Closed(g, _, _) => if g in q.tunnels then q.(tunnels := q.tunnels[g := q.tunnels[g].(closed := true)]) else q
    case Reconnect(_) => if q.reconnects > 0 then q.(reconnects := q.reconnects - 1) else q
    case _ => q
  }

  /** What the handler does. */
  function Handled(r: Runtime, ev: Event): Runtime {
    match ev
    case Start => BeginConnect(r)
    case Timer(g, error) => if !error && g == r.generation && !r.finished then Retry(r) else r
    case Resolved(g, error, refused) => HandleResolve(r, g, error, refused)
    case Connected(g, error) => HandleConnect(r, g, error)
    case Assigned(g, ok) => HandleAssignment(r, g, ok)
    case Packet(g, ok) => HandlePacket(r, g, ok)
    case Closed(g, remoteError, retryable) => HandleClosed(r, g, remoteError, retryable)
    case Reconnect(error) =>
      if !error && !r.stopRequested && !r.finished then BeginConnect(r)
      else if r.stopRequested then Finish(r)
      else r
    case RequestStop => if r.finished then r else r.(intentional := true, stopRequested := true)
    case RunStop => if r.tunnel.Some? then Ask(r) else Finish(r)
    case ReaderFails => Ask(r).(failed := true, stopRequested := true)
  }

  function Step(r: Runtime, ev: Event): Runtime {
    if Enabled(r, ev) then Handled(Taken(r, ev), ev) else r
  }

  function Run(r: Runtime, evs: seq<Event>): Runtime
    decreases |evs|
  {
    if evs == [] then r else Run(Step(r, evs[0]), evs[1..])
  }

  // ---------- The log ----------

  /** Is an activation not yet rolled back? */
  function Configured(log: seq<Note>): bool {
    if log == [] then false
    else match log[|log| - 1]
      case Activated(_) => true
      case RolledBack => false
      case _ => Configured(log[..|log| - 1])
  }

  predicate Over(log: seq<Note>) {
    Finished in log
  }

  /** May this come next? */
  ghost predicate Follows(log: seq<Note>, n: Note) {
    match n
    case Began(g) => !Configured(log) && !Over(log)
    case Activated(g) => !Configured(log) && !Over(log)
    case RolledBack => true
    case Retried(g) => !Over(log) && !Configured(log) && forall h: nat :: Retried(h) in log ==> h < g
    case Finished => !Over(log) && !Configured(log)
  }

  /** Everything in the log came when it might. */
  ghost predicate Proper(log: seq<Note>) {
    log == [] || (Proper(log[..|log| - 1]) && Follows(log[..|log| - 1], log[|log| - 1]))
  }

  lemma Noted(log: seq<Note>, n: Note)
    ensures Proper(log + [n]) <==> Proper(log) && Follows(log, n)
    ensures Configured(log + [n]) == (n.Activated? || (!n.RolledBack? && Configured(log)))
    ensures forall m :: m in log + [n] <==> m in log || m == n
  {
    assert (log + [n])[..|log|] == log;
  }

  lemma NotedBoth(log: seq<Note>, n: Note)
    requires Proper(log) && Follows(log + [RolledBack], n) && !n.Activated?
    ensures Proper(log + [RolledBack, n]) && !Configured(log + [RolledBack, n])
    ensures forall m :: m in log + [RolledBack, n] <==> m in log || m == RolledBack || m == n
  {
    Noted(log, RolledBack);
    Noted(log + [RolledBack], n);
    assert log + [RolledBack] + [n] == log + [RolledBack, n];
  }

  // ---------- The invariant ----------

  /** Handlers of the current generation exist only while it is connecting or connected. */
  predicate Busy(r: Runtime) {
    r.generation in r.queue.timers || r.generation in r.queue.resolves || r.generation in r.queue.connects || r.generation in r.queue.tunnels
  }

  predicate Bounded(r: Runtime) {
    && (forall g :: g in r.queue.timers ==> g <= r.generation) && (forall g :: g in r.queue.resolves ==> g <= r.generation)
    && (forall g :: g in r.queue.connects ==> g <= r.generation) && (forall g :: g in r.queue.tunnels ==> g <= r.generation)
  }

  predicate Stages(r: Runtime) {
    var g := r.generation;
    && (g in r.queue.resolves ==> g !in r.queue.connects && g !in r.queue.tunnels && r.tunnel.None?)
    && (g in r.queue.connects ==> g !in r.queue.tunnels && r.tunnel.None? && (r.pending || r.finished))
    && (r.tunnel.Some? ==> r.tunnel == Some(g) && g in r.queue.tunnels)
    && (!r.finished && g in r.queue.tunnels && !r.queue.tunnels[g].closed ==> r.tunnel == Some(g))
    && (forall h :: h in r.queue.tunnels && h != g ==> r.finished || r.queue.tunnels[h].closed || r.queue.tunnels[h].asked)
    && (r.active <==> r.reader) && (r.active ==> r.tunnel == Some(g) && r.queue.tunnels[g].told)
    && (r.queue.starting ==> !Busy(r) && r.queue.reconnects == 0 && r.tunnel.None?)
    && (!r.finished && r.queue.reconnects > 0 ==> !Busy(r) && r.queue.reconnects == 1 && r.tunnel.None?)
    && (r.intentional ==> r.stopRequested)
    && (r.finished ==> r.stopRequested && r.tunnel.None? && !r.pending)
    && r.attempt <= 5
  }

  ghost predicate History(r: Runtime) {
    && Proper(r.log) && (r.active <==> Configured(r.log)) && (r.finished <==> Over(r.log))
    && (forall g: nat :: Retried(g) in r.log ==> g < r.generation)
  }

  ghost predicate RuntimeInv(r: Runtime) {
    Bounded(r) && Stages(r) && History(r)
  }

  lemma StartedInv()
    ensures RuntimeInv(STARTED)
  {
  }

  /** A callback's generation. */
  predicate BelongsTo(ev: Event, g: nat) {
    (ev.Timer? || ev.Resolved? || ev.Connected? || ev.Assigned? || ev.Packet? || ev.Closed?) && ev.generation == g
  }

  // ---------- Every step keeps it ----------

  /** A state in which the current generation has nothing going on yet, or everything has been taken down. */
  lemma FinishKeeps(r: Runtime)
    requires Bounded(r) && History(r) && r.attempt <= 5 && (r.finished ==> Stages(r))
    requires r.generation in r.queue.resolves ==> r.generation !in r.queue.connects && r.generation !in r.queue.tunnels
    requires r.generation in r.queue.connects ==> r.generation !in r.queue.tunnels
    requires r.queue.starting ==> !Busy(r) && r.queue.reconnects == 0
    ensures RuntimeInv(Finish(r))
  {
    if !r.finished {
      NotedBoth(r.log, Finished);
      Noted(r.log, RolledBack);
    }
  }

  lemma RetryKeeps(r: Runtime)
    requires Bounded(r) && History(r) && Stages(r) && (r.finished || (r.queue.reconnects == 0 && !r.queue.starting))
    ensures RuntimeInv(Retry(r))
  {
    if r.finished {
    } else if r.stopRequested || r.intentional {
      FinishKeeps(r);
    } else {
      Noted(r.log, RolledBack);
      NotedBoth(r.log, Retried(r.generation));
    }
  }

  lemma BeginKeeps(r: Runtime)
    requires Bounded(r) && History(r) && Stages(r) && !r.queue.starting
    requires !r.finished ==> r.queue.reconnects == 0 && r.tunnel.None?
    ensures RuntimeInv(BeginConnect(r))
  {
    if r.stopRequested {
      FinishKeeps(r);
    } else {
      Noted(r.log, Began(r.generation + 1));
    }
  }

  lemma TakenStages(r: Runtime, ev: Event)
    requires Stages(r) && Enabled(r, ev)
    ensures Stages(Taken(r, ev))
  {
  }

  lemma TakenBounds(r: Runtime, ev: Event)
    requires Bounded(r) && Enabled(r, ev)
    ensures Bounded(Taken(r, ev))
  {
  }

  lemma TakenKeeps(r: Runtime, ev: Event)
    requires RuntimeInv(r) && Enabled(r, ev)
    ensures RuntimeInv(Taken(r, ev))
  {
    TakenStages(r, ev);
    TakenBounds(r, ev);
  }

  /** No retry is waiting: the generation is the one that is connecting or connected. */
  predicate Engaged(r: Runtime) {
    !r.queue.starting && (r.finished || r.queue.reconnects == 0)
  }

  lemma TakenEngaged(r: Runtime, ev: Event)
    requires RuntimeInv(r) && Enabled(r, ev)
    ensures (ev.Start? || ev.Reconnect?) ==> Engaged(Taken(r, ev)) && Taken(r, ev).tunnel.None?
    ensures BelongsTo(ev, r.generation) ==> Engaged(Taken(r, ev))
  {
  }

  lemma ResolveKeeps(r: Runtime, g: nat, error: bool, refused: bool)
    requires RuntimeInv(r) && (g == r.generation ==> Engaged(r))
    requires g == r.generation ==> g !in r.queue.resolves && g !in r.queue.connects && g !in r.queue.tunnels && r.tunnel.None?
    ensures RuntimeInv(HandleResolve(r, g, error, refused))
  {
    if g == r.generation {
      RetryKeeps(r);
      FinishKeeps(r);
      FinishKeeps(r.(failed := true));
    }
  }

  lemma ConnectKeeps(r: Runtime, g: nat, error: bool)
    requires RuntimeInv(r) && (g == r.generation ==> Engaged(r))
    requires g == r.generation ==> g !in r.queue.resolves && g !in r.queue.connects && g !in r.queue.tunnels && r.tunnel.None?
    ensures RuntimeInv(HandleConnect(r, g, error))
  {
    if g == r.generation {
      RetryKeeps(r);
      FinishKeeps(r);
    }
  }

  lemma AssignmentKeeps(r: Runtime, g: nat, ok: bool)
    requires RuntimeInv(r)
    requires g == r.generation && !r.stopRequested ==> r.tunnel == Some(g) && r.queue.tunnels[g].told && !r.active
    ensures RuntimeInv(HandleAssignment(r, g, ok))
  {
    if g == r.generation && !r.stopRequested && ok {
      Noted(r.log, Activated(g));
    }
  }

  lemma ClosedKeeps(r: Runtime, g: nat, remoteError: bool, retryable: bool)
    requires RuntimeInv(r) && (g == r.generation ==> Engaged(r))
    ensures RuntimeInv(HandleClosed(r, g, remoteError, retryable))
  {
    if g == r.generation {
      FinishKeeps(r);
      var r1 := r.(failed := r.failed || remoteError || !retryable);
      FinishKeeps(r1);
      RetryKeeps(r1);
    }
  }

  /** Generations only grow, and the end is final. */
  predicate Advances(r: Runtime, r': Runtime) {
    r.generation <= r'.generation && (r.finished ==> r'.finished)
  }

  lemma EndingsAdvance(r: Runtime)
    ensures Advances(r, Finish(r)) && Advances(r, Retry(r)) && Advances(r, BeginConnect(r))
  {
  }

  lemma ResolveAdvances(r: Runtime, g: nat, error: bool, refused: bool)
    ensures Advances(r, HandleResolve(r, g, error, refused))
  {
    EndingsAdvance(r);
    EndingsAdvance(r.(failed := true));
  }

  lemma ConnectAdvances(r: Runtime, g: nat, error: bool)
    ensures Advances(r, HandleConnect(r, g, error))
  {
    EndingsAdvance(r);
  }

  lemma ClosedAdvances(r: Runtime, g: nat, remoteError: bool, retryable: bool)
    ensures Advances(r, HandleClosed(r, g, remoteError, retryable))
  {
    EndingsAdvance(r);
    EndingsAdvance(r.(failed := r.failed || remoteError || !retryable));
  }

  lemma TimerKeeps(r: Runtime, g: nat, error: bool)
    requires RuntimeInv(r) && Enabled(r, Timer(g, error))
    ensures RuntimeInv(Step(r, Timer(g, error))) && Advances(r, Step(r, Timer(g, error)))
  {
    EndingsAdvance(Taken(r, Timer(g, error)));
    TakenKeeps(r, Timer(g, error));
    TakenEngaged(r, Timer(g, error));
    if g == r.generation {
      RetryKeeps(Taken(r, Timer(g, error)));
    }
  }

  /** The start and the reconnect timer: nothing is going on. */
  lemma BeginningKeeps(r: Runtime, ev: Event)
    requires RuntimeInv(r) && Enabled(r, ev) && (ev.Start? || ev.Reconnect?)
    ensures RuntimeInv(Step(r, ev)) && Advances(r, Step(r, ev))
  {
    EndingsAdvance(Taken(r, ev));
    TakenKeeps(r, ev);
    TakenEngaged(r, ev);
    BeginKeeps(Taken(r, ev));
    FinishKeeps(Taken(r, ev));
  }

  /** Resolution and connection. */
  lemma ConnectingKeeps(r: Runtime, ev: Event)
    requires RuntimeInv(r) && Enabled(r, ev) && (ev.Resolved? || ev.Connected?)
    ensures RuntimeInv(Step(r, ev)) && Advances(r, Step(r, ev))
  {
    TakenKeeps(r, ev);
    TakenEngaged(r, ev);
    match ev
    case Resolved(g, error, refused) =>
      ResolveKeeps(Taken(r, ev), g, error, refused);
      ResolveAdvances(Taken(r, ev), g, error, refused);
    case Connected(g, error) =>
      ConnectKeeps(Taken(r, ev), g, error);
      ConnectAdvances(Taken(r, ev), g, error);
    case _ =>
  }

  /** The tunnel's callbacks. */
  lemma TunnelKeeps(r: Runtime, ev: Event)
    requires RuntimeInv(r) && Enabled(r, ev) && (ev.Assigned? || ev.Packet? || ev.Closed?)
    ensures RuntimeInv(Step(r, ev)) && Advances(r, Step(r, ev))
  {
    TakenKeeps(r, ev);
    TakenEngaged(r, ev);
    match ev
    case Assigned(g, ok) => AssignmentKeeps(Taken(r, ev), g, ok);
    case Closed(g, remoteError, retryable) =>
      ClosedKeeps(Taken(r, ev), g, remoteError, retryable);
      ClosedAdvances(Taken(r, ev), g, remoteError, retryable);
    case _ =>
  }

  /** Requests from other threads. */
  lemma RequestKeeps(r: Runtime, ev: Event)
    requires RuntimeInv(r) && Enabled(r, ev) && (ev.RequestStop? || ev.ReaderFails?)
    ensures RuntimeInv(Step(r, ev)) && Advances(r, Step(r, ev))
  {
  }

  /** What the I/O thread makes of a stop. */
  lemma RunStopKeeps(r: Runtime)
    requires RuntimeInv(r) && Enabled(r, RunStop)
    ensures RuntimeInv(Step(r, RunStop)) && Advances(r, Step(r, RunStop))
  {
    EndingsAdvance(r);
    FinishKeeps(r);
  }

  /** Every handler, in whatever order the I/O thread runs them, keeps the invariant. */
  lemma StepKeeps(r: Runtime, ev: Event)
    requires RuntimeInv(r)
    ensures RuntimeInv(Step(r, ev)) && Advances(r, Step(r, ev))
  {
    if Enabled(r, ev) {
      match ev
      case Timer(g, error) => TimerKeeps(r, g, error);
      case Start => BeginningKeeps(r, ev);
      case Reconnect(_) => BeginningKeeps(r, ev);
      case Resolved(_, _, _) => ConnectingKeeps(r, ev);
      case Connected(_, _) => ConnectingKeeps(r, ev);
      case Assigned(_, _) => TunnelKeeps(r, ev);
      case Packet(_, _) => TunnelKeeps(r, ev);
      case Closed(_, _, _) => TunnelKeeps(r, ev);
      case RunStop => RunStopKeeps(r);
      case RequestStop => RequestKeeps(r, ev);
      case ReaderFails => RequestKeeps(r, ev);
    }
  }

  lemma {:induction false} RunKeeps(r: Runtime, evs: seq<Event>)
    requires RuntimeInv(r)
    ensures RuntimeInv(Run(r, evs)) && r.generation <= Run(r, evs).generation && (r.finished ==> Run(r, evs).finished)
    decreases |evs|
  {
    if evs != [] {
      StepKeeps(r, evs[0]);
      RunKeeps(Step(r, evs[0]), evs[1..]);
    }
  }

  // ---------- What every run promises ----------

  /**
   * Over every order of events: the host is configured only while a tunnel of the current generation is up;
   * no connection attempt begins and nothing is activated before the previous activation was rolled back;
   * each generation is retried at most once; the end comes once, and nothing begins or is activated after it;
   * and until then every tunnel but the current one has closed or been asked to.
   */
  lemma RuntimeSafety(evs: seq<Event>)
    ensures var r := Run(STARTED, evs);
            && (r.active ==> r.tunnel == Some(r.generation) && r.reader && !r.finished)
            && (!r.active ==> !r.reader)
            && Proper(r.log) && (r.active <==> Configured(r.log)) && (r.finished <==> Over(r.log))
            && (forall g: nat :: Retried(g) in r.log ==> g < r.generation)
            && (forall g :: g in r.queue.tunnels && r.tunnel != Some(g) && !r.finished ==> Dismissed(r.queue.tunnels[g]))
  {
    StartedInv();
    RunKeeps(STARTED, evs);
  }

  predicate Dismissed(t: Tunnel) {
    t.closed || t.asked
  }

  /** Nothing but the queue of outstanding handlers may differ. */
  predicate SameFields(r: Runtime, r': Runtime) {
    r' == r.(queue := r'.queue)
  }

  /**
   * Stale callbacks are silent: whenever a generation has been left behind, whatever happens afterwards, its
   * callbacks change none of the runtime's fields.
   */
  lemma StaleCallbacksAreSilent(r: Runtime, evs: seq<Event>, ev: Event, g: nat)
    requires RuntimeInv(r) && g < r.generation && BelongsTo(ev, g)
    ensures SameFields(Run(r, evs), Step(Run(r, evs), ev))
  {
    RunKeeps(r, evs);
  }

  /** `RuntimeInv`, unfolded only where it is mentioned by name. */
  ghost predicate Kept(r: Runtime) {
    forall x {:trigger RuntimeInv(x)} :: x == r ==> RuntimeInv(x)
  }

  lemma StartedKept()
    ensures Kept(STARTED)
  {
    StartedInv();
  }

  /** A handler that is taken off its queue leads to a good state, whatever it was. */
  lemma TakenLeads(r: Runtime, ev: Event)
    requires Kept(r) && Enabled(r, ev)
    ensures Kept(Step(r, ev)) && r.attempt <= 5
    ensures (r.intentional ==> r.stopRequested) && (r.finished ==> r.stopRequested && r.tunnel.None?)
  {
    assert RuntimeInv(r);
    StepKeeps(r, ev);
  }

  /** A tunnel that has not reported its assignment has not configured the host. */
  lemma NotYetActive(r: Runtime, g: nat)
    requires Kept(r) && Enabled(r, Assigned(g, true)) && g == r.generation
    ensures !r.active && !r.reader
  {
    assert RuntimeInv(r);
  }

  /** An activation meets neither an active transaction nor a reader that has not been joined. */
  lemma ActivationIsClean(evs: seq<Event>, g: nat)
    requires var r := Run(STARTED, evs); Step(r, Assigned(g, true)).log == r.log + [Activated(g)]
    ensures var r := Run(STARTED, evs); !r.active && !r.reader && r.tunnel == Some(g) == Some(r.generation) && !r.stopRequested
  {
    StartedInv();
    RunKeeps(STARTED, evs);
    var r := Run(STARTED, evs);
    assert |(r.log + [Activated(g)])| != |r.log|;
  }

  /** A connection that becomes a tunnel still has the stream it was opened on. */
  lemma ConnectionHasStream(evs: seq<Event>, g: nat)
    ensures var r := Run(STARTED, evs);
            Enabled(r, Connected(g, false)) && Step(r, Connected(g, false)).tunnel == Some(g) ==>
              r.pending && r.tunnel.None? && !r.active && g == r.generation
  {
    StartedInv();
    RunKeeps(STARTED, evs);
  }

  /** Once finished, no order of later events activates or begins anything. */
  lemma {:induction false} FinishedIsFinal(r: Runtime, evs: seq<Event>)
    requires RuntimeInv(r) && r.finished
    ensures Run(r, evs).finished && !Run(r, evs).active && Run(r, evs).log == r.log
    decreases |evs|
  {
    if evs != [] {
      StepKeeps(r, evs[0]);
      FinishedStep(r, evs[0]);
      FinishedIsFinal(Step(r, evs[0]), evs[1..]);
    }
  }

  lemma FinishedStep(r: Runtime, ev: Event)
    requires RuntimeInv(r) && r.finished
    ensures Step(r, ev).finished && Step(r, ev).log == r.log
  {
  }
}
