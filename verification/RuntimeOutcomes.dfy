/**
 * What exactly every handler of the client's runtime does in every state that a run can reach, said about the
 * log, the generation, the flags and the outstanding handlers; and what that means for whole runs.
 */
module RuntimeOutcomes {
  import opened Bytes
  import opened Runtime

  // ---------- Outcomes ----------

  /** No tunnel, no connection under way, nothing configured and nobody reading the adapter. */
  predicate Bare(r: Runtime) {
    r.tunnel.None? && !r.pending && !r.active && !r.reader
  }

  /** The generation is left behind, the host restored, its tunnel asked to go, and one reconnect armed. */
  predicate Retries(r: Runtime, r': Runtime) {
    && r'.log == r.log + [RolledBack, Retried(r.generation)]
    && r'.generation == r.generation + 1 && r'.queue.reconnects == 1 && Bare(r')
    && r'.attempt == (if r.attempt == 5 then 5 else r.attempt + 1)
    && !r'.finished && !r'.stopRequested && !r'.intentional && r'.failed == r.failed
    && (r.tunnel.Some? ==> r.tunnel.value in r'.queue.tunnels && r'.queue.tunnels[r.tunnel.value].asked)
  }

  /** The client ends: the host is restored and nothing is armed. */
  predicate Ends(r: Runtime, r': Runtime) {
    && r'.log == r.log + [RolledBack, Finished]
    && r'.finished && r'.stopRequested && Bare(r') && r'.intentional == r.intentional
    && r'.generation == r.generation && r'.attempt == r.attempt && r'.queue.reconnects <= r.queue.reconnects
  }

  /** The next generation begins: its name is being resolved, under its timer. */
  predicate Begins(r: Runtime, r': Runtime) {
    var g := r.generation + 1;
    && r'.log == r.log + [Began(g)] && r'.generation == g
    && g in r'.queue.timers && g in r'.queue.resolves && r'.queue.reconnects == 0
    && SameFields(r.(generation := g, log := r'.log), r')
  }

  /** Nothing happens but that the tunnel, if there is one, is asked to go. */
  predicate AsksTunnel(r: Runtime, r': Runtime) {
    && SameFields(r, r')
    && (r.tunnel.Some? ==> r.tunnel.value in r'.queue.tunnels && r'.queue.tunnels[r.tunnel.value].asked)
  }

  // ---------- Connecting ----------

  lemma StartExactly(r: Runtime)
    requires RuntimeInv(r) && Enabled(r, Start)
    ensures var r' := Step(r, Start);
            if r.finished then SameFields(r, r') else if r.stopRequested then Ends(r, r') else Begins(r, r')
  {
  }

  /** The timer of the current generation retries it, unless it was cancelled in time. */
  lemma TimerExactly(r: Runtime, g: nat, error: bool)
    requires RuntimeInv(r) && Enabled(r, Timer(g, error))
    ensures var r' := Step(r, Timer(g, error));
            if g != r.generation || r.finished || error then SameFields(r, r')
            else if r.stopRequested then Ends(r, r') && r'.failed == r.failed
            else Retries(r, r')
  {
  }

  lemma ResolvedExactly(r: Runtime, g: nat, error: bool, refused: bool)
    requires RuntimeInv(r) && Enabled(r, Resolved(g, error, refused))
    ensures var r' := Step(r, Resolved(g, error, refused));
            if g != r.generation || r.finished then SameFields(r, r')
            else if r.stopRequested then Ends(r, r') && r'.failed == r.failed
            else if error then Retries(r, r')
            else if refused then Ends(r, r') && r'.failed
            else SameFields(r.(pending := true), r') && r'.queue.connects == r.queue.connects + {g}
  {
  }

  lemma ConnectedExactly(r: Runtime, g: nat, error: bool)
    requires RuntimeInv(r) && Enabled(r, Connected(g, error))
    ensures var r' := Step(r, Connected(g, error));
            if g != r.generation || r.finished then SameFields(r, r')
            else if r.stopRequested then Ends(r, r') && r'.failed == r.failed
            else if error then Retries(r, r')
            else SameFields(r.(pending := false, tunnel := Some(g)), r')
                 && r'.queue.tunnels == r.queue.tunnels[g := Tunnel(false, false, false)]
  {
  }

  // ---------- The tunnel's callbacks ----------

  /** The assignment of the current tunnel configures the host, or is recorded as a failure. */
  lemma AssignedExactly(r: Runtime, g: nat, ok: bool)
    requires RuntimeInv(r) && Enabled(r, Assigned(g, ok))
    ensures var r' := Step(r, Assigned(g, ok));
            if g != r.generation || r.stopRequested then SameFields(r, r')
            else if ok then
              SameFields(r.(active := true, reader := true, attempt := 0, log := r.log + [Activated(g)]), r')
            else SameFields(r.(failed := true), r')
  {
  }

  lemma PacketExactly(r: Runtime, g: nat, ok: bool)
    requires RuntimeInv(r) && Enabled(r, Packet(g, ok))
    ensures var r' := Step(r, Packet(g, ok));
            if g != r.generation || ok then SameFields(r, r')
            else AsksTunnel(r.(failed := true, stopRequested := true), r')
  {
  }

  /**
   * The current tunnel has closed. After a stop, or after any failure (one recorded before, an error from the
   * server, or a close that must not be retried), the client ends; otherwise it retries.
   */
  lemma ClosedExactly(r: Runtime, g: nat, remoteError: bool, retryable: bool)
    requires RuntimeInv(r) && Enabled(r, Closed(g, remoteError, retryable))
    ensures var r' := Step(r, Closed(g, remoteError, retryable));
            if g != r.generation || r.finished then SameFields(r, r')
            else if r.stopRequested then Ends(r, r') && r'.failed == r.failed
            else if r.failed || remoteError || !retryable then Ends(r, r') && r'.failed
            else Retries(r, r')
  {
  }

  // ---------- The reconnect timer and other threads ----------

  lemma ReconnectExactly(r: Runtime, error: bool)
    requires RuntimeInv(r) && Enabled(r, Reconnect(error))
    ensures var r' := Step(r, Reconnect(error));
            if r.finished then SameFields(r, r')
            else if r.stopRequested then Ends(r, r') && r'.failed == r.failed
            else if error then SameFields(r, r')
            else Begins(r, r')
  {
  }

  /** A stop is only noted at first; the I/O thread then asks the tunnel to go, or ends without one. */
  lemma StopExactly(r: Runtime)
    requires RuntimeInv(r)
    ensures Step(r, RequestStop) == if r.finished then r else r.(intentional := true, stopRequested := true)
    ensures r.intentional ==>
              var r' := Step(r, RunStop);
              if r.finished then SameFields(r, r')
              else if r.tunnel.Some? then AsksTunnel(r, r')
              else Ends(r, r') && r'.failed == r.failed
  {
  }

  lemma ReaderFailsExactly(r: Runtime)
    requires RuntimeInv(r) && Enabled(r, ReaderFails)
    ensures AsksTunnel(r.(failed := true, stopRequested := true), Step(r, ReaderFails))
  {
  }

  // ---------- Over every run ----------

  /**
   * In every reachable state: the close of a tunnel leads to another attempt if and only if the tunnel is the
   * current one, no stop was requested, nothing failed before, the server sent no error and the close may be
   * retried; and it ends the client if and only if it is current, the client has not ended, and one of these fails.
   */
  lemma RetriedOrFinished(evs: seq<Event>, g: nat, remoteError: bool, retryable: bool)
    requires Enabled(Run(STARTED, evs), Closed(g, remoteError, retryable))
    ensures var r := Run(STARTED, evs);
            var r' := Step(r, Closed(g, remoteError, retryable));
            var current := g == r.generation && !r.finished;
            var again := !r.stopRequested && !r.failed && !remoteError && retryable;
            && (r'.log == r.log + [RolledBack, Retried(g)] <==> current && again)
            && (r'.log == r.log + [RolledBack, Finished] <==> current && !again)
            && (r'.log == r.log <==> !current)
            && (current && again ==> r'.queue.reconnects == 1 && r'.generation == g + 1)
  {
    StartedInv();
    RunKeeps(STARTED, evs);
    var r := Run(STARTED, evs);
    ClosedExactly(r, g, remoteError, retryable);
    Distinct(r.log, Retried(g));
  }

  lemma Distinct(log: seq<Note>, n: Note)
    requires n != Finished
    ensures log + [RolledBack, n] != log + [RolledBack, Finished]
    ensures log + [RolledBack, n] != log && log + [RolledBack, Finished] != log
  {
    assert (log + [RolledBack, n])[|log| + 1] == n;
    assert (log + [RolledBack, Finished])[|log| + 1] == Finished;
    assert |log + [RolledBack, n]| == |log + [RolledBack, Finished]| == |log| + 2;
  }

  /** What only the network can do to the client: nobody stops it, and neither the host nor the server objects. */
  predicate NetworkTrouble(ev: Event) {
    match ev
    case Resolved(_, _, refused) => !refused
    case Assigned(_, ok) => ok
    case Packet(_, ok) => ok
    case Closed(_, remoteError, retryable) => !remoteError && retryable
    case Reconnect(error) => !error
    case RequestStop => false
    case ReaderFails => false
    case _ => true
  }

  /** The client is under way: exactly what is due next is outstanding. */
  predicate Trying(r: Runtime) {
    && !r.finished && !r.failed && !r.stopRequested && !r.intentional
    && (|| r.queue.starting
        || r.queue.reconnects == 1
        || r.generation in r.queue.resolves
        || r.generation in r.queue.connects
        || (r.generation in r.queue.tunnels && !r.queue.tunnels[r.generation].closed))
  }

  lemma TryingStep(r: Runtime, ev: Event)
    requires RuntimeInv(r) && Trying(r) && NetworkTrouble(ev)
    ensures Trying(Step(r, ev))
  {
    if Enabled(r, ev) {
      match ev
      case Start => StartExactly(r);
      case Timer(g, error) => TimerExactly(r, g, error);
      case Resolved(g, error, refused) => ResolvedExactly(r, g, error, refused);
      case Connected(g, error) => ConnectedExactly(r, g, error);
      case Assigned(g, ok) => AssignedExactly(r, g, ok);
      case Packet(g, ok) => PacketExactly(r, g, ok);
      case Closed(g, remoteError, retryable) => ClosedExactly(r, g, remoteError, retryable);
      case Reconnect(error) => ReconnectExactly(r, error);
      case _ =>
    }
  }

  lemma {:induction false} TryingRun(r: Runtime, evs: seq<Event>)
    requires RuntimeInv(r) && Trying(r) && forall k :: 0 <= k < |evs| ==> NetworkTrouble(evs[k])
    ensures Trying(Run(r, evs))
    decreases |evs|
  {
    if evs != [] {
      TryingStep(r, evs[0]);
      StepKeeps(r, evs[0]);
      TryingRun(Step(r, evs[0]), evs[1..]);
    }
  }

  /**
   * Network trouble alone never ends the client and never leaves it waiting for nothing: after any number of
   * failed resolutions, failed connections, timeouts and lost transports, in any order, it is still trying.
   */
  lemma NeverGivesUp(evs: seq<Event>)
    requires forall k :: 0 <= k < |evs| ==> NetworkTrouble(evs[k])
    ensures Trying(Run(STARTED, evs)) && Finished !in Run(STARTED, evs).log
  {
    StartedInv();
    RunKeeps(STARTED, evs);
    TryingRun(STARTED, evs);
  }

  // ---------- The attempt count ----------

  /** How many attempts have failed since the host was last configured. */
  function Failures(log: seq<Note>): nat {
    if log == [] then 0
    else match log[|log| - 1]
      case Activated(_) => 0
      case Retried(_) => Failures(log[..|log| - 1]) + 1
      case _ => Failures(log[..|log| - 1])
  }

  lemma FailuresNoted(log: seq<Note>, n: Note)
    ensures Failures(log + [n]) == match n
                                   case Activated(_) => 0
                                   case Retried(_) => Failures(log) + 1
                                   case _ => Failures(log)
  {
    assert (log + [n])[..|log|] == log;
  }

  lemma FailuresNotedBoth(log: seq<Note>, n: Note)
    requires !n.Activated?
    ensures Failures(log + [RolledBack, n]) == Failures(log) + if n.Retried? then 1 else 0
  {
    FailuresNoted(log, RolledBack);
    FailuresNoted(log + [RolledBack], n);
    assert log + [RolledBack] + [n] == log + [RolledBack, n];
  }

  predicate Counting(r: Runtime) {
    r.attempt == if Failures(r.log) < 5 then Failures(r.log) else 5
  }

  /** What a step may add to the log, and the attempt count that goes with it. */
  predicate Adds(r: Runtime, r': Runtime) {
    || (r'.log == r.log && r'.attempt == r.attempt)
    || (r'.log == r.log + [Began(r.generation + 1)] && r'.attempt == r.attempt)
    || (r'.log == r.log + [RolledBack, Finished] && r'.attempt == r.attempt)
    || (r'.log == r.log + [RolledBack, Retried(r.generation)] && r'.attempt == if r.attempt == 5 then 5 else r.attempt + 1)
    || (r'.log == r.log + [Activated(r.generation)] && r'.attempt == 0)
  }

  lemma ConnectingAdds(r: Runtime, ev: Event)
    requires RuntimeInv(r) && Enabled(r, ev) && (ev.Timer? || ev.Resolved? || ev.Connected?)
    ensures Adds(r, Step(r, ev))
  {
    match ev
    case Timer(g, error) => TimerExactly(r, g, error);
    case Resolved(g, error, refused) => ResolvedExactly(r, g, error, refused);
    case Connected(g, error) => ConnectedExactly(r, g, error);
    case _ =>
  }

  lemma TunnelAdds(r: Runtime, ev: Event)
    requires RuntimeInv(r) && Enabled(r, ev) && (ev.Assigned? || ev.Packet? || ev.Closed?)
    ensures Adds(r, Step(r, ev))
  {
    match ev
    case Assigned(g, ok) => AssignedExactly(r, g, ok);
    case Packet(g, ok) => PacketExactly(r, g, ok);
    case Closed(g, remoteError, retryable) => ClosedExactly(r, g, remoteError, retryable);
    case _ =>
  }

  lemma StepAdds(r: Runtime, ev: Event)
    requires RuntimeInv(r)
    ensures Adds(r, Step(r, ev))
  {
    if Enabled(r, ev) {
      match ev
      case Timer(_, _) => ConnectingAdds(r, ev);
      case Resolved(_, _, _) => ConnectingAdds(r, ev);
      case Connected(_, _) => ConnectingAdds(r, ev);
      case Assigned(_, _) => TunnelAdds(r, ev);
      case Packet(_, _) => TunnelAdds(r, ev);
      case Closed(_, _, _) => TunnelAdds(r, ev);
      case Start => StartExactly(r);
      case Reconnect(error) => ReconnectExactly(r, error);
      case RequestStop => StopExactly(r);
      case RunStop => StopExactly(r);
      case ReaderFails => ReaderFailsExactly(r);
    }
  }

  lemma AddsCounts(r: Runtime, r': Runtime)
    requires Counting(r) && Adds(r, r')
    ensures Counting(r')
  {
    FailuresNotedBoth(r.log, Retried(r.generation));
    FailuresNotedBoth(r.log, Finished);
    FailuresNoted(r.log, Began(r.generation + 1));
    FailuresNoted(r.log, Activated(r.generation));
  }

  lemma {:induction false} CountingRun(r: Runtime, evs: seq<Event>)
    requires RuntimeInv(r) && Counting(r)
    ensures Counting(Run(r, evs))
    decreases |evs|
  {
    if evs != [] {
      StepAdds(r, evs[0]);
      AddsCounts(r, Step(r, evs[0]));
      StepKeeps(r, evs[0]);
      CountingRun(Step(r, evs[0]), evs[1..]);
    }
  }

  /** Over every run, the exponent of the reconnect delay is the number of failures in a row, up to 5. */
  lemma AttemptCountsFailures(evs: seq<Event>)
    ensures var r := Run(STARTED, evs);
            r.attempt == if Failures(r.log) < 5 then Failures(r.log) else 5
  {
    StartedInv();
    CountingRun(STARTED, evs);
  }
}
