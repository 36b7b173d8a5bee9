/** The client runtime as an object that owns the network transaction; each handler computes its model step. */
module ClientRuntimes {
  import opened Bytes
  import opened Leases
  import opened Transaction
  import R = Runtime
  import opened Control
  import opened AddressText
  import RO = RuntimeOutcomes

  const BASE_DELAY := 1_000
  const MAX_DELAY := 30_000

  /** The upper end of the reconnect delay: doubled with every attempt, up to the maximum. */
  function DelayCap(attempt: nat): (cap: nat)
    requires attempt <= 5
    ensures cap == [1_000, 2_000, 4_000, 8_000, 16_000, 30_000][attempt]
  {
    assert Pow2(1) == 2 && Pow2(2) == 4 && Pow2(3) == 8;
    assert Pow2(4) == 16 && Pow2(5) == 32;
    var doubled := BASE_DELAY * Pow2(attempt);
    if doubled < MAX_DELAY then doubled else MAX_DELAY
  }

  /** The cap of the wait that follows a run's last failure: it doubles with each failure in a row, up to the maximum. */
  lemma DelayDoubles(evs: seq<R.Event>)
    ensures R.Run(R.STARTED, evs).attempt <= 5
    ensures var failures := RO.Failures(R.Run(R.STARTED, evs).log);
            DelayCap(R.Run(R.STARTED, evs).attempt)
            == if failures < 5 then 1_000 * Pow2(failures) else 30_000
  {
    RO.AttemptCountsFailures(evs);
  }

  class ClientRuntime {
    const transaction: NetworkTransaction
    var generation: nat
    var pending: bool
    var tunnel: Option<nat>
    var reader: bool
    var attempt: nat
    var intentional: bool
    var stopRequested: bool
    var finished: bool
    var failed: bool
    /** The runtime's value with its outstanding handlers and its history. */
    ghost var model: R.Runtime
    /** The host as the runtime found it. */
    ghost const home: Host

    ghost predicate Represents()
      reads this, transaction, transaction.backend
    {
      && transaction.Valid()
      && model.generation == generation && model.pending == pending && model.tunnel == tunnel
      && model.active == transaction.active && model.reader == reader && model.attempt == attempt
      && model.intentional == intentional && model.stopRequested == stopRequested
      && model.finished == finished && model.failed == failed
      && (if transaction.active then transaction.origin else transaction.backend.host) == home
    }

    ghost predicate Valid()
      reads this, transaction, transaction.backend
    {
      Represents() && R.Kept(model)
    }

    /** No tunnel, no connection under way, nobody reading the adapter, and the host as it was found. */
    ghost predicate Bare()
      reads this, transaction, transaction.backend
    {
      tunnel.None? && !pending && !reader && !transaction.active && transaction.backend.host == home
    }

    constructor (transaction: NetworkTransaction)
      requires transaction.Valid() && !transaction.active
      ensures Valid() && model == R.STARTED && this.transaction == transaction
      ensures home == transaction.backend.host
    {
      this.transaction := transaction;
      generation, pending, tunnel, reader, attempt := 0, false, None, false, 0;
      intentional, stopRequested, finished, failed := false, false, false, false;
      model, home := R.STARTED, transaction.backend.host;
      new;
      R.StartedKept();
    }

    /** The finish body, run once: whatever was configured is undone. */
    method FinishOnIo()
      requires Represents()
      modifies this, transaction, transaction.backend
      ensures Represents() && model == R.Finish(old(model)) && (!old(finished) ==> Bare())
      ensures finished && generation == old(generation) && attempt == old(attempt)
      ensures intentional == old(intentional) && failed == old(failed)
      ensures old(finished) ==> transaction.backend.host == old(transaction.backend.host)
    {
      if finished {
        return;
      }
      finished := true;
      stopRequested := true;
      reader := false;
      RollBack();
      pending := false;
      tunnel := None;
      model := R.Finish(model);
    }

    /** Roll the transaction back: the host is again as it was found. */
    method RollBack()
      requires transaction.Valid()
      requires (if transaction.active then transaction.origin else transaction.backend.host) == home
      modifies transaction, transaction.backend
      ensures transaction.Valid() && !transaction.active && transaction.backend.host == home
    {
      if !transaction.active {
        NothingDone(transaction.origin, transaction.backend.host);
      }
      transaction.Rollback();
    }

    /** `jitter` is drawn between half the cap and the cap. */
    method NextReconnectDelay(jitter: nat) returns (delay: nat)
      requires attempt <= 5 && DelayCap(attempt) / 2 <= jitter <= DelayCap(attempt)
      modifies this`attempt
      ensures attempt == (if old(attempt) < 5 then old(attempt) + 1 else old(attempt))
      ensures delay == jitter
    {
      if attempt < 5 {
        attempt := attempt + 1;
      }
      delay := jitter;
    }

    /** Generation `g` was left behind after `failures` failed attempts, and the next begins after `delay`. */
    ghost predicate Rearmed(g: nat, failures: nat, delay: nat)
      requires failures <= 5
      reads this, transaction, transaction.backend
    {
      && Bare() && !finished && !stopRequested && generation == g + 1
      && attempt == (if failures < 5 then failures + 1 else 5)
      && DelayCap(failures) / 2 <= delay <= DelayCap(failures)
    }

    /** What the generation had under way is dropped and the host restored. */
    method LeaveBehind()
      requires transaction.Valid()
      requires (if transaction.active then transaction.origin else transaction.backend.host) == home
      modifies this`generation, this`pending, this`reader, this`tunnel, transaction, transaction.backend
      ensures transaction.Valid() && Bare() && generation == old(generation) + 1
    {
      generation := generation + 1;
      pending := false;
      reader := false;
      RollBack();
      tunnel := None;
    }

    /** Tear the current generation down and arm the reconnect timer. */
    method RetryOnIo(jitter: nat -> nat) returns (delay: Option<nat>)
      requires Represents() && attempt <= 5
      requires forall a: nat :: a <= 5 ==> DelayCap(a) / 2 <= jitter(a) <= DelayCap(a)
      modifies this, transaction, transaction.backend
      ensures Represents() && model == R.Retry(old(model))
      ensures delay.Some? <==> !old(finished) && !old(stopRequested) && !old(intentional)
      ensures delay.Some? ==> Rearmed(old(generation), old(attempt), delay.value)
      ensures delay.None? && !old(finished) ==> finished && Bare() && generation == old(generation)
      ensures delay.None? && old(finished) ==> finished && transaction.backend.host == old(transaction.backend.host)
      ensures intentional == old(intentional) && failed == old(failed)
    {
      delay := None;
      if finished {
        return;
      }
      if stopRequested || intentional {
        FinishOnIo();
        return;
      }
      var d := TearDown(jitter);
      delay := Some(d);
    }

    /** Leave the generation behind, restore the host, and choose the delay. */
    method TearDown(jitter: nat -> nat) returns (delay: nat)
      requires Represents() && attempt <= 5 && !finished && !stopRequested && !intentional
      requires forall a: nat :: a <= 5 ==> DelayCap(a) / 2 <= jitter(a) <= DelayCap(a)
      modifies this, transaction, transaction.backend
      ensures Represents() && model == R.Retry(old(model)) && Rearmed(old(generation), old(attempt), delay)
      ensures intentional == old(intentional) && failed == old(failed)
    {
      LeaveBehind();
      delay := NextReconnectDelay(jitter(attempt));
      model := R.Retry(model);
    }

    method BeginConnect()
      requires Represents()
      modifies this, transaction, transaction.backend
      ensures Represents() && model == R.BeginConnect(old(model))
      ensures !old(stopRequested) ==> generation == old(generation) + 1 && finished == old(finished)
      ensures old(stopRequested) ==> finished && (old(finished) || Bare()) && generation == old(generation)
    {
      if stopRequested {
        FinishOnIo();
        return;
      }
      generation := generation + 1;
      model := R.BeginConnect(model);
    }

    // ---------- Handlers run by the I/O thread ----------

    /** Take the handler off the queue of outstanding ones. */
    ghost method Take(ev: R.Event)
      requires Valid() && R.Enabled(model, ev)
      modifies this`model
      ensures model == R.Taken(old(model), ev) && Represents() && R.Kept(R.Step(old(model), ev)) && attempt <= 5
      ensures (intentional ==> stopRequested) && (finished ==> stopRequested && tunnel.None?)
    {
      R.TakenLeads(model, ev);
      model := R.Taken(model, ev);
    }

    method HandleStart()
      requires Valid() && R.Enabled(model, R.Start)
      modifies this, transaction, transaction.backend
      ensures Valid() && model == R.Step(old(model), R.Start)
    {
      Take(R.Start);
      BeginConnect();
    }

    /** The handlers that may retry return the delay of the reconnect timer they armed, if they did. */
    method HandleTimer(g: nat, error: bool, jitter: nat -> nat) returns (delay: Option<nat>)
      requires Valid() && R.Enabled(model, R.Timer(g, error))
      requires forall a: nat :: a <= 5 ==> DelayCap(a) / 2 <= jitter(a) <= DelayCap(a)
      modifies this, transaction, transaction.backend
      ensures Valid() && model == R.Step(old(model), R.Timer(g, error)) && old(attempt) <= 5
      ensures delay.Some? <==> g == old(generation) && !error && !old(stopRequested)
      ensures delay.Some? ==> Rearmed(g, old(attempt), delay.value)
    {
      Take(R.Timer(g, error));
      delay := None;
      if !error && g == generation && !finished {
        delay := RetryOnIo(jitter);
      }
    }

    method HandleResolve(g: nat, error: bool, refused: bool, jitter: nat -> nat) returns (delay: Option<nat>)
      requires Valid() && R.Enabled(model, R.Resolved(g, error, refused))
      requires forall a: nat :: a <= 5 ==> DelayCap(a) / 2 <= jitter(a) <= DelayCap(a)
      modifies this, transaction, transaction.backend
      ensures Valid() && model == R.Step(old(model), R.Resolved(g, error, refused)) && old(attempt) <= 5
      ensures delay.Some? <==> g == old(generation) && error && !old(stopRequested)
      ensures delay.Some? ==> Rearmed(g, old(attempt), delay.value)
      ensures g == old(generation) && !old(stopRequested) && !error && refused ==> finished && failed && Bare()
      ensures g == old(generation) && !old(stopRequested) && !error && !refused ==> !finished && pending && generation == g
    {
      Take(R.Resolved(g, error, refused));
      delay := None;
      if g != generation {
        return;
      }
      if stopRequested {
        FinishOnIo();
        return;
      }
      if error {
        delay := RetryOnIo(jitter);
        return;
      }
      if refused {
        failed := true;
        model := model.(failed := true);
        FinishOnIo();
        return;
      }
      pending := true;
      model := model.(pending := true, queue := model.queue.(connects := model.queue.connects + {g}));
    }

    method HandleConnect(g: nat, error: bool, jitter: nat -> nat) returns (delay: Option<nat>)
      requires Valid() && R.Enabled(model, R.Connected(g, error))
      requires forall a: nat :: a <= 5 ==> DelayCap(a) / 2 <= jitter(a) <= DelayCap(a)
      modifies this, transaction, transaction.backend
      ensures Valid() && model == R.Step(old(model), R.Connected(g, error)) && old(attempt) <= 5
      ensures delay.Some? <==> g == old(generation) && error && !old(stopRequested)
      ensures delay.Some? ==> Rearmed(g, old(attempt), delay.value)
      ensures g == old(generation) && !old(stopRequested) && !error ==> tunnel == Some(g) && !pending && generation == g
    {
      Take(R.Connected(g, error));
      delay := None;
      if g != generation {
        return;
      }
      if stopRequested {
        FinishOnIo();
        return;
      }
      if error {
        delay := RetryOnIo(jitter);
        return;
      }
      tunnel := Some(g);
      pending := false;
      model := R.HandleConnect(model, g, false);
    }

    /** Configure the host for the assignment and the configured routes; any failure of the transaction is recorded. */
    method ConfigureNetwork(a: Assignment, cidrs: seq<string>, parsed: string -> Option<Ipv6>) returns (ok: bool)
      requires Represents() && !transaction.active
      modifies this, transaction, transaction.backend
      ensures Represents() && model == R.HandleAssignment(old(model), generation, ok || old(stopRequested))
      ensures ok ==> !stopRequested && transaction.active && InPlace(home, transaction.backend.host, a, cidrs, parsed)
      ensures !ok ==> transaction.backend.host == home
    {
      if stopRequested {
        return false;
      }
      var outcome := ActivateFor(transaction, a, cidrs, parsed);
      if outcome != Activated {
        failed := true;
        model := model.(failed := true);
        return false;
      }
      attempt := 0;
      reader := true;
      model := R.HandleAssignment(model, generation, true);
      ok := true;
    }

    /** The tunnel reports its assignment: the transaction is inactive, and configures the host or changes nothing. */
    method HandleAssignment(g: nat, a: Assignment, cidrs: seq<string>, parsed: string -> Option<Ipv6>)
      returns (accepted: bool)
      requires Valid() && R.Enabled(model, R.Assigned(g, true))
      modifies this, transaction, transaction.backend
      ensures Valid() && model == R.Step(old(model), R.Assigned(g, accepted || old(stopRequested)))
      ensures accepted ==> transaction.active && InPlace(home, transaction.backend.host, a, cidrs, parsed)
      ensures !accepted ==> transaction.backend.host == old(transaction.backend.host)
    {
      R.TakenLeads(model, R.Assigned(g, false));
      ghost var before := model;
      Take(R.Assigned(g, true));
      if g != generation {
        return false;
      }
      R.NotYetActive(before, g);
      accepted := ConfigureNetwork(a, cidrs, parsed);
    }

    method DeliverToPacketDevice(g: nat, ok: bool)
      requires Valid() && R.Enabled(model, R.Packet(g, ok))
      modifies this
      ensures Valid() && model == R.Step(old(model), R.Packet(g, ok))
    {
      R.TakenLeads(model, R.Packet(g, ok));
      if g == generation && !ok {
        failed := true;
        stopRequested := true;
        model := R.Ask(model).(failed := true, stopRequested := true);
      }
    }

    /** The packet thread cannot read the adapter any more. */
    method ReaderFails()
      requires Valid() && R.Enabled(model, R.ReaderFails)
      modifies this
      ensures Valid() && model == R.Step(old(model), R.ReaderFails)
    {
      R.TakenLeads(model, R.ReaderFails);
      failed := true;
      stopRequested := true;
      model := R.Ask(model).(failed := true, stopRequested := true);
    }

    /** The current tunnel has closed: without a stop or any failure the client retries, and otherwise it ends. */
    method OnTunnelClosed(g: nat, remoteError: bool, retryable: bool, jitter: nat -> nat) returns (delay: Option<nat>)
      requires Valid() && R.Enabled(model, R.Closed(g, remoteError, retryable))
      requires forall a: nat :: a <= 5 ==> DelayCap(a) / 2 <= jitter(a) <= DelayCap(a)
      modifies this, transaction, transaction.backend
      ensures Valid() && model == R.Step(old(model), R.Closed(g, remoteError, retryable)) && old(attempt) <= 5
      ensures var again := !old(stopRequested) && !old(failed) && !remoteError && retryable;
              && (delay.Some? <==> g == old(generation) && again)
              && (g == old(generation) && !old(finished) && !again ==> finished && Bare() && generation == g)
      ensures delay.Some? ==> Rearmed(g, old(attempt), delay.value)
      ensures g == old(generation) && !old(stopRequested) ==> failed == (old(failed) || remoteError || !retryable)
      ensures g != old(generation) || old(finished) ==>
                finished == old(finished) && transaction.backend.host == old(transaction.backend.host)
                && generation == old(generation) && tunnel == old(tunnel)
    {
      Take(R.Closed(g, remoteError, retryable));
      delay := Conclude(g, remoteError, retryable, jitter);
    }

    method Conclude(g: nat, remoteError: bool, retryable: bool, jitter: nat -> nat) returns (delay: Option<nat>)
      requires Represents() && attempt <= 5
      requires (intentional ==> stopRequested) && (finished ==> stopRequested && tunnel.None?)
      requires forall a: nat :: a <= 5 ==> DelayCap(a) / 2 <= jitter(a) <= DelayCap(a)
      modifies this, transaction, transaction.backend
      ensures Represents() && model == R.HandleClosed(old(model), g, remoteError, retryable)
      ensures var again := !old(stopRequested) && !old(failed) && !remoteError && retryable;
              && (delay.Some? <==> g == old(generation) && again)
              && (g == old(generation) && !old(finished) && !again ==> finished && Bare() && generation == g)
      ensures delay.Some? ==> Rearmed(g, old(attempt), delay.value)
      ensures g == old(generation) && !old(stopRequested) ==> failed == (old(failed) || remoteError || !retryable)
      ensures g != old(generation) || old(finished) ==>
                finished == old(finished) && transaction.backend.host == old(transaction.backend.host)
                && generation == old(generation) && tunnel == old(tunnel)
    {
      delay := None;
      if g != generation {
        return;
      }
      if intentional || stopRequested {
        FinishOnIo();
        return;
      }
      if remoteError || !retryable {
        failed := true;
      }
      model := model.(failed := failed);
      delay := EndOrRetry(jitter);
    }

    /** After a failure the client ends, and otherwise it retries. */
    method EndOrRetry(jitter: nat -> nat) returns (delay: Option<nat>)
      requires Represents() && attempt <= 5 && !finished && !stopRequested && !intentional
      requires forall a: nat :: a <= 5 ==> DelayCap(a) / 2 <= jitter(a) <= DelayCap(a)
      modifies this, transaction, transaction.backend
      ensures Represents() && model == (if old(failed) then R.Finish(old(model)) else R.Retry(old(model)))
      ensures failed == old(failed) && (delay.Some? <==> !failed)
      ensures delay.Some? ==> Rearmed(old(generation), old(attempt), delay.value)
      ensures delay.None? ==> finished && Bare() && generation == old(generation)
    {
      delay := None;
      if failed {
        FinishOnIo();
      } else {
        delay := RetryOnIo(jitter);
      }
    }

    method HandleReconnect(error: bool)
      requires Valid() && R.Enabled(model, R.Reconnect(error))
      modifies this, transaction, transaction.backend
      ensures Valid() && model == R.Step(old(model), R.Reconnect(error))
      ensures !error && !old(stopRequested) ==> generation == old(generation) + 1 && !finished
      ensures error && !old(stopRequested) ==> generation == old(generation) && !finished
      ensures old(stopRequested) ==> finished && (old(finished) || Bare()) && generation == old(generation)
    {
      Take(R.Reconnect(error));
      if !error && !stopRequested && !finished {
        BeginConnect();
      } else if stopRequested {
        FinishOnIo();
      }
    }

    /** `stop`, called from any thread, and the part of it that the I/O thread runs later. */
    method RequestStop()
      requires Valid()
      modifies this
      ensures Valid() && model == R.Step(old(model), R.RequestStop)
    {
      R.TakenLeads(model, R.RequestStop);
      if finished {
        return;
      }
      intentional := true;
      stopRequested := true;
      model := model.(intentional := true, stopRequested := true);
    }

    method RunStop()
      requires Valid() && R.Enabled(model, R.RunStop)
      modifies this, transaction, transaction.backend
      ensures Valid() && model == R.Step(old(model), R.RunStop)
      ensures old(tunnel).None? ==> finished && (old(finished) || transaction.backend.host == home)
    {
      Take(R.RunStop);
      if tunnel.Some? {
        model := R.Ask(model);
      } else {
        FinishOnIo();
      }
    }
  }
}
