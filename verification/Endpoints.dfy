/** The outbound queue and the two tunnel endpoints as objects; each strand callback computes its model step. */
module Endpoints {
  import opened Bytes
  import opened Wire
  import opened Decoder
  import opened Control
  import opened Leases
  import opened Controllers
  import opened Transport
  import opened Tunnel
  import opened LinkParts
  import opened Pump
  import C = ClientSession
  import S = ServerSession
  import CO = ClientOutcomes
  import TunnelOutcomes

  // ---------- The outbound queue ----------

  class OutboundFrameQueue {
    const maximumFrames: nat
    const maximumBytes: nat
    var queue: seq<bytes>
    var queuedBytes: nat

    ghost predicate Valid()
      reads this
    {
      && ValidLimits(Limits()) && queuedBytes == Total(queue)
      && |queue| <= maximumFrames && queuedBytes <= maximumBytes
    }

    function Limits(): Limits {
      Transport.Limits(maximumFrames, maximumBytes)
    }

    constructor (lim: Limits)
      requires ValidLimits(lim)
      ensures Valid() && queue == [] && Limits() == lim
    {
      maximumFrames, maximumBytes := lim.frames, lim.octets;
      queue, queuedBytes := [], 0;
    }

    /** A null result stands for the thrown error of limits too small for one header. */
    static method Create(lim: Limits) returns (q: OutboundFrameQueue?)
      ensures q != null <==> lim.frames > 0 && lim.octets >= 20
      ensures q != null ==> fresh(q) && q.Valid() && q.queue == [] && q.Limits() == lim
    {
      if lim.frames == 0 || lim.octets < HEADER_SIZE {
        return null;
      }
      q := new OutboundFrameQueue(lim);
    }

    /** Refuse a block that does not fit; the subtraction cannot underflow. `None` is the error of an empty block. */
    method TryEnqueueBlock(block: bytes) returns (taken: Option<bool>)
      requires Valid()
      modifies this
      ensures Valid() && (taken.None? <==> block == [])
      ensures taken == Some(true) <==>
                block != [] && |old(queue)| < maximumFrames && Total(old(queue)) + |block| <= maximumBytes
      ensures queue == if taken == Some(true) then old(queue) + [block] else old(queue)
    {
      if |block| == 0 {
        return None;
      }
      var room: nat := maximumBytes - queuedBytes;
      if |queue| >= maximumFrames || |block| > room {
        return Some(false);
      }
      TotalAppend(queue, block);
      queuedBytes := queuedBytes + |block|;
      queue := queue + [block];
      taken := Some(true);
    }

    /** Encode and enqueue; a frame that cannot be encoded is refused by the encoder's error. */
    method TryEnqueue(f: Frame) returns (ok: bool)
      requires Valid()
      modifies this
      ensures Valid() && (ok <==> && f.flags == 0 && |f.payload| <= 65535
                                  && |old(queue)| < maximumFrames && Total(old(queue)) + 20 + |f.payload| <= maximumBytes)
      ensures queue == if ok then old(queue) + [FrameBytes(f)] else old(queue)
    {
      var encoded := EncodeFrame(f);
      if encoded.Err? {
        return false;
      }
      var taken := TryEnqueueBlock(encoded.value);
      ok := taken == Some(true);
    }

    /** `None` is the error of an empty queue. */
    method Front() returns (block: Option<bytes>)
      ensures block == if queue == [] then None else Some(queue[0])
    {
      block := if |queue| == 0 then None else Some(queue[0]);
    }

    /** False is the error of an empty queue. */
    method PopFront() returns (ok: bool)
      requires Valid()
      modifies this
      ensures Valid() && ok == (old(queue) != []) && queue == if ok then old(queue)[1..] else old(queue)
    {
      if |queue| == 0 {
        return false;
      }
      queuedBytes := queuedBytes - |queue[0]|;
      queue := queue[1..];
      ok := true;
    }

    method Clear()
      requires Valid()
      modifies this
      ensures Valid() && queue == []
    {
      queue, queuedBytes := [], 0;
    }
  }

  // ---------- The server's endpoint ----------

  /** What the outside contributes to handling one frame: the clock, an ERROR's text, the router's verdict. */
  datatype Moment = Moment(now: int, note: ErrorText, routeOk: bool)

  /** The remaining decoded frames are handled one by one, until the tunnel closes. */
  ghost function ServerDrain(c: Config, lim: Limits, p: Pool, t: ServerTunnel, moments: nat -> Moment, i: nat)
    : (Pool, ServerTunnel)
    requires ValidConfig(c) && ServerRunning(lim, t)
    decreases |t.inn.inbox|
  {
    if t.inn.inbox == [] then (p, t)
    else if !Reading(t.out) then (p, t.(inn := t.inn.(inbox := [])))
    else
      var m := moments(i);
      ServerTurnRuns(c, lim, p, t, ServerDoes(ServerEvent.Process(m.now, m.note, m.routeOk)));
      var (p1, t1) := ServerStep(c, lim, p, t, ServerEvent.Process(m.now, m.note, m.routeOk));
      ServerDrain(c, lim, p1, t1, moments, i + 1)
  }

  /** No decoded frame is left over, and as long as the tunnel goes on every one of them has been handled. */
  lemma {:induction false} ServerDrainsAll(c: Config, lim: Limits, p: Pool, t: ServerTunnel, moments: nat -> Moment, i: nat)
    requires ValidConfig(c) && ServerRunning(lim, t)
    ensures var t' := ServerDrain(c, lim, p, t, moments, i).1;
            && t'.inn.inbox == [] && t.inn.handled <= t'.inn.handled <= t.inn.handled + |t.inn.inbox|
            && (Reading(t'.out) ==> t'.inn.handled == t.inn.handled + |t.inn.inbox|)
    decreases |t.inn.inbox|
  {
    if t.inn.inbox != [] && Reading(t.out) {
      var ev := ServerEvent.Process(moments(i).now, moments(i).note, moments(i).routeOk);
      ServerTurnRuns(c, lim, p, t, ServerDoes(ev));
      var (p1, t1) := ServerStep(c, lim, p, t, ev);
      ServerDrainsAll(c, lim, p1, t1, moments, i + 1);
    }
  }

  /** Handling the remaining frames ends in `goal`; unfolded only where `ServerDrain` is mentioned. */
  ghost predicate DrainsTo(c: Config, lim: Limits, p: Pool, t: ServerTunnel, moments: nat -> Moment, i: nat,
                           goal: (Pool, ServerTunnel))
    requires ValidConfig(c) && ServerRunning(lim, t)
  {
    forall j: nat {:trigger ServerDrain(c, lim, p, t, moments, j)} ::
      j == i ==> ServerDrain(c, lim, p, t, moments, j) == goal
  }

  lemma DrainBegins(c: Config, lim: Limits, p: Pool, t: ServerTunnel, moments: nat -> Moment)
    returns (goal: (Pool, ServerTunnel))
    requires ValidConfig(c) && ServerRunning(lim, t)
    ensures DrainsTo(c, lim, p, t, moments, 0, goal)
  {
    goal := ServerDrain(c, lim, p, t, moments, 0);
  }

  lemma DrainStep(c: Config, lim: Limits, p: Pool, t: ServerTunnel, moments: nat -> Moment, i: nat,
                  goal: (Pool, ServerTunnel))
    requires ValidConfig(c) && ServerRunning(lim, t) && t.inn.inbox != [] && Reading(t.out)
    requires DrainsTo(c, lim, p, t, moments, i, goal)
    ensures var (p1, t1) := ServerStep(c, lim, p, t, ServerEvent.Process(moments(i).now, moments(i).note, moments(i).routeOk));
            && ServerRunning(lim, t1) && t1.inn.inbox == t.inn.inbox[1..]
            && DrainsTo(c, lim, p1, t1, moments, i + 1, goal)
  {
    ServerTurnRuns(c, lim, p, t, ServerDoes(ServerEvent.Process(moments(i).now, moments(i).note, moments(i).routeOk)));
    assert ServerDrain(c, lim, p, t, moments, i) == goal;
  }

  lemma DrainEnds(c: Config, lim: Limits, p: Pool, t: ServerTunnel, moments: nat -> Moment, i: nat,
                  goal: (Pool, ServerTunnel))
    requires ValidConfig(c) && ServerRunning(lim, t) && (t.inn.inbox == [] || !Reading(t.out))
    requires DrainsTo(c, lim, p, t, moments, i, goal)
    ensures var t1 := t.(inn := t.inn.(inbox := [])); ServerRunning(lim, t1) && goal == (p, t1)
  {
    assert ServerDrain(c, lim, p, t, moments, i) == goal;
    if t.inn.inbox == [] {
      assert t == t.(inn := t.inn.(inbox := []));
    }
  }

  /** A completed write is that of the queue's front. */
  lemma WriteIsQueued(lim: Limits, o: Outgoing)
    requires Pumping(lim, o) && o.inFlight > 0 && !o.stopped
    ensures o.queue != []
  {
    assert PumpInv(lim, o);
  }

  /** A failed write of a running tunnel takes it down. */
  lemma FailedWriteEnds(c: Config, lim: Limits, p: Pool, t: ServerTunnel)
    requires ValidConfig(c) && ServerRunning(lim, t) && !t.out.stopped && t.out.inFlight > 0
    ensures var (p', t') := ServerStep(c, lim, p, t, ServerEvent.Written(false));
            && t'.out.stopped && t'.out.queue == []
            && t'.out.written == t.out.written && t'.out.submitted == t.out.submitted
            && t'.session.state == S.Closed && t'.session.lease.None?
            && (t.session.lease.Some? ==> !Current(p', t.session.lease.value))
  {
    assert PumpInv(lim, t.out);
    TunnelOutcomes.FailedWriteTakesDown(c, lim, p, t);
  }

  class TlsTunnelSession {
    const controller: SessionController
    const queue: OutboundFrameQueue
    const decoder: FrameDecoder
    var writing: bool
    var closing: bool
    var stopped: bool
    /** The lease for which a route was claimed, and what the close callback was told of it. */
    var routeLease: Option<Lease>
    var report: Option<Option<Lease>>
    /** The endpoint's value with its histories. */
    ghost var model: ServerTunnel

    /** The real fields are those of the model. */
    ghost predicate Represents()
      reads this, controller, controller.manager, queue, decoder
    {
      && controller.Valid() && queue.Valid() && decoder.Valid()
      && model.session == controller.Model() && model.inn.decoder == decoder.Model()
      && model.out.queue == queue.queue && model.out.writing == writing && model.out.closing == closing
      && model.out.stopped == stopped && model.routed == routeLease.Some? && (report.Some? <==> stopped)
      && (stopped ==> Settled(controller.manager.Model(), model) == (controller.manager.Model(), model))
    }

    ghost predicate Valid()
      reads this, controller, controller.manager, queue, decoder
    {
      Represents() && ServerRunning(queue.Limits(), model) && model.inn.inbox == []
    }

    constructor (controller: SessionController, lim: Limits)
      requires controller.Valid() && ValidLimits(lim) && controller.Model() == S.NewSession(controller.identity)
      ensures Valid() && fresh(queue) && fresh(decoder) && this.controller == controller && queue.Limits() == lim
      ensures model == NewServerTunnel(controller.identity)
    {
      this.controller := controller;
      queue := new OutboundFrameQueue(lim);
      decoder := new FrameDecoder();
      writing, closing, stopped, routeLease, report := false, false, false, None, None;
      model := NewServerTunnel(controller.identity);
      new;
      FreshEndpoints(lim, 0, controller.identity);
    }

    method CloseNow()
      requires Represents()
      modifies this, controller, controller.manager, queue
      ensures Represents() && stopped && routeLease == old(routeLease)
      ensures (controller.manager.Model(), model)
           == Settled(old(controller.manager.Model()), old(model).(out := Transport.CloseNow(old(model).out)))
      ensures report == if old(stopped) then old(report) else Some(routeLease)
    {
      if stopped {
        return;
      }
      stopped := true;
      report := Some(routeLease);
      controller.OnTransportClosed();
      queue.Clear();
      model := model.(out := Transport.CloseNow(model.out), session := controller.Model());
    }

    method WriteNext()
      requires Represents()
      modifies this, controller, controller.manager, queue
      ensures Represents()
      ensures (controller.manager.Model(), model)
           == Settled(old(controller.manager.Model()), old(model).(out := Transport.WriteNext(old(model).out)))
    {
      if stopped || |queue.queue| == 0 {
        writing := false;
        model := model.(out := model.out.(writing := false));
        if closing {
          CloseNow();
        }
        return;
      }
      writing := true;
      model := model.(out := Transport.WriteNext(model.out));
    }

    method EnqueueFrame(f: Frame) returns (ok: bool)
      requires Represents()
      modifies this, controller, controller.manager, queue
      ensures Represents() && controller.manager.Model() == old(controller.manager.Model())
      ensures (model, ok) == (old(model).(out := Enqueue(queue.Limits(), old(model).out, f).0),
                              Enqueue(queue.Limits(), old(model).out, f).1)
    {
      if stopped {
        return false;
      }
      ok := queue.TryEnqueue(f);
      if !ok {
        return;
      }
      model := model.(out := model.out.(queue := queue.queue, sent := model.out.sent + [f]));
      if !writing {
        WriteNext();
      }
    }

    /** Enqueue frames until one is refused. */
    method PostFrames(frames: seq<Frame>) returns (ok: bool)
      requires Represents() && !stopped
      modifies this, controller, controller.manager, queue
      ensures Represents() && !stopped && controller.manager.Model() == old(controller.manager.Model())
      ensures (model, ok) == (old(model).(out := Post(queue.Limits(), old(model).out, frames).0),
                              Post(queue.Limits(), old(model).out, frames).1)
    {
      ghost var lim, o := queue.Limits(), model.out;
      assert frames[0..] == frames;
      for i := 0 to |frames|
        invariant Represents() && !stopped && controller.manager.Model() == old(controller.manager.Model())
        invariant model == old(model).(out := model.out)
        invariant Post(lim, o, frames) == Post(lim, model.out, frames[i..])
      {
        assert frames[i..][1..] == frames[i + 1..];
        ok := EnqueueFrame(frames[i]);
        if !ok {
          return;
        }
      }
      ok := true;
    }

    method ApplyResult(reply: S.Reply)
      requires Represents() && !stopped
      modifies this, controller, controller.manager, queue
      ensures Represents()
      ensures (controller.manager.Model(), model)
           == Settled(old(controller.manager.Model()), ServerApply(queue.Limits(), old(model), reply))
    {
      ghost var t := ServerApply(queue.Limits(), model, reply);
      model := model.(delivered := t.delivered, faults := t.faults, terms := t.terms);
      var ok := PostFrames(reply.frames);
      if !ok {
        CloseNow();
      } else if reply.close {
        closing := true;
        model := model.(out := model.out.(closing := true));
        if !writing && |queue.queue| == 0 {
          CloseNow();
        }
      }
    }

    method SendFromTun(packet: bytes, now: int)
      requires Valid()
      modifies this, controller, controller.manager, queue
      ensures Valid()
      ensures (controller.manager.Model(), model)
           == ServerStep(controller.manager.config, queue.Limits(), old(controller.manager.Model()), old(model),
                         ServerEvent.FromTun(packet, now))
    {
      ServerTurnRuns(controller.manager.config, queue.Limits(), controller.manager.Model(), model,
                     ServerDoes(ServerEvent.FromTun(packet, now)));
      if stopped {
        return;
      }
      var f := controller.MakeDataToClient(packet, now);
      model := model.(session := controller.Model());
      if f.None? {
        if controller.state != S.Established {
          CloseNow();
        }
        return;
      }
      PostOne(queue.Limits(), model.out, [f.value]);
      var ok := EnqueueFrame(f.value);
      if !ok {
        CloseNow();
      }
    }

    /** Completion of the write in flight; after a failed one nothing more is written and everything is given back. */
    method HandleWrite(ok: bool)
      requires Valid() && model.out.inFlight > 0
      modifies this, controller, controller.manager, queue
      ensures Valid()
      ensures !ok && !old(stopped) ==>
                && stopped && queue.queue == [] && report == Some(old(routeLease))
                && controller.state == S.Closed && controller.lease.None?
                && (old(controller.lease).Some? ==> !Current(controller.manager.Model(), old(controller.lease).value))
                && model.out.written == old(model).out.written && model.out.submitted == old(model).out.submitted
      ensures (controller.manager.Model(), model)
           == ServerStep(controller.manager.config, queue.Limits(), old(controller.manager.Model()), old(model),
                         ServerEvent.Written(ok))
    {
      ServerTurnRuns(controller.manager.config, queue.Limits(), controller.manager.Model(), model,
                     ServerDoes(ServerEvent.Written(ok)));
      if !stopped {
        WriteIsQueued(queue.Limits(), model.out);
        FailedWriteEnds(controller.manager.config, queue.Limits(), controller.manager.Model(), model);
      }
      WriteCompleted(ok);
    }

    method WriteCompleted(ok: bool)
      requires Represents() && model.out.inFlight > 0 && (!stopped ==> queue.queue != [])
      modifies this, controller, controller.manager, queue
      ensures Represents()
      ensures (controller.manager.Model(), model)
           == Settled(old(controller.manager.Model()), old(model).(out := WriteDone(old(model).out, ok)))
      ensures !ok && !old(stopped) ==> report == Some(old(routeLease))
    {
      model := model.(out := model.out.(inFlight := model.out.inFlight - 1));
      if stopped {
        return;
      }
      if ok {
        NextBlock();
      } else {
        CloseNow();
      }
    }

    /** The front has been written: go on with the next block, if any. */
    method NextBlock()
      requires Represents() && !stopped && queue.queue != []
      modifies this, controller, controller.manager, queue
      ensures Represents()
      ensures (controller.manager.Model(), model)
           == Settled(old(controller.manager.Model()),
                      old(model).(out := Transport.WriteNext(old(model).out.(queue := old(model).out.queue[1..]))))
    {
      var _ := queue.PopFront();
      model := model.(out := model.out.(queue := queue.queue));
      WriteNext();
    }

    method Stop()
      requires Valid()
      modifies this, controller, controller.manager, queue
      ensures Valid()
      ensures (controller.manager.Model(), model)
           == ServerStep(controller.manager.config, queue.Limits(), old(controller.manager.Model()), old(model),
                         ServerEvent.Kill)
    {
      ServerTurnRuns(controller.manager.config, queue.Limits(), controller.manager.Model(), model,
                     ServerDoes(ServerEvent.Kill));
      CloseNow();
    }

    /** One decoded frame; the first establishment must also get its route. */
    method HandleFrame(f: Frame, m: Moment)
      requires Represents() && !stopped && !closing && model.inn.inbox != [] && f == model.inn.inbox[0]
      modifies this, controller, controller.manager, queue
      ensures Represents()
      ensures (controller.manager.Model(), model)
           == ServerStep(controller.manager.config, queue.Limits(), old(controller.manager.Model()), old(model),
                         ServerEvent.Process(m.now, m.note, m.routeOk))
      ensures old(routeLease).None? && model.routed && !m.routeOk ==> report == Some(routeLease)
    {
      var reply := controller.Handle(f, m.now, m.note);
      model := model.(session := controller.Model(), inn := Take(model.inn));
      if routeLease.None? && controller.state == S.Established {
        routeLease := controller.lease;
        model := model.(routed := true);
        if !m.routeOk {
          CloseNow();
          return;
        }
      }
      ApplyResult(reply);
    }

    /** One turn of the loop over the frames of a read. */
    method HandleNext(frames: seq<Frame>, i: nat, moments: nat -> Moment, ghost goal: (Pool, ServerTunnel))
      requires i < |frames| && Represents() && ServerRunning(queue.Limits(), model) && model.inn.inbox == frames[i..]
      requires !stopped && !closing
      requires DrainsTo(controller.manager.config, queue.Limits(), controller.manager.Model(), model, moments, i, goal)
      modifies this, controller, controller.manager, queue
      ensures Represents() && ServerRunning(queue.Limits(), model) && model.inn.inbox == frames[i + 1..]
      ensures DrainsTo(controller.manager.config, queue.Limits(), controller.manager.Model(), model, moments, i + 1, goal)
    {
      DrainStep(controller.manager.config, queue.Limits(), controller.manager.Model(), model, moments, i, goal);
      HandleFrame(frames[i], moments(i));
      assert frames[i..][1..] == frames[i + 1..];
    }

    /** The loop over the frames of one read; it stops as soon as the tunnel closes. */
    method HandleFrames(frames: seq<Frame>, moments: nat -> Moment)
      requires Represents() && ServerRunning(queue.Limits(), model) && model.inn.inbox == frames
      modifies this, controller, controller.manager, queue
      ensures Valid() && ServerRunning(queue.Limits(), old(model))
      ensures DrainsTo(controller.manager.config, queue.Limits(), old(controller.manager.Model()), old(model), moments, 0,
                       (controller.manager.Model(), model))
    {
      ghost var c, lim := controller.manager.config, queue.Limits();
      ghost var goal := DrainBegins(c, lim, controller.manager.Model(), model, moments);
      assert frames == frames[0..];
      var i := 0;
      while i < |frames| && !stopped && !closing
        invariant i <= |frames| && Represents() && ServerRunning(lim, model) && model.inn.inbox == frames[i..]
        invariant DrainsTo(c, lim, controller.manager.Model(), model, moments, i, goal)
      {
        HandleNext(frames, i, moments, goal);
        i := i + 1;
      }
      DrainEnds(c, lim, controller.manager.Model(), model, moments, i, goal);
      model := model.(inn := model.inn.(inbox := []));
    }

    /** A read completes or fails; it is armed only while the tunnel is neither closing nor stopped. */
    method HandleRead(error: bool, data: bytes, moments: nat -> Moment)
      requires Valid() && (closing ==> stopped)
      modifies this, controller, controller.manager, queue, decoder
      ensures Valid()
      ensures error ==>
                (controller.manager.Model(), model)
                == ServerStep(controller.manager.config, queue.Limits(), old(controller.manager.Model()), old(model),
                              ServerEvent.Kill)
      ensures !error ==>
                var (p1, t1) := Settled(old(controller.manager.Model()), ServerRead(old(model), data));
                && ServerRunning(queue.Limits(), t1)
                && (controller.manager.Model(), model)
                   == ServerDrain(controller.manager.config, queue.Limits(), p1, t1, moments, 0)
    {
      if error {
        Stop();
      } else {
        HandleBytes(data, moments);
      }
    }

    method HandleBytes(data: bytes, moments: nat -> Moment)
      requires Valid() && (closing ==> stopped)
      modifies this, controller, controller.manager, queue, decoder
      ensures Valid()
      ensures var (p1, t1) := Settled(old(controller.manager.Model()), ServerRead(old(model), data));
              && ServerRunning(queue.Limits(), t1)
              && (controller.manager.Model(), model)
                 == ServerDrain(controller.manager.config, queue.Limits(), p1, t1, moments, 0)
    {
      ServerTurnRuns(controller.manager.config, queue.Limits(), controller.manager.Model(), model, Arrives(data));
      if stopped {
        return;
      }
      var r := decoder.Push(data);
      model := model.(inn := Read(model.inn, data).0);
      if r.Err? {
        CloseNow();
        return;
      }
      assert [] + r.value == r.value;
      ghost var p, t := controller.manager.Model(), model;
      HandleFrames(r.value, moments);
      assert ServerDrain(controller.manager.config, queue.Limits(), p, t, moments, 0) == (controller.manager.Model(), model);
    }
  }

  /** A reply that only asks for a close already under way changes nothing. */
  lemma WaitsForWrite(lim: Limits, o: Outgoing)
    requires o.closing && !o.stopped && Draining(o)
    ensures Pumped(lim, o, [], true) == o
  {
  }

  // ---------- The client's endpoint ----------

  /** An ERROR's text, and whether the host's network could be configured. */
  datatype ClientMoment = ClientMoment(note: ErrorText, networkOk: bool)

  ghost function ClientDrain(lim: Limits, t: ClientTunnel, moments: nat -> ClientMoment, i: nat): ClientTunnel
    requires ClientRunning(lim, t)
    decreases |t.inn.inbox|
  {
    if t.inn.inbox == [] then t
    else if !Reading(t.out) then t.(inn := t.inn.(inbox := []))
    else
      var ev := ClientEvent.Process(moments(i).note, moments(i).networkOk);
      ClientTurnRuns(lim, t, ClientDoes(ev));
      ClientDrain(lim, ClientStep(lim, t, ev), moments, i + 1)
  }

  lemma {:induction false} ClientDrainsAll(lim: Limits, t: ClientTunnel, moments: nat -> ClientMoment, i: nat)
    requires ClientRunning(lim, t)
    ensures var t' := ClientDrain(lim, t, moments, i);
            && t'.inn.inbox == [] && t.inn.handled <= t'.inn.handled <= t.inn.handled + |t.inn.inbox|
            && (Reading(t'.out) ==> t'.inn.handled == t.inn.handled + |t.inn.inbox|)
    decreases |t.inn.inbox|
  {
    if t.inn.inbox != [] && Reading(t.out) {
      var ev := ClientEvent.Process(moments(i).note, moments(i).networkOk);
      ClientTurnRuns(lim, t, ClientDoes(ev));
      ClientDrainsAll(lim, ClientStep(lim, t, ev), moments, i + 1);
    }
  }

  /** Handling the remaining frames ends in `goal`; unfolded only where `ClientDrain` is mentioned. */
  ghost predicate ClientDrainsTo(lim: Limits, t: ClientTunnel, moments: nat -> ClientMoment, i: nat, goal: ClientTunnel)
    requires ClientRunning(lim, t)
  {
    forall j: nat {:trigger ClientDrain(lim, t, moments, j)} :: j == i ==> ClientDrain(lim, t, moments, j) == goal
  }

  lemma ClientDrainBegins(lim: Limits, t: ClientTunnel, moments: nat -> ClientMoment) returns (goal: ClientTunnel)
    requires ClientRunning(lim, t)
    ensures ClientDrainsTo(lim, t, moments, 0, goal)
  {
    goal := ClientDrain(lim, t, moments, 0);
  }

  lemma ClientDrainStep(lim: Limits, t: ClientTunnel, moments: nat -> ClientMoment, i: nat, goal: ClientTunnel)
    requires ClientRunning(lim, t) && t.inn.inbox != [] && Reading(t.out) && ClientDrainsTo(lim, t, moments, i, goal)
    ensures var t1 := ClientStep(lim, t, ClientEvent.Process(moments(i).note, moments(i).networkOk));
            && ClientRunning(lim, t1) && t1.inn.inbox == t.inn.inbox[1..]
            && ClientDrainsTo(lim, t1, moments, i + 1, goal)
  {
    ClientTurnRuns(lim, t, ClientDoes(ClientEvent.Process(moments(i).note, moments(i).networkOk)));
    assert ClientDrain(lim, t, moments, i) == goal;
  }

  lemma ClientDrainEnds(lim: Limits, t: ClientTunnel, moments: nat -> ClientMoment, i: nat, goal: ClientTunnel)
    requires ClientRunning(lim, t) && (t.inn.inbox == [] || !Reading(t.out)) && ClientDrainsTo(lim, t, moments, i, goal)
    ensures goal == t.(inn := t.inn.(inbox := []))
  {
    assert ClientDrain(lim, t, moments, i) == goal;
    if t.inn.inbox == [] {
      assert t == t.(inn := t.inn.(inbox := []));
    }
  }

  lemma HearsExactly(k: C.Client, f: Frame, note: ErrorText)
    requires C.Assigned(k)
    ensures var reply := C.Handle(k, f, note).reply;
            && (forall e :: CO.HearsError(k, f, e) <==> reply.remoteError == Some(e))
            && (reply.remoteError.Some? ==> reply == C.Reply([], [], None, reply.remoteError, true))
  {
    forall e
      ensures CO.HearsError(k, f, e) <==> C.Handle(k, f, note).reply.remoteError == Some(e)
    {
      CO.RemoteErrorExactly(k, f, note, e);
    }
    if C.Handle(k, f, note).reply.remoteError.Some? {
      CO.RemoteErrorExactly(k, f, note, C.Handle(k, f, note).reply.remoteError.value);
    }
  }

  class TlsTunnelClient {
    const controller: ClientSessionController
    const queue: OutboundFrameQueue
    const decoder: FrameDecoder
    var writing: bool
    var closing: bool
    var stopped: bool
    /** What the close callback will be told, and what it was told. */
    var retryableClose: bool
    var remoteError: Option<ErrorMessage>
    var report: Option<(Option<ErrorMessage>, bool)>
    /** The endpoint's value with its histories. */
    ghost var model: ClientTunnel

    ghost predicate Represents()
      reads this, controller, queue, decoder
    {
      && controller.Valid() && queue.Valid() && decoder.Valid()
      && model.client == controller.Model() && model.inn.decoder == decoder.Model()
      && model.out.queue == queue.queue && model.out.writing == writing && model.out.closing == closing
      && model.out.stopped == stopped && ClientSettled(model) == model && (report.Some? <==> stopped)
      && (stopped ==> report.value.0 == remoteError)
    }

    ghost predicate Valid()
      reads this, controller, queue, decoder
    {
      Represents() && ClientRunning(queue.Limits(), model) && model.inn.inbox == [] && Rejected()
    }

    /** A tunnel that the server has rejected is closing, and will not ask for a retry. */
    ghost predicate Rejected()
      reads this
    {
      remoteError.Some? ==> stopped || (closing && !retryableClose)
    }

    /** The remote error stays, a retry is at most ruled out, and a close reports both. */
    twostate predicate KeepsVerdict()
      reads this
    {
      && remoteError == old(remoteError) && (retryableClose ==> old(retryableClose))
      && (stopped ==> report == if old(stopped) then old(report) else Some((remoteError, retryableClose)))
    }

    constructor (controller: ClientSessionController, lim: Limits)
      requires controller.Valid() && ValidLimits(lim) && controller.Model() == C.NewClient(controller.requestedMtu)
      ensures Valid() && fresh(queue) && fresh(decoder) && this.controller == controller && queue.Limits() == lim
      ensures model == NewClientTunnel(controller.requestedMtu)
    {
      this.controller := controller;
      queue := new OutboundFrameQueue(lim);
      decoder := new FrameDecoder();
      writing, closing, stopped := false, false, false;
      retryableClose, remoteError, report := true, None, None;
      model := NewClientTunnel(controller.requestedMtu);
      new;
      FreshEndpoints(lim, controller.requestedMtu, "");
    }

    method CloseNow()
      requires Represents()
      modifies this, controller, queue
      ensures Represents() && stopped && retryableClose == old(retryableClose) && remoteError == old(remoteError)
      ensures closing == old(closing)
      ensures model == ClientSettled(old(model).(out := Transport.CloseNow(old(model).out)))
      ensures report == if old(stopped) then old(report) else Some((remoteError, retryableClose))
    {
      if stopped {
        return;
      }
      stopped := true;
      report := Some((remoteError, retryableClose));
      controller.OnTransportClosed();
      queue.Clear();
      model := model.(out := Transport.CloseNow(model.out), client := controller.Model());
    }

    method WriteNext()
      requires Represents()
      modifies this, controller, queue
      ensures Represents() && retryableClose == old(retryableClose) && KeepsVerdict()
      ensures closing == old(closing) && (!old(closing) ==> stopped == old(stopped))
      ensures model == ClientSettled(old(model).(out := Transport.WriteNext(old(model).out)))
    {
      if stopped || |queue.queue| == 0 {
        writing := false;
        model := model.(out := model.out.(writing := false));
        if closing {
          CloseNow();
        }
        return;
      }
      writing := true;
      model := model.(out := Transport.WriteNext(model.out));
    }

    method EnqueueFrame(f: Frame) returns (ok: bool)
      requires Represents()
      modifies this, controller, queue
      ensures Represents() && retryableClose == (old(retryableClose) && ok) && KeepsVerdict()
      ensures stopped == old(stopped) && closing == old(closing)
      ensures (model, ok) == (old(model).(out := Enqueue(queue.Limits(), old(model).out, f).0),
                              Enqueue(queue.Limits(), old(model).out, f).1)
    {
      if stopped {
        retryableClose := false;
        return false;
      }
      ok := queue.TryEnqueue(f);
      if !ok {
        retryableClose := false;
        return;
      }
      model := model.(out := model.out.(queue := queue.queue, sent := model.out.sent + [f]));
      if !writing {
        WriteNext();
      }
    }

    /** Enqueue a frame the controller made; a full queue closes. */
    method SendFrame(f: Frame)
      requires Represents() && !stopped
      modifies this, controller, queue
      ensures Represents() && KeepsVerdict() && closing == old(closing)
      ensures model == ClientSettled(old(model).(out := Pumped(queue.Limits(), old(model).out, [f], false)))
    {
      PostOne(queue.Limits(), model.out, [f]);
      var ok := EnqueueFrame(f);
      if !ok {
        CloseNow();
      }
    }

    /** Enqueue frames until one is refused. */
    method PostFrames(frames: seq<Frame>) returns (ok: bool)
      requires Represents() && !stopped
      modifies this, controller, queue
      ensures Represents() && !stopped && retryableClose == (old(retryableClose) && ok) && KeepsVerdict()
      ensures closing == old(closing)
      ensures (model, ok) == (old(model).(out := Post(queue.Limits(), old(model).out, frames).0),
                              Post(queue.Limits(), old(model).out, frames).1)
    {
      ghost var lim, o := queue.Limits(), model.out;
      assert frames[0..] == frames;
      for i := 0 to |frames|
        invariant Represents() && !stopped && model == old(model).(out := model.out) && closing == old(closing)
        invariant retryableClose == old(retryableClose) && remoteError == old(remoteError)
        invariant Post(lim, o, frames) == Post(lim, model.out, frames[i..])
      {
        assert frames[i..][1..] == frames[i + 1..];
        ok := EnqueueFrame(frames[i]);
        if !ok {
          return;
        }
      }
      ok := true;
    }

    /** A remote error, a host that cannot be configured and a full queue all rule out a retry. */
    method ApplyResult(reply: C.Reply, networkOk: bool)
      requires Represents() && !stopped
      modifies this, controller, queue
      ensures Represents() && model == ClientSettled(ClientApply(queue.Limits(), old(model), reply, networkOk))
      ensures stopped ==> report == Some((remoteError, retryableClose))
      ensures old(closing) || reply.close ==> closing || stopped
      ensures remoteError == if reply.remoteError.Some? then reply.remoteError else old(remoteError)
      ensures retryableClose ==
              (old(retryableClose) && reply.remoteError.None?
               && if reply.assignment.Some? && !networkOk then false
                  else Post(queue.Limits(), old(model).out, reply.frames).1)
    {
      ghost var t := ClientApply(queue.Limits(), model, reply, networkOk);
      if reply.remoteError.Some? {
        remoteError := reply.remoteError;
        retryableClose := false;
      }
      if reply.assignment.Some? && !networkOk {
        retryableClose := false;
        CloseNow();
        return;
      }
      model := model.(delivered := t.delivered, faults := t.faults);
      var ok := PostFrames(reply.frames);
      if !ok {
        CloseNow();
      } else if reply.close {
        CloseOnceWritten();
      }
    }

    method CloseOnceWritten()
      requires Represents() && !stopped
      modifies this, controller, queue
      ensures Represents() && retryableClose == old(retryableClose) && KeepsVerdict() && closing
      ensures model == ClientSettled(old(model).(out := CloseAfterWrite(old(model).out)))
    {
      closing := true;
      model := model.(out := model.out.(closing := true));
      if !writing && |queue.queue| == 0 {
        CloseNow();
      }
    }

    /** A transport error closes; all but TLS errors may be retried. */
    method Fails(tls: bool)
      requires Valid()
      modifies this, controller, queue
      ensures Valid() && model == ClientStep(queue.Limits(), old(model), ClientEvent.Kill)
      ensures report == if old(stopped) then old(report) else Some((old(remoteError), !tls))
    {
      ClientTurnRuns(queue.Limits(), model, ClientDoes(ClientEvent.Kill));
      if !stopped {
        BreakOff(tls);
      }
    }

    method BreakOff(tls: bool)
      requires Represents() && !stopped
      modifies this, controller, queue
      ensures Represents() && stopped && remoteError == old(remoteError) && closing == old(closing)
      ensures model == ClientSettled(old(model).(out := Transport.CloseNow(old(model).out)))
      ensures report == Some((remoteError, !tls))
    {
      retryableClose := !tls;
      CloseNow();
    }

    /** The handshake failed, with a TLS error or another, or is done: greet the server. */
    method HandleHandshake(error: Option<bool>)
      requires Valid() && controller.state == C.Idle
      modifies this, controller, queue
      ensures Valid() && model == ClientStep(queue.Limits(), old(model), if error.Some? then ClientEvent.Kill else Connected)
      ensures error.Some? && !old(stopped) ==> report == Some((old(remoteError), !error.value))
    {
      if error.Some? {
        Fails(error.value);
      } else {
        Greet();
      }
    }

    method Greet()
      requires Valid() && controller.state == C.Idle
      modifies this, controller, queue
      ensures Valid() && KeepsVerdict() && model == ClientStep(queue.Limits(), old(model), Connected)
    {
      ClientTurnRuns(queue.Limits(), model, ClientDoes(Connected));
      if stopped {
        return;
      }
      var f := controller.Start();
      model := model.(client := controller.Model());
      SendFrame(f.value);
    }

    method SendFromTun(packet: bytes)
      requires Valid()
      modifies this, controller, queue
      ensures Valid() && KeepsVerdict() && model == ClientStep(queue.Limits(), old(model), ClientEvent.FromTun(packet))
    {
      ClientTurnRuns(queue.Limits(), model, ClientDoes(ClientEvent.FromTun(packet)));
      if stopped || closing {
        return;
      }
      var f := controller.MakeDataToServer(packet);
      model := model.(client := controller.Model());
      if f.Some? {
        SendFrame(f.value);
      }
    }

    method Ping(nonce: u64)
      requires Valid()
      modifies this, controller, queue
      ensures Valid() && KeepsVerdict() && model == ClientStep(queue.Limits(), old(model), Probe(nonce))
    {
      ClientTurnRuns(queue.Limits(), model, ClientDoes(Probe(nonce)));
      if stopped || closing {
        return;
      }
      var f := controller.MakePing(nonce);
      model := model.(client := controller.Model());
      if f.Some? {
        SendFrame(f.value);
      }
    }

    method Stop(code: u16)
      requires Valid()
      modifies this, controller, queue
      ensures Valid() && KeepsVerdict() && model == ClientStep(queue.Limits(), old(model), ClientEvent.Stop(code))
    {
      ClientTurnRuns(queue.Limits(), model, ClientDoes(ClientEvent.Stop(code)));
      if stopped {
        return;
      }
      var f := controller.MakeClose(code);
      model := model.(client := controller.Model());
      if f.None? {
        CloseNow();
        return;
      }
      closing := true;
      model := model.(out := model.out.(closing := true));
      SendFrame(f.value);
    }

    method Abort()
      requires Valid()
      modifies this, controller, queue
      ensures Valid() && KeepsVerdict() && stopped && model == ClientStep(queue.Limits(), old(model), ClientEvent.Kill)
    {
      ClientTurnRuns(queue.Limits(), model, ClientDoes(ClientEvent.Kill));
      CloseNow();
    }

    method HandleWrite(error: Option<bool>)
      requires Valid() && model.out.inFlight > 0
      modifies this, controller, queue
      ensures Valid() && model == ClientStep(queue.Limits(), old(model), ClientEvent.Written(error.None?))
      ensures error.Some? && !old(stopped) ==> report == Some((old(remoteError), !error.value))
      ensures error.None? ==> KeepsVerdict()
    {
      ClientTurnRuns(queue.Limits(), model, ClientDoes(ClientEvent.Written(error.None?)));
      if !stopped {
        WriteIsQueued(queue.Limits(), model.out);
      }
      WriteCompleted(error);
    }

    method WriteCompleted(error: Option<bool>)
      requires Represents() && model.out.inFlight > 0 && (!stopped ==> queue.queue != [])
      modifies this, controller, queue
      ensures Represents() && model == ClientSettled(old(model).(out := WriteDone(old(model).out, error.None?)))
      ensures error.Some? && !old(stopped) ==> report == Some((old(remoteError), !error.value))
      ensures (error.None? ==> KeepsVerdict()) && remoteError == old(remoteError)
      ensures closing == old(closing) && (old(stopped) ==> stopped)
    {
      model := model.(out := model.out.(inFlight := model.out.inFlight - 1));
      if stopped {
        return;
      }
      if error.Some? {
        BreakOff(error.value);
      } else {
        NextBlock();
      }
    }

    /** The front has been written: go on with the next block, if any. */
    method NextBlock()
      requires Represents() && !stopped && queue.queue != []
      modifies this, controller, queue
      ensures Represents() && KeepsVerdict() && closing == old(closing)
      ensures model == ClientSettled(old(model).(out :=
                         Transport.WriteNext(old(model).out.(queue := old(model).out.queue[1..]))))
    {
      var _ := queue.PopFront();
      model := model.(out := model.out.(queue := queue.queue));
      WriteNext();
    }

    /**
     * One decoded frame. If it is the expected ERROR of an established session, what it tells is what the close
     * callback will be told, or has been if nothing was left to write, with no retry; any other leaves that alone.
     */
    method HandleFrame(f: Frame, m: ClientMoment)
      requires Represents() && Rejected() && !stopped && !closing && model.inn.inbox != [] && f == model.inn.inbox[0]
      modifies this, controller, queue
      ensures Represents() && Rejected()
      ensures forall e :: CO.HearsError(old(model).client, f, e) ==>
                && remoteError == Some(e) && !retryableClose && (stopped || closing)
                && (old(queue.queue) == [] && !old(writing) ==> stopped)
                && (stopped ==> report == Some((Some(e), false)))
      ensures (forall e :: !CO.HearsError(old(model).client, f, e)) ==> remoteError == old(remoteError)
      ensures stopped ==> report == Some((remoteError, retryableClose))
      ensures model == ClientStep(queue.Limits(), old(model), ClientEvent.Process(m.note, m.networkOk))
    {
      HearsExactly(model.client, f, m.note);
      var reply := controller.Handle(f, m.note);
      model := model.(client := controller.Model(), inn := Take(model.inn));
      ApplyResult(reply, m.networkOk);
    }

    /** One turn of the loop over the frames of a read. */
    method HandleNext(frames: seq<Frame>, i: nat, moments: nat -> ClientMoment, ghost goal: ClientTunnel)
      requires i < |frames| && Represents() && ClientRunning(queue.Limits(), model) && model.inn.inbox == frames[i..]
      requires Rejected()
      requires !stopped && !closing && ClientDrainsTo(queue.Limits(), model, moments, i, goal)
      modifies this, controller, queue
      ensures Rejected() && (stopped ==> report == Some((remoteError, retryableClose)))
      ensures Represents() && ClientRunning(queue.Limits(), model) && model.inn.inbox == frames[i + 1..]
      ensures ClientDrainsTo(queue.Limits(), model, moments, i + 1, goal)
    {
      ClientDrainStep(queue.Limits(), model, moments, i, goal);
      HandleFrame(frames[i], moments(i));
      assert frames[i..][1..] == frames[i + 1..];
    }

    method HandleFrames(frames: seq<Frame>, moments: nat -> ClientMoment)
      requires Represents() && Rejected() && ClientRunning(queue.Limits(), model) && model.inn.inbox == frames
      modifies this, controller, queue
      ensures !old(stopped) && stopped ==> report == Some((remoteError, retryableClose))
      ensures Valid() && ClientRunning(queue.Limits(), old(model))
      ensures ClientDrainsTo(queue.Limits(), old(model), moments, 0, model)
    {
      ghost var lim := queue.Limits();
      ghost var goal := ClientDrainBegins(lim, model, moments);
      assert frames == frames[0..];
      var i := 0;
      while i < |frames| && !stopped && !closing
        invariant i <= |frames| && Represents() && Rejected() && ClientRunning(lim, model) && model.inn.inbox == frames[i..]
        invariant !old(stopped) && stopped ==> report == Some((remoteError, retryableClose))
        invariant ClientDrainsTo(lim, model, moments, i, goal)
      {
        HandleNext(frames, i, moments, goal);
        i := i + 1;
      }
      ClientDrainEnds(lim, model, moments, i, goal);
      model := model.(inn := model.inn.(inbox := []));
    }

    /** A read completes or fails, possibly only after `stop`. */
    method HandleRead(error: Option<bool>, data: bytes, moments: nat -> ClientMoment)
      requires Valid() && controller.state != C.Idle
      modifies this, controller, queue, decoder
      ensures Valid()
      ensures error.Some? ==> model == ClientStep(queue.Limits(), old(model), ClientEvent.Kill)
      ensures error.Some? && !old(stopped) ==> report == Some((old(remoteError), !error.value))
      ensures error.None? ==>
                var t1 := ClientSettled(ClientRead(old(model), data));
                ClientRunning(queue.Limits(), t1) && model == ClientDrain(queue.Limits(), t1, moments, 0)
    {
      if error.Some? {
        Fails(error.value);
      } else if closing && !stopped {
        HandleLateBytes(data, moments(0).note);
      } else {
        HandleBytes(data, moments);
      }
    }

    /** Bytes that come after `stop`: the queue goes on draining, unless the stream is bad. */
    method HandleLateBytes(data: bytes, note: ErrorText)
      requires Valid() && closing && !stopped && controller.state != C.Idle
      modifies this, controller, queue, decoder
      ensures Valid() && model == ClientSettled(ClientRead(old(model), data))
      ensures model.out == old(model).out || model.out == Transport.CloseNow(old(model).out)
    {
      ghost var lim := queue.Limits();
      ClientTurnRuns(lim, model, Incomes(data));
      var r := decoder.Push(data);
      model := model.(inn := Read(model.inn, data).0.(inbox := []));
      if r.Err? {
        retryableClose := false;
        CloseNow();
        return;
      }
      if |r.value| > 0 {
        ghost var t := model;
        WaitsForWrite(lim, model.out);
        var reply := controller.Handle(r.value[0], note);
        ApplyResult(reply, true);
        assert model == t;
      }
    }

    method HandleBytes(data: bytes, moments: nat -> ClientMoment)
      requires Valid() && controller.state != C.Idle && (closing ==> stopped)
      modifies this, controller, queue, decoder
      ensures Valid()
      ensures var t1 := ClientSettled(ClientRead(old(model), data));
              ClientRunning(queue.Limits(), t1) && model == ClientDrain(queue.Limits(), t1, moments, 0)
    {
      ClientTurnRuns(queue.Limits(), model, Incomes(data));
      if stopped {
        return;
      }
      var r := decoder.Push(data);
      model := model.(inn := Read(model.inn, data).0);
      if r.Err? {
        retryableClose := false;
        CloseNow();
        return;
      }
      assert [] + r.value == r.value;
      ghost var t := model;
      HandleFrames(r.value, moments);
      assert ClientDrain(queue.Limits(), t, moments, 0) == model;
    }
  }

  /** What may happen to a client's tunnel that is closing, as long as the transport works. */
  datatype Call = Send(packet: bytes) | ProbeWith(nonce: u64) | StopWith(code: u16) | AbortNow | Written

  /**
   * Once the server's error has been heard, whatever is called afterwards and however many of the queued blocks
   * are still written, the close callback is told of that error and that a retry is pointless. Only a write that
   * fails for another reason than TLS makes it say that a retry is possible (`HandleWrite`), still with the error.
   */
  method RejectionIsReported(t: TlsTunnelClient, e: ErrorMessage, calls: seq<Call>)
    requires t.Valid() && t.remoteError == Some(e) && (t.stopped ==> t.report == Some((Some(e), false)))
    modifies t, t.controller, t.queue
    ensures t.Valid() && t.remoteError == Some(e) && (t.stopped ==> t.report == Some((Some(e), false)))
    ensures AbortNow in calls ==> t.stopped
  {
    for i := 0 to |calls|
      invariant t.Valid() && t.remoteError == Some(e) && (t.stopped ==> t.report == Some((Some(e), false)))
      invariant AbortNow in calls[..i] ==> t.stopped
    {
      match calls[i]
      case Send(packet) => t.SendFromTun(packet);
      case ProbeWith(nonce) => t.Ping(nonce);
      case StopWith(code) => t.Stop(code);
      case AbortNow => t.Abort();
      case Written =>
        if t.writing && !t.stopped {
          WriteInFlight(t.queue.Limits(), t.model);
          t.HandleWrite(None);
        }
      assert calls[..i + 1] == calls[..i] + [calls[i]];
    }
    assert calls[..|calls|] == calls;
  }

  lemma WriteInFlight(lim: Limits, t: ClientTunnel)
    requires ClientRunning(lim, t) && t.out.writing && !t.out.stopped
    ensures t.out.inFlight > 0
  {
    assert PumpInv(lim, t.out);
  }
}
