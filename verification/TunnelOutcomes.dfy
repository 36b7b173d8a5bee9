/** What exactly every strand callback does to an open endpoint, said in terms of its queue, flags and session. */
module TunnelOutcomes {
  import opened Bytes
  import opened Wire
  import opened Control
  import opened Packets
  import opened Leases
  import opened Transport
  import opened Dialogue
  import opened DialogueServer
  import opened Tunnel
  import Decoder
  import C = ClientSession
  import S = ServerSession
  import CO = ClientOutcomes
  import SO = ServerOutcomes
  import P = Pump

  // ---------- The pump ----------

  /** The frame can be encoded and fits both limits of the queue. */
  predicate HasRoom(lim: Limits, o: Outgoing, f: Frame) {
    && f.flags == 0 && |f.payload| <= 65535
    && |o.queue| < lim.frames && Total(o.queue) + 20 + |f.payload| <= lim.octets
  }

  /** The frame waits at the end of the queue; if it is alone there, it is being written. */
  function Queued(o: Outgoing, f: Frame): Outgoing
    requires |f.payload| <= 65535
  {
    var block := FrameBytes(f);
    var o1 := o.(queue := o.queue + [block], sent := o.sent + [f]);
    if o.queue == [] then o1.(writing := true, inFlight := 1, submitted := o.submitted + 1, written := o.written + block)
    else o1
  }

  /** Stopped for good: nothing waits any more and the close callback has run. */
  function Shut(o: Outgoing): Outgoing {
    o.(stopped := true, queue := [], closes := 1)
  }

  /** The front has been written: the next block is submitted, or a pending close happens, or the pump idles. */
  function Advanced(o: Outgoing): Outgoing
    requires o.queue != []
  {
    if |o.queue| > 1 then o.(queue := o.queue[1..], submitted := o.submitted + 1, written := o.written + o.queue[1])
    else
      var idle := o.(queue := [], writing := false, inFlight := 0);
      if o.closing then Shut(idle) else idle
  }

  /** Enqueueing: the frame is taken exactly if it can be encoded and there is room for it. */
  lemma EnqueueExactly(lim: Limits, o: Outgoing, f: Frame)
    requires PumpInv(lim, o)
    ensures Enqueue(lim, o, f) == if !o.stopped && HasRoom(lim, o, f) then (Queued(o, f), true) else (o, false)
  {
    if !o.stopped && HasRoom(lim, o, f) && o.queue == [] {
      assert [] + [FrameBytes(f)] == [FrameBytes(f)];
    }
  }

  /** The end of a write: an error stops at once, and success moves on to the next block. */
  lemma WriteExactly(lim: Limits, o: Outgoing, ok: bool)
    requires PumpInv(lim, o) && o.inFlight > 0 && !o.stopped
    ensures o.queue != [] && WriteDone(o, ok) == if ok then Advanced(o) else Shut(o).(inFlight := 0)
  {
  }

  lemma StopExactly(lim: Limits, o: Outgoing)
    requires PumpInv(lim, o) && !o.stopped
    ensures CloseNow(o) == Shut(o)
    ensures CloseAfterWrite(o) == if o.queue == [] then Shut(o.(closing := true)) else o.(closing := true)
  {
  }

  /** A reply of at most one frame: without room it stops at once, and a close waits for the queue. */
  function Answered(lim: Limits, o: Outgoing, frames: seq<Frame>, close: bool): Outgoing {
    if frames != [] && !HasRoom(lim, o, frames[0]) then Shut(o)
    else
      var o1 := if frames == [] then o else Queued(o, frames[0]);
      if !close then o1
      else if o1.queue == [] then Shut(o1.(closing := true))
      else o1.(closing := true)
  }

  lemma ReplyExactly(lim: Limits, o: Outgoing, frames: seq<Frame>, close: bool)
    requires PumpInv(lim, o) && !o.stopped && |frames| <= 1
    ensures Pumped(lim, o, frames, close) == Answered(lim, o, frames, close)
    ensures Post(lim, o, frames).1 <==> frames == [] || HasRoom(lim, o, frames[0])
  {
    PostOne(lim, o, frames);
    StopExactly(lim, o);
    if frames != [] {
      EnqueueExactly(lim, o, frames[0]);
      EnqueueKeeps(lim, o, frames[0]);
      var o1 := Enqueue(lim, o, frames[0]).0;
      StopExactly(lim, o1);
    }
  }

  // ---------- The server ----------

  /** The tunnel is down: stopped, its session closed and its lease given back. */
  function Down(p: Pool, t: ServerTunnel): (Pool, ServerTunnel) {
    (SO.WithoutLease(p, t.session),
     t.(out := Shut(t.out), session := t.session.(state := S.Closed, lease := None)))
  }

  /** A tunnel that went down holds nothing of the pool. */
  lemma DownHoldsNothing(p: Pool, t: ServerTunnel)
    ensures var (p', t') := Down(p, t);
            && t'.session.lease.None? && t'.out.stopped && t'.out.queue == []
            && (t.session.lease.Some? ==> !Current(p', t.session.lease.value))
  {
  }

  /** With `o` as its pump and a controller that has answered, the tunnel goes on, or is down if the pump stopped. */
  function Continued(p: Pool, t: ServerTunnel, o: Outgoing): (Pool, ServerTunnel) {
    if o.stopped then (Down(p, t).0, Down(p, t).1.(out := o)) else (p, t.(out := o))
  }

  lemma ServerStopExactly(c: Config, lim: Limits, p: Pool, t: ServerTunnel)
    requires ValidConfig(c) && S.HoldsIffEstablished(t.session) && PumpInv(lim, t.out) && !t.out.stopped
    ensures ServerStep(c, lim, p, t, ServerEvent.Kill) == Down(p, t)
  {
    StopExactly(lim, t.out);
  }

  /**
   * The end of a write: after an error the tunnel is down with nothing more submitted, and after success the
   * next block is under way, or the tunnel idles, or it is down if it was waiting to close.
   */
  lemma ServerWriteExactly(c: Config, lim: Limits, p: Pool, t: ServerTunnel, ok: bool)
    requires ValidConfig(c) && S.HoldsIffEstablished(t.session)
    requires PumpInv(lim, t.out) && !t.out.stopped && t.out.inFlight > 0
    ensures t.out.queue != []
    ensures ServerStep(c, lim, p, t, ServerEvent.Written(ok))
         == if ok then Continued(p, t, Advanced(t.out))
            else (Down(p, t).0, Down(p, t).1.(out := Shut(t.out).(inFlight := 0)))
  {
    WriteExactly(lim, t.out, ok);
  }

  /** In particular a failed write ends everything: nothing more is submitted, and the pool is rid of the lease. */
  lemma FailedWriteTakesDown(c: Config, lim: Limits, p: Pool, t: ServerTunnel)
    requires ValidConfig(c) && S.HoldsIffEstablished(t.session)
    requires PumpInv(lim, t.out) && !t.out.stopped && t.out.inFlight > 0
    ensures var (p', t') := ServerStep(c, lim, p, t, ServerEvent.Written(false));
            && t'.out.stopped && t'.out.queue == []
            && t'.out.written == t.out.written && t'.out.submitted == t.out.submitted && t'.out.sent == t.out.sent
            && t'.session.state == S.Closed && t'.session.lease.None?
            && (t.session.lease.Some? ==> !Current(p', t.session.lease.value))
            && (t.session.lease.None? ==> p' == p)
  {
    ServerWriteExactly(c, lim, p, t, false);
    DownHoldsNothing(p, t);
  }

  /**
   * A packet from the device: for the peer of an established session it becomes the next DATA frame if the lease
   * renews and there is room, and otherwise takes the tunnel down; for anybody else it changes nothing; and a
   * session no longer established goes down.
   */
  lemma ServerDeviceExactly(c: Config, lim: Limits, p: Pool, t: ServerTunnel, packet: bytes, now: int)
    requires ValidConfig(c) && S.HoldsIffEstablished(t.session) && PumpInv(lim, t.out) && !t.out.stopped
    ensures ServerStep(c, lim, p, t, ServerEvent.FromTun(packet, now))
         == if t.session.state != S.Established then Down(p, t)
            else if !SO.ToPeer(t.session.lease.value, t.session.mtu, packet) then (p, t)
            else
              var (p1, r) := RenewSpec(c, p, t.session.lease.value, now);
              var f := SO.Numbered(t.session, if ShapedV6(packet) then DataIpv6 else DataIpv4, packet);
              if r.None? then Down(p1, t)
              else Continued(p1, t.(session := SO.Counted(t.session).(lease := r)), Answered(lim, t.out, [f], false))
  {
    SO.DataExactly(c, p, t.session, packet, now);
    StopExactly(lim, t.out);
    var e := S.MakeData(c, p, t.session, packet, now);
    if e.reply.frames != [] {
      ReplyExactly(lim, t.out, e.reply.frames, false);
    } else if e.session == t.session {
      assert t.(session := e.session) == t;
    }
  }

  /** Bytes from the peer: their frames are decoded, and a bad stream takes the tunnel down. */
  lemma ServerReadExactly(lim: Limits, p: Pool, t: ServerTunnel, chunk: bytes)
    requires PumpInv(lim, t.out) && !t.out.stopped && !t.out.closing && t.inn.inbox == []
    ensures var (st, r) := Decoder.PushSpec(t.inn.decoder, chunk);
            var heard := t.inn.(consumed := t.inn.consumed + |chunk|, decoder := st);
            Settled(p, ServerRead(t, chunk))
            == match r
               case Err(_) => Down(p, t.(inn := heard))
               case Ok(frames) =>
                 (p, t.(inn := heard.(inbox := frames, decoded := t.inn.decoded + |frames|)))
  {
    StopExactly(lim, t.out);
    var r := Decoder.PushSpec(t.inn.decoder, chunk).1;
    if r.Ok? {
      assert [] + r.value == r.value;
    }
  }

  /** The next frame has been handled with effect `e`. */
  function Handled(lim: Limits, t: ServerTunnel, e: S.Effect, routeOk: bool): (Pool, ServerTunnel)
    requires t.inn.inbox != []
  {
    var rest := t.inn.(inbox := t.inn.inbox[1..], handled := t.inn.handled + 1);
    var claims := !t.routed && e.session.state == S.Established;
    var t1 := t.(session := e.session, inn := rest, routed := t.routed || claims);
    if claims && !routeOk then Down(e.pool, t1)
    else
      var terms := if e.reply.frames == [] || HasRoom(lim, t.out, e.reply.frames[0])
                   then NewTerms(t.terms, e.reply.frames) else t.terms;
      Continued(e.pool,
                t1.(delivered := t.delivered + e.reply.packets,
                    faults := t.faults + ErrorCodes(e.reply.frames), terms := terms),
                Answered(lim, t.out, e.reply.frames, e.reply.close))
  }

  lemma EffectTakesPlace(lim: Limits, t: ServerTunnel, e: S.Effect, routeOk: bool, raw: (Pool, ServerTunnel))
    requires PumpInv(lim, t.out) && !t.out.stopped && t.inn.inbox != [] && |e.reply.frames| <= 1
    requires var claims := !t.routed && e.session.state == S.Established;
             var t1 := t.(session := e.session, inn := Take(t.inn), routed := t.routed || claims);
             raw == if claims && !routeOk then (e.pool, t1.(out := CloseNow(t.out)))
                    else (e.pool, ServerApply(lim, t1, e.reply))
    ensures Settled(raw.0, raw.1) == Handled(lim, t, e, routeOk)
  {
    StopExactly(lim, t.out);
    ReplyExactly(lim, t.out, e.reply.frames, e.reply.close);
  }

  /**
   * The next decoded frame: the controller answers; at the first establishment the route must be granted, or the
   * tunnel goes down; otherwise what was delivered and the reply take effect.
   */
  lemma ServerFrameExactly(c: Config, lim: Limits, p: Pool, t: ServerTunnel, now: int, note: ErrorText, routeOk: bool)
    requires ValidConfig(c) && S.HoldsIffEstablished(t.session) && PumpInv(lim, t.out) && Reading(t.out)
    requires t.inn.inbox != [] && ServerLive(t.session)
    ensures ServerStep(c, lim, p, t, ServerEvent.Process(now, note, routeOk))
         == Handled(lim, t, S.Handle(c, p, t.session, t.inn.inbox[0], now, note), routeOk)
  {
    P.ServerHandleReplies(c, p, t.session, t.inn.inbox[0], now, note);
    EffectTakesPlace(lim, t, S.Handle(c, p, t.session, t.inn.inbox[0], now, note), routeOk,
                     ServerProcess(c, lim, p, t, now, note, routeOk));
  }

  // ---------- The client ----------

  function ClientDown(t: ClientTunnel): ClientTunnel {
    t.(out := Shut(t.out), client := t.client.(state := C.Closed))
  }

  function ClientContinued(t: ClientTunnel, o: Outgoing): ClientTunnel {
    t.(out := o, client := if o.stopped then t.client.(state := C.Closed) else t.client)
  }

  lemma ClientAbortExactly(lim: Limits, t: ClientTunnel)
    requires C.Assigned(t.client) && PumpInv(lim, t.out) && !t.out.stopped
    ensures ClientStep(lim, t, ClientEvent.Kill) == ClientDown(t)
  {
    StopExactly(lim, t.out);
  }

  lemma ClientWriteExactly(lim: Limits, t: ClientTunnel, ok: bool)
    requires C.Assigned(t.client) && PumpInv(lim, t.out) && !t.out.stopped && t.out.inFlight > 0
    ensures t.out.queue != []
    ensures ClientStep(lim, t, ClientEvent.Written(ok))
         == ClientContinued(t, if ok then Advanced(t.out) else Shut(t.out).(inFlight := 0))
  {
    WriteExactly(lim, t.out, ok);
  }

  /**
   * A packet from the device: from the assigned address of an established client, it is queued as the next DATA
   * frame if there is room, and otherwise takes the tunnel down; any other packet changes nothing.
   */
  lemma ClientDeviceExactly(lim: Limits, t: ClientTunnel, packet: bytes)
    requires C.Assigned(t.client) && PumpInv(lim, t.out) && Reading(t.out)
    ensures ClientStep(lim, t, ClientEvent.FromTun(packet))
         == if t.client.state == C.Established && CO.FromUs(t.client.assignment.value, packet)
            then
              var f := CO.Numbered(t.client, if ShapedV6(packet) then DataIpv6 else DataIpv4, packet);
              ClientContinued(t.(client := CO.Counted(t.client)), Answered(lim, t.out, [f], false))
            else t
  {
    CO.DataExactly(t.client, packet);
    var made := C.MakeData(t.client, packet);
    if made.1.Some? {
      ReplyExactly(lim, t.out, [made.1.value], false);
    } else {
      assert t.(client := made.0) == t;
    }
  }

  /** So a packet taken with room in the queue is the next frame sent. */
  lemma TakenPacketIsSent(lim: Limits, t: ClientTunnel, packet: bytes)
    requires C.Assigned(t.client) && PumpInv(lim, t.out) && Reading(t.out)
    requires t.client.state == C.Established && CO.FromUs(t.client.assignment.value, packet)
    requires |t.out.queue| < lim.frames && Total(t.out.queue) + 20 + |packet| <= lim.octets
    ensures ClientStep(lim, t, ClientEvent.FromTun(packet)).out.sent
         == t.out.sent + [Frame(if ShapedV6(packet) then DataIpv6 else DataIpv4, 0, t.client.outbound, packet)]
  {
    ClientDeviceExactly(lim, t, packet);
  }

  /** The handshake is done: the hello is queued. */
  lemma ClientConnectExactly(lim: Limits, t: ClientTunnel)
    requires C.Assigned(t.client) && PumpInv(lim, t.out) && !t.out.stopped && t.client.state == C.Idle
    ensures ClientStep(lim, t, Connected)
         == ClientContinued(t.(client := CO.Counted(t.client).(state := C.AwaitingAssignment)),
                            Answered(lim, t.out,
                                     [CO.Numbered(t.client, ClientHello, HelloPayload(Hello(t.client.requestedMtu, 3)))],
                                     false))
  {
    CO.RequestsExactly(t.client, 0, 0);
    ReplyExactly(lim, t.out, [C.Start(t.client).1.value], false);
  }

  /** A probe is queued by an established client without one outstanding. */
  lemma ClientProbeExactly(lim: Limits, t: ClientTunnel, nonce: u64)
    requires C.Assigned(t.client) && PumpInv(lim, t.out) && Reading(t.out)
    ensures ClientStep(lim, t, Probe(nonce))
         == if t.client.state == C.Established && t.client.pendingNonce.None?
            then ClientContinued(t.(client := CO.Counted(t.client).(pendingNonce := Some(nonce))),
                                 Answered(lim, t.out, [CO.Numbered(t.client, MessageType.Ping, ProbePayload(nonce))], false))
            else t
  {
    CO.RequestsExactly(t.client, nonce, 0);
    var made := C.MakePing(t.client, nonce);
    if made.1.Some? {
      ReplyExactly(lim, t.out, [made.1.value], false);
    } else {
      assert t.(client := made.0) == t;
    }
  }

  /** `stop`: a started client queues CLOSE and closes once it is written; any other closes at once. */
  lemma ClientStopExactly(lim: Limits, t: ClientTunnel, code: u16)
    requires C.Assigned(t.client) && PumpInv(lim, t.out) && !t.out.stopped
    ensures ClientStep(lim, t, ClientEvent.Stop(code))
         == if CO.Open(t.client)
            then ClientContinued(t.(client := CO.Counted(t.client).(state := C.Closing)),
                                 Answered(lim, t.out.(closing := true),
                                          [CO.Numbered(t.client, MessageType.Close, ClosePayload(code))], false))
            else ClientDown(t)
  {
    CO.RequestsExactly(t.client, 0, code);
    StopExactly(lim, t.out);
    var made := C.MakeClose(t.client, code);
    if made.1.Some? {
      assert PumpInv(lim, t.out.(closing := true));
      ReplyExactly(lim, t.out.(closing := true), [made.1.value], false);
    }
  }

  /** Bytes from the server: their frames are decoded, or dropped after `stop`; a bad stream takes the tunnel down. */
  lemma ClientReadExactly(lim: Limits, t: ClientTunnel, chunk: bytes)
    requires PumpInv(lim, t.out) && !t.out.stopped && t.client.state != C.Idle && t.inn.inbox == []
    ensures var (st, r) := Decoder.PushSpec(t.inn.decoder, chunk);
            var heard := t.inn.(consumed := t.inn.consumed + |chunk|, decoder := st);
            ClientSettled(ClientRead(t, chunk))
            == match r
               case Err(_) => ClientDown(t.(inn := heard))
               case Ok(frames) =>
                 t.(inn := heard.(inbox := if t.out.closing then [] else frames, decoded := t.inn.decoded + |frames|))
  {
    StopExactly(lim, t.out);
    var r := Decoder.PushSpec(t.inn.decoder, chunk).1;
    if r.Ok? {
      assert [] + r.value == r.value;
    }
  }

  /**
   * The next decoded frame: the controller answers; a new assignment must also configure the host, or the tunnel
   * goes down; otherwise what was delivered and the reply take effect.
   */
  lemma ClientFrameExactly(lim: Limits, t: ClientTunnel, note: ErrorText, networkOk: bool)
    requires C.Assigned(t.client) && PumpInv(lim, t.out) && Reading(t.out)
    requires t.inn.inbox != [] && ClientLive(t.client) && t.client.state != C.Idle
    ensures var e := C.Handle(t.client, t.inn.inbox[0], note);
            var t1 := t.(client := e.client,
                         inn := t.inn.(inbox := t.inn.inbox[1..], handled := t.inn.handled + 1));
            ClientStep(lim, t, ClientEvent.Process(note, networkOk))
            == if e.reply.assignment.Some? && !networkOk then ClientDown(t1)
               else ClientContinued(t1.(delivered := t.delivered + e.reply.packets,
                                        faults := t.faults + ErrorCodes(e.reply.frames)),
                                    Answered(lim, t.out, e.reply.frames, e.reply.close))
  {
    P.ClientHandleReplies(t.client, t.inn.inbox[0], note);
    var e := C.Handle(t.client, t.inn.inbox[0], note);
    StopExactly(lim, t.out);
    ReplyExactly(lim, t.out, e.reply.frames, e.reply.close);
  }
}
