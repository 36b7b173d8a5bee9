/** The two tunnel endpoints: a session controller, a write pump and a decoder, advanced by strand callbacks. */
module Tunnel {
  import opened Bytes
  import opened Wire
  import opened Control
  import opened Leases
  import opened Transport
  import opened Dialogue
  import opened DialogueServer
  import C = ClientSession
  import S = ServerSession

  // ---------- The server's endpoint ----------

  /** As history it also keeps the packets delivered, the ERROR codes raised and the terms sent. */
  datatype ServerTunnel = ServerTunnel(
    session: S.Session,
    out: Outgoing,
    inn: Incoming,
    routed: bool,
    delivered: seq<bytes>,
    faults: seq<u16>,
    terms: Option<Assignment>)

  datatype ServerEvent =
    | Process(now: int, note: ErrorText, routeOk: bool)
    | FromTun(packet: bytes, now: int)
    | Written(ok: bool)
    | Kill

  function NewServerTunnel(identity: string): ServerTunnel {
    ServerTunnel(S.NewSession(identity), IDLE, DEAF, false, [], [], None)
  }

  /** Is a read armed? It is not re-armed once the tunnel is closing. */
  predicate Reading(o: Outgoing) {
    !o.stopped && !o.closing
  }

  /** A tunnel that waits for its queue to drain has something in the queue. */
  predicate Draining(o: Outgoing) {
    o.closing && !o.stopped ==> o.queue != []
  }

  /** Enqueue the frames of a reply in order; the first refusal stops. */
  function Post(lim: Limits, o: Outgoing, frames: seq<Frame>): (Outgoing, bool)
    decreases |frames|
  {
    if frames == [] then (o, true)
    else
      var (o1, ok) := Enqueue(lim, o, frames[0]);
      if ok then Post(lim, o1, frames[1..]) else (o1, false)
  }

  lemma PostOne(lim: Limits, o: Outgoing, frames: seq<Frame>)
    requires |frames| <= 1
    ensures Post(lim, o, frames) == if frames == [] then (o, true) else Enqueue(lim, o, frames[0])
  {
    if frames != [] {
      assert frames[1..] == [];
      assert Post(lim, Enqueue(lim, o, frames[0]).0, frames[1..]) == (Enqueue(lim, o, frames[0]).0, true);
    }
  }

  /** The pump after a reply: refusal closes at once, a closing reply closes once drained. */
  function Pumped(lim: Limits, o: Outgoing, frames: seq<Frame>, close: bool): Outgoing {
    var (o1, ok) := Post(lim, o, frames);
    if !ok then CloseNow(o1) else if close then CloseAfterWrite(o1) else o1
  }

  function ServerApply(lim: Limits, t: ServerTunnel, reply: S.Reply): ServerTunnel {
    t.(out := Pumped(lim, t.out, reply.frames, reply.close),
       delivered := t.delivered + reply.packets, faults := t.faults + ErrorCodes(reply.frames),
       terms := if Post(lim, t.out, reply.frames).1 then NewTerms(t.terms, reply.frames) else t.terms)
  }

  /** Closing the transport also closes the controller, which gives its lease back. */
  function Settled(p: Pool, t: ServerTunnel): (Pool, ServerTunnel) {
    if t.out.stopped then (S.TransportClosed(p, t.session).pool, t.(session := S.TransportClosed(p, t.session).session))
    else (p, t)
  }

  /** Bytes arrive: decode them; a decoding error closes. */
  function ServerRead(t: ServerTunnel, chunk: bytes): ServerTunnel {
    if !Reading(t.out) || t.inn.inbox != [] then t
    else
      var (i, ok) := Read(t.inn, chunk);
      t.(inn := i, out := if ok then t.out else CloseNow(t.out))
  }

  /** Handle the next decoded frame; the first establishment must also get its route. */
  function ServerProcess(c: Config, lim: Limits, p: Pool, t: ServerTunnel, now: int, note: ErrorText, routeOk: bool)
    : (Pool, ServerTunnel)
    requires ValidConfig(c) && S.HoldsIffEstablished(t.session)
  {
    if t.inn.inbox == [] then (p, t)
    else if !Reading(t.out) then (p, t.(inn := t.inn.(inbox := [])))
    else
      var e := S.Handle(c, p, t.session, t.inn.inbox[0], now, note);
      var established := !t.routed && e.session.state == S.Established;
      var t1 := t.(session := e.session, inn := Take(t.inn), routed := t.routed || established);
      if established && !routeOk then (e.pool, t1.(out := CloseNow(t.out))) else (e.pool, ServerApply(lim, t1, e.reply))
  }

  /** A packet from the TUN device; a session that is no longer established closes. */
  function ServerFromTun(c: Config, lim: Limits, p: Pool, t: ServerTunnel, packet: bytes, now: int): (Pool, ServerTunnel)
    requires S.HoldsIffEstablished(t.session)
  {
    if t.out.stopped then (p, t)
    else
      var e := S.MakeData(c, p, t.session, packet, now);
      var t1 := t.(session := e.session);
      if e.reply.frames == [] then
        (e.pool, if e.session.state == S.Established then t1 else t1.(out := CloseNow(t.out)))
      else (e.pool, t1.(out := Pumped(lim, t.out, e.reply.frames, false)))
  }

  function ServerRaw(c: Config, lim: Limits, p: Pool, t: ServerTunnel, ev: ServerEvent): (Pool, ServerTunnel)
    requires ValidConfig(c) && S.HoldsIffEstablished(t.session)
  {
    match ev
    case Process(now, note, routeOk) => ServerProcess(c, lim, p, t, now, note, routeOk)
    case FromTun(packet, now) => ServerFromTun(c, lim, p, t, packet, now)
    case Written(ok) => (p, t.(out := WriteDone(t.out, ok)))
    case Kill => (p, t.(out := CloseNow(t.out)))
  }

  function ServerStep(c: Config, lim: Limits, p: Pool, t: ServerTunnel, ev: ServerEvent): (Pool, ServerTunnel)
    requires ValidConfig(c) && S.HoldsIffEstablished(t.session)
  {
    var (p1, t1) := ServerRaw(c, lim, p, t, ev);
    Settled(p1, t1)
  }

  // ---------- The client's endpoint ----------

  datatype ClientTunnel = ClientTunnel(
    client: C.Client,
    out: Outgoing,
    inn: Incoming,
    delivered: seq<bytes>,
    faults: seq<u16>)

  datatype ClientEvent =
    | Connected
    | Process(note: ErrorText, networkOk: bool)
    | FromTun(packet: bytes)
    | Probe(nonce: u64)
    | Stop(code: u16)
    | Written(ok: bool)
    | Kill

  function NewClientTunnel(mtu: u16): ClientTunnel {
    ClientTunnel(C.NewClient(mtu), IDLE, DEAF, [], [])
  }

  function ClientSettled(t: ClientTunnel): ClientTunnel {
    if t.out.stopped then t.(client := t.client.(state := C.Closed)) else t
  }

  /** Send a frame the controller made, if it made one; a full queue closes. */
  function ClientSend(lim: Limits, t: ClientTunnel, made: (C.Client, Option<Frame>)): ClientTunnel {
    if made.1.None? then t.(client := made.0)
    else t.(client := made.0, out := Pumped(lim, t.out, [made.1.value], false))
  }

  function ClientApply(lim: Limits, t: ClientTunnel, reply: C.Reply, networkOk: bool): ClientTunnel {
    if reply.assignment.Some? && !networkOk then t.(out := CloseNow(t.out))
    else
      t.(out := Pumped(lim, t.out, reply.frames, reply.close),
         delivered := t.delivered + reply.packets, faults := t.faults + ErrorCodes(reply.frames))
  }

  /** Bytes arrive; after `stop` the frames they complete find a closing controller and change nothing. */
  function ClientRead(t: ClientTunnel, chunk: bytes): ClientTunnel {
    if t.out.stopped || t.client.state == C.Idle || t.inn.inbox != [] then t
    else
      var (i, ok) := Read(t.inn, chunk);
      t.(inn := if t.out.closing then i.(inbox := []) else i, out := if ok then t.out else CloseNow(t.out))
  }

  function ClientProcess(lim: Limits, t: ClientTunnel, note: ErrorText, networkOk: bool): ClientTunnel
    requires C.Assigned(t.client)
  {
    if t.inn.inbox == [] then t
    else if !Reading(t.out) then t.(inn := t.inn.(inbox := []))
    else
      var e := C.Handle(t.client, t.inn.inbox[0], note);
      ClientApply(lim, t.(client := e.client, inn := Take(t.inn)), e.reply, networkOk)
  }

  /** `stop`: ask for an orderly close; without a frame to send, close at once. */
  function ClientStop(lim: Limits, t: ClientTunnel, code: u16): ClientTunnel {
    if t.out.stopped then t
    else
      var (k, f) := C.MakeClose(t.client, code);
      if f.None? then t.(out := CloseNow(t.out))
      else t.(client := k, out := Pumped(lim, t.out.(closing := true), [f.value], false))
  }

  function ClientRaw(lim: Limits, t: ClientTunnel, ev: ClientEvent): ClientTunnel
    requires C.Assigned(t.client)
  {
    match ev
    case Connected => if t.out.stopped || t.client.state != C.Idle then t else ClientSend(lim, t, C.Start(t.client))
    case Process(note, networkOk) => ClientProcess(lim, t, note, networkOk)
    case FromTun(packet) => if !Reading(t.out) then t else ClientSend(lim, t, C.MakeData(t.client, packet))
    case Probe(nonce) => if !Reading(t.out) then t else ClientSend(lim, t, C.MakePing(t.client, nonce))
    case Stop(code) => ClientStop(lim, t, code)
    case Written(ok) => t.(out := WriteDone(t.out, ok))
    case Kill => t.(out := CloseNow(t.out))
  }

  function ClientStep(lim: Limits, t: ClientTunnel, ev: ClientEvent): ClientTunnel
    requires C.Assigned(t.client)
  {
    ClientSettled(ClientRaw(lim, t, ev))
  }

  // ---------- The pump under a reply ----------

  /** A reply of at most one frame was posted or refused, leaving the pump at `o1`; then comes the closing, if any. */
  lemma PumpedKeeps(lim: Limits, o: Outgoing, frames: seq<Frame>, close: bool, o1: Outgoing, posted: bool)
    requires PumpInv(lim, o) && |frames| <= 1
    requires (o1, posted) == if frames == [] then (o, true) else Enqueue(lim, o, frames[0])
    ensures var o' := if !posted then CloseNow(o1) else if close then CloseAfterWrite(o1) else o1;
            && PumpInv(lim, o') && o.submitted <= o'.submitted
            && o'.sent == (if posted then o.sent + frames else o.sent)
            && (!posted ==> o'.stopped) && (Reading(o') <==> Reading(o) && posted && !close)
  {
    if frames != [] {
      EnqueueKeeps(lim, o, frames[0]);
      assert frames == [frames[0]];
    } else {
      assert o.sent + frames == o.sent;
    }
    CloseNowKeeps(lim, o1);
    CloseAfterWriteKeeps(lim, o1);
  }

  /** A reply that closes, or that queued a frame, leaves something to wait for. */
  lemma PumpedDrains(lim: Limits, o: Outgoing, frames: seq<Frame>, close: bool)
    requires PumpInv(lim, o) && |frames| <= 1 && (close || frames != [])
    ensures Draining(Pumped(lim, o, frames, close))
  {
    PostOne(lim, o, frames);
    if frames != [] {
      EnqueueKeeps(lim, o, frames[0]);
    }
  }
}
