/** An honest client and an honest server exchanging whole frames in order, in any interleaving. */
module Dialogue {
  import opened Bytes
  import opened Wire
  import opened Control
  import opened Leases
  import C = ClientSession
  import S = ServerSession

  /**
   * Both controllers, every frame each has sent, how many of them the other has handled, the packets
   * delivered at each end, the terms the server issued, and the codes of all ERRORs either has raised.
   */
  datatype Dialogue = Dialogue(
    client: C.Client,
    up: seq<Frame>,
    upHandled: nat,
    upDelivered: seq<bytes>,
    server: S.Session,
    down: seq<Frame>,
    downHandled: nat,
    downDelivered: seq<bytes>,
    terms: Option<Assignment>,
    clientFaults: seq<u16>,
    serverFaults: seq<u16>)

  predicate ClientLive(k: C.Client) {
    k.state == C.Idle || k.state == C.AwaitingAssignment || k.state == C.Established
  }

  predicate ServerLive(s: S.Session) {
    s.state == S.AwaitingHello || s.state == S.Established
  }

  // ---------- Frame histories ----------

  /** The number of the `n`-th frame, counting from zero: one, two, three, … mod 2^64. */
  function Number(n: nat): u64 {
    (n + 1) % U64_MODULUS
  }

  lemma NextNumber(n: nat)
    ensures Next64(Number(n)) == Number(n + 1)
  {
  }

  ghost predicate Numbered(fs: seq<Frame>) {
    forall i {:trigger fs[i].sequence} :: 0 <= i < |fs| ==> fs[i].sequence == Number(i)
  }

  /** The codes of the ERROR frames in `fs`. */
  function ErrorCodes(fs: seq<Frame>): seq<u16> {
    if fs == [] then []
    else (if fs[0].kind == MessageType.Error && |fs[0].payload| >= 2 then [ReadU16(fs[0].payload, 0)] else [])
         + ErrorCodes(fs[1..])
  }

  lemma NoErrorCode(f: Frame)
    requires f.kind != MessageType.Error
    ensures ErrorCodes([f]) == []
  {
    assert [f][1..] == [];
  }

  lemma OneErrorCode(sequence: u64, code: u16, note: ErrorText)
    ensures ErrorCodes([S.ErrorFrame(sequence, code, note)]) == [code]
    ensures C.ErrorFrame(sequence, code, note) == S.ErrorFrame(sequence, code, note)
  {
    var f := S.ErrorFrame(sequence, code, note);
    assert [f][1..] == [] && f.payload[0..2] == U16(code);
    ReadU16OfU16(code, f.payload, 0);
  }

  // ---------- The invariant ----------

  /** What an honest client sends: its hello first, then only frames the server can accept. */
  predicate UpFrameOk(mtu: u16, terms: Option<Assignment>, i: nat, f: Frame) {
    && Encodable(f)
    && (i == 0 ==> f.kind == ClientHello && f.payload == HelloPayload(Hello(mtu, CAPABILITIES)))
    && (i > 0 ==> f.kind in {DataIpv4, DataIpv6, Ping, Close, MessageType.Error})
    && (f.kind in DATA ==> terms.Some? && C.Fault(terms.value, false, f.kind, f.payload).None?)
    && (f.kind == Ping ==> |f.payload| == 8)
    && (f.kind == Close ==> |f.payload| == 2)
    && (f.kind == MessageType.Error ==> 2 <= |f.payload| <= 2 + MAX_ERROR_TEXT)
  }

  /** What an honest server sends: its terms or a refusal first, then only frames the client can accept. */
  predicate DownFrameOk(terms: Option<Assignment>, i: nat, f: Frame) {
    && Encodable(f)
    && (i == 0 ==> f.kind == MessageType.Error || (f.kind == IpAssign && terms.Some?
                                                   && f.payload == AssignmentPayload(terms.value)))
    && (i > 0 ==> f.kind in {DataIpv4, DataIpv6, Pong, MessageType.Error})
    && (f.kind in DATA ==> terms.Some? && C.Fault(terms.value, true, f.kind, f.payload).None?)
    && (f.kind == Pong ==> |f.payload| == 8)
    && (f.kind == MessageType.Error ==> 2 <= |f.payload| <= 2 + MAX_ERROR_TEXT)
  }

  ghost predicate Contents(d: Dialogue) {
    && (forall i {:trigger UpFrameOk(d.client.requestedMtu, d.terms, i, d.up[i])} ::
          0 <= i < |d.up| ==> UpFrameOk(d.client.requestedMtu, d.terms, i, d.up[i]))
    && (forall i {:trigger DownFrameOk(d.terms, i, d.down[i])} ::
          0 <= i < |d.down| ==> DownFrameOk(d.terms, i, d.down[i]))
  }

  /** Each side's counters follow the histories, mod 2^64. */
  ghost predicate Counters(d: Dialogue) {
    && d.upHandled <= |d.up| && d.downHandled <= |d.down|
    && Numbered(d.up) && Numbered(d.down)
    && (ClientLive(d.client) ==> d.client.outbound == Number(|d.up|) && d.client.expected == Number(d.downHandled))
    && (ServerLive(d.server) ==> d.server.outbound == Number(|d.down|) && d.server.expected == Number(d.upHandled))
  }

  /** Every offer this pool can make is acceptable to every client. */
  predicate Sound(c: Config) {
    ValidConfig(c) && C.Serviceable(c)
  }

  /** Terms the server sends can be decoded; from a sound pool they are also acceptable. */
  predicate TermsOk(c: Config, mtu: u16, a: Assignment) {
    ValidAssignment(a) && (Sound(c) ==> C.Acceptable(mtu, a))
  }

  /** The ERRORs an honest server raises: without a lease, and from an unsound pool for an offer it cannot encode. */
  predicate ServerFaultOk(c: Config, code: u16) {
    code == S.CodeOf(S.LeaseUnavailable) || (!Sound(c) && code == S.CodeOf(S.InvalidControlPayload))
  }

  /** The ERRORs an honest client raises: for a refusal, and from an unsound pool for terms it does not accept. */
  predicate ClientFaultOk(c: Config, code: u16) {
    code == C.CodeOf(C.UnexpectedMessage) || (!Sound(c) && code == C.CodeOf(C.InvalidAssignment))
  }

  /** The server's lease and MTU are the terms the client was given. */
  predicate Honours(c: Config, s: S.Session, a: Assignment) {
    && s.lease.Some? && s.lease.value.address == a.client && s.lease.value.addressV6 == a.clientV6 && s.mtu == a.mtu
    && s.lease.value.addressV6 == DeriveV6(c, a.client) && (a.clientV6 == IPV6_ZERO <==> a.prefixLengthV6 == 0)
  }

  predicate Phases(c: Config, d: Dialogue) {
    && C.ValidMtu(d.client.requestedMtu)
    && (d.client.state == C.Idle ==> d.up == [])
    && (d.client.state == C.AwaitingAssignment || d.client.state == C.Established ==> d.up != [])
    && (d.client.state == C.Idle || d.client.state == C.AwaitingAssignment ==>
          d.downHandled == 0 && d.client.assignment.None? && d.client.pendingNonce.None?)
    && (d.client.state == C.Established ==> d.downHandled > 0 && d.client.assignment.Some?)
    && (d.client.assignment.Some? ==> d.client.assignment == d.terms)
    && (d.terms.Some? ==> TermsOk(c, d.client.requestedMtu, d.terms.value))
    && S.HoldsIffEstablished(d.server) && d.server.identity != ""
    && (d.server.state == S.AwaitingHello ==> d.upHandled == 0 && d.down == [] && d.terms.None?)
    && (d.server.state == S.Established ==>
          d.upHandled > 0 && d.down != [] && d.terms.Some? && Honours(c, d.server, d.terms.value))
    && (d.terms.Some? ==> d.down == [] || d.down[0].kind == IpAssign)
  }

  /** PINGs not yet handled and PONGs not yet handled. */
  function Probes(d: Dialogue): seq<bytes>
    requires d.upHandled <= |d.up| && d.downHandled <= |d.down|
  {
    Select(d.up[d.upHandled..], {Ping}) + Select(d.down[d.downHandled..], {Pong})
  }

  /** A live client has at most one probe under way, and it carries the nonce the client waits for. */
  ghost predicate OneProbe(d: Dialogue)
    requires d.upHandled <= |d.up| && d.downHandled <= |d.down|
  {
    ClientLive(d.client) ==>
      Probes(d) == [] || (d.client.pendingNonce.Some? && Probes(d) == [ProbePayload(d.client.pendingNonce.value)])
  }

  ghost predicate Deliveries(d: Dialogue)
    requires d.upHandled <= |d.up| && d.downHandled <= |d.down|
  {
    && d.upDelivered <= Select(d.up[..d.upHandled], DATA)
    && (ServerLive(d.server) ==> d.upDelivered == Select(d.up[..d.upHandled], DATA))
    && d.downDelivered <= Select(d.down[..d.downHandled], DATA)
    && (ClientLive(d.client) ==> d.downDelivered == Select(d.down[..d.downHandled], DATA))
  }

  /** Only honest ERRORs; the client's answers the server's refusal, or terms of an unsound pool. */
  ghost predicate OnlyHonestFaults(c: Config, d: Dialogue) {
    && (forall x :: x in d.serverFaults ==> ServerFaultOk(c, x))
    && (forall x :: x in d.clientFaults ==> ClientFaultOk(c, x))
    && (d.clientFaults != [] ==> d.down != [] && (d.down[0].kind == MessageType.Error || !Sound(c)))
  }

  ghost predicate Script(c: Config, d: Dialogue) {
    Counters(d) && Phases(c, d) && Contents(d) && OneProbe(d) && Deliveries(d) && OnlyHonestFaults(c, d)
  }

  function NewDialogue(mtu: u16, identity: string): Dialogue {
    Dialogue(C.NewClient(mtu), [], 0, [], S.NewSession(identity), [], 0, [], None, [], [])
  }

  lemma NewScript(c: Config, mtu: u16, identity: string)
    requires C.ValidMtu(mtu) && identity != ""
    ensures Script(c, NewDialogue(mtu, identity))
  {
  }

  // ---------- Steps of the client ----------

  lemma NumberedAppend(fs: seq<Frame>, f: Frame)
    requires Numbered(fs) && f.sequence == Number(|fs|)
    ensures Numbered(fs + [f])
  {
  }

  /** The histories' frame checks, carried to a dialogue with the same histories. */
  lemma SameContents(d: Dialogue, d': Dialogue)
    requires Contents(d) && d'.up == d.up && d'.down == d.down && d'.terms == d.terms
    requires d'.client.requestedMtu == d.client.requestedMtu
    ensures Contents(d')
  {
    forall i | 0 <= i < |d'.up|
      ensures UpFrameOk(d'.client.requestedMtu, d'.terms, i, d'.up[i])
    {
      assert UpFrameOk(d.client.requestedMtu, d.terms, i, d.up[i]);
    }
    forall i | 0 <= i < |d'.down|
      ensures DownFrameOk(d'.terms, i, d'.down[i])
    {
      assert DownFrameOk(d.terms, i, d.down[i]);
    }
  }

  lemma MoreUp(d: Dialogue, d': Dialogue, f: Frame)
    requires Contents(d) && d'.up == d.up + [f] && d'.down == d.down && d'.terms == d.terms
    requires d'.client.requestedMtu == d.client.requestedMtu
    requires UpFrameOk(d.client.requestedMtu, d.terms, |d.up|, f)
    ensures Contents(d')
  {
    forall i | 0 <= i < |d'.up|
      ensures UpFrameOk(d'.client.requestedMtu, d'.terms, i, d'.up[i])
    {
      assert i == |d.up| || UpFrameOk(d.client.requestedMtu, d.terms, i, d.up[i]);
    }
    forall i | 0 <= i < |d'.down|
      ensures DownFrameOk(d'.terms, i, d'.down[i])
    {
      assert DownFrameOk(d.terms, i, d.down[i]);
    }
  }

  /** A client that closes, for whatever reason, keeps the script. */
  lemma ClientEnds(c: Config, d: Dialogue, k: C.Client)
    requires Script(c, d) && !ClientLive(k) && k.requestedMtu == d.client.requestedMtu
    requires k.assignment.Some? ==> k.assignment == d.terms
    ensures Script(c, d.(client := k))
  {
    SameContents(d, d.(client := k));
  }

  /** A live client, or one that is just closing, sends one more frame. */
  lemma ClientSends(c: Config, d: Dialogue, k: C.Client, f: Frame)
    requires Script(c, d) && ClientLive(d.client)
    requires f.sequence == d.client.outbound && UpFrameOk(d.client.requestedMtu, d.terms, |d.up|, f)
    requires k.requestedMtu == d.client.requestedMtu && k.assignment == d.client.assignment
    requires k.outbound == Next64(d.client.outbound) && k.expected == d.client.expected
    requires k.state == d.client.state != C.Idle || (d.client.state == C.Idle && k.state == C.AwaitingAssignment)
             || !ClientLive(k)
    requires ClientLive(k) ==> if f.kind == Ping
                               then d.client.state == C.Established && d.client.pendingNonce.None?
                                    && k.pendingNonce.Some? && f.payload == ProbePayload(k.pendingNonce.value)
                               else k.pendingNonce == d.client.pendingNonce
    ensures Script(c, d.(client := k, up := d.up + [f]))
  {
    var d' := d.(client := k, up := d.up + [f]);
    assert Counters(d') by {
      NumberedAppend(d.up, f);
      NextNumber(|d.up|);
    }
    MoreUp(d, d', f);
    assert d'.up[..d.upHandled] == d.up[..d.upHandled];
    assert OneProbe(d') by {
      ProbesAfterUp(d, d', f);
    }
  }

  lemma ProbesAfterUp(d: Dialogue, d': Dialogue, f: Frame)
    requires d.upHandled <= |d.up| && d.downHandled <= |d.down| && d'.up == d.up + [f]
    requires d'.down == d.down && d'.upHandled == d.upHandled && d'.downHandled == d.downHandled
    ensures Probes(d) == [] && f.kind == Ping ==> Probes(d') == [f.payload]
    ensures f.kind != Ping ==> Probes(d') == Probes(d)
  {
    assert d'.up[d.upHandled..] == d.up[d.upHandled..] + [f];
    SelectConcat(d.up[d.upHandled..], [f], {Ping});
    SelectOne(f, {Ping});
  }

  lemma StartKeeps(c: Config, d: Dialogue)
    requires Script(c, d) && d.client.state == C.Idle
    ensures var (k, f) := C.Start(d.client); f.Some? && Script(c, d.(client := k, up := d.up + [f.value]))
  {
    var (k, f) := C.Start(d.client);
    ClientSends(c, d, k, f.value);
  }

  lemma ClientDataKeeps(c: Config, d: Dialogue, packet: bytes)
    requires Script(c, d)
    ensures var (k, f) := C.MakeData(d.client, packet);
            && (f.None? ==> k == d.client)
            && (f.Some? ==> Script(c, d.(client := k, up := d.up + [f.value]))
                            && f.value.kind in DATA && f.value.payload == packet)
  {
    var (k, f) := C.MakeData(d.client, packet);
    if f.Some? {
      ClientSends(c, d, k, f.value);
    }
  }

  lemma ClientPingKeeps(c: Config, d: Dialogue, nonce: u64)
    requires Script(c, d)
    ensures var (k, f) := C.MakePing(d.client, nonce);
            && (f.None? ==> k == d.client)
            && (f.Some? ==> Script(c, d.(client := k, up := d.up + [f.value])) && f.value.kind == Ping)
  {
    var (k, f) := C.MakePing(d.client, nonce);
    if f.Some? {
      ClientSends(c, d, k, f.value);
    }
  }

  lemma ClientCloseKeeps(c: Config, d: Dialogue, code: u16)
    requires Script(c, d)
    ensures var (k, f) := C.MakeClose(d.client, code);
            && (f.None? ==> k == d.client)
            && (f.Some? ==> Script(c, d.(client := k, up := d.up + [f.value])) && f.value.kind == Close
                            && !ClientLive(k))
  {
    var (k, f) := C.MakeClose(d.client, code);
    if f.Some? {
      ClientSends(c, d, k, f.value);
    }
  }
}
