/** One direction of a tunnel: the bounded queue and write pump, the byte stream, and the decoder at its end. */
module Transport {
  import opened Bytes
  import opened Wire
  import Decoder

  datatype Limits = Limits(frames: nat, octets: nat)

  /** The queue's constructor insists on room for one frame header. */
  predicate ValidLimits(lim: Limits) {
    lim.frames > 0 && lim.octets >= HEADER_SIZE
  }

  /**
   * The sending half: encoded frames waiting, the flags of the write pump, and as history the frames
   * enqueued, how many have been submitted, all bytes submitted, writes in flight and close callbacks.
   */
  datatype Outgoing = Outgoing(
    queue: seq<bytes>,
    writing: bool,
    closing: bool,
    stopped: bool,
    sent: seq<Frame>,
    submitted: nat,
    written: bytes,
    inFlight: nat,
    closes: nat)

  const IDLE := Outgoing([], false, false, false, [], 0, [], 0, 0)

  /** The receiving half: bytes taken from the stream, the decoder, decoded frames not yet handled. */
  datatype Incoming = Incoming(consumed: nat, decoder: Decoder.State, inbox: seq<Frame>, decoded: nat, handled: nat)

  const DEAF := Incoming(0, Decoder.INIT, [], 0, 0)

  function Total(queue: seq<bytes>): nat {
    if queue == [] then 0 else |queue[0]| + Total(queue[1..])
  }

  predicate Fits(lim: Limits, queue: seq<bytes>, block: bytes) {
    |queue| < lim.frames && Total(queue) + |block| <= lim.octets
  }

  // ---------- The pump's operations ----------

  function CloseNow(o: Outgoing): Outgoing {
    if o.stopped then o else o.(stopped := true, queue := [], closes := o.closes + 1)
  }

  function WriteNext(o: Outgoing): Outgoing {
    if o.stopped || o.queue == [] then
      if o.closing then CloseNow(o.(writing := false)) else o.(writing := false)
    else
      o.(writing := true, submitted := o.submitted + 1, written := o.written + o.queue[0], inFlight := o.inFlight + 1)
  }

  function Enqueue(lim: Limits, o: Outgoing, f: Frame): (Outgoing, bool) {
    if o.stopped || !Encodable(f) || !Fits(lim, o.queue, FrameBytes(f)) then (o, false)
    else
      var o1 := o.(queue := o.queue + [FrameBytes(f)], sent := o.sent + [f]);
      (if o1.writing then o1 else WriteNext(o1), true)
  }

  /** Completion of the write in flight; without one there is no completion. */
  function WriteDone(o: Outgoing, ok: bool): Outgoing {
    if o.inFlight == 0 then o
    else
      var o1 := o.(inFlight := o.inFlight - 1);
      if o1.stopped then o1
      else if !ok || o1.queue == [] then CloseNow(o1)
      else WriteNext(o1.(queue := o1.queue[1..]))
  }

  /** Close once the queue has drained, at once if it is empty and idle. */
  function CloseAfterWrite(o: Outgoing): Outgoing {
    var o1 := o.(closing := true);
    if !o1.writing && o1.queue == [] then CloseNow(o1) else o1
  }

  // ---------- The pump's invariant ----------

  function Waiting(o: Outgoing): nat {
    if o.writing then 1 else 0
  }

  /**
   * While open: one write in flight exactly when the queue is not empty, and it is the front; the queue is
   * the encodings of the enqueued frames not yet completed, within both limits. Always: the bytes submitted
   * are the encodings of the first enqueued frames, without gaps, and the close callback ran once if stopped.
   */
  ghost predicate PumpInv(lim: Limits, o: Outgoing) {
    && AllEncodable(o.sent) && o.submitted <= |o.sent|
    && o.written == EncodeAll(o.sent[..o.submitted])
    && o.inFlight <= 1 && o.closes == (if o.stopped then 1 else 0)
    && (o.stopped ==> o.queue == [])
    && (!o.stopped ==>
          && o.inFlight == Waiting(o) <= o.submitted && (o.writing <==> o.queue != [])
          && o.queue == EncodeEach(o.sent[o.submitted - Waiting(o)..])
          && |o.queue| <= lim.frames && Total(o.queue) <= lim.octets)
  }

  lemma {:induction false} TotalAppend(queue: seq<bytes>, block: bytes)
    ensures Total(queue + [block]) == Total(queue) + |block|
  {
    if queue == [] {
      assert queue + [block] == [block] && [block][1..] == [];
    } else {
      TotalAppend(queue[1..], block);
      assert (queue + [block])[1..] == queue[1..] + [block];
    }
  }

  lemma CloseNowKeeps(lim: Limits, o: Outgoing)
    requires PumpInv(lim, o)
    ensures PumpInv(lim, CloseNow(o))
  {
  }

  /** Submitting the front block of a queue that holds exactly the frames from `submitted` on. */
  lemma SubmitKeeps(lim: Limits, o: Outgoing)
    requires AllEncodable(o.sent) && o.submitted < |o.sent| && !o.stopped && o.inFlight == 0 && o.closes == 0
    requires o.written == EncodeAll(o.sent[..o.submitted]) && o.queue == EncodeEach(o.sent[o.submitted..])
    requires |o.queue| <= lim.frames && Total(o.queue) <= lim.octets
    ensures PumpInv(lim, WriteNext(o))
  {
    var f := o.sent[o.submitted];
    EncodeAllAppend(o.sent[..o.submitted], [f]);
    EncodeAllOne(f);
    assert o.sent[..o.submitted + 1] == o.sent[..o.submitted] + [f];
    assert o.queue[0] == FrameBytes(f);
  }

  lemma HistoryAppend(sent: seq<Frame>, from: nat, submitted: nat, f: Frame)
    requires from <= submitted <= |sent| && AllEncodable(sent) && Encodable(f)
    ensures AllEncodable(sent + [f]) && (sent + [f])[..submitted] == sent[..submitted]
    ensures EncodeEach((sent + [f])[from..]) == EncodeEach(sent[from..]) + [FrameBytes(f)]
  {
    assert (sent + [f])[from..] == sent[from..] + [f];
  }

  lemma EnqueueKeeps(lim: Limits, o: Outgoing, f: Frame)
    requires PumpInv(lim, o)
    ensures var (o', ok) := Enqueue(lim, o, f);
            && PumpInv(lim, o') && o'.closing == o.closing && o'.stopped == o.stopped
            && o'.sent == (if ok then o.sent + [f] else o.sent) && (ok ==> Encodable(f)) && (!ok ==> o' == o)
            && o.submitted <= o'.submitted
  {
    if Enqueue(lim, o, f).1 {
      var o1 := o.(queue := o.queue + [FrameBytes(f)], sent := o.sent + [f]);
      var from := o.submitted - Waiting(o);
      TotalAppend(o.queue, FrameBytes(f));
      HistoryAppend(o.sent, from, o.submitted, f);
      if !o.writing {
        SubmitKeeps(lim, o1);
      }
    }
  }

  lemma WriteDoneKeeps(lim: Limits, o: Outgoing, ok: bool)
    requires PumpInv(lim, o)
    ensures PumpInv(lim, WriteDone(o, ok)) && WriteDone(o, ok).sent == o.sent && WriteDone(o, ok).closing == o.closing
    ensures o.submitted <= WriteDone(o, ok).submitted && (o.stopped ==> WriteDone(o, ok).stopped)
  {
    if o.inFlight > 0 && !o.stopped && ok {
      var o1 := o.(inFlight := 0, queue := o.queue[1..]);
      assert o.sent[o.submitted - 1..][1..] == o.sent[o.submitted..];
      assert EncodeEach(o.sent[o.submitted..]) == o1.queue;
      if o1.queue != [] {
        SubmitKeeps(lim, o1);
      }
    }
  }

  lemma CloseAfterWriteKeeps(lim: Limits, o: Outgoing)
    requires PumpInv(lim, o)
    ensures PumpInv(lim, CloseAfterWrite(o)) && CloseAfterWrite(o).sent == o.sent
    ensures CloseAfterWrite(o).submitted == o.submitted
  {
  }

  /** Draining: once closing, each completed write shortens the queue, and the last one closes. */
  lemma DrainsToClose(lim: Limits, o: Outgoing)
    requires PumpInv(lim, o) && o.closing && !o.stopped && o.inFlight > 0
    ensures var o' := WriteDone(o, true);
            && (|o.queue| == 1 ==> o'.stopped)
            && (|o.queue| > 1 ==> !o'.stopped && |o'.queue| == |o.queue| - 1 && o'.inFlight == 1)
  {
  }

  // ---------- From one end to the other ----------

  /**
   * What an open receiver has of the stream: its undecoded bytes followed by the unread ones are the
   * encodings of the frames submitted after those it decoded.
   */
  ghost predicate Streams(o: Outgoing, i: Incoming) {
    && AllEncodable(o.sent) && !i.decoder.failed
    && i.decoded <= o.submitted <= |o.sent| && i.consumed <= |o.written|
    && i.decoder.pending + o.written[i.consumed..] == EncodeAll(o.sent[i.decoded..o.submitted])
  }

  /** And while it handles frames: its inbox is the enqueued frames decoded and not yet handled. */
  ghost predicate Conveys(o: Outgoing, i: Incoming) {
    Streams(o, i) && i.handled <= i.decoded && i.inbox == o.sent[i.handled..i.decoded]
  }

  /** Extending a history extends its slices. */
  lemma Resliced(sent: seq<Frame>, sent': seq<Frame>, decoded: nat, submitted: nat, submitted': nat)
    requires sent <= sent' && decoded <= submitted <= |sent| && submitted <= submitted' <= |sent'|
    ensures sent'[decoded..submitted'] == sent[decoded..submitted] + sent'[submitted..submitted']
    ensures sent'[..submitted'] == sent[..submitted] + sent'[submitted..submitted']
    ensures forall a :: 0 <= a <= decoded ==> sent'[a..decoded] == sent[a..decoded]
  {
  }

  lemma DropConcat(s: bytes, t: bytes, n: nat)
    requires n <= |s|
    ensures (s + t)[n..] == s[n..] + t
  {
  }

  lemma JoinTail(pending: bytes, tail: bytes, fs: seq<Frame>, more: seq<Frame>)
    requires AllEncodable(fs) && AllEncodable(more) && pending + tail == EncodeAll(fs)
    ensures pending + (tail + EncodeAll(more)) == EncodeAll(fs + more)
  {
    EncodeAllAppend(fs, more);
    ConcatAssociates(pending, tail, EncodeAll(more));
  }

  /** What has been written since. */
  lemma WrittenSince(sent: seq<Frame>, sent': seq<Frame>, submitted: nat, submitted': nat)
    requires sent <= sent' && AllEncodable(sent') && submitted <= |sent| && submitted <= submitted' <= |sent'|
    ensures EncodeAll(sent'[..submitted']) == EncodeAll(sent[..submitted]) + EncodeAll(sent'[submitted..submitted'])
  {
    Resliced(sent, sent', submitted, submitted, submitted');
    EncodeAllAppend(sent[..submitted], sent'[submitted..submitted']);
  }

  /** The sender only ever extends its histories. */
  lemma SenderStreams(lim: Limits, o: Outgoing, o': Outgoing, i: Incoming)
    requires PumpInv(lim, o) && PumpInv(lim, o') && Streams(o, i)
    requires o.sent <= o'.sent && o.submitted <= o'.submitted
    ensures Streams(o', i)
  {
    var more := o'.sent[o.submitted..o'.submitted];
    WrittenSince(o.sent, o'.sent, o.submitted, o'.submitted);
    Resliced(o.sent, o'.sent, i.decoded, o.submitted, o'.submitted);
    StreamGrows(i.decoder.pending, o.written, i.consumed, o.sent[i.decoded..o.submitted], more);
  }

  lemma StreamGrows(pending: bytes, written: bytes, consumed: nat, fs: seq<Frame>, more: seq<Frame>)
    requires AllEncodable(fs) && AllEncodable(more) && consumed <= |written|
    requires pending + written[consumed..] == EncodeAll(fs)
    ensures pending + (written + EncodeAll(more))[consumed..] == EncodeAll(fs + more)
  {
    DropConcat(written, EncodeAll(more), consumed);
    JoinTail(pending, written[consumed..], fs, more);
  }

  lemma SenderAdvances(lim: Limits, o: Outgoing, o': Outgoing, i: Incoming)
    requires PumpInv(lim, o) && PumpInv(lim, o') && Conveys(o, i)
    requires o.sent <= o'.sent && o.submitted <= o'.submitted
    ensures Conveys(o', i)
  {
    SenderStreams(lim, o, o', i);
    Resliced(o.sent, o'.sent, i.decoded, o.submitted, o'.submitted);
  }

  /** The receiving half after reading a chunk. */
  function Read(i: Incoming, chunk: bytes): (Incoming, bool) {
    var (decoder, r) := Decoder.PushSpec(i.decoder, chunk);
    match r
    case Err(_) => (i.(consumed := i.consumed + |chunk|, decoder := decoder), false)
    case Ok(frames) =>
      (Incoming(i.consumed + |chunk|, decoder, i.inbox + frames, i.decoded + |frames|, i.handled), true)
  }

  lemma CutAt(s: bytes, a: nat, n: nat)
    requires a + n <= |s|
    ensures s[a..] == s[a..a + n] + s[a + n..]
  {
  }

  /** Reading `chunk` succeeds and leads to `i'`; unfolded only where `Read` is mentioned. */
  ghost predicate ReadsTo(i: Incoming, chunk: bytes, i': Incoming) {
    forall c {:trigger Read(i, c)} :: c == chunk ==> Read(i, c) == (i', true)
  }

  /** Reading part of a stream of printed frames yields the next of them and leaves the others to come. */
  lemma Decodes(i: Incoming, chunk: bytes, later: bytes, fs: seq<Frame>) returns (k: nat, st: Decoder.State)
    requires !i.decoder.failed && AllEncodable(fs) && i.decoder.pending + (chunk + later) == EncodeAll(fs)
    ensures k <= |fs| && !st.failed && st.pending + later == EncodeAll(fs[k..])
    ensures ReadsTo(i, chunk, Incoming(i.consumed + |chunk|, st, i.inbox + fs[..k], i.decoded + k, i.handled))
  {
    ConcatAssociates(i.decoder.pending, chunk, later);
    k := ParseAllOfReceivedPart(i.decoder.pending + chunk, later, fs);
    st := Decoder.PushSpec(i.decoder, chunk).0;
  }

  /** The slice from `b` to `d`, cut at `c`, and the slice from `a` to `b` extended to `c`. */
  lemma Slices(s: seq<Frame>, a: nat, b: nat, c: nat, d: nat)
    requires a <= b <= c <= d <= |s|
    ensures s[b..d][..c - b] == s[b..c] && s[b..d][c - b..] == s[c..d] && s[a..b] + s[b..c] == s[a..c]
  {
  }

  /** Reading any part of the stream never fails and decodes the next enqueued frames, in order. */
  lemma ReadStreams(o: Outgoing, i: Incoming, n: nat) returns (k: nat, i': Incoming)
    requires Streams(o, i) && i.consumed + n <= |o.written|
    ensures ReadsTo(i, o.written[i.consumed..i.consumed + n], i') && Streams(o, i')
    ensures i'.decoded == i.decoded + k <= o.submitted && i'.handled == i.handled
    ensures i'.inbox == i.inbox + o.sent[i.decoded..i.decoded + k]
  {
    var chunk, later := o.written[i.consumed..i.consumed + n], o.written[i.consumed + n..];
    var fs, st := o.sent[i.decoded..o.submitted], i.decoder;
    CutAt(o.written, i.consumed, n);
    k, st := Decodes(i, chunk, later, fs);
    Slices(o.sent, i.decoded, i.decoded, i.decoded + k, o.submitted);
    i' := Incoming(i.consumed + |chunk|, st, i.inbox + fs[..k], i.decoded + k, i.handled);
  }

  lemma ReadConveys(o: Outgoing, i: Incoming, n: nat) returns (i': Incoming)
    requires Conveys(o, i) && i.consumed + n <= |o.written|
    ensures ReadsTo(i, o.written[i.consumed..i.consumed + n], i') && Conveys(o, i') && i'.handled == i.handled
  {
    var k;
    k, i' := ReadStreams(o, i, n);
    Slices(o.sent, i.handled, i.decoded, i.decoded + k, o.submitted);
  }

  function Take(i: Incoming): Incoming
    requires i.inbox != []
  {
    i.(inbox := i.inbox[1..], handled := i.handled + 1)
  }

  /** The next frame handled is the next frame enqueued. */
  lemma TakeConveys(o: Outgoing, i: Incoming)
    requires Conveys(o, i) && i.inbox != []
    ensures i.handled < |o.sent| && i.inbox[0] == o.sent[i.handled] && Conveys(o, Take(i))
  {
  }
}
