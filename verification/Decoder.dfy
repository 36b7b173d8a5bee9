/** The incremental frame decoder and its independence of how the stream is cut. */
module Decoder {
  import opened Bytes
  import opened Wire

  /** What the decoder remembers between reads: the unparsed bytes and the failure latch. */
  datatype State = State(pending: bytes, failed: bool)

  const INIT := State([], false)

  /** One `push`: parse everything available; a bad header latches and loses the call's frames. */
  function PushSpec(st: State, chunk: bytes): (State, Result<seq<Frame>, ProtocolError>)
  {
    if st.failed then (st, Err(DecoderFailed))
    else
      var o := ParseAll(st.pending + chunk);
      match o.error
      case Some(e) => (State(o.rest, true), Err(e))
      case None => (State(o.rest, false), Ok(o.frames))
  }

  class FrameDecoder {
    var buffer: bytes
    var offset: nat
    var failed: bool

    ghost predicate Valid()
      reads this
    {
      offset <= |buffer|
    }

    ghost function Model(): State
      requires Valid()
      reads this
    {
      State(buffer[offset..], failed)
    }

    constructor ()
      ensures Valid() && Model() == INIT
    {
      buffer, offset, failed := [], 0, false;
    }

    method Push(data: bytes) returns (r: Result<seq<Frame>, ProtocolError>)
      requires Valid()
      modifies this
      ensures Valid()
      ensures (Model(), r) == PushSpec(old(Model()), data)
      ensures r.Ok? ==> |buffer| - offset < HEADER_SIZE + MAX_PAYLOAD
    {
      if failed {
        return Err(DecoderFailed);
      }
      if offset > 0 {
        buffer := buffer[offset..];
        offset := 0;
      }
      if |data| > 0 {
        buffer := buffer + data;
      }
      ghost var joined := old(Model()).pending + data;
      assert buffer == joined;
      var frames, parsed, code := Scan(buffer);
      assert ParseAll(joined) == Outcome(frames, buffer[parsed..], code);
      offset := parsed;
      if code.Some? {
        failed := true;
        return Err(code.value);
      }
      if offset == |buffer| {
        buffer := [];
        offset := 0;
      }
      assert Model() == State(ParseAll(joined).rest, false);
      r := Ok(frames);
    }

    method Reset()
      modifies this
      ensures Valid() && Model() == INIT
    {
      buffer, offset, failed := [], 0, false;
    }
  }

  /** `frames` so far and the outcome of the remaining bytes make up the outcome of the whole. */
  ghost predicate Progress(whole: Outcome, frames: seq<Frame>, remaining: Outcome) {
    whole == Outcome(frames + remaining.frames, remaining.rest, remaining.error)
  }

  /** The scan has found `frames` before `offset`; unfolded only where `ParseAll` is mentioned. */
  ghost predicate Scanned(buffer: bytes, offset: nat, frames: seq<Frame>)
    requires offset <= |buffer|
  {
    forall b {:trigger ParseAll(b)} :: b == buffer ==> Progress(ParseAll(b), frames, ParseAll(buffer[offset..]))
  }

  /** The bytes from `offset` on begin as `p` says; unfolded only where `ParseFirst` is mentioned. */
  ghost predicate BeginsWith(buffer: bytes, offset: nat, p: Parse)
    requires offset <= |buffer|
  {
    forall b {:trigger ParseFirst(b)} :: b == buffer[offset..] ==> ParseFirst(b) == p
  }

  /** The whole-stream parser finds `frames` before `offset` and stops there with `code`. */
  ghost predicate Found(buffer: bytes, frames: seq<Frame>, offset: nat, code: Option<ProtocolError>)
    requires offset <= |buffer|
  {
    forall b {:trigger ParseAll(b)} :: b == buffer ==> ParseAll(b) == Outcome(frames, buffer[offset..], code)
  }

  lemma TooShort(buffer: bytes, offset: nat)
    requires offset <= |buffer| < offset + HEADER_SIZE
    ensures BeginsWith(buffer, offset, NeedMore)
  {
  }

  lemma ScanBegins(buffer: bytes)
    ensures Scanned(buffer, 0, [])
  {
    assert buffer[0..] == buffer && [] + ParseAll(buffer).frames == ParseAll(buffer).frames;
  }

  lemma ScanContinues(buffer: bytes, offset: nat, frames: seq<Frame>, p: Parse, next: nat, more: seq<Frame>)
    requires offset <= |buffer| && Scanned(buffer, offset, frames) && BeginsWith(buffer, offset, p) && p.Accept?
    requires next == offset + p.size && more == frames + [p.frame]
    ensures offset < next <= |buffer| && Scanned(buffer, next, more)
  {
    assert ParseFirst(buffer[offset..]) == p;
    assert Progress(ParseAll(buffer), frames, ParseAll(buffer[offset..]));
    assert buffer[offset..][p.size..] == buffer[offset + p.size..];
    var o := ParseAll(buffer[offset + p.size..]);
    assert frames + ([p.frame] + o.frames) == frames + [p.frame] + o.frames;
  }

  lemma ScanStops(buffer: bytes, offset: nat, frames: seq<Frame>, p: Parse, code: Option<ProtocolError>)
    requires offset <= |buffer| && Scanned(buffer, offset, frames) && BeginsWith(buffer, offset, p) && !p.Accept?
    requires code == if p.Reject? then Some(p.error) else None
    ensures Found(buffer, frames, offset, code)
    ensures p.NeedMore? ==> |buffer| - offset < HEADER_SIZE + MAX_PAYLOAD
  {
    assert ParseFirst(buffer[offset..]) == p;
    assert Progress(ParseAll(buffer), frames, ParseAll(buffer[offset..]));
    assert frames + [] == frames;
    LeftoverIsPartial(buffer);
  }

  /** The decoding loop: frames found, where it stopped, and the error that stopped it, if any. */
  method Scan(buffer: bytes) returns (frames: seq<Frame>, offset: nat, code: Option<ProtocolError>)
    ensures offset <= |buffer| && Found(buffer, frames, offset, code)
    ensures code == None ==> |buffer| - offset < HEADER_SIZE + MAX_PAYLOAD
  {
    frames, offset, code := [], 0, None;
    ScanBegins(buffer);
    while |buffer| - offset >= HEADER_SIZE
      invariant offset <= |buffer| && Scanned(buffer, offset, frames) && code == None
      decreases |buffer| - offset
    {
      var p := NextFrame(buffer, offset);
      if !p.Accept? {
        code := if p.Reject? then Some(p.error) else None;
        ScanStops(buffer, offset, frames, p, code);
        return;
      }
      var next, more := offset + p.size, frames + [p.frame];
      ScanContinues(buffer, offset, frames, p, next, more);
      offset, frames := next, more;
    }
    TooShort(buffer, offset);
    ScanStops(buffer, offset, frames, NeedMore, code);
  }

  /** One turn of the decoding loop: examine the header at `offset`, then the payload it announces. */
  method NextFrame(buffer: bytes, offset: nat) returns (p: Parse)
    requires offset + HEADER_SIZE <= |buffer|
    ensures BeginsWith(buffer, offset, p)
  {
    ghost var available := buffer[offset..];
    assert available[..HEADER_SIZE] == buffer[offset..offset + HEADER_SIZE];
    HeaderLocal(buffer, offset, available);
    if ReadU32(buffer, offset) != MAGIC {
      return Reject(InvalidMagic);
    }
    if buffer[offset + 4] != VERSION {
      return Reject(UnsupportedVersion);
    }
    if !KnownType(buffer[offset + 5]) {
      return Reject(UnknownMessageType);
    }
    var flags := ReadU16(buffer, offset + 6);
    if flags != 0 {
      return Reject(UnsupportedFlags);
    }
    var payloadSize := ReadU32(buffer, offset + 8);
    if payloadSize > MAX_PAYLOAD {
      return Reject(PayloadTooLarge);
    }
    if |buffer| - offset < HEADER_SIZE + payloadSize {
      return NeedMore;
    }
    var payload := buffer[offset + HEADER_SIZE..offset + HEADER_SIZE + payloadSize];
    assert payload == available[HEADER_SIZE..HEADER_SIZE + payloadSize];
    var sequence := ReadU64(buffer, offset + 12);
    p := Accept(Frame(TypeOf(buffer[offset + 5]), flags, sequence, payload), HEADER_SIZE + payloadSize);
  }

  // ---------- Any number of pushes ----------

  /** State, emitted frames and first error after pushing `chunks` one by one. */
  datatype Fed = Fed(state: State, frames: seq<Frame>, error: Option<ProtocolError>)

  function Feed(st: State, chunks: seq<bytes>): Fed
    decreases |chunks|
  {
    if chunks == [] then Fed(st, [], None)
    else
      var (st1, r) := PushSpec(st, chunks[0]);
      var tail := Feed(st1, chunks[1..]);
      match r
      case Ok(frames) => tail.(frames := frames + tail.frames)
      case Err(e) => tail.(error := Some(e))
  }

  /** Once failed, no sequence of pushes changes the state or emits a frame. */
  lemma {:induction false} FailureIsSticky(st: State, chunks: seq<bytes>)
    requires st.failed
    ensures Feed(st, chunks).state == st && Feed(st, chunks).frames == []
    ensures chunks != [] ==> Feed(st, chunks).error == Some(DecoderFailed)
    decreases |chunks|
  {
    if chunks != [] {
      FailureIsSticky(st, chunks[1..]);
    }
  }

  lemma PrefixUnder(a: seq<Frame>, b: seq<Frame>, c: seq<Frame>)
    requires b <= c
    ensures a + b <= a + c
  {
  }

  lemma {:induction false} FeedFollowsParseAll(st: State, chunks: seq<bytes>)
    requires !st.failed && ParseFirst(st.pending) == NeedMore
    ensures var fed := Feed(st, chunks);
            var whole := ParseAll(st.pending + Flatten(chunks));
            && fed.state.failed == whole.error.Some? && fed.error == whole.error
            && fed.frames <= whole.frames
            && (whole.error.None? ==> fed.frames == whole.frames && fed.state.pending == whole.rest)
    decreases |chunks|
  {
    if chunks == [] {
      assert st.pending + [] == st.pending;
    } else {
      var st1 := PushSpec(st, chunks[0]).0;
      var head, tail := st.pending + chunks[0], Flatten(chunks[1..]);
      ParseAllSplit(head, tail);
      ConcatAssociates(st.pending, chunks[0], tail);
      if st1.failed {
        FailureIsSticky(st1, chunks[1..]);
      } else {
        assert ParseFirst(st1.pending) == NeedMore by {
          LeftoverIsPartial(head);
        }
        FeedFollowsParseAll(st1, chunks[1..]);
        PrefixUnder(ParseAll(head).frames, Feed(st1, chunks[1..]).frames, ParseAll(st1.pending + tail).frames);
      }
    }
  }

  /** How many pushes come before the first that fails. */
  function GoodPushes(st: State, chunks: seq<bytes>): (n: nat)
    ensures n <= |chunks|
    decreases |chunks|
  {
    if chunks == [] || PushSpec(st, chunks[0]).1.Err? then 0
    else 1 + GoodPushes(PushSpec(st, chunks[0]).0, chunks[1..])
  }

  /** The frames emitted are those of the good pushes. */
  lemma {:induction false} OnlyGoodPushesEmit(st: State, chunks: seq<bytes>)
    requires !st.failed
    ensures var n := GoodPushes(st, chunks);
            && Feed(st, chunks).frames == Feed(st, chunks[..n]).frames && Feed(st, chunks[..n]).error.None?
            && (n < |chunks| ==> Feed(st, chunks[..n + 1]).error.Some?)
    decreases |chunks|
  {
    if chunks != [] {
      var (st1, r) := PushSpec(st, chunks[0]);
      var n := GoodPushes(st, chunks);
      if r.Err? {
        FailureIsSticky(st1, chunks[1..]);
        assert chunks[..1][1..] == [];
      } else {
        OnlyGoodPushesEmit(st1, chunks[1..]);
        assert chunks[..n][1..] == chunks[1..][..n - 1];
        assert n < |chunks| ==> chunks[..n + 1][1..] == chunks[1..][..n];
      }
    }
  }

  /** The parser's view of a decoder that starts afresh. */
  lemma FreshFeed(chunks: seq<bytes>)
    ensures var fed, whole := Feed(INIT, chunks), ParseAll(Flatten(chunks));
            && fed.state.failed == whole.error.Some? && fed.error == whole.error && fed.frames <= whole.frames
            && (whole.error.None? ==> fed.frames == whole.frames && fed.state.pending == whole.rest)
  {
    FeedFollowsParseAll(INIT, chunks);
    assert [] + Flatten(chunks) == Flatten(chunks);
  }

  /**
   * Chunking invariance: for every stream and every cut of it, the decoder fails exactly when parsing
   * the uncut stream fails and with the same first error. Its buffer after a good stream is exactly the
   * unparsed suffix, shorter than one maximal frame. The frames it emitted are the parser's frames of the
   * longest run of chunks that parses: all of them when nothing fails, and otherwise those before the chunk
   * that brings the error, a prefix of the parser's.
   */
  lemma ChunkingInvariance(chunks: seq<bytes>)
    ensures var fed := Feed(INIT, chunks);
            var whole := ParseAll(Flatten(chunks));
            var i := GoodPushes(INIT, chunks);
            && fed.state.failed == whole.error.Some? && fed.error == whole.error && fed.frames <= whole.frames
            && ParseAll(Flatten(chunks[..i])).error.None? && fed.frames == ParseAll(Flatten(chunks[..i])).frames
            && (i < |chunks| ==> ParseAll(Flatten(chunks[..i + 1])).error.Some?)
            && (!fed.state.failed ==> && fed.frames == whole.frames && AllEncodable(fed.frames)
                                      && EncodeAll(fed.frames) + fed.state.pending == Flatten(chunks)
                                      && |fed.state.pending| < HEADER_SIZE + MAX_PAYLOAD)
  {
    FreshFeed(chunks);
    LeftoverIsPartial(Flatten(chunks));
    ParseAllSound(Flatten(chunks));
    OnlyGoodPushesEmit(INIT, chunks);
    var i := GoodPushes(INIT, chunks);
    FreshFeed(chunks[..i]);
    if i < |chunks| {
      FreshFeed(chunks[..i + 1]);
    }
  }

  /** Two ways of cutting the same bytes agree on failure, on the error and on all frames of a good stream. */
  lemma CutsAgree(a: seq<bytes>, b: seq<bytes>)
    requires Flatten(a) == Flatten(b)
    ensures var fa, fb := Feed(INIT, a), Feed(INIT, b);
            && fa.error == fb.error
            && (fa.error.None? ==> fa.frames == fb.frames && fa.state == fb.state)
  {
    FreshFeed(a);
    FreshFeed(b);
  }

  /** A stream of printed frames, however cut, decodes to exactly those frames and leaves nothing. */
  lemma DecoderInvertsEncoder(fs: seq<Frame>, chunks: seq<bytes>)
    requires AllEncodable(fs) && Flatten(chunks) == EncodeAll(fs)
    ensures Feed(INIT, chunks) == Fed(INIT, fs, None)
  {
    FreshFeed(chunks);
    ParseAllOfEncodeAll(fs);
  }
}
