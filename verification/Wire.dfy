/** The framed tunnel protocol: header layout, printer and whole-stream parser. */
module Wire {
  import opened Bytes

  const MAGIC: u32 := 0x5056504E
  const VERSION: byte := 2
  const HEADER_SIZE := 20
  const MAX_PAYLOAD := 65535

  datatype MessageType =
    | ClientHello
    | IpAssign
    | DataIpv4
    | Ping
    | Pong
    | Error
    | Close
    | DataIpv6

  datatype ProtocolError =
    | InvalidMagic
    | UnsupportedVersion
    | UnknownMessageType
    | UnsupportedFlags
    | PayloadTooLarge
    | DecoderFailed

  datatype Frame = Frame(kind: MessageType, flags: u16, sequence: u64, payload: bytes)

  function TypeCode(t: MessageType): (b: byte)
  {
    match t
    case ClientHello => 1
    case IpAssign => 2
    case DataIpv4 => 3
    case Ping => 4
    case Pong => 5
    case Error => 6
    case Close => 7
    case DataIpv6 => 8
  }

  predicate KnownType(raw: byte) {
    1 <= raw <= 8
  }

  function TypeOf(raw: byte): (t: MessageType)
    requires KnownType(raw)
    ensures TypeCode(t) == raw
  {
    match raw
    case 1 => ClientHello
    case 2 => IpAssign
    case 3 => DataIpv4
    case 4 => Ping
    case 5 => Pong
    case 6 => Error
    case 7 => Close
    case _ => DataIpv6
  }

  /** The frames that `EncodeFrame` accepts. */
  predicate Encodable(f: Frame) {
    f.flags == 0 && |f.payload| <= MAX_PAYLOAD
  }

  /** Byte `i` of the header: magic, version, type, flags, payload length, sequence number. */
  function HeaderByte(f: Frame, i: nat): byte
    requires i < HEADER_SIZE && |f.payload| <= MAX_PAYLOAD
  {
    if i < 4 then U32(MAGIC)[i]
    else if i == 4 then VERSION
    else if i == 5 then TypeCode(f.kind)
    else if i < 8 then U16(f.flags)[i - 6]
    else if i < 12 then U32(|f.payload|)[i - 8]
    else U64(f.sequence)[i - 12]
  }

  function FrameBytes(f: Frame): (s: bytes)
    requires |f.payload| <= MAX_PAYLOAD
    ensures |s| == HEADER_SIZE + |f.payload|
  {
    seq(HEADER_SIZE, i requires 0 <= i < HEADER_SIZE => HeaderByte(f, i)) + f.payload
  }

  method EncodeFrame(f: Frame) returns (r: Result<bytes, ProtocolError>)
    ensures f.flags != 0 ==> r == Err(UnsupportedFlags)
    ensures f.flags == 0 && |f.payload| > MAX_PAYLOAD ==> r == Err(PayloadTooLarge)
    ensures Encodable(f) ==> r == Ok(FrameBytes(f))
    ensures r.Ok? ==> ParseFirst(r.value) == Accept(f, |r.value|)
  {
    if f.flags != 0 {
      return Err(UnsupportedFlags);
    }
    if |f.payload| > MAX_PAYLOAD {
      return Err(PayloadTooLarge);
    }
    var encoded: bytes := U32(MAGIC);
    encoded := encoded + [VERSION];
    encoded := encoded + [TypeCode(f.kind)];
    encoded := encoded + U16(f.flags);
    encoded := encoded + U32(|f.payload|);
    encoded := encoded + U64(f.sequence);
    encoded := encoded + f.payload;
    assert FrameBytes(f) == encoded;
    ParseFirstOfFrame(f, []);
    assert FrameBytes(f) + [] == encoded;
    r := Ok(encoded);
  }

  // ---------- Parsing the front of a stream ----------

  datatype Parse =
    | NeedMore
    | Reject(error: ProtocolError)
    | Accept(frame: Frame, size: nat)

  /** The first complaint about a complete header, in the order the decoder checks. */
  function HeaderError(s: bytes): Option<ProtocolError>
    requires |s| >= HEADER_SIZE
  {
    if ReadU32(s, 0) != MAGIC then Some(InvalidMagic)
    else if s[4] != VERSION then Some(UnsupportedVersion)
    else if !KnownType(s[5]) then Some(UnknownMessageType)
    else if ReadU16(s, 6) != 0 then Some(UnsupportedFlags)
    else if ReadU32(s, 8) > MAX_PAYLOAD then Some(PayloadTooLarge)
    else None
  }

  function ParseFirst(s: bytes): (p: Parse)
    ensures p.Accept? ==> HEADER_SIZE <= p.size <= |s|
  {
    if |s| < HEADER_SIZE then NeedMore
    else if HeaderError(s).Some? then Reject(HeaderError(s).value)
    else if |s| < HEADER_SIZE + ReadU32(s, 8) then NeedMore
    else
      var n := HEADER_SIZE + ReadU32(s, 8);
      Accept(Frame(TypeOf(s[5]), ReadU16(s, 6), ReadU64(s, 12), s[HEADER_SIZE..n]), n)
  }

  /** The header fields of anything that starts with a printed header. */
  lemma HeaderFields(f: Frame, s: bytes)
    requires Encodable(f) && |s| >= HEADER_SIZE
    requires forall i :: 0 <= i < HEADER_SIZE ==> s[i] == HeaderByte(f, i)
    ensures HeaderError(s) == None && TypeOf(s[5]) == f.kind && ReadU16(s, 6) == f.flags
    ensures ReadU32(s, 8) == |f.payload| && ReadU64(s, 12) == f.sequence
  {
    assert s[0..4] == U32(MAGIC) && s[6..8] == U16(f.flags) && s[8..12] == U32(|f.payload|);
    assert s[12..20] == U64(f.sequence);
    ReadU32OfU32(MAGIC, s, 0);
    ReadU16OfU16(f.flags, s, 6);
    ReadU32OfU32(|f.payload|, s, 8);
    ReadU64OfU64(f.sequence, s, 12);
  }

  /** The header checks depend on the twenty header bytes only. */
  lemma HeaderLocal(s: bytes, i: nat, t: bytes)
    requires i + HEADER_SIZE <= |s| && HEADER_SIZE <= |t| && s[i..i + HEADER_SIZE] == t[..HEADER_SIZE]
    ensures ReadU32(s, i) == ReadU32(t, 0) && s[i + 4] == t[4] && s[i + 5] == t[5]
    ensures ReadU16(s, i + 6) == ReadU16(t, 6) && ReadU32(s, i + 8) == ReadU32(t, 8)
    ensures ReadU64(s, i + 12) == ReadU64(t, 12)
  {
    var h := s[i..i + HEADER_SIZE];
    assert s[i..i + 4] == h[0..4] == t[0..4];
    assert s[i + 6..i + 8] == h[6..8] == t[6..8];
    assert s[i + 8..i + 12] == h[8..12] == t[8..12];
    assert s[i + 12..i + 20] == h[12..20] == t[12..20];
    assert s[i + 4] == h[4] == t[4] && s[i + 5] == h[5] == t[5];
    ReadBigEndianLocal(s, i, t, 0, 4);
    ReadBigEndianLocal(s, i + 6, t, 6, 2);
    ReadBigEndianLocal(s, i + 8, t, 8, 4);
    ReadBigEndianLocal(s, i + 12, t, 12, 8);
  }

  /** Printing then parsing gives the frame back, whatever follows it. */
  lemma ParseFirstOfFrame(f: Frame, tail: bytes)
    requires Encodable(f)
    ensures ParseFirst(FrameBytes(f) + tail) == Accept(f, |FrameBytes(f)|)
  {
    var s := FrameBytes(f) + tail;
    HeaderFields(f, s);
    assert s[HEADER_SIZE..HEADER_SIZE + |f.payload|] == f.payload;
  }

  lemma HeaderDetermined(s: bytes, f: Frame, i: nat)
    requires |s| >= HEADER_SIZE && HeaderError(s) == None && i < HEADER_SIZE
    requires f.kind == TypeOf(s[5]) && f.flags == ReadU16(s, 6) && f.sequence == ReadU64(s, 12)
    requires |f.payload| == ReadU32(s, 8)
    ensures HeaderByte(f, i) == s[i]
  {
    if i < 4 {
      U32OfReadU32(s, 0);
    } else if 6 <= i < 8 {
      U16OfReadU16(s, 6);
    } else if 8 <= i < 12 {
      U32OfReadU32(s, 8);
    } else if 12 <= i {
      U64OfReadU64(s, 12);
    }
  }

  /** Parsing then printing gives the consumed bytes back. */
  lemma ParseFirstSound(s: bytes)
    requires ParseFirst(s).Accept?
    ensures var p := ParseFirst(s); Encodable(p.frame) && s[..p.size] == FrameBytes(p.frame)
  {
    var p := ParseFirst(s);
    forall i | 0 <= i < HEADER_SIZE
      ensures HeaderByte(p.frame, i) == s[i]
    {
      HeaderDetermined(s, p.frame, i);
    }
  }

  /** An unfinished frame is never accepted and never rejected. */
  lemma ParseFirstOfPartialFrame(f: Frame, s: bytes, tail: bytes)
    requires Encodable(f) && s + tail == FrameBytes(f) && tail != []
    ensures ParseFirst(s) == NeedMore
  {
    if |s| >= HEADER_SIZE {
      forall i | 0 <= i < HEADER_SIZE
        ensures s[i] == HeaderByte(f, i)
      {
        assert s[i] == (s + tail)[i];
      }
      HeaderFields(f, s);
    }
  }

  lemma ParseFirstStable(s: bytes, tail: bytes)
    requires ParseFirst(s) != NeedMore
    ensures ParseFirst(s + tail) == ParseFirst(s)
  {
    assert (s + tail)[0..HEADER_SIZE] == s[..HEADER_SIZE];
    HeaderLocal(s + tail, 0, s);
    if ParseFirst(s).Accept? {
      var n := ParseFirst(s).size;
      assert (s + tail)[HEADER_SIZE..n] == s[HEADER_SIZE..n];
    }
  }

  // ---------- Parsing a whole stream ----------

  /** All frames of a stream up to the first bad header or unfinished frame. */
  datatype Outcome = Outcome(frames: seq<Frame>, rest: bytes, error: Option<ProtocolError>)

  function ParseAll(s: bytes): Outcome
    decreases |s|
  {
    match ParseFirst(s)
    case NeedMore => Outcome([], s, None)
    case Reject(e) => Outcome([], s, Some(e))
    case Accept(f, n) =>
      var o := ParseAll(s[n..]);
      Outcome([f] + o.frames, o.rest, o.error)
  }

  /** Parsing a concatenation is parsing the first part, then its leftover followed by the second. */
  lemma {:induction false} ParseAllSplit(a: bytes, b: bytes)
    ensures var o := ParseAll(a);
            ParseAll(a + b) ==
            if o.error.Some? then Outcome(o.frames, o.rest + b, o.error)
            else var p := ParseAll(o.rest + b); Outcome(o.frames + p.frames, p.rest, p.error)
    decreases |a|
  {
    match ParseFirst(a)
    case NeedMore =>
      assert [] + ParseAll(a + b).frames == ParseAll(a + b).frames;
    case Reject(e) =>
      ParseFirstStable(a, b);
    case Accept(f, n) =>
      ParseFirstStable(a, b);
      assert (a + b)[n..] == a[n..] + b;
      ParseAllSplit(a[n..], b);
      var o := ParseAll(a[n..]);
      if o.error.None? {
        var p := ParseAll(o.rest + b);
        assert [f] + (o.frames + p.frames) == [f] + o.frames + p.frames;
      }
  }

  /** A leftover that is not an error is shorter than one maximal frame and holds no whole frame. */
  lemma {:induction false} LeftoverIsPartial(s: bytes)
    ensures var o := ParseAll(s);
            && |o.rest| <= |s| && o.rest == s[|s| - |o.rest|..]
            && (o.error.None? ==> ParseFirst(o.rest) == NeedMore && |o.rest| < HEADER_SIZE + MAX_PAYLOAD)
            && (o.error.Some? ==> ParseFirst(o.rest) == Reject(o.error.value))
    decreases |s|
  {
    match ParseFirst(s)
    case NeedMore =>
    case Reject(e) =>
    case Accept(f, n) =>
      LeftoverIsPartial(s[n..]);
      var r := ParseAll(s).rest;
      assert s[n..][|s[n..]| - |r|..] == s[|s| - |r|..];
  }

  predicate AllEncodable(fs: seq<Frame>) {
    forall i :: 0 <= i < |fs| ==> Encodable(fs[i])
  }

  /** The printed form of each frame. */
  function EncodeEach(fs: seq<Frame>): (blocks: seq<bytes>)
    requires AllEncodable(fs)
    ensures |blocks| == |fs|
    ensures forall i :: 0 <= i < |fs| ==> blocks[i] == FrameBytes(fs[i])
  {
    seq(|fs|, i requires 0 <= i < |fs| => FrameBytes(fs[i]))
  }

  /** The byte stream that carries the frames `fs`. */
  function EncodeAll(fs: seq<Frame>): bytes
    requires AllEncodable(fs)
  {
    Flatten(EncodeEach(fs))
  }

  lemma EncodeAllAppend(a: seq<Frame>, b: seq<Frame>)
    requires AllEncodable(a) && AllEncodable(b)
    ensures AllEncodable(a + b) && EncodeAll(a + b) == EncodeAll(a) + EncodeAll(b)
  {
    assert EncodeEach(a + b) == EncodeEach(a) + EncodeEach(b);
    FlattenAppend(EncodeEach(a), EncodeEach(b));
  }

  lemma EncodeAllOne(f: Frame)
    requires Encodable(f)
    ensures EncodeAll([f]) == FrameBytes(f)
  {
    assert EncodeEach([f]) == [FrameBytes(f)];
    assert Flatten([FrameBytes(f)]) == FrameBytes(f) + Flatten([]);
  }

  lemma EncodeAllCons(fs: seq<Frame>)
    requires AllEncodable(fs) && fs != []
    ensures EncodeAll(fs) == FrameBytes(fs[0]) + EncodeAll(fs[1..])
  {
    assert EncodeEach(fs)[1..] == EncodeEach(fs[1..]);
  }

  /** The parsed frames, printed again, followed by the leftover, are the stream. */
  lemma {:induction false} ParseAllSound(s: bytes)
    ensures var o := ParseAll(s); AllEncodable(o.frames) && EncodeAll(o.frames) + o.rest == s
    decreases |s|
  {
    match ParseFirst(s)
    case NeedMore =>
    case Reject(e) =>
    case Accept(f, n) =>
      ParseFirstSound(s);
      ParseAllSound(s[n..]);
      var o := ParseAll(s);
      assert o.frames[1..] == ParseAll(s[n..]).frames;
      EncodeAllCons(o.frames);
      ConcatAssociates(FrameBytes(f), EncodeAll(o.frames[1..]), o.rest);
      assert s == s[..n] + s[n..];
  }

  lemma ParseAllCons(f: Frame, tail: bytes)
    requires Encodable(f)
    ensures var o := ParseAll(tail);
            ParseAll(FrameBytes(f) + tail) == Outcome([f] + o.frames, o.rest, o.error)
  {
    ParseFirstOfFrame(f, tail);
    assert (FrameBytes(f) + tail)[|FrameBytes(f)|..] == tail;
  }

  /** Of a stream carrying `fs`, any received part `x` yields the frames that are complete in it. */
  lemma {:induction false} ParseAllOfReceivedPart(x: bytes, y: bytes, fs: seq<Frame>) returns (k: nat)
    requires AllEncodable(fs) && x + y == EncodeAll(fs)
    ensures k <= |fs| && ParseAll(x).error == None && ParseAll(x).frames == fs[..k]
    ensures ParseAll(x).rest + y == EncodeAll(fs[k..])
    decreases |fs|
  {
    if fs == [] {
      k := 0;
    } else {
      var h := FrameBytes(fs[0]);
      var t := EncodeAll(fs[1..]);
      EncodeAllCons(fs);
      CutConcat(x, y, h, t);
      if |x| < |h| {
        ParseFirstOfPartialFrame(fs[0], x, y[..|h| - |x|]);
        k := 0;
      } else {
        var x' := x[|h|..];
        ParseAllCons(fs[0], x');
        var k' := ParseAllOfReceivedPart(x', y, fs[1..]);
        k := k' + 1;
        assert [fs[0]] + fs[1..][..k'] == fs[..k];
        assert fs[1..][k'..] == fs[k..];
      }
    }
  }

  lemma {:induction false} ParseAllOfEncodeAll(fs: seq<Frame>)
    requires AllEncodable(fs)
    ensures ParseAll(EncodeAll(fs)) == Outcome(fs, [], None)
  {
    if fs != [] {
      var tail := EncodeAll(fs[1..]);
      EncodeAllCons(fs);
      ParseAllCons(fs[0], tail);
      ParseAllOfEncodeAll(fs[1..]);
      assert [fs[0]] + fs[1..] == fs;
    }
  }

  // ---------- Picking frames by kind ----------

  const DATA := {DataIpv4, DataIpv6}

  /** The payloads of the frames whose kind is in `kinds`, in order. */
  function Select(fs: seq<Frame>, kinds: set<MessageType>): seq<bytes>
  {
    if fs == [] then []
    else (if fs[0].kind in kinds then [fs[0].payload] else []) + Select(fs[1..], kinds)
  }

  lemma SelectOne(f: Frame, kinds: set<MessageType>)
    ensures Select([f], kinds) == if f.kind in kinds then [f.payload] else []
  {
    assert [f][1..] == [];
  }

  lemma {:induction false} SelectConcat(a: seq<Frame>, b: seq<Frame>, kinds: set<MessageType>)
    ensures Select(a + b, kinds) == Select(a, kinds) + Select(b, kinds)
  {
    if a == [] {
      assert a + b == b;
    } else {
      SelectConcat(a[1..], b, kinds);
      assert (a + b)[1..] == a[1..] + b && (a + b)[0] == a[0];
      var head: seq<bytes> := if a[0].kind in kinds then [a[0].payload] else [];
      JoinAssociates(head, Select(a[1..], kinds), Select(b, kinds));
    }
  }

  lemma JoinAssociates(a: seq<bytes>, b: seq<bytes>, c: seq<bytes>)
    ensures a + (b + c) == (a + b) + c
  {
  }

  lemma SelectPrefix(fs: seq<Frame>, n: nat, kinds: set<MessageType>)
    requires n <= |fs|
    ensures Select(fs[..n], kinds) <= Select(fs, kinds)
  {
    SelectConcat(fs[..n], fs[n..], kinds);
    assert fs[..n] + fs[n..] == fs;
  }

  lemma SelectExtend(fs: seq<Frame>, n: nat, kinds: set<MessageType>)
    requires n < |fs|
    ensures Select(fs[..n + 1], kinds) == Select(fs[..n], kinds) + Select([fs[n]], kinds)
  {
    SelectConcat(fs[..n], [fs[n]], kinds);
    assert fs[..n + 1] == fs[..n] + [fs[n]];
  }

  lemma SelectDrop(fs: seq<Frame>, n: nat, kinds: set<MessageType>)
    requires n < |fs|
    ensures Select(fs[n..], kinds) == Select([fs[n]], kinds) + Select(fs[n + 1..], kinds)
  {
    SelectConcat([fs[n]], fs[n + 1..], kinds);
    assert fs[n..] == [fs[n]] + fs[n + 1..];
  }
}
