/** Requests to the privileged broker: a little-endian, length-prefixed frame. */
module Broker {
  import opened Bytes

  const MAX_FRAME := 128
  const MAX_PROFILE := 64
  const HEADER := 20
  const VERSION: u16 := 1
  const MAGIC: bytes := [0x50, 0x56, 0x42, 0x52]
  const CONNECT: u16 := 1
  const DISCONNECT: u16 := 2
  const GET_STATUS: u16 := 3

  /** The kind is the raw code, which need not be known. */
  datatype Request = Request(kind: u16, id: u64, profile: bytes)

  // ---------- Little-endian numbers ----------

  /** The `n` low-order bytes of `v`, least significant first. */
  function LittleEndian(n: nat, v: nat): (s: bytes)
    ensures |s| == n
  {
    if n == 0 then [] else [v % 256] + LittleEndian(n - 1, v / 256)
  }

  /** The number stored in the `n` bytes at offset `i`. */
  function ReadLittle(s: bytes, i: nat, n: nat): nat
    requires i + n <= |s|
    decreases n
  {
    if n == 0 then 0 else s[i] + 256 * ReadLittle(s, i + 1, n - 1)
  }

  lemma {:induction false} ReadOfWritten(n: nat, v: nat, s: bytes, i: nat)
    requires i + n <= |s| && s[i..i + n] == LittleEndian(n, v) && v < Pow256(n)
    ensures ReadLittle(s, i, n) == v
    decreases n
  {
    if n > 0 {
      assert s[i] == s[i..i + n][0] == v % 256;
      assert s[i + 1..i + n] == s[i..i + n][1..] == LittleEndian(n - 1, v / 256);
      ReadOfWritten(n - 1, v / 256, s, i + 1);
    }
  }

  lemma LowByte(b: byte, rest: nat)
    ensures (b + 256 * rest) % 256 == b && (b + 256 * rest) / 256 == rest
  {
  }

  lemma {:induction false} WrittenOfRead(s: bytes, i: nat, n: nat)
    requires i + n <= |s|
    ensures LittleEndian(n, ReadLittle(s, i, n)) == s[i..i + n] && ReadLittle(s, i, n) < Pow256(n)
    decreases n
  {
    if n > 0 {
      WrittenOfRead(s, i + 1, n - 1);
      LowByte(s[i], ReadLittle(s, i + 1, n - 1));
      assert s[i..i + n] == [s[i]] + s[i + 1..i + n];
    }
  }

  /** The reading loop: each byte is shifted to its place. */
  method ReadNumber(s: bytes, i: nat, n: nat) returns (v: nat)
    requires i + n <= |s|
    ensures v == ReadLittle(s, i, n)
  {
    v := 0;
    var place, index := 1, 0;
    while index < n
      invariant index <= n
      invariant v + place * ReadLittle(s, i + index, n - index) == ReadLittle(s, i, n)
    {
      ghost var tail := ReadLittle(s, i + index + 1, n - index - 1);
      Shifts(place, s[i + index], tail);
      v := v + place * s[i + index];
      place := place * 256;
      index := index + 1;
    }
  }

  lemma Shifts(place: int, b: byte, tail: nat)
    ensures place * (b + 256 * tail) == place * b + (place * 256) * tail
  {
  }

  // ---------- Requests ----------

  predicate ProfileChar(b: byte) {
    0x61 <= b <= 0x7A || 0x41 <= b <= 0x5A || 0x30 <= b <= 0x39 || b == 0x2D || b == 0x5F
  }

  predicate ValidProfile(p: bytes) {
    0 < |p| <= MAX_PROFILE && forall i :: 0 <= i < |p| ==> ProfileChar(p[i])
  }

  predicate ValidRequest(r: Request) {
    && r.id != 0
    && (if r.kind == CONNECT then ValidProfile(r.profile)
        else r.kind in {DISCONNECT, GET_STATUS} && r.profile == [])
  }

  function ProfilePart(r: Request): bytes {
    if r.kind == CONNECT then LittleEndian(2, |r.profile|) + r.profile else []
  }

  function Body(r: Request): bytes {
    MAGIC + LittleEndian(2, VERSION) + LittleEndian(2, r.kind) + LittleEndian(8, r.id) + ProfilePart(r)
  }

  /** The frame of a valid request. */
  function RequestBytes(r: Request): bytes {
    LittleEndian(4, |Body(r)|) + Body(r)
  }

  method IsValidProfile(p: bytes) returns (ok: bool)
    ensures ok == ValidProfile(p)
  {
    if |p| == 0 || |p| > MAX_PROFILE {
      return false;
    }
    for i := 0 to |p|
      invariant forall j :: 0 <= j < i ==> ProfileChar(p[j])
    {
      if !ProfileChar(p[i]) {
        return false;
      }
    }
    ok := true;
  }

  /** The length is patched in once the body is known. */
  method EncodeRequest(r: Request) returns (frame: Option<bytes>)
    ensures frame == if ValidRequest(r) then Some(RequestBytes(r)) else None
  {
    if r.id == 0 {
      return None;
    }
    var f: bytes := [0, 0, 0, 0];
    f := f + MAGIC;
    f := f + LittleEndian(2, VERSION);
    f := f + LittleEndian(2, r.kind);
    f := f + LittleEndian(8, r.id);
    if r.kind == CONNECT {
      var ok := IsValidProfile(r.profile);
      if !ok {
        return None;
      }
      f := f + LittleEndian(2, |r.profile|);
      f := f + r.profile;
    } else if r.kind == DISCONNECT || r.kind == GET_STATUS {
      if |r.profile| > 0 {
        return None;
      }
    } else {
      return None;
    }
    Unprefixed(LittleEndian(2, VERSION), LittleEndian(2, r.kind), LittleEndian(8, r.id), LittleEndian(2, |r.profile|),
               r.profile);
    if |f| > MAX_FRAME {
      return None;
    }
    var patched := PatchLength(f);
    frame := Some(patched);
  }

  /** Appending piece by piece builds the body behind the room for the length. */
  lemma Unprefixed(version: bytes, kind: bytes, id: bytes, size: bytes, profile: bytes)
    ensures ([0, 0, 0, 0] + MAGIC + version + kind + id + size + profile)[4..]
         == MAGIC + version + kind + id + (size + profile)
    ensures ([0, 0, 0, 0] + MAGIC + version + kind + id)[4..] == MAGIC + version + kind + id + []
  {
  }

  method PatchLength(frame: bytes) returns (f: bytes)
    requires |frame| >= 4
    ensures f == LittleEndian(4, |frame| - 4) + frame[4..]
  {
    f := frame;
    var length := LittleEndian(4, |frame| - 4);
    for index := 0 to 4
      invariant |f| == |frame| && f[4..] == frame[4..] && f[..index] == length[..index]
    {
      f := f[index := length[index]];
    }
    assert f == f[..4] + f[4..];
  }

  /** The header, with the profile still to be examined. */
  function HeaderOf(frame: bytes): Option<Request> {
    if |frame| < HEADER || |frame| > MAX_FRAME then None
    else if ReadLittle(frame, 0, 4) != |frame| - 4 || frame[4..8] != MAGIC || ReadLittle(frame, 8, 2) != VERSION then None
    else
      WrittenOfRead(frame, 10, 2);
      WrittenOfRead(frame, 12, 8);
      PowersOf256();
      Some(Request(ReadLittle(frame, 10, 2), ReadLittle(frame, 12, 8), []))
  }

  function Decoded(frame: bytes): Option<Request> {
    var header := HeaderOf(frame);
    if header.None? || header.value.id == 0 then None
    else if header.value.kind == CONNECT then
      if |frame| < HEADER + 2 || |frame| != HEADER + 2 + ReadLittle(frame, HEADER, 2) then None
      else if !ValidProfile(frame[HEADER + 2..]) then None
      else Some(header.value.(profile := frame[HEADER + 2..]))
    else if header.value.kind in {DISCONNECT, GET_STATUS} && |frame| == HEADER then header
    else None
  }

  method DecodeRequest(frame: bytes) returns (r: Option<Request>)
    ensures r == Decoded(frame)
  {
    if |frame| < HEADER || |frame| > MAX_FRAME {
      return None;
    }
    var length := ReadNumber(frame, 0, 4);
    if length != |frame| - 4 {
      return None;
    }
    if frame[4..8] != MAGIC {
      return None;
    }
    var version := ReadNumber(frame, 8, 2);
    if version != VERSION {
      return None;
    }
    var kind := ReadNumber(frame, 10, 2);
    var id := ReadNumber(frame, 12, 8);
    if id == 0 {
      return None;
    }
    var request := HeaderOf(frame).value;
    if kind == CONNECT {
      if |frame| < HEADER + 2 {
        return None;
      }
      var size := ReadNumber(frame, HEADER, 2);
      if size > MAX_PROFILE || |frame| != HEADER + 2 + size {
        return None;
      }
      var ok := IsValidProfile(frame[HEADER + 2..]);
      if !ok {
        return None;
      }
      return Some(request.(profile := frame[HEADER + 2..]));
    }
    if (kind != DISCONNECT && kind != GET_STATUS) || |frame| != HEADER {
      return None;
    }
    r := Some(request);
  }

  // ---------- Round trips ----------

  lemma RequestLayout(r: Request, f: bytes)
    requires f == RequestBytes(r)
    ensures |f| == HEADER + |ProfilePart(r)| && f[0..4] == LittleEndian(4, |f| - 4) && f[4..8] == MAGIC
    ensures f[8..10] == LittleEndian(2, VERSION) && f[10..12] == LittleEndian(2, r.kind)
    ensures f[12..20] == LittleEndian(8, r.id) && f[20..] == ProfilePart(r)
  {
    Layout(f, LittleEndian(4, |Body(r)|), LittleEndian(2, VERSION), LittleEndian(2, r.kind), LittleEndian(8, r.id),
           ProfilePart(r));
  }

  lemma Layout(f: bytes, length: bytes, version: bytes, kind: bytes, id: bytes, profile: bytes)
    requires |length| == 4 && |version| == 2 && |kind| == 2 && |id| == 8
    requires f == length + (MAGIC + version + kind + id + profile)
    ensures |f| == 20 + |profile| && f[0..4] == length && f[4..8] == MAGIC && f[8..10] == version
    ensures f[10..12] == kind && f[12..20] == id && f[20..] == profile
  {
  }

  /** Decoding an encoded request returns it. */
  lemma DecodeOfEncode(r: Request)
    requires ValidRequest(r)
    ensures Decoded(RequestBytes(r)) == Some(r)
  {
    var f := RequestBytes(r);
    RequestLayout(r, f);
    PowersOf256();
    ReadOfWritten(4, |f| - 4, f, 0);
    ReadOfWritten(2, VERSION, f, 8);
    ReadOfWritten(2, r.kind, f, 10);
    ReadOfWritten(8, r.id, f, 12);
    if r.kind == CONNECT {
      assert f[20..22] == f[20..][..2];
      assert f[22..] == f[20..][2..];
      ReadOfWritten(2, |r.profile|, f, 20);
    }
  }

  /** Every accepted frame is the encoding of the request it decodes to. */
  lemma EncodeOfDecode(frame: bytes)
    requires Decoded(frame).Some?
    ensures ValidRequest(Decoded(frame).value) && RequestBytes(Decoded(frame).value) == frame
  {
    var r := Decoded(frame).value;
    WrittenOfRead(frame, 0, 4);
    WrittenOfRead(frame, 8, 2);
    WrittenOfRead(frame, 10, 2);
    WrittenOfRead(frame, 12, 8);
    if r.kind == CONNECT {
      WrittenOfRead(frame, 20, 2);
      assert frame[20..] == frame[20..22] + frame[22..];
    }
    Assembled(frame, LittleEndian(4, |frame| - 4), LittleEndian(2, VERSION), LittleEndian(2, r.kind),
              LittleEndian(8, r.id), ProfilePart(r));
  }

  lemma Assembled(frame: bytes, length: bytes, version: bytes, kind: bytes, id: bytes, profile: bytes)
    requires |frame| >= 20 && frame[0..4] == length && frame[4..8] == MAGIC && frame[8..10] == version
    requires frame[10..12] == kind && frame[12..20] == id && frame[20..] == profile
    ensures frame == length + (MAGIC + version + kind + id + profile)
  {
  }
}
