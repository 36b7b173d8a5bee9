/** Every format byte by byte: what each parser accepts, and what each printer therefore prints, in plain numbers. */
module Layouts {
  import opened Bytes
  import opened Wire
  import opened Control
  import opened Packets
  import B = Broker

  // ---------- Numbers ----------

  /** The number in two bytes, the higher one first. */
  function Word(s: bytes, i: nat): nat
    requires i + 2 <= |s|
  {
    256 * (s[i] as int) + s[i + 1] as int
  }

  function Long(s: bytes, i: nat): nat
    requires i + 4 <= |s|
  {
    0x1_0000 * Word(s, i) + Word(s, i + 2)
  }

  lemma Read2(s: bytes, i: nat)
    requires i + 2 <= |s|
    ensures ReadU16(s, i) == Word(s, i)
  {
    assert ReadBigEndian(s, i, 1) == s[i];
  }

  lemma Read4(s: bytes, i: nat)
    requires i + 4 <= |s|
    ensures ReadU32(s, i) == Long(s, i)
  {
    Read2(s, i);
    assert ReadBigEndian(s, i, 3) == 256 * ReadBigEndian(s, i, 2) + s[i + 2] as int;
  }

  lemma Read8(s: bytes, i: nat)
    requires i + 8 <= |s|
    ensures ReadU64(s, i) == 0x1_0000_0000 * Long(s, i) + Long(s, i + 4)
  {
    Read4(s, i);
    assert ReadBigEndian(s, i, 5) == 256 * ReadBigEndian(s, i, 4) + s[i + 4] as int;
    assert ReadBigEndian(s, i, 6) == 256 * ReadBigEndian(s, i, 5) + s[i + 5] as int;
    assert ReadBigEndian(s, i, 7) == 256 * ReadBigEndian(s, i, 6) + s[i + 6] as int;
  }

  // ---------- Frames ----------

  /** The first frame of a stream: the header is examined from left to right, as soon as it is complete. */
  lemma FirstFrameExactly(s: bytes)
    ensures ParseFirst(s)
         == if |s| < 20 then NeedMore
            else if s[..4] != [0x50, 0x56, 0x50, 0x4E] then Reject(InvalidMagic)
            else if s[4] != 2 then Reject(UnsupportedVersion)
            else if s[5] == 0 || s[5] > 8 then Reject(UnknownMessageType)
            else if s[6] != 0 || s[7] != 0 then Reject(UnsupportedFlags)
            else if s[8] != 0 || s[9] != 0 then Reject(PayloadTooLarge)
            else
              var n := 20 + Word(s, 10);
              if |s| < n then NeedMore
              else Accept(Frame(KindNumbered(s[5]), 0, 0x1_0000_0000 * Long(s, 12) + Long(s, 16), s[20..n]), n)
  {
    if |s| >= 20 {
      Read8(s, 12);
      Read4(s, 0);
      assert s[..4] == [s[0], s[1], s[2], s[3]];
      Read2(s, 6);
      Read4(s, 8);
    }
  }

  function KindNumbered(code: byte): MessageType
    requires 1 <= code <= 8
  {
    [ClientHello, IpAssign, DataIpv4, MessageType.Ping, Pong, MessageType.Error, MessageType.Close, DataIpv6][code - 1]
  }

  /** The bytes of an encodable frame. */
  lemma FrameLayout(f: Frame)
    requires f.flags == 0 && |f.payload| <= 65535
    ensures var s := FrameBytes(f);
            && |s| == 20 + |f.payload| && s[..4] == [0x50, 0x56, 0x50, 0x4E] && s[4] == 2
            && 1 <= s[5] <= 8 && KindNumbered(s[5]) == f.kind
            && s[6..10] == [0, 0, 0, 0] && Word(s, 10) == |f.payload|
            && 0x1_0000_0000 * Long(s, 12) + Long(s, 16) == f.sequence && s[20..] == f.payload
  {
    var s := FrameBytes(f);
    ParseFirstOfFrame(f, []);
    assert s + [] == s;
    FirstFrameExactly(s);
    assert s[6..10] == [s[6], s[7], s[8], s[9]];
  }

  // ---------- Control payloads ----------

  /** Eight bytes: the MTU, two zero bytes, and exactly the two capability bits. */
  lemma HelloExactly(p: bytes, h: Hello)
    ensures DecodeHello(p) == Some(h) <==>
              && |p| == 8 && p[2..] == [0, 0, 0, 0, 0, 3]
              && h == Hello(Word(p, 0), 3) && 1280 <= h.requestedMtu <= 9000
  {
    if |p| == 8 {
      Read2(p, 0);
      Read2(p, 2);
      Read4(p, 4);
      assert p[2..] == [p[2], p[3], p[4], p[5], p[6], p[7]];
    }
  }

  /** The fields of 52 bytes, in order. */
  function Fields(p: bytes): Assignment
    requires |p| == 52
  {
    Assignment(p[..4], p[4..8], p[8], Word(p, 10), Long(p, 12), p[16..32], p[32..48], p[48])
  }

  /** Fifty-two bytes, with the reserved ones zero, whose fields are those of a possible assignment. */
  lemma AssignmentExactly(p: bytes, a: Assignment)
    ensures DecodeAssignment(p) == Some(a) <==>
              && |p| == 52 && p[9] == 0 && p[49..] == [0, 0, 0] && a == Fields(p)
              && a.client != [0, 0, 0, 0] && a.gateway != [0, 0, 0, 0]
              && 1 <= a.prefixLength <= 32 && 576 <= a.mtu <= 9000 && a.leaseSeconds > 0
              && (a.prefixLengthV6 == 0 ==> AllZero(a.clientV6) && AllZero(a.gatewayV6))
              && (a.prefixLengthV6 != 0 ==>
                    && a.prefixLengthV6 <= 128 && !AllZero(a.clientV6) && !AllZero(a.gatewayV6)
                    && a.clientV6 != a.gatewayV6 && a.mtu >= 1280)
  {
    if |p| == 52 {
      Read2(p, 10);
      Read4(p, 12);
      assert p[49..] == [p[49], p[50], p[51]];
      assert AssignmentFields(p) == Fields(p);
    }
    ZeroExactly(a.clientV6);
    ZeroExactly(a.gatewayV6);
  }

  predicate AllZero(s: bytes) {
    forall i :: 0 <= i < |s| ==> s[i] == 0
  }

  lemma ZeroExactly(a: Ipv6)
    ensures a == IPV6_ZERO <==> AllZero(a)
  {
    assert forall i :: 0 <= i < 16 ==> IPV6_ZERO[i] == 0;
    if AllZero(a) {
      assert forall i :: 0 <= i < 16 ==> a[i] == IPV6_ZERO[i];
    }
  }

  /** A code and at most 1024 bytes of text. */
  lemma ErrorExactly(p: bytes, e: ErrorMessage)
    ensures DecodeError(p) == Some(e) <==>
              2 <= |p| <= 1026 && e == ErrorMessage(Word(p, 0), p[2..])
  {
    if |p| >= 2 {
      Read2(p, 0);
    }
  }

  lemma CloseExactly(p: bytes, code: u16)
    ensures DecodeClose(p) == Some(code) <==> |p| == 2 && code == Word(p, 0)
  {
    if |p| == 2 {
      Read2(p, 0);
    }
  }

  // ---------- Packets ----------

  /** A first byte from 0x45 to 0x4F that says how long the header is, and the packet's own size at byte 2. */
  lemma Ipv4Exactly(p: bytes)
    ensures ShapedV4(p) <==>
              |p| >= 20 && 0x45 <= p[0] <= 0x4F && 4 * (p[0] as int - 0x40) <= |p| && Word(p, 2) == |p|
  {
    if |p| >= 20 {
      Read2(p, 2);
    }
  }

  lemma Ipv6Exactly(p: bytes)
    ensures ShapedV6(p) <==> |p| >= 40 && 0x60 <= p[0] <= 0x6F && Word(p, 4) == |p| - 40
  {
    if |p| >= 40 {
      Read2(p, 4);
    }
  }

  // ---------- Broker requests ----------

  /** The number in two bytes, the lower one first. */
  function LittleWord(s: bytes, i: nat): nat
    requires i + 2 <= |s|
  {
    s[i] as int + 256 * (s[i + 1] as int)
  }

  function LittleLong(s: bytes, i: nat): nat
    requires i + 4 <= |s|
  {
    LittleWord(s, i) + 0x1_0000 * LittleWord(s, i + 2)
  }

  lemma Little2(s: bytes, i: nat)
    requires i + 2 <= |s|
    ensures B.ReadLittle(s, i, 2) == LittleWord(s, i)
  {
    assert B.ReadLittle(s, i + 1, 1) == s[i + 1];
  }

  lemma Little4(s: bytes, i: nat)
    requires i + 4 <= |s|
    ensures B.ReadLittle(s, i, 4) == LittleLong(s, i)
  {
    Little2(s, i + 2);
    assert B.ReadLittle(s, i + 1, 3) == s[i + 1] as int + 256 * B.ReadLittle(s, i + 2, 2);
  }

  lemma Little8(s: bytes, i: nat)
    requires i + 8 <= |s|
    ensures B.ReadLittle(s, i, 8) == LittleLong(s, i) + 0x1_0000_0000 * LittleLong(s, i + 4)
  {
    Little4(s, i + 4);
    assert B.ReadLittle(s, i + 3, 5) == s[i + 3] as int + 256 * B.ReadLittle(s, i + 4, 4);
    assert B.ReadLittle(s, i + 2, 6) == s[i + 2] as int + 256 * B.ReadLittle(s, i + 3, 5);
    assert B.ReadLittle(s, i + 1, 7) == s[i + 1] as int + 256 * B.ReadLittle(s, i + 2, 6);
  }

  /**
   * A request frame: the length of the rest, the magic "PVBR", version 1, the kind, a nonzero id, and for a
   * connection the length of a profile name and the name: 1 to 64 letters, digits, hyphens and underscores.
   */
  lemma RequestExactly(f: bytes, r: B.Request)
    ensures B.Decoded(f) == Some(r) <==>
              && 20 <= |f| <= 128 && f[0] == |f| - 4 && f[1..4] == [0, 0, 0]
              && f[4..10] == [0x50, 0x56, 0x42, 0x52, 1, 0] && f[10] in {1, 2, 3} && f[11] == 0
              && r.kind == f[10] && r.id == LittleLong(f, 12) + 0x1_0000_0000 * LittleLong(f, 16) > 0
              && (f[10] != 1 ==> |f| == 20 && r.profile == [])
              && (f[10] == 1 ==>
                    && |f| >= 22 && f[20] == |f| - 22 && f[21] == 0 && r.profile == f[22..]
                    && 1 <= |r.profile| <= 64 && forall i :: 0 <= i < |r.profile| ==> NameChar(r.profile[i] as char))
  {
    if 20 <= |f| <= 128 {
      Little4(f, 0);
      Little2(f, 8);
      Little2(f, 10);
      Little8(f, 12);
      assert f[1..4] == [f[1], f[2], f[3]];
      assert f[4..10] == [f[4], f[5], f[6], f[7], f[8], f[9]];
      assert f[4..8] == [f[4], f[5], f[6], f[7]];
      if |f| >= 22 {
        Little2(f, 20);
      }
    }
  }

  predicate NameChar(ch: char) {
    'a' <= ch <= 'z' || 'A' <= ch <= 'Z' || '0' <= ch <= '9' || ch == '-' || ch == '_'
  }
}
