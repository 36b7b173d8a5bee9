/** Fixed-width integers, their big-endian byte forms, and joined byte blocks. */
module Bytes {

  type byte = b: int | 0 <= b < 256
  type bytes = seq<byte>
  type u16 = n: int | 0 <= n < 0x1_0000
  type u32 = n: int | 0 <= n < 0x1_0000_0000
  type u64 = n: int | 0 <= n < 0x1_0000_0000_0000_0000

  const U64_MODULUS := 0x1_0000_0000_0000_0000

  datatype Option<+T> = None | Some(value: T)
  datatype Result<+T, +E> = Ok(value: T) | Err(error: E)

  /** Wrap-around increment of a 64-bit counter. */
  function Next64(n: u64): (r: u64)
    ensures r == (n + 1) % U64_MODULUS
  {
    if n + 1 == U64_MODULUS then 0 else n + 1
  }

  // ---------- Big-endian forms ----------

  ghost function Pow256(n: nat): (p: nat)
    ensures p > 0
  {
    if n == 0 then 1 else 256 * Pow256(n - 1)
  }

  lemma PowersOf256()
    ensures Pow256(2) == 0x1_0000 && Pow256(4) == 0x1_0000_0000 && Pow256(8) == U64_MODULUS
  {
    assert Pow256(3) == 256 * Pow256(2);
    assert Pow256(4) == 256 * Pow256(3);
    assert Pow256(6) == 256 * Pow256(5);
    assert Pow256(7) == 256 * Pow256(6);
    assert Pow256(8) == 256 * Pow256(7);
  }

  /** The `n` low-order bytes of `v`, most significant first. */
  function BigEndian(n: nat, v: nat): (s: bytes)
    ensures |s| == n
  {
    if n == 0 then [] else BigEndian(n - 1, v / 256) + [v % 256]
  }

  /** The number stored in the `n` bytes at offset `i`: each byte shifts the earlier ones left by eight bits. */
  function ReadBigEndian(s: bytes, i: nat, n: nat): (v: nat)
    requires i + n <= |s|
  {
    if n == 0 then 0 else 256 * ReadBigEndian(s, i, n - 1) + s[i + n - 1]
  }

  lemma {:induction false} ReadBigEndianFits(s: bytes, i: nat, n: nat)
    requires i + n <= |s|
    ensures ReadBigEndian(s, i, n) < Pow256(n)
  {
    if n > 0 {
      ReadBigEndianFits(s, i, n - 1);
    }
  }

  /** Reading where a number was written gives the number. */
  lemma {:induction false} ReadWritten(n: nat, v: nat, s: bytes, i: nat)
    requires v < Pow256(n) && i + n <= |s| && s[i..i + n] == BigEndian(n, v)
    ensures ReadBigEndian(s, i, n) == v
  {
    if n > 0 {
      assert s[i..i + n - 1] == s[i..i + n][..n - 1] == BigEndian(n - 1, v / 256);
      ReadWritten(n - 1, v / 256, s, i);
      assert s[i + n - 1] == s[i..i + n][n - 1];
    }
  }

  /** Writing what was read gives the bytes that were read. */
  lemma {:induction false} WriteRead(s: bytes, i: nat, n: nat)
    requires i + n <= |s|
    ensures BigEndian(n, ReadBigEndian(s, i, n)) == s[i..i + n]
  {
    if n > 0 {
      WriteRead(s, i, n - 1);
      assert s[i..i + n] == s[i..i + n - 1] + [s[i + n - 1]];
    }
  }

  function U16(v: u16): (s: bytes)
    ensures |s| == 2
  {
    BigEndian(2, v)
  }

  function U32(v: u32): (s: bytes)
    ensures |s| == 4
  {
    BigEndian(4, v)
  }

  function U64(v: u64): (s: bytes)
    ensures |s| == 8
  {
    BigEndian(8, v)
  }

  function ReadU16(s: bytes, i: nat): (v: u16)
    requires i + 2 <= |s|
  {
    PowersOf256();
    ReadBigEndianFits(s, i, 2);
    ReadBigEndian(s, i, 2)
  }

  function ReadU32(s: bytes, i: nat): (v: u32)
    requires i + 4 <= |s|
  {
    PowersOf256();
    ReadBigEndianFits(s, i, 4);
    ReadBigEndian(s, i, 4)
  }

  function ReadU64(s: bytes, i: nat): (v: u64)
    requires i + 8 <= |s|
  {
    PowersOf256();
    ReadBigEndianFits(s, i, 8);
    ReadBigEndian(s, i, 8)
  }

  lemma U16OfReadU16(s: bytes, i: nat)
    requires i + 2 <= |s|
    ensures U16(ReadU16(s, i)) == s[i..i + 2]
  {
    WriteRead(s, i, 2);
  }

  lemma U32OfReadU32(s: bytes, i: nat)
    requires i + 4 <= |s|
    ensures U32(ReadU32(s, i)) == s[i..i + 4]
  {
    WriteRead(s, i, 4);
  }

  lemma U64OfReadU64(s: bytes, i: nat)
    requires i + 8 <= |s|
    ensures U64(ReadU64(s, i)) == s[i..i + 8]
  {
    WriteRead(s, i, 8);
  }

  lemma ReadU16OfU16(v: u16, s: bytes, i: nat)
    requires i + 2 <= |s| && s[i..i + 2] == U16(v)
    ensures ReadU16(s, i) == v
  {
    PowersOf256();
    ReadWritten(2, v, s, i);
  }

  lemma ReadU32OfU32(v: u32, s: bytes, i: nat)
    requires i + 4 <= |s| && s[i..i + 4] == U32(v)
    ensures ReadU32(s, i) == v
  {
    PowersOf256();
    ReadWritten(4, v, s, i);
  }

  lemma ReadU64OfU64(v: u64, s: bytes, i: nat)
    requires i + 8 <= |s| && s[i..i + 8] == U64(v)
    ensures ReadU64(s, i) == v
  {
    PowersOf256();
    ReadWritten(8, v, s, i);
  }

  lemma {:induction false} ReadBigEndianLocal(s: bytes, i: nat, t: bytes, j: nat, n: nat)
    requires i + n <= |s| && j + n <= |t| && s[i..i + n] == t[j..j + n]
    ensures ReadBigEndian(s, i, n) == ReadBigEndian(t, j, n)
  {
    if n > 0 {
      assert s[i..i + n - 1] == s[i..i + n][..n - 1] == t[j..j + n][..n - 1] == t[j..j + n - 1];
      ReadBigEndianLocal(s, i, t, j, n - 1);
      assert s[i + n - 1] == s[i..i + n][n - 1] == t[j..j + n][n - 1] == t[j + n - 1];
    }
  }

  // ---------- Joining blocks ----------

  function Flatten(blocks: seq<bytes>): bytes
  {
    if blocks == [] then [] else blocks[0] + Flatten(blocks[1..])
  }

  lemma ConcatAssociates(a: bytes, b: bytes, c: bytes)
    ensures a + (b + c) == (a + b) + c
  {
  }

  lemma {:induction false} FlattenAppend(a: seq<bytes>, b: seq<bytes>)
    ensures Flatten(a + b) == Flatten(a) + Flatten(b)
  {
    if a == [] {
      assert a + b == b;
    } else {
      FlattenAppend(a[1..], b);
      assert (a + b)[1..] == a[1..] + b;
      ConcatAssociates(a[0], Flatten(a[1..]), Flatten(b));
    }
  }

  /** Two ways of writing one concatenation: the shorter first part is a prefix of the longer. */
  lemma CutConcat(x: bytes, y: bytes, h: bytes, t: bytes)
    requires x + y == h + t
    ensures |x| < |h| ==> |h| - |x| <= |y| && h == x + y[..|h| - |x|]
    ensures |x| >= |h| ==> x == h + x[|h|..] && x[|h|..] + y == t
  {
    if |x| < |h| {
      assert h == (x + y)[..|h|] == x + y[..|h| - |x|];
    } else {
      assert h == (h + t)[..|h|] == (x + y)[..|h|] == x[..|h|];
      assert t == (h + t)[|h|..] == (x + y)[|h|..] == x[|h|..] + y;
    }
  }
}
