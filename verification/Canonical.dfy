/** Clearing the host bits of an IPv6 address, bit by bit. */
module Canonical {
  import opened Bytes
  import opened Control
  import opened Leases

  /** The value of a string of bytes, most significant first. */
  function Value(s: bytes): nat {
    if s == [] then 0 else 256 * Value(s[..|s| - 1]) + s[|s| - 1]
  }

  /** The 128-bit value has no bit set after the first `prefix` bits. */
  predicate IsNetwork(network: Ipv6, prefix: nat)
    requires prefix <= 128
  {
    Value(network) % Pow2(128 - prefix) == 0
  }

  lemma SmallPowers()
    ensures Pow2(0) == 1 && Pow2(1) == 2 && Pow2(2) == 4 && Pow2(3) == 8 && Pow2(4) == 16
    ensures Pow2(5) == 32 && Pow2(6) == 64 && Pow2(7) == 128 && Pow2(8) == 256
  {
    assert Pow2(2) == 2 * Pow2(1);
    assert Pow2(4) == 2 * Pow2(3);
    assert Pow2(6) == 2 * Pow2(5);
    assert Pow2(8) == 2 * Pow2(7);
  }

  lemma PowerOfByteBit(k: nat)
    requires k < 8
    ensures 0 < Pow2(k) <= 128
  {
    SmallPowers();
  }

  /** `b` without its bit of weight `2^k`. */
  function ClearBit(b: byte, k: nat): byte
    requires k < 8
  {
    PowerOfByteBit(k);
    if b / Pow2(k) % 2 == 1 then BitIsPart(b, k); b - Pow2(k) else b
  }

  lemma BitIsPart(b: byte, k: nat)
    requires k < 8 && b / Pow2(k) % 2 == 1
    ensures Pow2(k) <= b
  {
    if b < Pow2(k) {
      DivMod(b, Pow2(k), 0, b);
    }
  }

  /** The bits from position `pos` on cleared one after the other, position 0 being the most significant. */
  function ClearFrom(b: byte, pos: nat): byte
    requires pos <= 8
    decreases 8 - pos
  {
    if pos == 8 then b else ClearFrom(ClearBit(b, 7 - pos), pos + 1)
  }

  lemma ClearBitRest(b: byte, k: nat)
    requires k < 8
    ensures var y := ClearBit(b, k); y - y % Pow2(k) == b - b % Pow2(k + 1)
  {
    Halves(b, Pow2(k));
  }

  lemma {:induction false} ClearFromIs(b: byte, pos: nat)
    requires pos <= 8
    ensures ClearFrom(b, pos) == b - b % Pow2(8 - pos)
    decreases 8 - pos
  {
    SmallPowers();
    if pos < 8 {
      ClearBitRest(b, 7 - pos);
      ClearFromIs(ClearBit(b, 7 - pos), pos + 1);
    }
  }

  /** Where in byte `i` the bits from `bit` on begin: 0 if all of it, 8 if none of it. */
  function Start(i: nat, bit: nat): (pos: nat)
    ensures pos <= 8
  {
    if bit <= 8 * i then 0 else if bit >= 8 * (i + 1) then 8 else bit - 8 * i
  }

  lemma StartNext(i: nat, bit: nat)
    ensures i == bit / 8 ==> Start(i, bit) == bit % 8 && Start(i, bit + 1) == bit % 8 + 1
    ensures i != bit / 8 ==> Start(i, bit + 1) == Start(i, bit)
  {
  }

  /** Clearing one more bit of `work` leaves less to clear and the same outcome. */
  ghost predicate Outcome(work: bytes, network: bytes, bit: nat, prefix: nat) {
    && |work| == |network|
    && forall i :: 0 <= i < |work| ==> ClearFrom(work[i], Start(i, bit)) == ClearFrom(network[i], Start(i, prefix))
  }

  lemma ClearsOne(b: byte, pos: nat)
    requires pos < 8
    ensures ClearFrom(ClearBit(b, 7 - pos), pos + 1) == ClearFrom(b, pos)
  {
  }

  lemma ClearsNext(work: bytes, network: bytes, bit: nat, prefix: nat)
    requires Outcome(work, network, bit, prefix) && bit / 8 < |work|
    ensures Outcome(work[bit / 8 := ClearBit(work[bit / 8], 7 - bit % 8)], network, bit + 1, prefix)
  {
    var next := work[bit / 8 := ClearBit(work[bit / 8], 7 - bit % 8)];
    forall i | 0 <= i < |next|
      ensures ClearFrom(next[i], Start(i, bit + 1)) == ClearFrom(network[i], Start(i, prefix))
    {
      StartNext(i, bit);
      ClearsOne(work[bit / 8], bit % 8);
    }
  }

  /** The canonicalisation loop: it gives the address back exactly when it is a network address. */
  method ClearHostBits(network: Ipv6, prefix: nat) returns (canonical: Ipv6)
    requires prefix <= 128
    ensures forall i :: 0 <= i < 16 ==> canonical[i] == network[i] - network[i] % Pow2(8 - Start(i, prefix))
    ensures canonical == network <==> IsNetwork(network, prefix)
  {
    var work := new byte[16](i requires 0 <= i < 16 => network[i]);
    var bit := prefix;
    assert work[..] == network;
    while bit < 128
      invariant prefix <= bit <= 128
      invariant Outcome(work[..], network, bit, prefix)
    {
      ghost var before := work[..];
      ClearsNext(before, network, bit, prefix);
      work[bit / 8] := ClearBit(work[bit / 8], 7 - bit % 8);
      assert work[..] == before[bit / 8 := ClearBit(before[bit / 8], 7 - bit % 8)];
      bit := bit + 1;
    }
    canonical := work[..];
    AllCleared(canonical, network, prefix);
  }

  lemma AllCleared(canonical: Ipv6, network: Ipv6, prefix: nat)
    requires prefix <= 128 && Outcome(canonical, network, 128, prefix)
    ensures forall i :: 0 <= i < 16 ==> canonical[i] == network[i] - network[i] % Pow2(8 - Start(i, prefix))
    ensures canonical == network <==> IsNetwork(network, prefix)
  {
    forall i | 0 <= i < 16
      ensures canonical[i] == network[i] - network[i] % Pow2(8 - Start(i, prefix))
    {
      assert ClearFrom(canonical[i], 8) == canonical[i];
      ClearFromIs(network[i], Start(i, prefix));
    }
    TailsZero(network, prefix);
  }

  // ---------- Multiples of a power of two, byte by byte ----------

  lemma {:induction false} AtLeast(k: int, d: int)
    requires k > 0 && d > 0
    ensures k * d >= k
    decreases d
  {
    if d > 1 {
      AtLeast(k, d - 1);
      Difference(k, d, 1);
    }
  }

  lemma Negates(k: int, d: int)
    ensures k * (-d) == -(k * d)
  {
  }

  /** A nonzero multiple of `k` is at least `k` away from zero. */
  lemma FarFromZero(k: int, d: int)
    requires k > 0 && d != 0
    ensures k * d >= k || k * d <= -k
  {
    if d > 0 {
      AtLeast(k, d);
    } else {
      AtLeast(k, -d);
      Negates(k, d);
    }
  }

  lemma Difference(k: int, a: int, b: int)
    ensures k * (a - b) == k * a - k * b
  {
  }

  /** Quotient and remainder are unique. */
  lemma DivMod(n: nat, k: nat, q: nat, r: nat)
    requires k > 0 && n == k * q + r && r < k
    ensures n / k == q && n % k == r
  {
    Difference(k, q, n / k);
    if q != n / k {
      FarFromZero(k, q - n / k);
    }
  }

  lemma Distributes(p: nat, g: nat)
    ensures p * (2 * g) == (2 * p) * g && p * (2 * g + 1) == (2 * p) * g + p
  {
  }

  /** The remainder by `2 * p` is that by `p`, plus `p` if the next bit is set; taking that bit out keeps the former. */
  lemma Halves(n: nat, p: nat)
    requires p > 0
    ensures n % (2 * p) == n % p + if n / p % 2 == 1 then p else 0
    ensures n / p % 2 == 1 ==> n >= p && (n - p) % p == n % p
  {
    var h, r := n / p, n % p;
    var g := h / 2;
    Distributes(p, g);
    assert n == p * h + r;
    if h % 2 == 1 {
      assert h == 2 * g + 1;
      DivMod(n, 2 * p, g, p + r);
      DivMod(n - p, p, 2 * g, r);
    } else {
      assert h == 2 * g;
      DivMod(n, 2 * p, g, r);
    }
  }

  lemma ByteShift(a: nat, b: byte, k: nat)
    requires k > 0
    ensures (256 * a + b) % (256 * k) == 0 <==> b == 0 && a % k == 0
  {
    var q, r := a / k, a % k;
    assert a == k * q + r;
    assert 256 * a + b == 256 * k * q + (256 * r + b);
    DivMod(256 * a + b, 256 * k, q, 256 * r + b);
  }

  lemma LowBits(a: nat, b: byte, m: nat)
    requires m <= 8
    ensures (256 * a + b) % Pow2(m) == b % Pow2(m)
  {
    SmallPowers();
    assert Pow2(m) * Pow2(8 - m) == 256;
    Absorbs(a, b, Pow2(m), Pow2(8 - m));
  }

  lemma Absorbs(a: nat, b: nat, p: nat, c: nat)
    requires p > 0 && p * c == 256
    ensures (256 * a + b) % p == b % p
  {
    var q, r := b / p, b % p;
    assert b == p * q + r;
    Scales(p, c, a);
    assert p * (c * a + q) == p * (c * a) + p * q;
    DivMod(256 * a + b, p, c * a + q, r);
  }

  lemma Scales(p: nat, c: nat, a: nat)
    ensures p * (c * a) == (p * c) * a
  {
  }

  lemma PowerPastByte(m: nat)
    requires m > 8
    ensures Pow2(m) == 256 * Pow2(m - 8)
  {
    assert Pow2(m) == 2 * Pow2(m - 1) == 4 * Pow2(m - 2);
    assert Pow2(m - 2) == 2 * Pow2(m - 3) == 4 * Pow2(m - 4);
    assert Pow2(m - 4) == 2 * Pow2(m - 5) == 4 * Pow2(m - 6);
    assert Pow2(m - 6) == 2 * Pow2(m - 7) == 4 * Pow2(m - 8);
  }

  /** The prefix ends in the last byte: only its tail matters. */
  lemma ShortTail(s: bytes, prefix: nat)
    requires s != [] && 8 * (|s| - 1) <= prefix <= 8 * |s|
    ensures Value(s) % Pow2(8 * |s| - prefix) == s[|s| - 1] % Pow2(8 - Start(|s| - 1, prefix))
    ensures forall i :: 0 <= i < |s| - 1 ==> s[i] % Pow2(8 - Start(i, prefix)) == 0
  {
    SmallPowers();
    assert Start(|s| - 1, prefix) == 8 - (8 * |s| - prefix);
    LowBits(Value(s[..|s| - 1]), s[|s| - 1], 8 * |s| - prefix);
  }

  /** The prefix ends before the last byte: all of it must be zero. */
  lemma LongTail(s: bytes, prefix: nat)
    requires s != [] && prefix < 8 * (|s| - 1)
    ensures Value(s) % Pow2(8 * |s| - prefix) == 0
            <==> s[|s| - 1] == 0 && Value(s[..|s| - 1]) % Pow2(8 * (|s| - 1) - prefix) == 0
    ensures s[|s| - 1] % Pow2(8 - Start(|s| - 1, prefix)) == s[|s| - 1]
  {
    SmallPowers();
    PowerPastByte(8 * |s| - prefix);
    ByteShift(Value(s[..|s| - 1]), s[|s| - 1], Pow2(8 * (|s| - 1) - prefix));
  }

  /** Every byte's tail beyond the prefix is zero. */
  predicate NoTails(s: bytes, prefix: nat) {
    forall i :: 0 <= i < |s| ==> s[i] % Pow2(8 - Start(i, prefix)) == 0
  }

  lemma NoTailsSplit(s: bytes, prefix: nat)
    requires s != []
    ensures NoTails(s, prefix) <==> NoTails(s[..|s| - 1], prefix) && s[|s| - 1] % Pow2(8 - Start(|s| - 1, prefix)) == 0
  {
    var front := s[..|s| - 1];
    assert forall i :: 0 <= i < |front| ==> front[i] == s[i];
  }

  /** A value is a multiple of the power of two beyond the prefix exactly when every byte's tail is zero. */
  lemma {:induction false} TailsZero(s: bytes, prefix: nat)
    requires prefix <= 8 * |s|
    ensures Value(s) % Pow2(8 * |s| - prefix) == 0 <==> NoTails(s, prefix)
    decreases |s|
  {
    if s != [] {
      if prefix >= 8 * (|s| - 1) {
        ShortTail(s, prefix);
      } else {
        LongTail(s, prefix);
        NoTailsSplit(s, prefix);
        TailsZero(s[..|s| - 1], prefix);
      }
    }
  }
}
