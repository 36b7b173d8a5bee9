/** The virtual address pool: two maps that stay inverse, expiry, renewal and lease generations. */
module Leases {
  import opened Bytes
  import opened Control

  datatype Lease = Lease(id: u64, identity: string, address: Ipv4, addressV6: Ipv6, expiresAt: int)

  datatype Config = Config(
    first: u32,
    last: u32,
    gateway: Ipv4,
    prefixLength: byte,
    mtu: u16,
    duration: int,
    prefixV6: Ipv6,
    gatewayV6: Ipv6,
    prefixLengthV6: byte)

  datatype Pool = Pool(leases: map<string, Lease>, owners: map<u32, string>, nextId: u64)

  datatype LeaseError = EmptyIdentity | IdentityActive | IdsExhausted | GatewayCollision | PoolExhausted

  const EMPTY_POOL := Pool(map[], map[], 1)

  // ---------- Addresses and masks ----------

  function ToInteger(a: Ipv4): u32 {
    ReadU32(a, 0)
  }

  function FromInteger(n: u32): (a: Ipv4)
    ensures ToInteger(a) == n
  {
    assert U32(n)[0..4] == U32(n);
    ReadU32OfU32(n, U32(n), 0);
    U32(n)
  }

  lemma FromToInteger(a: Ipv4)
    ensures FromInteger(ToInteger(a)) == a
  {
    U32OfReadU32(a, 0);
    assert a[0..4] == a;
  }

  function Pow2(n: nat): (p: nat)
    ensures p > 0
  {
    if n == 0 then 1 else 2 * Pow2(n - 1)
  }

  /** `n` with its low `k` bits cleared. */
  function ClearLow(n: nat, k: nat): (r: nat)
    ensures r <= n < r + Pow2(k)
  {
    if k == 0 then n else 2 * ClearLow(n / 2, k - 1)
  }

  /** The bitwise conjunction of `n` with the mask of a prefix length. */
  function Masked(n: u32, prefix: nat): (r: u32)
    requires prefix <= 32
  {
    ClearLow(n, 32 - prefix)
  }

  /** `n` with its low `32 - prefix` bits set. */
  function Broadcast(n: u32, prefix: nat): int
    requires prefix <= 32
  {
    Masked(n, prefix) + Pow2(32 - prefix) - 1
  }

  /** The checks of the lease manager's constructor. */
  predicate ValidConfig(c: Config) {
    && c.first <= c.last
    && c.gateway != IPV4_ZERO
    && 1 <= c.prefixLength <= 32
    && MIN_IPV4_MTU <= c.mtu <= MAX_MTU
    && 0 < c.duration < 0x1_0000_0000
    && (c.prefixLengthV6 != 0 ==>
          && c.prefixLengthV6 == 64 && c.gatewayV6 != IPV6_ZERO
          && c.prefixV6[..8] == c.gatewayV6[..8] && c.prefixV6[8..] == IPV6_ZERO[8..])
    && !(c.first <= ToInteger(c.gateway) <= c.last)
    && (var gateway := ToInteger(c.gateway);
        var network := Masked(gateway, c.prefixLength);
        && Masked(c.first, c.prefixLength) == network && Masked(c.last, c.prefixLength) == network
        && (c.prefixLength <= 30 ==> network < c.first && c.last < Broadcast(gateway, c.prefixLength)))
  }

  /** The IPv6 address that accompanies an IPv4 lease: pool prefix, then the IPv4 bytes at the end. */
  function DeriveV6(c: Config, a: Ipv4): Ipv6 {
    if c.prefixLengthV6 == 0 then IPV6_ZERO else c.prefixV6[..8] + [0, 0, 0, 0] + a
  }

  function ToAssignment(c: Config, l: Lease): Assignment
    requires 0 <= c.duration < 0x1_0000_0000
  {
    Assignment(l.address, c.gateway, c.prefixLength, c.mtu, c.duration, l.addressV6, c.gatewayV6, c.prefixLengthV6)
  }

  // ---------- The operations on values ----------

  function Reap(p: Pool, now: int): Pool {
    Pool(map i | i in p.leases && p.leases[i].expiresAt > now :: p.leases[i],
         map a | a in p.owners && p.owners[a] in p.leases && p.leases[p.owners[a]].expiresAt > now :: p.owners[a],
         p.nextId)
  }

  /** The lowest unowned address from `a` up to `last`. */
  function FirstFree(owners: map<u32, string>, a: u32, last: u32): (r: Option<u32>)
    requires a <= last
    ensures r.Some? ==> a <= r.value <= last && r.value !in owners
    ensures r.Some? ==> forall b :: a <= b < r.value ==> b in owners
    ensures r.None? ==> forall b :: a <= b <= last ==> b in owners
    decreases last - a
  {
    if a !in owners then Some(a)
    else if a == last then None
    else FirstFree(owners, a + 1, last)
  }

  /** Why a lease cannot be issued on an already reaped pool, if so. */
  function Refusal(c: Config, p: Pool, identity: string): Option<LeaseError>
    requires c.first <= c.last
  {
    if identity in p.leases then Some(IdentityActive)
    else
      var free := FirstFree(p.owners, c.first, c.last);
      if free.None? then Some(PoolExhausted)
      else if p.nextId == 0 then Some(IdsExhausted)
      else if c.prefixLengthV6 != 0 && DeriveV6(c, FromInteger(free.value)) == c.gatewayV6 then Some(GatewayCollision)
      else None
  }

  function AcquireSpec(c: Config, p: Pool, identity: string, now: int): (Pool, Result<Lease, LeaseError>)
    requires c.first <= c.last
  {
    if identity == "" then (p, Err(EmptyIdentity))
    else
      var q := Reap(p, now);
      if Refusal(c, q, identity).Some? then (q, Err(Refusal(c, q, identity).value))
      else
        var n := FirstFree(q.owners, c.first, c.last).value;
        var address := FromInteger(n);
        var lease := Lease(q.nextId, identity, address, DeriveV6(c, address), now + c.duration);
        (Pool(q.leases[identity := lease], q.owners[n := identity], Next64(q.nextId)), Ok(lease))
  }

  /** Is `l` the generation the pool currently holds for its identity? */
  predicate Current(p: Pool, l: Lease) {
    l.identity in p.leases && p.leases[l.identity].id == l.id && p.leases[l.identity].address == l.address
  }

  function RenewSpec(c: Config, p: Pool, l: Lease, now: int): (Pool, Option<Lease>) {
    var q := Reap(p, now);
    if !Current(q, l) then (q, None)
    else
      var renewed := q.leases[l.identity].(expiresAt := now + c.duration);
      (q.(leases := q.leases[l.identity := renewed]), Some(renewed))
  }

  function ReleaseSpec(p: Pool, l: Lease): (Pool, bool) {
    if !Current(p, l) then (p, false)
    else (p.(leases := p.leases - {l.identity}, owners := p.owners - {ToInteger(p.leases[l.identity].address)}), true)
  }

  // ---------- The invariant ----------

  /** Has the generation number `id` ever been handed out? */
  predicate Issued(p: Pool, id: u64) {
    id != 0 && (p.nextId == 0 || id < p.nextId)
  }

  /** A pool entry: filed under its identity, inside the pool, owning its address, with an issued number. */
  predicate GoodEntry(c: Config, p: Pool, i: string)
    requires i in p.leases
  {
    var l := p.leases[i];
    && l.identity == i && i != "" && Issued(p, l.id)
    && c.first <= ToInteger(l.address) <= c.last && l.addressV6 == DeriveV6(c, l.address)
    && ToInteger(l.address) in p.owners && p.owners[ToInteger(l.address)] == i
  }

  predicate GoodOwner(p: Pool, a: u32)
    requires a in p.owners
  {
    p.owners[a] in p.leases && ToInteger(p.leases[p.owners[a]].address) == a
  }

  predicate SameId(p: Pool, i: string, j: string) {
    i in p.leases && j in p.leases && p.leases[i].id == p.leases[j].id
  }

  ghost predicate PoolInv(c: Config, p: Pool) {
    && (forall i {:trigger GoodEntry(c, p, i)} :: i in p.leases ==> GoodEntry(c, p, i))
    && (forall a {:trigger GoodOwner(p, a)} :: a in p.owners ==> GoodOwner(p, a))
    && (forall i, j {:trigger SameId(p, i, j)} :: SameId(p, i, j) ==> i == j)
  }

  lemma ReapKeeps(c: Config, p: Pool, now: int)
    requires PoolInv(c, p)
    ensures PoolInv(c, Reap(p, now))
  {
    var q := Reap(p, now);
    forall i | i in q.leases
      ensures GoodEntry(c, q, i)
    {
      assert GoodEntry(c, p, i);
    }
    forall a | a in q.owners
      ensures GoodOwner(q, a)
    {
      assert GoodOwner(p, a);
    }
    forall i, j | SameId(q, i, j)
      ensures i == j
    {
      assert SameId(p, i, j);
    }
  }

  lemma AcquireKeeps(c: Config, p: Pool, identity: string, now: int)
    requires c.first <= c.last && PoolInv(c, p)
    ensures PoolInv(c, AcquireSpec(c, p, identity, now).0)
  {
    ReapKeeps(c, p, now);
    var q := Reap(p, now);
    if identity != "" && Refusal(c, q, identity).None? {
      var n := FirstFree(q.owners, c.first, c.last).value;
      var a := FromInteger(n);
      var lease := Lease(q.nextId, identity, a, DeriveV6(c, a), now + c.duration);
      InsertKeeps(c, q, lease, n);
      assert AcquireSpec(c, p, identity, now).0
          == Pool(q.leases[identity := lease], q.owners[n := identity], Next64(q.nextId));
    } else {
      assert AcquireSpec(c, p, identity, now).0 in {p, q};
    }
  }

  lemma InsertKeeps(c: Config, q: Pool, l: Lease, n: u32)
    requires PoolInv(c, q) && l.identity != "" && l.identity !in q.leases && n !in q.owners
    requires n == ToInteger(l.address) && c.first <= n <= c.last
    requires l.addressV6 == DeriveV6(c, l.address) && l.id == q.nextId != 0
    ensures PoolInv(c, Pool(q.leases[l.identity := l], q.owners[n := l.identity], Next64(q.nextId)))
  {
    var p' := Pool(q.leases[l.identity := l], q.owners[n := l.identity], Next64(q.nextId));
    forall i | i in p'.leases
      ensures GoodEntry(c, p', i)
    {
      if i != l.identity {
        assert GoodEntry(c, q, i);
      }
    }
    forall a | a in p'.owners
      ensures GoodOwner(p', a)
    {
      if a != n {
        assert GoodOwner(q, a);
      }
    }
    forall i, j | SameId(p', i, j)
      ensures i == j
    {
      assert i == l.identity || GoodEntry(c, q, i);
      assert j == l.identity || GoodEntry(c, q, j);
      assert i == l.identity || j == l.identity || SameId(q, i, j);
    }
  }

  lemma RenewKeeps(c: Config, p: Pool, l: Lease, now: int)
    requires PoolInv(c, p)
    ensures PoolInv(c, RenewSpec(c, p, l, now).0)
  {
    ReapKeeps(c, p, now);
    var q := Reap(p, now);
    if Current(q, l) {
      ExtendKeeps(c, q, l.identity, now + c.duration);
    } else {
      assert RenewSpec(c, p, l, now).0 == q;
    }
  }

  lemma ExtendKeeps(c: Config, q: Pool, identity: string, expiry: int)
    requires PoolInv(c, q) && identity in q.leases
    ensures PoolInv(c, q.(leases := q.leases[identity := q.leases[identity].(expiresAt := expiry)]))
  {
    var p' := q.(leases := q.leases[identity := q.leases[identity].(expiresAt := expiry)]);
    forall i | i in p'.leases
      ensures GoodEntry(c, p', i)
    {
      assert GoodEntry(c, q, i);
    }
    forall a | a in p'.owners
      ensures GoodOwner(p', a)
    {
      assert GoodOwner(q, a);
    }
    forall i, j | SameId(p', i, j)
      ensures i == j
    {
      assert SameId(q, i, j);
    }
  }

  lemma ReleaseKeeps(c: Config, p: Pool, l: Lease)
    requires PoolInv(c, p)
    ensures PoolInv(c, ReleaseSpec(p, l).0)
  {
    if Current(p, l) {
      var p' := ReleaseSpec(p, l).0;
      assert GoodEntry(c, p, l.identity);
      forall i | i in p'.leases
        ensures GoodEntry(c, p', i)
      {
        assert GoodEntry(c, p, i);
        assert p.owners[ToInteger(p.leases[i].address)] == i;
      }
      forall a | a in p'.owners
        ensures GoodOwner(p', a)
      {
        assert GoodOwner(p, a);
      }
      forall i, j | SameId(p', i, j)
        ensures i == j
      {
        assert SameId(p, i, j);
      }
    }
  }

  /** The two maps are exact inverses. */
  lemma MapsAreInverse(c: Config, p: Pool, i: string, a: u32)
    requires PoolInv(c, p)
    ensures (i in p.leases && ToInteger(p.leases[i].address) == a) <==> (a in p.owners && p.owners[a] == i)
  {
    if i in p.leases {
      assert GoodEntry(c, p, i);
    }
    if a in p.owners {
      assert GoodOwner(p, a);
    }
  }

  /** The identity has a lease that has not expired. */
  predicate Active(p: Pool, identity: string, now: int) {
    identity in p.leases && p.leases[identity].expiresAt > now
  }

  /** Every pool address belongs to some unexpired lease. */
  ghost predicate Full(c: Config, q: Pool) {
    forall a: u32 :: c.first <= a <= c.last ==> a in q.owners
  }

  /** The lowest free address derives the IPv6 gateway. */
  ghost predicate Collides(c: Config, q: Pool) {
    c.prefixLengthV6 != 0 && exists a: u32 :: IsLowestFree(c, q, a) && DeriveV6(c, FromInteger(a)) == c.gatewayV6
  }

  /**
   * Which outcome `acquire` has, exactly: on success the lowest free address under the next id until one
   * lease duration from now; otherwise the first of an empty or active identity, a full pool, exhausted ids
   * and a lowest free address that derives the IPv6 gateway.
   */
  lemma AcquireIssuesLowestFree(c: Config, p: Pool, identity: string, now: int)
    requires c.first <= c.last && PoolInv(c, p)
    ensures var q, r := Reap(p, now), AcquireSpec(c, p, identity, now).1;
            && (r == Err(EmptyIdentity) <==> identity == "")
            && (r == Err(IdentityActive) <==> identity != "" && Active(p, identity, now))
            && (r == Err(PoolExhausted) <==> identity != "" && !Active(p, identity, now) && Full(c, q))
            && (r == Err(IdsExhausted) <==>
                  identity != "" && !Active(p, identity, now) && !Full(c, q) && p.nextId == 0)
            && (r == Err(GatewayCollision) <==>
                  identity != "" && !Active(p, identity, now) && p.nextId != 0 && Collides(c, q))
            && (r.Ok? ==> && IsLowestFree(c, q, ToInteger(r.value.address)) && r.value.id == p.nextId
                          && r.value.identity == identity && r.value.expiresAt == now + c.duration
                          && r.value.addressV6 == DeriveV6(c, r.value.address))
  {
    var q := Reap(p, now);
    assert identity in q.leases <==> Active(p, identity, now);
    var free := FirstFree(q.owners, c.first, c.last);
    if free.Some? {
      assert IsLowestFree(c, q, free.value);
    }
    forall a: u32 | IsLowestFree(c, q, a)
      ensures free == Some(a)
    {
    }
  }

  /** Addresses 10.0.0.2 to 10.0.0.10, the first of which derives the IPv6 gateway. */
  function CollidingPool(): Config {
    Config(0x0A00_0002, 0x0A00_000A, [10, 0, 0, 1], 24, 1400, 60,
           [0xFD, 0, 0, 0, 0, 0, 0, 0, 0, 0, 0, 0, 0, 0, 0, 0], [0xFD, 0, 0, 0, 0, 0, 0, 0, 0, 0, 0, 0, 10, 0, 0, 2], 64)
  }

  lemma CollidingPoolIsValid()
    ensures ValidConfig(CollidingPool())
  {
    var c := CollidingPool();
    assert c.gatewayV6[0] != IPV6_ZERO[0];
    assert ToInteger(c.gateway) == 0x0A00_0001;
  }

  /**
   * A pool that the constructor accepts and whose first address derives the IPv6 gateway: nobody can
   * acquire an address, although all the others are free.
   */
  lemma HigherAddressesAreNotTried(identity: string, now: int)
    ensures var c := CollidingPool();
            && ValidConfig(c) && c.first < 0x0A00_0003 <= c.last && 0x0A00_0003 !in EMPTY_POOL.owners
            && (identity != "" ==> AcquireSpec(c, EMPTY_POOL, identity, now) == (EMPTY_POOL, Err(GatewayCollision)))
  {
    CollidingPoolIsValid();
    var a: Ipv4 := [10, 0, 0, 2];
    FromToInteger(a);
    assert ToInteger(a) == 0x0A00_0002;
    assert Reap(EMPTY_POOL, now) == EMPTY_POOL;
  }

  ghost predicate IsLowestFree(c: Config, p: Pool, a: u32) {
    c.first <= a <= c.last && a !in p.owners && forall b :: c.first <= b < a ==> b in p.owners
  }
}
