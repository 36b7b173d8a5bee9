/** The lease manager object: every operation, with its loops, computes the pool functions of `Leases`. */
module LeaseManagers {
  import opened Bytes
  import opened Control
  import opened Leases

  class LeaseManager {
    const config: Config
    var leases: map<string, Lease>
    var owners: map<u32, string>
    var nextId: u64

    ghost predicate Valid()
      reads this
    {
      ValidConfig(config) && PoolInv(config, Model())
    }

    ghost function Model(): Pool
      reads this
    {
      Pool(leases, owners, nextId)
    }

    /** Construction with the checks in order; a null result stands for the thrown error. */
    static method Create(c: Config) returns (m: LeaseManager?)
      ensures m != null <==> ValidConfig(c)
      ensures m != null ==> fresh(m) && m.Valid() && m.config == c && m.Model() == EMPTY_POOL
    {
      if c.first > c.last || c.gateway == IPV4_ZERO || c.prefixLength == 0 || c.prefixLength > 32
         || c.mtu < MIN_IPV4_MTU || c.mtu > MAX_MTU || c.duration <= 0 || c.duration > 0xFFFF_FFFF {
        return null;
      }
      if c.prefixLengthV6 != 0 {
        if c.prefixLengthV6 != 64 || c.gatewayV6 == IPV6_ZERO || c.prefixV6[..8] != c.gatewayV6[..8]
           || c.prefixV6[8..] != IPV6_ZERO[8..] {
          return null;
        }
      }
      var gateway := ToInteger(c.gateway);
      if c.first <= gateway <= c.last {
        return null;
      }
      var network := Masked(gateway, c.prefixLength);
      if Masked(c.first, c.prefixLength) != network || Masked(c.last, c.prefixLength) != network {
        return null;
      }
      if c.prefixLength <= 30 && (c.first <= network || c.last >= Broadcast(gateway, c.prefixLength)) {
        return null;
      }
      m := new LeaseManager(c);
    }

    constructor (c: Config)
      requires ValidConfig(c)
      ensures Valid() && config == c && Model() == EMPTY_POOL
    {
      config := c;
      leases, owners, nextId := map[], map[], 1;
    }

    /** Erase every lease that expired by `now`, in whatever order the map yields them. */
    method ReapExpired(now: int) returns (removed: nat)
      requires Valid()
      modifies this
      ensures Valid() && Model() == Reap(old(Model()), now)
      ensures removed == |old(leases)| - |leases|
    {
      ghost var p := Model();
      removed := 0;
      var todo := leases.Keys;
      SweepStart(config, p, now);
      while todo != {}
        invariant nextId == p.nextId && Swept(p, leases, owners, todo, now)
        invariant removed + |leases| == |p.leases|
        decreases todo
      {
        var i :| i in todo;
        assert todo == todo - {i} + {i};
        todo := todo - {i};
        if leases[i].expiresAt <= now {
          EraseOne(config, p, leases, owners, todo, now, i);
          owners := owners - {ToInteger(leases[i].address)};
          leases := leases - {i};
          removed := removed + 1;
        } else {
          KeepOne(p, leases, owners, todo, now, i);
        }
      }
      SweptIsReaped(config, p, leases, owners, now);
      ReapKeeps(config, p, now);
      assert Model() == Reap(p, now);
    }

    /** Scan upward from the first address; the bound is tested before the increment, so it cannot overflow. */
    method LowestFree() returns (r: Option<u32>)
      requires Valid()
      ensures r == FirstFree(owners, config.first, config.last)
    {
      var candidate: u32 := config.first;
      while true
        invariant config.first <= candidate <= config.last
        invariant FirstFree(owners, candidate, config.last) == FirstFree(owners, config.first, config.last)
        decreases config.last - candidate
      {
        if candidate !in owners {
          return Some(candidate);
        }
        if candidate == config.last {
          return None;
        }
        candidate := candidate + 1;
      }
    }

    method Acquire(identity: string, now: int) returns (r: Result<Lease, LeaseError>)
      requires Valid()
      modifies this
      ensures Valid() && (Model(), r) == AcquireSpec(config, old(Model()), identity, now)
    {
      if identity == "" {
        return Err(EmptyIdentity);
      }
      var _ := ReapExpired(now);
      ghost var q := Model();
      if identity in leases {
        return Err(IdentityActive);
      }
      var free := LowestFree();
      if free.None? {
        return Err(PoolExhausted);
      }
      r := Issue(identity, free.value, now);
    }

    /** Issue the free address `candidate` under the next id. */
    method Issue(identity: string, candidate: u32, now: int) returns (r: Result<Lease, LeaseError>)
      requires Valid() && identity != "" && identity !in leases
      requires FirstFree(owners, config.first, config.last) == Some(candidate)
      modifies this
      ensures Valid()
      ensures var q, v4 := old(Model()), FromInteger(candidate);
              var lease := Lease(q.nextId, identity, v4, DeriveV6(config, v4), now + config.duration);
              if q.nextId == 0 then Model() == q && r == Err(IdsExhausted)
              else if config.prefixLengthV6 != 0 && DeriveV6(config, v4) == config.gatewayV6
              then Model() == q && r == Err(GatewayCollision)
              else && r == Ok(lease)
                   && Model() == Pool(q.leases[identity := lease], q.owners[candidate := identity], Next64(q.nextId))
    {
      ghost var q := Model();
      if nextId == 0 {
        return Err(IdsExhausted);
      }
      var v4 := FromInteger(candidate);
      var v6 := IPV6_ZERO;
      if config.prefixLengthV6 != 0 {
        v6 := config.prefixV6[..8] + [0, 0, 0, 0] + v4;
        if v6 == config.gatewayV6 {
          return Err(GatewayCollision);
        }
      }
      var lease := Lease(nextId, identity, v4, v6, now + config.duration);
      InsertKeeps(config, q, lease, candidate);
      nextId := Next64(nextId);
      leases := leases[identity := lease];
      owners := owners[candidate := identity];
      r := Ok(lease);
    }

    method Renew(expected: Lease, now: int) returns (r: Option<Lease>)
      requires Valid()
      modifies this
      ensures Valid() && (Model(), r) == RenewSpec(config, old(Model()), expected, now)
    {
      var _ := ReapExpired(now);
      ghost var q := Model();
      if expected.identity !in leases || leases[expected.identity].id != expected.id
         || leases[expected.identity].address != expected.address {
        return None;
      }
      ExtendKeeps(config, q, expected.identity, now + config.duration);
      var renewed := leases[expected.identity].(expiresAt := now + config.duration);
      leases := leases[expected.identity := renewed];
      assert Model() == q.(leases := q.leases[expected.identity := renewed]);
      r := Some(renewed);
    }

    method Release(expected: Lease) returns (released: bool)
      requires Valid()
      modifies this
      ensures Valid() && (Model(), released) == ReleaseSpec(old(Model()), expected)
    {
      ReleaseKeeps(config, Model(), expected);
      if expected.identity !in leases || leases[expected.identity].id != expected.id
         || leases[expected.identity].address != expected.address {
        return false;
      }
      owners := owners - {ToInteger(leases[expected.identity].address)};
      leases := leases - {expected.identity};
      released := true;
    }

    method ActiveCount(now: int) returns (n: nat)
      requires Valid()
      modifies this
      ensures Valid() && Model() == Reap(old(Model()), now)
      ensures n == |leases|
    {
      var _ := ReapExpired(now);
      n := |leases|;
    }

    /** Capacity minus active leases never underflows, and it is the number of unowned pool addresses. */
    method AvailableCount(now: int) returns (n: nat)
      requires Valid()
      modifies this
      ensures Valid() && Model() == Reap(old(Model()), now)
      ensures n + |leases| == config.last - config.first + 1
      ensures n == |FreeAddresses(config, Model())|
    {
      var _ := ReapExpired(now);
      CountsAgree(config, Model());
      n := config.last - config.first + 1 - |leases|;
    }
  }

  /** Where the sweep stands: expired leases outside `todo` are gone, and exactly their addresses with them. */
  ghost predicate Swept(p: Pool, leases: map<string, Lease>, owners: map<u32, string>, todo: set<string>, now: int) {
    && todo <= leases.Keys
    && (forall i :: i in leases <==> i in p.leases && (i in todo || p.leases[i].expiresAt > now))
    && (forall i :: i in leases ==> leases[i] == p.leases[i])
    && (forall a :: a in owners <==> a in p.owners && p.owners[a] in leases)
    && (forall a :: a in owners ==> owners[a] == p.owners[a])
  }

  lemma SweepStart(c: Config, p: Pool, now: int)
    requires PoolInv(c, p)
    ensures Swept(p, p.leases, p.owners, p.leases.Keys, now)
  {
    forall a | a in p.owners
      ensures p.owners[a] in p.leases
    {
      assert GoodOwner(p, a);
    }
  }

  lemma KeepOne(p: Pool, leases: map<string, Lease>, owners: map<u32, string>, todo: set<string>, now: int, i: string)
    requires Swept(p, leases, owners, todo + {i}, now) && p.leases[i].expiresAt > now
    ensures Swept(p, leases, owners, todo, now)
  {
  }

  lemma EraseOne(c: Config, p: Pool, leases: map<string, Lease>, owners: map<u32, string>, todo: set<string>, now: int,
                 i: string)
    requires PoolInv(c, p) && Swept(p, leases, owners, todo + {i}, now)
    requires i !in todo && p.leases[i].expiresAt <= now
    ensures Swept(p, leases - {i}, owners - {ToInteger(leases[i].address)}, todo, now)
  {
    assert GoodEntry(c, p, i);
    forall a | a in owners
      ensures a == ToInteger(leases[i].address) <==> p.owners[a] == i
    {
      assert GoodOwner(p, a);
    }
  }

  lemma SweptIsReaped(c: Config, p: Pool, leases: map<string, Lease>, owners: map<u32, string>, now: int)
    requires PoolInv(c, p) && Swept(p, leases, owners, {}, now)
    ensures Reap(p, now) == Pool(leases, owners, p.nextId)
  {
    assert forall a :: a in p.owners ==> GoodOwner(p, a);
    assert leases == Reap(p, now).leases;
    assert owners == Reap(p, now).owners;
  }

  ghost function FreeAddresses(c: Config, p: Pool): set<u32> {
    set a: u32 | c.first <= a <= c.last && a !in p.owners
  }

  lemma {:induction false} IntervalSize(a: u32, b: int, s: set<u32>)
    requires a <= b + 1 <= 0x1_0000_0000 && forall x: u32 :: x in s <==> a <= x <= b
    ensures |s| == b - a + 1
    decreases b - a + 1
  {
    if a <= b {
      IntervalSize(a, b - 1, s - {b});
    } else {
      assert s == {};
    }
  }

  lemma {:induction false} SameSize(c: Config, p: Pool, ids: set<string>, addresses: set<u32>)
    requires PoolInv(c, p) && ids <= p.leases.Keys
    requires forall a: u32 :: a in addresses <==> a in p.owners && p.owners[a] in ids
    ensures |ids| == |addresses|
    decreases ids
  {
    if ids == {} {
      assert addresses == {};
    } else {
      var i :| i in ids;
      assert GoodEntry(c, p, i);
      var n := ToInteger(p.leases[i].address);
      forall a | a in addresses && p.owners[a] == i
        ensures a == n
      {
        assert GoodOwner(p, a);
      }
      SameSize(c, p, ids - {i}, addresses - {n});
    }
  }

  /** Active plus free addresses make up the whole pool. */
  lemma CountsAgree(c: Config, p: Pool)
    requires c.first <= c.last && PoolInv(c, p)
    ensures |FreeAddresses(c, p)| + |p.leases| == c.last - c.first + 1
  {
    var used, free := p.owners.Keys, FreeAddresses(c, p);
    forall a | a in used
      ensures c.first <= a <= c.last
    {
      assert GoodOwner(p, a) && GoodEntry(c, p, p.owners[a]);
    }
    forall a | a in used
      ensures p.owners[a] in p.leases
    {
      assert GoodOwner(p, a);
    }
    SameSize(c, p, p.leases.Keys, used);
    IntervalSize(c.first, c.last, free + used);
    UnionSize(free, used);
  }

  lemma UnionSize(a: set<u32>, b: set<u32>)
    requires a !! b
    ensures |a + b| == |a| + |b|
  {
  }
}
