/** One pool and the lease copies its users hold: what every lease operation keeps. */
module Ledger {
  import opened Bytes
  import opened Leases

  type Held = map<nat, Lease>

  /** A held copy, current or stale: an issued number, a pool address and the derived IPv6 address. */
  predicate GoodCopy(c: Config, p: Pool, l: Lease) {
    && Issued(p, l.id) && l.identity != ""
    && c.first <= ToInteger(l.address) <= c.last && l.addressV6 == DeriveV6(c, l.address)
  }

  predicate SameHeldId(held: Held, j: nat, k: nat) {
    j in held && k in held && held[j].id == held[k].id
  }

  predicate Backs(p: Pool, held: Held, i: string, k: nat) {
    i in p.leases && k in held && held[k] == p.leases[i]
  }

  ghost predicate Backed(p: Pool, held: Held, i: string) {
    exists k :: Backs(p, held, i, k)
  }

  /** Every pool entry is the exact copy held by someone, and no two holders share a generation. */
  ghost predicate LedgerInv(c: Config, p: Pool, held: Held) {
    && PoolInv(c, p)
    && (forall k {:trigger GoodCopy(c, p, held[k])} :: k in held ==> GoodCopy(c, p, held[k]))
    && (forall j, k {:trigger SameHeldId(held, j, k)} :: SameHeldId(held, j, k) ==> j == k)
    && (forall i {:trigger Backed(p, held, i)} :: i in p.leases ==> Backed(p, held, i))
  }

  function SetLease(held: Held, k: nat, l: Option<Lease>): Held {
    if l.Some? then held[k := l.value] else held - {k}
  }

  lemma ReapOp(c: Config, p: Pool, held: Held, now: int)
    requires LedgerInv(c, p, held)
    ensures LedgerInv(c, Reap(p, now), held)
  {
    ReapKeeps(c, p, now);
    var q := Reap(p, now);
    forall k | k in held
      ensures GoodCopy(c, q, held[k])
    {
      assert GoodCopy(c, p, held[k]);
    }
    forall i | i in q.leases
      ensures Backed(q, held, i)
    {
      assert Backed(p, held, i);
      var k :| Backs(p, held, i, k);
      assert Backs(q, held, i, k);
    }
  }

  lemma AcquireOp(c: Config, p: Pool, held: Held, identity: string, now: int, k: nat)
    requires LedgerInv(c, p, held) && c.first <= c.last && k !in held
    ensures var (p', r) := AcquireSpec(c, p, identity, now);
            && LedgerInv(c, p', if r.Ok? then held[k := r.value] else held)
            && (r.Ok? ==> r.value.identity == identity && Current(p', r.value))
  {
    ReapOp(c, p, held, now);
    AcquireKeeps(c, p, identity, now);
    var q := Reap(p, now);
    var (p', r) := AcquireSpec(c, p, identity, now);
    if r.Ok? {
      IssueBacked(c, q, p', held, r.value, k);
    } else {
      assert p' == p || p' == q;
    }
  }

  /** Adding a fresh generation together with its holder. */
  lemma IssueBacked(c: Config, q: Pool, p': Pool, held: Held, l: Lease, k: nat)
    requires LedgerInv(c, q, held) && PoolInv(c, p') && k !in held
    requires l.id == q.nextId != 0 && p'.nextId == Next64(q.nextId) && l.identity !in q.leases
    requires p'.leases == q.leases[l.identity := l]
    ensures LedgerInv(c, p', held[k := l])
  {
    var held' := held[k := l];
    assert GoodEntry(c, p', l.identity);
    forall j | j in held'
      ensures GoodCopy(c, p', held'[j])
    {
      assert j == k || GoodCopy(c, q, held[j]);
    }
    forall i, j | SameHeldId(held', i, j)
      ensures i == j
    {
      assert i == k || GoodCopy(c, q, held[i]);
      assert j == k || GoodCopy(c, q, held[j]);
      assert i == k || j == k || SameHeldId(held, i, j);
    }
    forall i | i in p'.leases
      ensures Backed(p', held', i)
    {
      if i == l.identity {
        assert Backs(p', held', i, k);
      } else {
        assert Backed(q, held, i);
        var j :| Backs(q, held, i, j);
        assert Backs(p', held', i, j);
      }
    }
  }

  lemma RenewOp(c: Config, p: Pool, held: Held, now: int, k: nat)
    requires LedgerInv(c, p, held) && k in held
    ensures var (p', r) := RenewSpec(c, p, held[k], now);
            && LedgerInv(c, p', if r.Some? then held[k := r.value] else held)
            && (r.Some? ==> && r.value == held[k].(expiresAt := now + c.duration)
                            && p'.leases[held[k].identity] == r.value && Current(p', r.value))
  {
    ReapOp(c, p, held, now);
    RenewKeeps(c, p, held[k], now);
    var q := Reap(p, now);
    var (p', r) := RenewSpec(c, p, held[k], now);
    if r.Some? {
      CurrentIsExact(c, q, held, k);
      ExtendBacked(c, q, p', held, k, now + c.duration);
    } else {
      assert p' == q;
    }
  }

  /** A holder whose generation is current has the pool's entry to the letter. */
  lemma CurrentIsExact(c: Config, p: Pool, held: Held, k: nat)
    requires LedgerInv(c, p, held) && k in held && Current(p, held[k])
    ensures p.leases[held[k].identity] == held[k]
  {
    var i := held[k].identity;
    assert Backed(p, held, i);
    var j :| Backs(p, held, i, j);
    assert SameHeldId(held, j, k);
  }

  lemma ExtendBacked(c: Config, q: Pool, p': Pool, held: Held, k: nat, expiry: int)
    requires LedgerInv(c, q, held) && PoolInv(c, p') && k in held
    requires held[k].identity in q.leases && q.leases[held[k].identity] == held[k] && p'.nextId == q.nextId
    requires p'.leases == q.leases[held[k].identity := held[k].(expiresAt := expiry)]
    ensures LedgerInv(c, p', held[k := held[k].(expiresAt := expiry)])
  {
    var held' := held[k := held[k].(expiresAt := expiry)];
    forall j | j in held'
      ensures GoodCopy(c, p', held'[j])
    {
      assert GoodCopy(c, q, held[j]);
    }
    forall i, j | SameHeldId(held', i, j)
      ensures i == j
    {
      assert SameHeldId(held, i, j);
    }
    forall i | i in p'.leases
      ensures Backed(p', held', i)
    {
      if i == held[k].identity {
        assert Backs(p', held', i, k);
      } else {
        assert Backed(q, held, i) && GoodEntry(c, q, i);
        var j :| Backs(q, held, i, j);
        assert Backs(p', held', i, j);
      }
    }
  }

  lemma ReleaseOp(c: Config, p: Pool, held: Held, k: nat)
    requires LedgerInv(c, p, held)
    ensures LedgerInv(c, if k in held then ReleaseSpec(p, held[k]).0 else p, held - {k})
  {
    if k in held {
      ReleaseKeeps(c, p, held[k]);
      DropBacked(c, p, ReleaseSpec(p, held[k]).0, held, k);
    } else {
      assert held - {k} == held;
    }
  }

  lemma DropBacked(c: Config, p: Pool, p': Pool, held: Held, k: nat)
    requires LedgerInv(c, p, held) && PoolInv(c, p') && k in held && p'.nextId == p.nextId
    requires p'.leases == if Current(p, held[k]) then p.leases - {held[k].identity} else p.leases
    ensures LedgerInv(c, p', held - {k})
  {
    var held' := held - {k};
    forall j | j in held'
      ensures GoodCopy(c, p', held'[j])
    {
      assert GoodCopy(c, p, held[j]);
    }
    forall i, j | SameHeldId(held', i, j)
      ensures i == j
    {
      assert SameHeldId(held, i, j);
    }
    forall i | i in p'.leases
      ensures Backed(p', held', i)
    {
      assert Backed(p, held, i) && GoodEntry(c, p, i);
      var j :| Backs(p, held, i, j);
      assert Backs(p', held', i, j);
    }
  }

  // ---------- Generations never come back ----------

  /** A generation that has been issued and is no longer current is never current again. */
  lemma RetiredStaysRetired(c: Config, p: Pool, l: Lease, identity: string, other: Lease, now: int)
    requires c.first <= c.last && PoolInv(c, p) && Issued(p, l.id) && !Current(p, l)
    ensures !Current(Reap(p, now), l) && Issued(Reap(p, now), l.id)
    ensures var q := AcquireSpec(c, p, identity, now).0; !Current(q, l) && Issued(q, l.id)
    ensures var q := RenewSpec(c, p, other, now).0; !Current(q, l) && Issued(q, l.id)
    ensures var q := ReleaseSpec(p, other).0; !Current(q, l) && Issued(q, l.id)
  {
  }
}
