/** What exactly each operation of the address pool does to every entry, said about entries and not about its functions. */
module PoolOutcomes {
  import opened Bytes
  import opened Leases

  /** The entry of `identity`, if there is one. */
  function Entry(p: Pool, identity: string): Option<Lease> {
    if identity in p.leases then Some(p.leases[identity]) else None
  }

  function Owner(p: Pool, a: u32): Option<string> {
    if a in p.owners then Some(p.owners[a]) else None
  }

  /** The entry, if it has not expired. */
  function Unexpired(p: Pool, identity: string, now: int): Option<Lease> {
    if identity in p.leases && p.leases[identity].expiresAt > now then Some(p.leases[identity]) else None
  }

  /** Reaping drops the entries that have expired with their addresses, and nothing else. */
  lemma ReapExactly(c: Config, p: Pool, now: int, identity: string, a: u32)
    requires PoolInv(c, p)
    ensures var q := Reap(p, now);
            && Entry(q, identity) == Unexpired(p, identity, now) && q.nextId == p.nextId
            && Owner(q, a) == (if a in p.owners && Unexpired(p, p.owners[a], now).Some? then Some(p.owners[a]) else None)
  {
    assert a in p.owners ==> GoodOwner(p, a);
  }

  /** What acquiring does to any entry and any address. */
  lemma AcquireExactly(c: Config, p: Pool, identity: string, now: int, i: string, a: u32)
    requires c.first <= c.last && PoolInv(c, p) && identity != ""
    ensures var (p', r) := AcquireSpec(c, p, identity, now);
            match r
            case Err(_) => Entry(p', i) == Unexpired(p, i, now) && p'.nextId == p.nextId
                           && Owner(p', a) == Owner(Reap(p, now), a)
            case Ok(l) =>
              && Entry(p', i) == (if i == identity then Some(l) else Unexpired(p, i, now))
              && Owner(p', a) == (if a == ToInteger(l.address) then Some(identity) else Owner(Reap(p, now), a))
              && p'.nextId == (if p.nextId == 0xFFFF_FFFF_FFFF_FFFF then 0 else p.nextId + 1)
  {
    ReapExactly(c, p, now, i, a);
  }

  /**
   * Renewing succeeds exactly for the unexpired entry with this number and address; it then lasts a lease
   * duration from now, and is otherwise the same. No other entry changes, but expired ones go.
   */
  lemma RenewExactly(c: Config, p: Pool, l: Lease, now: int, i: string, a: u32)
    requires PoolInv(c, p)
    ensures var (p', r) := RenewSpec(c, p, l, now);
            var held := Unexpired(p, l.identity, now);
            && (r.Some? <==> held.Some? && held.value.id == l.id && held.value.address == l.address)
            && (r.Some? ==> r.value == Lease(held.value.id, held.value.identity, held.value.address,
                                             held.value.addressV6, now + c.duration))
            && Entry(p', i) == (if r.Some? && i == l.identity then r else Unexpired(p, i, now))
            && Owner(p', a) == Owner(Reap(p, now), a) && p'.nextId == p.nextId
  {
    ReapExactly(c, p, now, i, a);
  }

  /** Releasing succeeds exactly for the entry with this number and address, expired or not, and drops it alone. */
  lemma ReleaseExactly(c: Config, p: Pool, l: Lease, i: string, a: u32)
    requires PoolInv(c, p)
    ensures var (p', released) := ReleaseSpec(p, l);
            var held := Entry(p, l.identity);
            && (released <==> held.Some? && held.value.id == l.id && held.value.address == l.address)
            && Entry(p', i) == (if released && i == l.identity then None else Entry(p, i))
            && Owner(p', a) == (if released && a == ToInteger(l.address) then None else Owner(p, a))
            && p'.nextId == p.nextId
  {
  }
}
