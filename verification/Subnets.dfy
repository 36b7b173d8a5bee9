/** Subnets by division: what a pool's configuration and a client's policy demand, in plain arithmetic. */
module Subnets {
  import opened Bytes
  import opened Control
  import opened Leases
  import opened Canonical
  import opened ClientSession
  import opened Layouts

  /** Clearing the low bits leaves the multiple of a power of two below. */
  lemma {:induction false} ClearsRemainder(n: nat, k: nat)
    ensures ClearLow(n, k) == n - n % Pow2(k) && (n - n % Pow2(k)) % Pow2(k) == 0
    decreases k
  {
    if k == 0 {
    } else {
      ClearsRemainder(n / 2, k - 1);
      DoubleRemainder(n, Pow2(k - 1));
    }
  }

  lemma DoubleRemainder(n: nat, p: nat)
    requires p > 0
    ensures n % (2 * p) == 2 * (n / 2 % p) + n % 2
    ensures n - n % (2 * p) == 2 * (n / 2 - n / 2 % p)
    ensures (n - n % (2 * p)) % (2 * p) == 0
  {
    var q, r := n / 2 / p, n / 2 % p;
    assert n / 2 == p * q + r;
    Distributes(p, q);
    assert n == (2 * p) * q + (2 * r + n % 2);
    DivMod(n, 2 * p, q, 2 * r + n % 2);
    DivMod((2 * p) * q, 2 * p, q, 0);
  }

  lemma SameQuotient(n: nat, m: nat, p: nat)
    requires p > 0
    ensures n - n % p == m - m % p <==> n / p == m / p
  {
    assert n == p * (n / p) + n % p && m == p * (m / p) + m % p;
    if n - n % p == m - m % p {
      assert n == p * (m / p) + n % p;
      DivMod(n, p, m / p, n % p);
    }
  }

  /** An address as a number: its four bytes, the highest first. */
  function Number(a: Ipv4): nat {
    Long(a, 0)
  }

  /** The addresses agree in all but their last `32 - prefix` bits. */
  predicate SameSubnet(m: nat, n: nat, prefix: nat)
    requires prefix <= 32
  {
    m / Pow2(32 - prefix) == n / Pow2(32 - prefix)
  }

  /** The bits of an address that tell it apart from others in its subnet. */
  function HostPart(n: nat, prefix: nat): nat
    requires prefix <= 32
  {
    n % Pow2(32 - prefix)
  }

  /** Neither the first nor the last address of its subnet. */
  predicate IsHost(n: nat, prefix: nat)
    requires prefix <= 32
  {
    0 < HostPart(n, prefix) < Pow2(32 - prefix) - 1
  }

  lemma MaskExactly(m: u32, n: u32, prefix: nat)
    requires prefix <= 32
    ensures Masked(m, prefix) == Masked(n, prefix) <==> SameSubnet(m, n, prefix)
    ensures Masked(n, prefix) == n - HostPart(n, prefix)
    ensures Broadcast(n, prefix) == n - HostPart(n, prefix) + Pow2(32 - prefix) - 1
  {
    ClearsRemainder(m, 32 - prefix);
    ClearsRemainder(n, 32 - prefix);
    SameQuotient(m, n, Pow2(32 - prefix));
  }

  /** Which configurations the lease manager's constructor accepts. */
  lemma ConfigExactly(c: Config)
    ensures ValidConfig(c) <==>
              && c.first <= c.last && Number(c.gateway) != 0 && 1 <= c.prefixLength <= 32
              && 576 <= c.mtu <= 9000 && 1 <= c.duration <= 0xFFFF_FFFF
              && (c.prefixLengthV6 != 0 ==>
                    && c.prefixLengthV6 == 64 && !AllZero(c.gatewayV6)
                    && c.prefixV6[..8] == c.gatewayV6[..8] && AllZero(c.prefixV6[8..]))
              && (Number(c.gateway) < c.first || c.last < Number(c.gateway))
              && SameSubnet(c.first, Number(c.gateway), c.prefixLength)
              && SameSubnet(c.last, Number(c.gateway), c.prefixLength)
              && (c.prefixLength <= 30 ==>
                    HostPart(c.first, c.prefixLength) > 0
                    && HostPart(c.last, c.prefixLength) < Pow2(32 - c.prefixLength) - 1)
  {
    Read4(c.gateway, 0);
    ZeroIsZero(c.gateway);
    ZeroExactly(c.gatewayV6);
    TailZero(c.prefixV6);
    if 1 <= c.prefixLength <= 32 {
      MaskExactly(c.first, ToInteger(c.gateway), c.prefixLength);
      MaskExactly(c.last, ToInteger(c.gateway), c.prefixLength);
      MaskExactly(ToInteger(c.gateway), c.first, c.prefixLength);
      MaskExactly(ToInteger(c.gateway), c.last, c.prefixLength);
    }
  }

  lemma TailZero(a: Ipv6)
    ensures a[8..] == IPV6_ZERO[8..] <==> AllZero(a[8..])
  {
    assert forall i :: 0 <= i < 8 ==> IPV6_ZERO[8..][i] == 0;
    if AllZero(a[8..]) {
      assert forall i :: 0 <= i < 8 ==> a[8..][i] == IPV6_ZERO[8..][i];
    }
  }

  /** Which assignments the client accepts. */
  lemma PolicyExactly(requestedMtu: u16, a: Assignment)
    requires 1 <= a.prefixLength <= 32
    ensures Acceptable(requestedMtu, a) <==>
              && a.mtu <= requestedMtu && a.client != a.gateway
              && SameSubnet(Number(a.client), Number(a.gateway), a.prefixLength)
              && (a.prefixLength <= 30 ==>
                    IsHost(Number(a.client), a.prefixLength) && IsHost(Number(a.gateway), a.prefixLength))
              && (if a.prefixLengthV6 == 0 then AllZero(a.clientV6) && AllZero(a.gatewayV6)
                  else a.prefixLengthV6 == 64 && a.clientV6 != a.gatewayV6 && a.clientV6[..8] == a.gatewayV6[..8])
  {
    Read4(a.client, 0);
    Read4(a.gateway, 0);
    ZeroExactly(a.clientV6);
    ZeroExactly(a.gatewayV6);
    MaskExactly(ToInteger(a.client), ToInteger(a.gateway), a.prefixLength);
    MaskExactly(ToInteger(a.gateway), ToInteger(a.client), a.prefixLength);
  }

  /** The IPv6 address of a lease: the pool's first eight bytes, four zeros and the IPv4 address; or none. */
  lemma DerivedExactly(c: Config, a: Ipv4)
    ensures var d := DeriveV6(c, a);
            if c.prefixLengthV6 == 0 then AllZero(d)
            else d[..8] == c.prefixV6[..8] && d[8..12] == [0, 0, 0, 0] && d[12..] == a
  {
    ZeroExactly(DeriveV6(c, a));
  }
}
