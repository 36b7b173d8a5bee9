/** Dotted IPv4 addresses as text, and tunnel routes in CIDR notation. */
module AddressText {
  import opened Bytes
  import opened Control
  import opened Transaction
  import opened Canonical

  predicate IsDigit(ch: char) {
    '0' <= ch <= '9'
  }

  /** What `from_chars` accepts in full: one digit or more and nothing else. */
  predicate IsNumber(s: string) {
    s != "" && forall i :: 0 <= i < |s| ==> IsDigit(s[i])
  }

  function Digit(ch: char): nat
    requires IsDigit(ch)
  {
    ch as int - '0' as int
  }

  function Decimal(s: string): nat
    requires forall i :: 0 <= i < |s| ==> IsDigit(s[i])
  {
    if s == "" then 0 else 10 * Decimal(s[..|s| - 1]) + Digit(s[|s| - 1])
  }

  /** Read digits from the left; anything else ends the number. */
  method FromChars(s: string) returns (r: Option<nat>)
    ensures r == if IsNumber(s) then Some(Decimal(s)) else None
  {
    if |s| == 0 {
      return None;
    }
    var value := 0;
    for i := 0 to |s|
      invariant forall j :: 0 <= j < i ==> IsDigit(s[j])
      invariant value == Decimal(s[..i])
    {
      if !IsDigit(s[i]) {
        return None;
      }
      assert s[..i + 1][..i] == s[..i];
      value := 10 * value + Digit(s[i]);
    }
    assert s[..|s|] == s;
    r := Some(value);
  }

  function FormatNumber(n: nat): (s: string)
    ensures IsNumber(s) && Decimal(s) == n
  {
    if n < 10 then [('0' as int + n) as char]
    else
      var s := FormatNumber(n / 10) + [('0' as int + n % 10) as char];
      assert s[..|s| - 1] == FormatNumber(n / 10);
      s
  }

  /** The numbers of `parts`, joined by dots. */
  function Joined(parts: seq<byte>): string {
    if parts == [] then ""
    else if |parts| == 1 then FormatNumber(parts[0])
    else FormatNumber(parts[0]) + "." + Joined(parts[1..])
  }

  function FormatIpv4(a: Ipv4): string {
    FormatNumber(a[0]) + "." + FormatNumber(a[1]) + "." + FormatNumber(a[2]) + "." + FormatNumber(a[3])
  }

  // ---------- Parsing ----------

  /** The first position of `ch`, or the length. */
  function IndexOf(s: string, ch: char): (i: nat)
    ensures i <= |s| && (forall j :: 0 <= j < i ==> s[j] != ch) && (i < |s| ==> s[i] == ch)
  {
    if s == "" || s[0] == ch then 0 else 1 + IndexOf(s[1..], ch)
  }

  predicate IsOctet(s: string) {
    IsNumber(s) && Decimal(s) < 256
  }

  /** The text spells exactly the numbers `parts`, separated by single dots; leading zeros are allowed. */
  predicate Spells(text: string, parts: seq<byte>)
    decreases |parts|
  {
    if parts == [] then false
    else if |parts| == 1 then IsOctet(text) && Decimal(text) == parts[0]
    else exists i :: 0 <= i < |text| && Separates(text, i, parts[0]) && Spells(text[i + 1..], parts[1..])
  }

  /** Before position `i` the text spells `n`, and there is a dot. */
  predicate Separates(text: string, i: nat, n: byte)
    requires i < |text|
  {
    text[i] == '.' && IsOctet(text[..i]) && Decimal(text[..i]) == n
  }

  /** `n` dotted numbers, from the left. */
  function ParseParts(text: string, n: nat): Option<bytes>
    requires n > 0
    decreases n
  {
    var i := IndexOf(text, '.');
    if !IsOctet(text[..i]) then None
    else if n == 1 then if i < |text| then None else Some([Decimal(text[..i])])
    else if i == |text| then None
    else
      Prepended([Decimal(text[..i])], ParseParts(text[i + 1..], n - 1))
  }

  lemma SeparatesAtFirstDot(text: string, i: nat, n: byte)
    requires i < |text| && Separates(text, i, n)
    ensures IndexOf(text, '.') == i
  {
    assert forall j :: 0 <= j < i ==> text[j] == text[..i][j];
  }

  lemma NumberIsWhole(text: string)
    requires IsNumber(text)
    ensures IndexOf(text, '.') == |text| && text[..|text|] == text
  {
  }

  lemma ParseOne(text: string, part: byte)
    ensures ParseParts(text, 1) == Some([part]) <==> Spells(text, [part])
  {
    var i := IndexOf(text, '.');
    if IsNumber(text) {
      NumberIsWhole(text);
    }
    assert i == |text| ==> text[..i] == text;
  }

  /** The parser returns `parts`; unfolded only where `ParseParts` is mentioned. */
  ghost predicate Reads(text: string, n: nat, parts: seq<byte>) {
    forall m: nat {:trigger ParseParts(text, m)} :: m == n && m > 0 ==> ParseParts(text, m) == Some(parts)
  }

  lemma ReadsIs(text: string, n: nat, parts: seq<byte>)
    requires n > 0
    ensures Reads(text, n, parts) <==> ParseParts(text, n) == Some(parts)
  {
  }

  lemma Splits(a: byte, rest: Option<bytes>, parts: seq<byte>)
    requires parts != []
    ensures Prepended([a], rest) == Some(parts) <==> a == parts[0] && rest == Some(parts[1..])
  {
    assert parts == [parts[0]] + parts[1..];
    if rest.Some? {
      assert ([a] + rest.value)[0] == a && ([a] + rest.value)[1..] == rest.value;
    }
  }

  /** Parsing more than one part is parsing up to the first dot, then the rest. */
  lemma ReadsMore(text: string, n: nat, parts: seq<byte>)
    requires n == |parts| > 1
    ensures Reads(text, n, parts) <==>
              var i := IndexOf(text, '.');
              i < |text| && Separates(text, i, parts[0]) && Reads(text[i + 1..], n - 1, parts[1..])
  {
    ReadsIs(text, n, parts);
    var i := IndexOf(text, '.');
    if i < |text| {
      ReadsIs(text[i + 1..], n - 1, parts[1..]);
      if IsOctet(text[..i]) {
        Splits(Decimal(text[..i]), ParseParts(text[i + 1..], n - 1), parts);
      }
    }
  }

  lemma ReadsOne(text: string, part: byte)
    ensures Reads(text, 1, [part]) <==> Spells(text, [part])
  {
    ParseOne(text, part);
    assert ParseParts(text, 1) == ParseParts(text, 1);
  }

  /** And so is spelling more than one part. */
  lemma SpellsMore(text: string, parts: seq<byte>)
    requires |parts| > 1
    ensures Spells(text, parts) <==>
              var i := IndexOf(text, '.');
              i < |text| && Separates(text, i, parts[0]) && Spells(text[i + 1..], parts[1..])
  {
    if Spells(text, parts) {
      var j :| 0 <= j < |text| && Separates(text, j, parts[0]) && Spells(text[j + 1..], parts[1..]);
      SeparatesAtFirstDot(text, j, parts[0]);
    }
  }

  lemma {:induction false} ReadsIffSpells(text: string, n: nat, parts: seq<byte>)
    requires n == |parts| > 0
    ensures Reads(text, n, parts) <==> Spells(text, parts)
    decreases n
  {
    if n == 1 {
      assert parts == [parts[0]];
      ReadsOne(text, parts[0]);
    } else {
      var i := IndexOf(text, '.');
      ReadsMore(text, n, parts);
      SpellsMore(text, parts);
      if i < |text| {
        ReadsIffSpells(text[i + 1..], n - 1, parts[1..]);
      }
    }
  }

  /** The parser accepts exactly the texts that spell an address, and returns that address. */
  lemma ParsePartsIffSpells(text: string, n: nat, parts: seq<byte>)
    requires n == |parts| > 0
    ensures ParseParts(text, n) == Some(parts) <==> Spells(text, parts)
  {
    ReadsIffSpells(text, n, parts);
  }

  lemma {:induction false} ParsePartsLength(text: string, n: nat)
    requires n > 0
    ensures ParseParts(text, n).Some? ==> |ParseParts(text, n).value| == n
    decreases n
  {
    var i := IndexOf(text, '.');
    if n > 1 && i < |text| {
      ParsePartsLength(text[i + 1..], n - 1);
    }
  }

  /** With `address` read, parsing `text` is parsing `n` more parts of `rest`; unfolded only where that is mentioned. */
  ghost predicate Remains(text: string, address: bytes, rest: string, n: nat) {
    forall m: nat {:trigger ParseParts(rest, m)} ::
      m == n && m > 0 ==> ParseParts(text, 4) == Prepended(address, ParseParts(rest, m))
  }

  lemma RemainsAtFirst(text: string)
    ensures Remains(text, [], text, 4)
  {
    EmptyPrepended(ParseParts(text, 4));
  }

  /** One more part, up to the next dot. */
  lemma RemainsNext(text: string, address: bytes, rest: string, n: nat)
    requires n > 0 && Remains(text, address, rest, n)
    ensures var i := IndexOf(rest, '.');
            if !IsOctet(rest[..i]) || (i < |rest| <==> n == 1) then ParseParts(text, 4).None?
            else if n == 1 then ParseParts(text, 4) == Some(address + [Decimal(rest[..i])])
            else Remains(text, address + [Decimal(rest[..i])], rest[i + 1..], n - 1)
  {
    var i := IndexOf(rest, '.');
    assert ParseParts(text, 4) == Prepended(address, ParseParts(rest, n));
    if IsOctet(rest[..i]) && n > 1 && i < |rest| {
      PartFollows(text, address, rest, n);
    }
  }

  lemma PartFollows(text: string, address: bytes, rest: string, n: nat)
    requires var i := IndexOf(rest, '.'); n > 1 && i < |rest| && IsOctet(rest[..i])
    requires ParseParts(text, 4) == Prepended(address, ParseParts(rest, n))
    ensures var i := IndexOf(rest, '.'); Remains(text, address + [Decimal(rest[..i])], rest[i + 1..], n - 1)
  {
    var i := IndexOf(rest, '.');
    var d, tail := Decimal(rest[..i]), ParseParts(rest[i + 1..], n - 1);
    assert ParseParts(rest, n) == Prepended([d], tail);
    Regroups(address, d, tail);
    Holds(text, address + [d], rest[i + 1..], n - 1);
  }

  lemma Holds(text: string, address: bytes, rest: string, n: nat)
    requires n > 0 && ParseParts(text, 4) == Prepended(address, ParseParts(rest, n))
    ensures Remains(text, address, rest, n)
  {
  }

  lemma ParsesWhatIsSpelled(text: string)
    ensures forall a: Ipv4 :: Spells(text, a) <==> ParseParts(text, 4) == Some(a)
    ensures ParseParts(text, 4).Some? ==> |ParseParts(text, 4).value| == 4
  {
    ParsePartsLength(text, 4);
    forall a: Ipv4
      ensures Spells(text, a) <==> ParseParts(text, 4) == Some(a)
    {
      ParsePartsIffSpells(text, 4, a);
    }
  }

  method ParseIpv4(text: string) returns (r: Option<Ipv4>)
    ensures r.Some? ==> Spells(text, r.value)
    ensures r.None? ==> forall a: Ipv4 :: !Spells(text, a)
    ensures r == ParseParts(text, 4)
  {
    ParsesWhatIsSpelled(text);
    r := ReadParts(text);
  }

  /** The component loop. */
  method ReadParts(text: string) returns (r: Option<bytes>)
    ensures r == ParseParts(text, 4)
  {
    var address: bytes := [];
    var rest := text;
    RemainsAtFirst(text);
    for component := 0 to 4
      invariant component < 4 ==> Remains(text, address, rest, 4 - component)
      invariant component == 4 ==> ParseParts(text, 4) == Some(address)
    {
      RemainsNext(text, address, rest, 4 - component);
      var end := IndexOf(rest, '.');
      var value := FromChars(rest[..end]);
      if value.None? || value.value > 255 {
        return None;
      }
      if component < 3 && end == |rest| {
        return None;
      }
      if component == 3 && end < |rest| {
        return None;
      }
      address := address + [value.value];
      rest := if end < |rest| then rest[end + 1..] else "";
    }
    r := Some(address);
  }

  function Prepended(a: bytes, r: Option<bytes>): Option<bytes> {
    if r.None? then None else Some(a + r.value)
  }

  lemma EmptyPrepended(r: Option<bytes>)
    ensures Prepended([], r) == r
  {
    if r.Some? {
      assert [] + r.value == r.value;
    }
  }

  lemma Regroups(a: bytes, b: byte, r: Option<bytes>)
    ensures Prepended(a, Prepended([b], r)) == Prepended(a + [b], r)
    ensures a + [b] + [] == a + [b]
  {
    if r.Some? {
      assert a + ([b] + r.value) == a + [b] + r.value;
    }
  }

  /** Parsing a formatted address returns it. */
  lemma FormatParses(a: Ipv4)
    ensures ParseParts(FormatIpv4(a), 4) == Some(a)
  {
    FormatIsJoined(a);
    JoinedParses(a);
  }

  /** The usual decimal digits, without leading zeros. */
  lemma DigitsExactly(n: nat)
    ensures FormatNumber(n) == (if n < 10 then [] else FormatNumber(n / 10)) + [DigitOf(n % 10)]
  {
    assert ('0' as int + n % 10) as char == DigitOf(n % 10);
    assert [] + [DigitOf(n % 10)] == [DigitOf(n % 10)];
  }

  function DigitOf(d: nat): char
    requires d < 10
  {
    ['0', '1', '2', '3', '4', '5', '6', '7', '8', '9'][d]
  }

  lemma FormatIsJoined(a: Ipv4)
    ensures FormatIpv4(a) == Joined(a)
  {
    var s0, s1, s2, s3 := FormatNumber(a[0]), FormatNumber(a[1]), FormatNumber(a[2]), FormatNumber(a[3]);
    assert Joined(a[3..]) == s3;
    assert a[2..][1..] == a[3..];
    assert Joined(a[2..]) == s2 + "." + s3;
    assert a[1..][1..] == a[2..];
    assert Joined(a[1..]) == s1 + "." + (s2 + "." + s3);
    assert Joined(a) == s0 + "." + (s1 + "." + (s2 + "." + s3));
  }

  lemma JoinedParses(parts: seq<byte>)
    requires parts != []
    ensures ParseParts(Joined(parts), |parts|) == Some(parts)
  {
    JoinedReads(parts);
  }

  lemma {:induction false} JoinedReads(parts: seq<byte>)
    requires parts != []
    ensures Reads(Joined(parts), |parts|, parts)
    decreases |parts|
  {
    var n := parts[0];
    if |parts| == 1 {
      assert parts == [n];
      ReadsOne(FormatNumber(n), n);
    } else {
      var rest := parts[1..];
      assert parts == [n] + rest;
      JoinedReads(rest);
      OneMorePart(FormatNumber(n), Joined(rest), n, rest);
      assert Joined(parts) == FormatNumber(n) + "." + Joined(rest);
    }
  }

  lemma OneMorePart(s: string, tail: string, n: byte, rest: seq<byte>)
    requires IsNumber(s) && Decimal(s) == n && rest != [] && Reads(tail, |rest|, rest)
    ensures Reads(s + "." + tail, |rest| + 1, [n] + rest)
  {
    DotFollows(s, tail, n);
    assert ([n] + rest)[1..] == rest;
    ReadsMore(s + "." + tail, |rest| + 1, [n] + rest);
  }

  lemma DotFollows(s: string, tail: string, n: byte)
    requires IsNumber(s) && Decimal(s) == n
    ensures var t := s + "." + tail;
            IndexOf(t, '.') == |s| && |s| < |t| && Separates(t, |s|, n) && t[|s| + 1..] == tail
  {
    var t := s + "." + tail;
    assert t[..|s|] == s;
    SeparatesAtFirstDot(t, |s|, n);
  }

  // ---------- Routes ----------

  /** Network and prefix length of a CIDR text, the prefix at most `limit`. */
  function SplitCidr(cidr: string, limit: byte): Option<(string, byte)> {
    var slash := IndexOf(cidr, '/');
    if slash == 0 || slash + 1 >= |cidr| then None
    else if !IsNumber(cidr[slash + 1..]) || Decimal(cidr[slash + 1..]) > limit then None
    else Some((cidr[..slash], Decimal(cidr[slash + 1..])))
  }

  /** The text is `host`, a slash and a prefix length of at most `limit`. */
  ghost predicate IsCidr(cidr: string, host: string, prefix: nat, limit: byte) {
    && host != "" && '/' !in host && prefix <= limit
    && exists digits :: IsNumber(digits) && Decimal(digits) == prefix && cidr == host + "/" + digits
  }

  /** The text names the IPv4 network under that prefix length. */
  ghost predicate NamesV4(cidr: string, network: Ipv4, prefix: nat) {
    exists host :: IsCidr(cidr, host, prefix, 32) && Spells(host, network)
  }

  /** The text names the IPv6 network under that prefix length, with no bits beyond it. */
  ghost predicate NamesV6(cidr: string, parsed: string -> Option<Ipv6>, network: Ipv6, prefix: nat) {
    && (exists host :: IsCidr(cidr, host, prefix, 128) && parsed(host) == Some(network))
    && prefix <= 128 && IsNetwork(network, prefix)
  }

  lemma SplitExactly(cidr: string, limit: byte, host: string, prefix: byte)
    ensures SplitCidr(cidr, limit) == Some((host, prefix)) <==> IsCidr(cidr, host, prefix, limit)
  {
    var slash := IndexOf(cidr, '/');
    if SplitCidr(cidr, limit).Some? && cidr[..slash] == host {
      assert cidr == host + "/" + cidr[slash + 1..];
    }
    if IsCidr(cidr, host, prefix, limit) {
      var digits :| IsNumber(digits) && Decimal(digits) == prefix && cidr == host + "/" + digits;
      assert forall j :: 0 <= j < |host| ==> cidr[j] == host[j];
      assert cidr[|host|] == '/' && slash == |host|;
      assert cidr[..slash] == host && cidr[slash + 1..] == digits;
    }
  }

  /** The IPv4 route of a CIDR text; the host part is not examined. */
  function RouteV4Of(cidr: string, gateway: Ipv4): (r: Option<Route>)
    ensures r.Some? ==> r.value.RouteV4? && r.value.gateway == gateway && NamesV4(cidr, r.value.network, r.value.prefix)
  {
    var split := SplitCidr(cidr, 32);
    if split.None? then None
    else
      var network := ParseParts(split.value.0, 4);
      if network.None? then None
      else
        ParsePartsLength(split.value.0, 4);
        ParsePartsIffSpells(split.value.0, 4, network.value);
        SplitExactly(cidr, 32, split.value.0, split.value.1);
        Some(RouteV4(network.value, split.value.1, gateway))
  }

  /** The IPv6 route; `parsed` is the library's reading of the address part. Only a network address is accepted. */
  function RouteV6Of(cidr: string, gateway: Ipv6, parsed: string -> Option<Ipv6>): (r: Option<Route>)
    ensures r.Some? ==> && r.value.RouteV6? && r.value.gatewayV6 == gateway
                        && NamesV6(cidr, parsed, r.value.networkV6, r.value.prefix)
  {
    var split := SplitCidr(cidr, 128);
    if split.None? || parsed(split.value.0).None? then None
    else
      var network := parsed(split.value.0).value;
      SplitExactly(cidr, 128, split.value.0, split.value.1);
      if IsNetwork(network, split.value.1) then Some(RouteV6(network, split.value.1, gateway)) else None
  }

  /** A text is accepted for an IPv4 route exactly when it names one. */
  lemma RouteV4Exactly(cidr: string, gateway: Ipv4, network: Ipv4, prefix: byte)
    ensures RouteV4Of(cidr, gateway) == Some(RouteV4(network, prefix, gateway)) <==> NamesV4(cidr, network, prefix)
  {
    if NamesV4(cidr, network, prefix) {
      var host :| IsCidr(cidr, host, prefix, 32) && Spells(host, network);
      SplitExactly(cidr, 32, host, prefix);
      ParsePartsIffSpells(host, 4, network);
    }
  }

  /** And for an IPv6 route. */
  lemma RouteV6Exactly(cidr: string, gateway: Ipv6, parsed: string -> Option<Ipv6>, network: Ipv6, prefix: byte)
    ensures RouteV6Of(cidr, gateway, parsed) == Some(RouteV6(network, prefix, gateway))
            <==> NamesV6(cidr, parsed, network, prefix)
  {
    if NamesV6(cidr, parsed, network, prefix) {
      var host :| IsCidr(cidr, host, prefix, 128) && parsed(host) == Some(network);
      SplitExactly(cidr, 128, host, prefix);
    }
  }

  /** The text names this route, which leads through the assignment's gateway of its family. */
  ghost predicate Names(cidr: string, a: Assignment, parsed: string -> Option<Ipv6>, route: Route) {
    match route
    case RouteV4(network, prefix, gateway) => ':' !in cidr && gateway == a.gateway && NamesV4(cidr, network, prefix)
    case RouteV6(network, prefix, gateway) => ':' in cidr && gateway == a.gatewayV6 && NamesV6(cidr, parsed, network, prefix)
  }

  lemma RouteExactly(cidr: string, a: Assignment, parsed: string -> Option<Ipv6>, route: Route)
    ensures RouteOf(cidr, a, parsed) == Some(route) <==> Names(cidr, a, parsed, route)
  {
    match route
    case RouteV4(network, prefix, gateway) => RouteV4Exactly(cidr, gateway, network, prefix);
    case RouteV6(network, prefix, gateway) => RouteV6Exactly(cidr, gateway, parsed, network, prefix);
  }

  function RouteOf(cidr: string, a: Assignment, parsed: string -> Option<Ipv6>): Option<Route> {
    if ':' in cidr then RouteV6Of(cidr, a.gatewayV6, parsed) else RouteV4Of(cidr, a.gateway)
  }

  /** The host configuration that an assignment and a list of routes ask for. */
  function PlanFor(a: Assignment, cidrs: seq<string>, parsed: string -> Option<Ipv6>): Plan {
    Plan(V4(a.client, a.prefixLength), if a.prefixLengthV6 != 0 then Some(V6(a.clientV6, a.prefixLengthV6)) else None,
         a.mtu, seq(|cidrs|, i requires 0 <= i < |cidrs| => RouteOf(cidrs[i], a, parsed)))
  }

  method ParseRoute(cidr: string, gateway: Ipv4) returns (r: Option<Route>)
    ensures r == RouteV4Of(cidr, gateway)
  {
    var slash := IndexOf(cidr, '/');
    if slash == |cidr| || slash == 0 || slash + 1 >= |cidr| {
      return None;
    }
    var prefix := FromChars(cidr[slash + 1..]);
    if prefix.None? || prefix.value > 32 {
      return None;
    }
    var network := ParseIpv4(cidr[..slash]);
    if network.None? {
      return None;
    }
    r := Some(RouteV4(network.value, prefix.value, gateway));
  }

  method ParseRouteV6(cidr: string, gateway: Ipv6, parsed: string -> Option<Ipv6>) returns (r: Option<Route>)
    ensures r == RouteV6Of(cidr, gateway, parsed)
  {
    var slash := IndexOf(cidr, '/');
    if slash == |cidr| || slash == 0 || slash + 1 >= |cidr| {
      return None;
    }
    var prefix := FromChars(cidr[slash + 1..]);
    if prefix.None? || prefix.value > 128 {
      return None;
    }
    var network := parsed(cidr[..slash]);
    if network.None? {
      return None;
    }
    var canonical := ClearHostBits(network.value, prefix.value);
    if network.value != canonical {
      return None;
    }
    r := Some(RouteV6(network.value, prefix.value, gateway));
  }

  /** One of the texts names the route. */
  ghost predicate Named(cidrs: seq<string>, a: Assignment, parsed: string -> Option<Ipv6>, route: Route) {
    exists i :: 0 <= i < |cidrs| && Names(cidrs[i], a, parsed, route)
  }

  /** The text names no route. */
  ghost predicate Nameless(cidr: string, a: Assignment, parsed: string -> Option<Ipv6>) {
    forall route :: !Names(cidr, a, parsed, route)
  }

  lemma NamelessExactly(cidr: string, a: Assignment, parsed: string -> Option<Ipv6>)
    ensures RouteOf(cidr, a, parsed).None? <==> Nameless(cidr, a, parsed)
  {
    var r := RouteOf(cidr, a, parsed);
    if r.Some? {
      RouteExactly(cidr, a, parsed, r.value);
    } else {
      forall route
        ensures !Names(cidr, a, parsed, route)
      {
        RouteExactly(cidr, a, parsed, route);
      }
    }
  }

  lemma AskedExactly(a: Assignment, cidrs: seq<string>, parsed: string -> Option<Ipv6>, route: Route)
    ensures route in Asked(PlanFor(a, cidrs, parsed).routes) <==> Named(cidrs, a, parsed, route)
  {
    var routes := PlanFor(a, cidrs, parsed).routes;
    forall i | 0 <= i < |cidrs|
      ensures routes[i] == Some(route) <==> Names(cidrs[i], a, parsed, route)
    {
      RouteExactly(cidrs[i], a, parsed, route);
    }
    if Named(cidrs, a, parsed, route) {
      var i :| 0 <= i < |cidrs| && Names(cidrs[i], a, parsed, route);
      assert routes[i].Some? && routes[i].value == route;
    }
  }

  /**
   * The assignment is in place on the host `h'`, which was `h`: the adapter with its session, the assigned
   * addresses, the MTU, and a route for each text through the gateway of its family; nothing else is new.
   */
  ghost predicate InPlace(h: Host, h': Host, a: Assignment, cidrs: seq<string>, parsed: string -> Option<Ipv6>) {
    && h'.adapter && h'.session && h'.mtu == Mtus(a.mtu, a.mtu)
    && (forall i :: i in h'.addresses <==>
          || i in h.addresses || i == V4(a.client, a.prefixLength)
          || (a.prefixLengthV6 != 0 && i == V6(a.clientV6, a.prefixLengthV6)))
    && (forall route :: route in h'.routes <==> route in h.routes || Named(cidrs, a, parsed, route))
    && (forall i :: 0 <= i < |cidrs| ==> !Nameless(cidrs[i], a, parsed))
  }

  /** The plan for an assignment can be carried out exactly if every text names a route, and puts it in place. */
  lemma PlanExactly(h: Host, a: Assignment, cidrs: seq<string>, parsed: string -> Option<Ipv6>)
    ensures var plan := PlanFor(a, cidrs, parsed);
            && (Parsable(plan) <==> forall i :: 0 <= i < |cidrs| ==> !Nameless(cidrs[i], a, parsed))
            && (Parsable(plan) ==> InPlace(h, Configured(h, plan), a, cidrs, parsed))
  {
    var plan := PlanFor(a, cidrs, parsed);
    forall route
      ensures route in Asked(plan.routes) <==> Named(cidrs, a, parsed, route)
    {
      AskedExactly(a, cidrs, parsed, route);
    }
    forall i | 0 <= i < |cidrs|
      ensures plan.routes[i].Some? <==> !Nameless(cidrs[i], a, parsed)
    {
      NamelessExactly(cidrs[i], a, parsed);
    }
    assert Parsable(plan) <==> forall i :: 0 <= i < |cidrs| ==> !Nameless(cidrs[i], a, parsed);
  }

  /** Configure the host for an assignment: all of it is put in place, or nothing is changed at all. */
  method ActivateFor(t: NetworkTransaction, a: Assignment, cidrs: seq<string>, parsed: string -> Option<Ipv6>)
    returns (r: Outcome)
    requires t.Valid()
    modifies t, t.backend
    ensures t.Valid() && (r == AlreadyActive <==> old(t.active)) && (r == NoRoutes <==> !old(t.active) && cidrs == [])
    ensures r == Activated ==>
              && t.active && t.origin == old(t.backend.host)
              && InPlace(old(t.backend.host), t.backend.host, a, cidrs, parsed)
    ensures r != Activated ==> t.backend.host == old(t.backend.host) && t.active == old(t.active)
    ensures r == Failed ==> (exists i :: t.backend.fails(i)) || exists i :: 0 <= i < |cidrs| && Nameless(cidrs[i], a, parsed)
  {
    PlanExactly(t.backend.host, a, cidrs, parsed);
    var outcome, _ := t.Activate(PlanFor(a, cidrs, parsed));
    r := outcome;
  }
}
