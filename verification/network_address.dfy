/** Network addresses: parsing and printing, CIDR ranges, and the address a chain
    of trusted proxies vouches for. */
module NetworkAddress {
  import opened Basics
  import opened AddressText

  type Group16 = n: int | 0 <= n < 65_536
  type Groups = seq<Group16>

  datatype Address = V4(octets: seq<int>, value: int) | V6(groups: Groups, value: int)

  function AddressBits(a: Address): int {
    if a.V4? then 32 else 128
  }

  // ---- IPv4 text ----------------------------------------------------------

  /** A decimal number up to 255 without leading zeros. */
  function ParseOctet(s: string): Option<int> {
    if !(1 <= |s| <= 3) || (|s| > 1 && s[0] == '0') then None
    else
      match NumeralValue(s, 10)
      case Some(n) => if 0 <= n <= 255 then Some(n) else None
      case None => None
  }

  function ParseIpv4(s: string): Option<Address> {
    var parts := Split(s, ".");
    if |parts| != 4 then None
    else
      var a, b, c, d := ParseOctet(parts[0]), ParseOctet(parts[1]), ParseOctet(parts[2]), ParseOctet(parts[3]);
      if a.None? || b.None? || c.None? || d.None? then None
      else Some(V4([a.value, b.value, c.value, d.value], ((a.value * 256 + b.value) * 256 + c.value) * 256 + d.value))
  }

  // ---- printing IPv6 ------------------------------------------------------

  /** Number of zero groups from `i` on. */
  function ZeroRun(g: Groups, i: nat): (n: nat)
    requires i <= |g|
    ensures i + n <= |g|
    ensures forall k | i <= k < i + n :: g[k] == 0
    ensures i + n < |g| ==> g[i + n] != 0
    decreases |g| - i
  {
    if i == |g| || g[i] != 0 then 0 else 1 + ZeroRun(g, i + 1)
  }

  /** `start` is where the first of the longest zero runs before `limit` begins. */
  ghost predicate BestBefore(g: Groups, limit: nat, start: int, length: nat)
    requires limit <= |g|
  {
    && (forall i | 0 <= i < limit :: ZeroRun(g, i) <= length)
    && (if length == 0 then start == -1
        else 0 <= start < limit && ZeroRun(g, start) == length
             && forall i | 0 <= i < start :: ZeroRun(g, i) < length)
  }

  lemma BestIsUnique(g: Groups, s: int, n: nat, t: int, m: nat)
    requires BestBefore(g, |g|, s, n) && BestBefore(g, |g|, t, m)
    ensures s == t && n == m
  {
  }

  function Best(g: Groups): (r: (int, nat))
    ensures BestBefore(g, |g|, r.0, r.1)
  {
    BestFrom(g, 0, -1, 0)
  }

  function BestFrom(g: Groups, i: nat, start: int, length: nat): (r: (int, nat))
    requires i <= |g| && BestBefore(g, i, start, length)
    ensures BestBefore(g, |g|, r.0, r.1)
    decreases |g| - i
  {
    if i == |g| then (start, length)
    else if ZeroRun(g, i) > length then BestFrom(g, i + 1, i, ZeroRun(g, i))
    else BestFrom(g, i + 1, start, length)
  }

  function Hex(g: Group16): string {
    Numeral(g, 16)
  }

  function HexAll(g: Groups): (parts: seq<string>)
    ensures |parts| == |g| && forall i | 0 <= i < |g| :: parts[i] == Hex(g[i])
  {
    seq(|g|, i requires 0 <= i < |g| => Hex(g[i]))
  }

  /** The groups with the run of `length` zeros at `start` left out, if worth it. */
  function Render(g: Groups, start: int, length: nat): string
    requires length >= 2 ==> 0 <= start && start + length <= |g|
  {
    if length < 2 then Join(HexAll(g), ":")
    else Join(HexAll(g[..start]), ":") + "::" + Join(HexAll(g[start + length..]), ":")
  }

  lemma RunsEndInside(g: Groups, start: int, length: nat)
    requires BestBefore(g, |g|, start, length) && length > 0
    ensures 0 <= start && start + length <= |g| && forall k | start <= k < start + length :: g[k] == 0
  {
  }

  function Format(g: Groups): string {
    var (start, length) := Best(g);
    if length < 2 then Render(g, start, length) else RunsEndInside(g, start, length); Render(g, start, length)
  }

  lemma NothingBest(g: Groups)
    ensures BestBefore(g, 0, -1, 0)
  {
  }

  lemma BestAfterGroup(g: Groups, i: nat, start: int, length: nat)
    requires i < |g| && g[i] != 0 && BestBefore(g, i, start, length)
    ensures BestBefore(g, i + 1, start, length)
  {
  }

  lemma {:induction false} RunShrinks(g: Groups, i: nat, k: nat)
    requires i <= |g| && k <= ZeroRun(g, i)
    ensures ZeroRun(g, i + k) == ZeroRun(g, i) - k
    decreases k
  {
    if k > 0 {
      RunShrinks(g, i + 1, k - 1);
    }
  }

  /** A whole run is passed over at once: what starts inside it is shorter. */
  lemma BestAfterRun(g: Groups, i: nat, start: int, length: nat)
    requires i < |g| && g[i] == 0 && BestBefore(g, i, start, length)
    ensures var n := ZeroRun(g, i);
            if n > length then BestBefore(g, i + n, i, n) else BestBefore(g, i + n, start, length)
  {
    var n := ZeroRun(g, i);
    forall k | i <= k < i + n
      ensures ZeroRun(g, k) == n - (k - i)
    {
      RunShrinks(g, i, k - i);
    }
  }

  /** The printer: section 4.2 of RFC 5952 leaves out the first longest run of
      at least two zero groups. */
  method FormatIpv6(groups: Groups) returns (text: string)
    ensures text == Format(groups)
  {
    hide Best, BestBefore;
    NothingBest(groups);
    var bestStart := -1;
    var bestLength: nat := 0;
    var index: nat := 0;
    while index < |groups|
      invariant 0 <= index <= |groups|
      invariant BestBefore(groups, index, bestStart, bestLength)
      decreases |groups| - index
    {
      if groups[index] != 0 {
        BestAfterGroup(groups, index, bestStart, bestLength);
        index := index + 1;
        continue;
      }
      var end: nat := index;
      while end < |groups| && groups[end] == 0
        invariant index <= end <= index + ZeroRun(groups, index)
      {
        end := end + 1;
      }
      BestAfterRun(groups, index, bestStart, bestLength);
      if end - index > bestLength {
        bestStart := index;
        bestLength := end - index;
      }
      index := end;
    }
    BestIsUnique(groups, bestStart, bestLength, Best(groups).0, Best(groups).1);
    if bestLength < 2 {
      return Join(HexAll(groups), ":");
    }
    RunsEndInside(groups, bestStart, bestLength);
    var left := Join(HexAll(groups[..bestStart]), ":");
    var right := Join(HexAll(groups[bestStart + bestLength..]), ":");
    return left + "::" + right;
  }

  // ---- parsing IPv6 -------------------------------------------------------

  function ToLower(s: string): (t: string)
    ensures |t| == |s|
  {
    seq(|s|, i requires 0 <= i < |s| =>
      if 'A' <= s[i] <= 'Z' then (s[i] as int + 32) as char else s[i])
  }

  /** One to four lower-case hexadecimal digits. */
  function ParseGroup(s: string): Option<Group16> {
    if !(1 <= |s| <= 4) then None
    else
      match NumeralValue(s, 16)
      case Some(n) => if 0 <= n < 65_536 then Some(n) else None
      case None => None
  }

  function ParseAll(parts: seq<string>): Option<Groups> {
    if parts == [] then Some([])
    else
      var first, rest := ParseGroup(parts[0]), ParseAll(parts[1..]);
      if first.Some? && rest.Some? then Some([first.value] + rest.value) else None
  }

  function Zeros(n: nat): (parts: seq<string>)
    ensures |parts| == n
  {
    if n == 0 then [] else ["0"] + Zeros(n - 1)
  }

  function SplitGroups(half: string): seq<string> {
    if half == "" then [] else Split(half, ":")
  }

  /** Eight groups from text without dotted decimals. */
  function ParseGroups(input: string): Option<Groups> {
    var halves := Split(input, "::");
    if |halves| > 2 then None
    else
      var left := SplitGroups(halves[0]);
      var right := if |halves| == 2 then SplitGroups(halves[1]) else [];
      var missing := 8 - |left| - |right|;
      if (if |halves| == 1 then missing != 0 else missing < 1) then None
      else
        match ParseAll(left + Zeros(missing) + right)
        case Some(groups) => if |groups| == 8 then Some(groups) else None
        case None => None
  }

  function LastColon(s: string): int {
    if s == "" then -1 else if s[|s| - 1] == ':' then |s| - 1 else LastColon(s[..|s| - 1])
  }

  lemma {:induction false} LastColonIn(s: string)
    ensures -1 <= LastColon(s) < |s|
  {
    if s != "" {
      LastColonIn(s[..|s| - 1]);
    }
  }

  /** A dotted-decimal end is rewritten as two groups. */
  function ExpandDotted(input: string): Option<string> {
    if '.' !in input then Some(input)
    else
      LastColonIn(input);
      var separator := LastColon(input);
      if separator < 0 then None
      else
        match ParseIpv4(input[separator + 1..])
        case Some(V4(o, v)) =>
          if 0 <= v < 0x1_0000_0000
          then Some(input[..separator] + ":" + Numeral(v / 65_536, 16) + ":" + Numeral(v % 65_536, 16))
          else None
        case _ => None
  }

  function GroupsValue(g: Groups): int {
    if g == [] then 0 else GroupsValue(g[..|g| - 1]) * 65_536 + g[|g| - 1]
  }

  predicate Mapped(g: Groups)
    requires |g| == 8
  {
    g[..6] == [0, 0, 0, 0, 0, 0xffff]
  }

  /** The address that eight groups stand for: an IPv4-mapped one is IPv4. */
  function FromGroups(g: Groups): Address
    requires |g| == 8
  {
    if Mapped(g) then V4([g[6] / 256, g[6] % 256, g[7] / 256, g[7] % 256], g[6] as int * 65_536 + g[7])
    else V6(g, GroupsValue(g))
  }

  function ParseIpv6(address: string): Option<Address> {
    if '%' in address then None
    else
      match ExpandDotted(ToLower(address))
      case None => None
      case Some(input) =>
        match ParseGroups(input)
        case None => None
        case Some(groups) => if |groups| == 8 then Some(FromGroups(groups)) else None
  }

  function ParseAddress(address: string): Option<Address> {
    if |address| == 0 || |address| > 64 then None
    else if ParseIpv4(address).Some? then ParseIpv4(address)
    else ParseIpv6(address)
  }

  // ---- parsing what was printed -------------------------------------------

  lemma HexGroup(g: Group16)
    ensures ParseGroup(Hex(g)) == Some(g)
    ensures Hex(g) != "" && ':' !in Hex(g) && '.' !in Hex(g)
  {
    NumeralRoundTrip(g, 16);
    NumeralLength(g, 16);
  }

  lemma HexParts(g: Groups)
    ensures Parts(HexAll(g))
  {
    forall i | 0 <= i < |g|
      ensures HexAll(g)[i] != "" && ':' !in HexAll(g)[i]
    {
      HexGroup(g[i]);
    }
  }

  lemma {:induction false} ParseHexAll(g: Groups)
    ensures ParseAll(HexAll(g)) == Some(g)
  {
    if g != [] {
      HexGroup(g[0]);
      ParseHexAll(g[1..]);
      assert HexAll(g)[1..] == HexAll(g[1..]);
      assert [g[0]] + g[1..] == g;
    }
  }

  lemma SplitHexJoin(g: Groups)
    ensures SplitGroups(Join(HexAll(g), ":")) == HexAll(g)
    ensures NoDouble(Join(HexAll(g), ":"))
    ensures g != [] ==> Join(HexAll(g), ":") != "" && Join(HexAll(g), ":")[|Join(HexAll(g), ":")| - 1] != ':'
  {
    HexParts(g);
    if g != [] {
      SplitOfJoin(HexAll(g));
      JoinShape(HexAll(g));
    } else {
      assert HexAll(g) == [];
    }
  }

  lemma {:induction false} ZerosText(g: Groups)
    requires forall i | 0 <= i < |g| :: g[i] == 0
    ensures Zeros(|g|) == HexAll(g)
  {
    if g != [] {
      ZerosText(g[1..]);
      assert HexAll(g) == [Hex(g[0])] + HexAll(g[1..]);
      assert Hex(0) == "0";
    }
  }

  lemma HexAllConcat(a: Groups, b: Groups)
    ensures HexAll(a + b) == HexAll(a) + HexAll(b)
  {
  }

  lemma ParseUncompressed(g: Groups)
    requires |g| == 8
    ensures ParseGroups(Join(HexAll(g), ":")) == Some(g)
  {
    hide Hex, Join, Split, SplitGroups, NoDouble, ParseAll;
    SplitHexJoin(g);
    SplitWithoutDouble(Join(HexAll(g), ":"));
    ParseHexAll(g);
    assert HexAll(g) + Zeros(0) + [] == HexAll(g);
  }

  /** Parsing text with one double colon. */
  lemma ParseHalves(input: string, left: string, right: string, groups: Groups)
    requires Split(input, "::") == [left, right] && |groups| == 8
    requires |SplitGroups(left)| + |SplitGroups(right)| < 8
    requires ParseAll(SplitGroups(left) + Zeros(8 - |SplitGroups(left)| - |SplitGroups(right)|) + SplitGroups(right))
             == Some(groups)
    ensures ParseGroups(input) == Some(groups)
  {
    hide Split, SplitGroups, ParseAll, Zeros;
  }

  /** The texts of a run of zeros and of what surrounds it, put together again. */
  lemma Reassembled(g: Groups, start: nat, length: nat)
    requires start + length <= |g| && forall k | start <= k < start + length :: g[k] == 0
    ensures ParseAll(HexAll(g[..start]) + Zeros(length) + HexAll(g[start + length..])) == Some(g)
  {
    hide Hex, ParseAll;
    var left, zeros, right := g[..start], g[start..start + length], g[start + length..];
    ZerosText(zeros);
    HexAllConcat(left, zeros);
    HexAllConcat(left + zeros, right);
    assert left + zeros + right == g;
    ParseHexAll(g);
  }

  lemma SplitRendered(left: Groups, right: Groups)
    ensures Split(Join(HexAll(left), ":") + "::" + Join(HexAll(right), ":"), "::")
            == [Join(HexAll(left), ":"), Join(HexAll(right), ":")]
  {
    hide Hex, Join, Split, SplitGroups, NoDouble, HexAll;
    SplitHexJoin(left);
    SplitHexJoin(right);
    NoGroupsNoText(left);
    SplitAtDouble(Join(HexAll(left), ":"), Join(HexAll(right), ":"));
    SplitWithoutDouble(Join(HexAll(right), ":"));
  }

  lemma ParseCompressed(g: Groups, start: nat, length: nat)
    requires |g| == 8 && 2 <= length && start + length <= 8
    requires forall k | start <= k < start + length :: g[k] == 0
    ensures ParseGroups(Render(g, start, length)) == Some(g)
  {
    hide Hex, Join, Split, SplitGroups, NoDouble, ParseAll, ParseGroups;
    var left, right := g[..start], g[start + length..];
    SplitHexJoin(left);
    SplitHexJoin(right);
    SplitRendered(left, right);
    Reassembled(g, start, length);
    ParseHalves(Render(g, start, length), Join(HexAll(left), ":"), Join(HexAll(right), ":"), g);
  }

  /** Parsing what was printed gives back the groups, whatever they are. */
  lemma ParseFormatted(g: Groups)
    requires |g| == 8
    ensures ParseGroups(Format(g)) == Some(g)
  {
    hide ParseGroups, Best, HexAll, Join;
    var (start, length) := Best(g);
    if length < 2 {
      ParseUncompressed(g);
    } else {
      BestFacts(g, start, length);
      ParseCompressed(g, start, length);
    }
  }

  lemma BestFacts(g: Groups, start: int, length: nat)
    requires (start, length) == Best(g) && length > 0
    ensures 0 <= start && start + length <= |g| && forall k | start <= k < start + length :: g[k] == 0
  {
    RunsEndInside(g, start, length);
  }

  lemma NoGroupsNoText(g: Groups)
    ensures g == [] ==> Join(HexAll(g), ":") == ""
  {
    if g == [] {
      assert HexAll(g) == [];
    }
  }

  /** Printed text holds lower-case digits and colons only. */
  predicate Plain(s: string) {
    forall i | 0 <= i < |s| :: s[i] == ':' || DigitValue(s[i]).Some?
  }

  lemma {:induction false} NumeralPlain(n: nat)
    ensures Plain(Numeral(n, 16))
  {
    if n < 16 {
      DigitRoundTrip(n);
    } else {
      NumeralPlain(n / 16);
      DigitRoundTrip(n % 16);
    }
  }

  lemma {:induction false} JoinPlain(parts: seq<string>)
    requires forall i | 0 <= i < |parts| :: Plain(parts[i])
    ensures Plain(Join(parts, ":"))
  {
    if |parts| > 1 {
      JoinPlain(parts[1..]);
    }
  }

  lemma HexJoinPlain(g: Groups)
    ensures Plain(Join(HexAll(g), ":"))
  {
    forall i | 0 <= i < |g|
      ensures Plain(HexAll(g)[i])
    {
      NumeralPlain(g[i]);
    }
    JoinPlain(HexAll(g));
  }

  lemma FormatPlain(g: Groups)
    ensures Plain(Format(g))
  {
    hide Join, HexAll, Best;
    var (start, length) := Best(g);
    HexJoinPlain(g);
    if length >= 2 {
      BestFacts(g, start, length);
      HexJoinPlain(g[..start]);
      HexJoinPlain(g[start + length..]);
    }
  }

  lemma PlainIsKept(s: string)
    requires Plain(s)
    ensures ToLower(s) == s && '.' !in s && '%' !in s
  {
  }

  /** Parsing is the inverse of printing on every address that is not IPv4-mapped;
      a mapped one is read as the IPv4 address it holds. */
  lemma ParseIsInverse(g: Groups)
    requires |g| == 8
    ensures ParseIpv6(Format(g)) == Some(FromGroups(g))
    ensures !Mapped(g) ==> ParseIpv6(Format(g)) == Some(V6(g, GroupsValue(g)))
  {
    FormatPlain(g);
    PlainIsKept(Format(g));
    ParseFormatted(g);
    hide Format, ParseGroups, ToLower, FromGroups, Mapped;
  }

  /** Different addresses print differently. */
  lemma PrintedFormIsUnique(g: Groups, h: Groups)
    requires |g| == 8 && |h| == 8
    ensures Format(g) == Format(h) <==> g == h
  {
    hide Format, ParseGroups;
    ParseFormatted(g);
    ParseFormatted(h);
  }

  predicate AllZero(g: Groups, i: nat, n: nat) {
    i + n <= |g| && forall k | i <= k < i + n :: g[k] == 0
  }

  /** What is left out of the printed form, if anything: the first of the longest
      runs of zero groups, when it has at least two. */
  lemma FirstLongestRun(g: Groups)
    requires |g| == 8
    ensures var (start, length) := Best(g);
            && (if length < 2 then Format(g) == Join(HexAll(g), ":")
                else 0 <= start && AllZero(g, start, length) && Format(g) == Render(g, start, length))
            && (forall i, n | 0 < n && AllZero(g, i, n) :: n < length || (n == length && start <= i))
  {
    var (start, length) := Best(g);
    forall i, n | 0 < n && AllZero(g, i, n)
      ensures n < length || (n == length && start <= i)
    {
      RunAtLeast(g, i, n);
    }
    if length >= 2 {
      BestFacts(g, start, length);
    }
  }

  lemma {:induction false} RunAtLeast(g: Groups, i: nat, n: nat)
    requires i + n <= |g| && forall k | i <= k < i + n :: g[k] == 0
    ensures ZeroRun(g, i) >= n
    decreases n
  {
    if n > 0 {
      RunAtLeast(g, i + 1, n - 1);
    }
  }

  // ---- CIDR ranges --------------------------------------------------------

  datatype Cidr = Cidr(family: int, network: int, prefix: int)

  function Family(a: Address): int {
    if a.V4? then 4 else 6
  }

  function Pow2(n: nat): (p: int)
    ensures p >= 1
  {
    if n == 0 then 1 else 2 * Pow2(n - 1)
  }

  /** `(value >> bits) << bits`. */
  function ClearLow(value: int, bits: nat): int {
    value / Pow2(bits) * Pow2(bits)
  }

  function ParsePrefix(s: string): Option<int> {
    if !(1 <= |s| <= 3) || (|s| > 1 && s[0] == '0') then None else NumeralValue(s, 10)
  }

  function ParseCidr(value: string): Option<Cidr> {
    var parts := Split(value, "/");
    if |value| > 80 || |parts| != 2 then None
    else
      var address, prefix := ParseAddress(parts[0]), ParsePrefix(parts[1]);
      if address.None? || prefix.None? || prefix.value < 0 || prefix.value > AddressBits(address.value) then None
      else
        var hostBits := AddressBits(address.value) - prefix.value;
        Some(Cidr(Family(address.value),
                  if hostBits == AddressBits(address.value) then 0 else ClearLow(address.value.value, hostBits),
                  prefix.value))
  }

  predicate CidrOk(c: Cidr) {
    && (c.family == 4 || c.family == 6)
    && 0 <= c.prefix <= (if c.family == 4 then 32 else 128)
  }

  predicate Contains(range: Cidr, a: Address)
    requires CidrOk(range)
  {
    range.family == Family(a) && ClearLow(a.value, AddressBits(a) - range.prefix) == range.network
  }

  /** The addresses a range covers, as an interval of values. */
  function RangeSize(c: Cidr): int
    requires CidrOk(c)
  {
    Pow2((if c.family == 4 then 32 else 128) - c.prefix)
  }

  /** Rounding down to a multiple of `p` gives `q * p` exactly on its interval. */
  lemma FloorInterval(value: int, q: int, p: int)
    requires p >= 1
    ensures value / p * p == q * p <==> q * p <= value < q * p + p
  {
    var d := value / p;
    assert d * p <= value < d * p + p;
    Spread(d, q, p);
    Spread(q, d, p);
  }

  /** Different multiples of `p` are at least `p` apart. */
  lemma Spread(a: int, b: int, p: int)
    requires p >= 1
    ensures a > b ==> a * p >= b * p + p
  {
    if a > b {
      AtLeastOnce(a - b, p);
      assert (a - b) * p == a * p - b * p;
    }
  }

  lemma AtLeastOnce(e: int, p: int)
    requires e >= 1 && p >= 1
    ensures e * p >= p
  {
  }

  /** A parsed range starts at a multiple of its size. */
  lemma ParsedRange(text: string) returns (q: int)
    requires ParseCidr(text).Some?
    ensures CidrOk(ParseCidr(text).value)
    ensures ParseCidr(text).value.network == q * RangeSize(ParseCidr(text).value)
  {
    hide Split, ParseAddress, ParsePrefix, Pow2;
    var c := ParseCidr(text).value;
    q := if c.prefix == 0 then 0 else ParseAddress(Split(text, "/")[0]).value.value / RangeSize(c);
  }

  /** A parsed range holds exactly the addresses of its family from its network
      up to the next multiple of its size. */
  lemma ContainsMeans(text: string, a: Address)
    requires ParseCidr(text).Some?
    ensures CidrOk(ParseCidr(text).value)
    ensures var c := ParseCidr(text).value;
            Contains(c, a) <==> c.family == Family(a) && c.network <= a.value < c.network + RangeSize(c)
  {
    hide ParseCidr, Pow2;
    var q := ParsedRange(text);
    FloorInterval(a.value, q, RangeSize(ParseCidr(text).value));
  }

  lemma {:induction false} Pow2Adds(n: nat)
    ensures Pow2(n + 16) == 65_536 * Pow2(n)
  {
    Pow2Four(n);
    Pow2Four(n + 4);
    Pow2Four(n + 8);
    Pow2Four(n + 12);
  }

  lemma Pow2Four(n: nat)
    ensures Pow2(n + 4) == 16 * Pow2(n)
  {
    assert Pow2(n + 4) == 2 * Pow2(n + 3);
    assert Pow2(n + 3) == 2 * Pow2(n + 2);
    assert Pow2(n + 2) == 2 * Pow2(n + 1);
  }

  lemma {:induction false} GroupsInRange(g: Groups)
    ensures 0 <= GroupsValue(g) < Pow2(16 * |g|)
  {
    if g != [] {
      GroupsInRange(g[..|g| - 1]);
      Pow2Adds(16 * (|g| - 1));
    }
  }

  lemma Pow2Of32()
    ensures Pow2(32) == 0x1_0000_0000
  {
    Pow2Adds(0);
    Pow2Adds(16);
    assert Pow2(0) == 1;
  }

  /** Parsed addresses have values of their width. */
  lemma AddressInRange(text: string)
    requires ParseAddress(text).Some?
    ensures 0 <= ParseAddress(text).value.value < Pow2(AddressBits(ParseAddress(text).value))
  {
    hide Split, Pow2, GroupsValue;
    Pow2Of32();
    if ParseIpv4(text).None? {
      var groups := ParseGroups(ExpandDotted(ToLower(text)).value).value;
      GroupsInRange(groups);
    }
  }

  /** A range contains the address it was written with. */
  lemma RangeContainsItself(text: string)
    requires ParseCidr(text).Some?
    ensures CidrOk(ParseCidr(text).value) && ParseAddress(Split(text, "/")[0]).Some?
    ensures Contains(ParseCidr(text).value, ParseAddress(Split(text, "/")[0]).value)
  {
    hide Split, ParseAddress, ParsePrefix, Pow2;
    var _ := ParsedRange(text);
    AddressInRange(Split(text, "/")[0]);
    var a := ParseAddress(Split(text, "/")[0]).value;
    FloorInterval(a.value, 0, Pow2(AddressBits(a)));
  }

  // ---- exactly which texts are addresses -----------------------------------

  predicate IsOctet(n: int) {
    0 <= n <= 255
  }

  function Dotted(a: int, b: int, c: int, d: int): string
    requires IsOctet(a) && IsOctet(b) && IsOctet(c) && IsOctet(d)
  {
    Numeral(a, 10) + "." + Numeral(b, 10) + "." + Numeral(c, 10) + "." + Numeral(d, 10)
  }

  lemma OctetExactly(s: string, n: int)
    ensures ParseOctet(s) == Some(n) <==> IsOctet(n) && s == Numeral(n, 10)
  {
    hide NumeralValue, Numeral;
    if ParseOctet(s) == Some(n) {
      NumeralInverse(s, 10);
    }
    if IsOctet(n) && s == Numeral(n, 10) {
      NumeralRoundTrip(n, 10);
      NumeralLength(n, 10);
      if n > 0 {
        NoLeadingZero(n, 10);
      } else {
        ZeroNumeral();
      }
    }
  }

  lemma ZeroNumeral()
    ensures Numeral(0, 10) == "0"
  {
  }

  lemma DottedParts(a: int, b: int, c: int, d: int)
    requires IsOctet(a) && IsOctet(b) && IsOctet(c) && IsOctet(d)
    ensures Split(Dotted(a, b, c, d), ".") == [Numeral(a, 10), Numeral(b, 10), Numeral(c, 10), Numeral(d, 10)]
  {
    hide Numeral, Split;
    var parts := [Numeral(a, 10), Numeral(b, 10), Numeral(c, 10), Numeral(d, 10)];
    NumeralRoundTrip(a, 10);
    NumeralRoundTrip(b, 10);
    NumeralRoundTrip(c, 10);
    NumeralRoundTrip(d, 10);
    SplitOfJoinAt(parts, '.');
    JoinFour(parts);
  }

  lemma JoinFour(parts: seq<string>)
    requires |parts| == 4
    ensures Join(parts, ".") == parts[0] + "." + parts[1] + "." + parts[2] + "." + parts[3]
  {
    assert parts[1..][1..] == parts[2..] && parts[2..][1..] == parts[3..];
    assert Join(parts[3..], ".") == parts[3];
    assert Join(parts[2..], ".") == parts[2] + "." + parts[3];
    assert Join(parts[1..], ".") == parts[1] + "." + (parts[2] + "." + parts[3]);
  }

  /** IPv4 text: four numbers up to 255 without leading zeros, between dots, the
      first one the most significant. */
  lemma Ipv4Exactly(s: string, a: int, b: int, c: int, d: int)
    requires IsOctet(a) && IsOctet(b) && IsOctet(c) && IsOctet(d)
    ensures ParseIpv4(s) == Some(V4([a, b, c, d], a * 16_777_216 + b * 65_536 + c * 256 + d)) <==> s == Dotted(a, b, c, d)
  {
    hide Numeral, Split, ParseOctet;
    DottedParts(a, b, c, d);
    var parts := Split(s, ".");
    if |parts| == 4 {
      OctetExactly(parts[0], a);
      OctetExactly(parts[1], b);
      OctetExactly(parts[2], c);
      OctetExactly(parts[3], d);
      SplitMeans(s, '.');
      JoinFour(parts);
    }
  }

  lemma Ipv4IsDotted(s: string) returns (a: int, b: int, c: int, d: int)
    requires ParseIpv4(s).Some?
    ensures IsOctet(a) && IsOctet(b) && IsOctet(c) && IsOctet(d) && s == Dotted(a, b, c, d)
  {
    hide Numeral, Split, ParseOctet;
    var parts := Split(s, ".");
    a, b, c, d := ParseOctet(parts[0]).value, ParseOctet(parts[1]).value, ParseOctet(parts[2]).value, ParseOctet(parts[3]).value;
    OctetExactly(parts[0], a);
    OctetExactly(parts[1], b);
    OctetExactly(parts[2], c);
    OctetExactly(parts[3], d);
    SplitMeans(s, '.');
    JoinFour(parts);
  }

  /** The parts spell the groups: one to four hexadecimal digits each. */
  ghost predicate Spells(parts: seq<string>, g: Groups) {
    && |parts| == |g|
    && forall i | 0 <= i < |g| :: 1 <= |parts[i]| <= 4 && NumeralValue(parts[i], 16) == Some(g[i])
  }

  lemma {:induction false} ParseAllExactly(parts: seq<string>, g: Groups)
    ensures ParseAll(parts) == Some(g) <==> Spells(parts, g)
  {
    hide NumeralValue;
    if parts != [] {
      if g != [] {
        ParseAllExactly(parts[1..], g[1..]);
        assert g == [g[0]] + g[1..];
      }
      if ParseAll(parts).Some? {
        ParseAllExactly(parts[1..], ParseAll(parts[1..]).value);
        assert ParseAll(parts).value[1..] == ParseAll(parts[1..]).value;
      }
      if Spells(parts, g) {
        assert Spells(parts[1..], g[1..]);
      }
    }
  }

  lemma {:induction false} HexDigitsOnly(s: string)
    requires NumeralValue(s, 16).Some?
    ensures ':' !in s
  {
    if s != "" {
      HexDigitsOnly(s[..|s| - 1]);
      assert s == s[..|s| - 1] + [s[|s| - 1]];
    }
  }

  lemma SpelledParts(parts: seq<string>, g: Groups)
    requires Spells(parts, g)
    ensures Parts(parts)
  {
    forall i | 0 <= i < |parts|
      ensures parts[i] != "" && ':' !in parts[i]
    {
      HexDigitsOnly(parts[i]);
    }
  }

  /** A half of the text, on one side of a double colon. */
  lemma SpelledHalf(parts: seq<string>, g: Groups)
    requires Spells(parts, g)
    ensures SplitGroups(Join(parts, ":")) == parts && NoDouble(Join(parts, ":"))
    ensures Join(parts, ":") != "" ==> Join(parts, ":")[|Join(parts, ":")| - 1] != ':'
  {
    SpelledParts(parts, g);
    if parts != [] {
      SplitOfJoin(parts);
      JoinShape(parts);
    }
  }

  /** All eight groups are written. */
  ghost predicate WrittenOut(input: string, g: Groups) {
    exists parts :: Spells(parts, g) && input == Join(parts, ":")
  }

  /** A double colon stands for the zero groups between `left` and `right`. */
  ghost predicate CompressedAs(input: string, g: Groups, left: seq<string>, right: seq<string>)
    requires |g| == 8
  {
    && |left| + |right| < 8
    && input == Join(left, ":") + "::" + Join(right, ":")
    && Spells(left, g[..|left|]) && Spells(right, g[8 - |right|..])
    && AllZero(g, |left|, 8 - |left| - |right|)
  }

  lemma WrittenIsParsed(input: string, g: Groups, parts: seq<string>)
    requires |g| == 8 && Spells(parts, g) && input == Join(parts, ":")
    ensures ParseGroups(input) == Some(g)
  {
    hide Join, Split, SplitGroups, NoDouble, ParseAll, Spells;
    SpelledHalf(parts, g);
    SplitWithoutDouble(input);
    ParseAllExactly(parts, g);
    SpelledLength(parts, g);
    assert parts + Zeros(0) + [] == parts;
  }

  lemma SpelledLength(parts: seq<string>, g: Groups)
    requires Spells(parts, g)
    ensures |parts| == |g|
  {
  }

  lemma {:induction false} ZerosAre(n: nat)
    ensures forall k | 0 <= k < n :: Zeros(n)[k] == "0"
  {
    if n > 0 {
      ZerosAre(n - 1);
    }
  }

  lemma ZeroIsZero()
    ensures NumeralValue("0", 16) == Some(0)
  {
    assert "0"[..0] == "";
  }

  lemma ZerosSpell(n: nat, g: Groups)
    requires |g| == n
    ensures Spells(Zeros(n), g) <==> AllZero(g, 0, n)
  {
    hide NumeralValue, Zeros;
    ZerosAre(n);
    ZeroIsZero();
  }

  lemma SliceZero(g: Groups, i: nat, n: nat)
    requires i + n <= |g|
    ensures AllZero(g[i..i + n], 0, n) <==> AllZero(g, i, n)
  {
    var s := g[i..i + n];
    if AllZero(s, 0, n) {
      forall k | i <= k < i + n
        ensures g[k] == 0
      {
        assert s[k - i] == 0;
      }
    }
  }

  lemma SpellsConcat(a: seq<string>, b: seq<string>, g: Groups)
    requires |a| + |b| == |g|
    ensures Spells(a + b, g) <==> Spells(a, g[..|a|]) && Spells(b, g[|a|..])
  {
    hide NumeralValue;
    if Spells(a + b, g) {
      assert forall i | 0 <= i < |a| :: (a + b)[i] == a[i];
      assert forall i | 0 <= i < |b| :: (a + b)[|a| + i] == b[i];
    }
  }

  lemma SliceOfSlice(g: Groups, a: nat, m: nat)
    requires a <= m <= |g|
    ensures g[..m][..a] == g[..a] && g[..m][a..] == g[a..m]
  {
  }

  lemma ThreeSpell(left: seq<string>, zeros: seq<string>, right: seq<string>, g: Groups)
    requires |left| + |zeros| + |right| == |g|
    ensures Spells(left + zeros + right, g) <==>
              && Spells(left, g[..|left|]) && Spells(zeros, g[|left|..|left| + |zeros|])
              && Spells(right, g[|left| + |zeros|..])
  {
    hide Spells;
    var m := |left| + |zeros|;
    SpellsConcat(left + zeros, right, g);
    SpellsConcat(left, zeros, g[..m]);
    SliceOfSlice(g, |left|, m);
  }

  /** The three stretches of a compressed text together. */
  lemma StretchesSpell(left: seq<string>, n: nat, right: seq<string>, g: Groups)
    requires |left| + n + |right| == |g|
    ensures Spells(left + Zeros(n) + right, g) <==>
              Spells(left, g[..|left|]) && Spells(right, g[|left| + n..]) && AllZero(g, |left|, n)
  {
    hide Spells, AllZero, Zeros;
    ThreeSpell(left, Zeros(n), right, g);
    MiddleSpells(n, g, |left|);
  }

  lemma MiddleSpells(n: nat, g: Groups, start: nat)
    requires start + n <= |g|
    ensures Spells(Zeros(n), g[start..start + n]) <==> AllZero(g, start, n)
  {
    hide Spells, AllZero, Zeros;
    ZerosSpell(n, g[start..start + n]);
    SliceZero(g, start, n);
  }

  lemma CompressedIsParsed(input: string, g: Groups, left: seq<string>, right: seq<string>)
    requires |g| == 8 && CompressedAs(input, g, left, right)
    ensures ParseGroups(input) == Some(g)
  {
    hide Join, Split, SplitGroups, NoDouble, ParseAll, Spells, Zeros, ParseGroups;
    SpelledHalf(left, g[..|left|]);
    SpelledHalf(right, g[8 - |right|..]);
    SplitAtDouble(Join(left, ":"), Join(right, ":"));
    SplitWithoutDouble(Join(right, ":"));
    StretchesSpell(left, 8 - |left| - |right|, right, g);
    ParseAllExactly(left + Zeros(8 - |left| - |right|) + right, g);
    ParseHalves(input, Join(left, ":"), Join(right, ":"), g);
  }

  lemma GroupsJoin(half: string)
    ensures Join(SplitGroups(half), ":") == half
  {
    SplitJoins(half, ":");
  }

  /** What was parsed was written out or compressed. */
  lemma ParsedIsWritten(input: string, g: Groups) returns (left: seq<string>, right: seq<string>)
    requires |g| == 8 && ParseGroups(input) == Some(g)
    ensures WrittenOut(input, g) || CompressedAs(input, g, left, right)
  {
    hide Join, Split, SplitGroups, ParseAll, Spells, Zeros;
    var halves := Split(input, "::");
    SplitJoins(input, "::");
    left, right := SplitGroups(halves[0]), [];
    GroupsJoin(halves[0]);
    JoinOneOrTwo(halves, "::");
    if |halves| == 1 {
      NoZeros(left);
      ParseAllExactly(left, g);
    } else {
      right := SplitGroups(halves[1]);
      GroupsJoin(halves[1]);
      ParseAllExactly(left + Zeros(8 - |left| - |right|) + right, g);
      StretchesSpell(left, 8 - |left| - |right|, right, g);
    }
  }

  lemma NoZeros(parts: seq<string>)
    ensures parts + Zeros(0) + [] == parts
  {
  }

  lemma JoinOneOrTwo(parts: seq<string>, sep: string)
    ensures |parts| == 1 ==> Join(parts, sep) == parts[0]
    ensures |parts| == 2 ==> Join(parts, sep) == parts[0] + sep + parts[1]
  {
    if |parts| == 2 {
      assert Join(parts[1..], sep) == parts[1];
    }
  }

  /** IPv6 text without a dotted end, as section 2.2 of RFC 4291 has it: eight groups,
      or fewer around one double colon that stands for at least one zero group. */
  lemma Ipv6Exactly(input: string, g: Groups)
    requires |g| == 8
    ensures ParseGroups(input) == Some(g) <==>
            WrittenOut(input, g) || exists left, right :: CompressedAs(input, g, left, right)
  {
    hide ParseGroups, Join, Spells;
    if ParseGroups(input) == Some(g) {
      var left, right := ParsedIsWritten(input, g);
    }
    if parts :| Spells(parts, g) && input == Join(parts, ":") {
      WrittenIsParsed(input, g, parts);
    }
    if left, right :| CompressedAs(input, g, left, right) {
      CompressedIsParsed(input, g, left, right);
    }
  }

  // ---- what the whole text means ------------------------------------------

  /** The value of eight groups, the first one the most significant. */
  lemma GroupsMean(g: Groups)
    requires |g| == 8
    ensures GroupsValue(g)
            == ((((((g[0] as int * 65_536 + g[1]) * 65_536 + g[2]) * 65_536 + g[3]) * 65_536 + g[4]) * 65_536 + g[5])
                * 65_536 + g[6]) * 65_536 + g[7]
  {
    assert g[..7][..6] == g[..6] && g[..6][..5] == g[..5] && g[..5][..4] == g[..4];
    assert g[..4][..3] == g[..3] && g[..3][..2] == g[..2] && g[..2][..1] == g[..1] && g[..1][..0] == [];
    assert GroupsValue(g[..1]) == g[0];
    assert GroupsValue(g[..2]) == g[0] as int * 65_536 + g[1];
    assert GroupsValue(g[..3]) == GroupsValue(g[..2]) * 65_536 + g[2];
    assert GroupsValue(g[..4]) == GroupsValue(g[..3]) * 65_536 + g[3];
    assert GroupsValue(g[..5]) == GroupsValue(g[..4]) * 65_536 + g[4];
    assert GroupsValue(g[..6]) == GroupsValue(g[..5]) * 65_536 + g[5];
    assert GroupsValue(g[..7]) == GroupsValue(g[..6]) * 65_536 + g[6];
  }

  /** An IPv4-mapped address is the IPv4 address in its last two groups; every other
      one is itself. */
  lemma AddressMeans(g: Groups)
    requires |g| == 8
    ensures g[0] == g[1] == g[2] == g[3] == g[4] == 0 && g[5] == 0xffff ==>
              exists a, b, c, d :: IsOctet(a) && IsOctet(b) && IsOctet(c) && IsOctet(d)
                && g[6] as int == a * 256 + b && g[7] as int == c * 256 + d
                && FromGroups(g) == V4([a, b, c, d], a * 16_777_216 + b * 65_536 + c * 256 + d)
    ensures !(g[0] == g[1] == g[2] == g[3] == g[4] == 0 && g[5] == 0xffff) ==> FromGroups(g) == V6(g, GroupsValue(g))
  {
    hide GroupsValue;
    if g[0] == g[1] == g[2] == g[3] == g[4] == 0 && g[5] == 0xffff {
      assert Mapped(g);
      var a, b, c, d := g[6] as int / 256, g[6] as int % 256, g[7] as int / 256, g[7] as int % 256;
      assert IsOctet(a) && IsOctet(b) && IsOctet(c) && IsOctet(d);
      assert FromGroups(g) == V4([a, b, c, d], a * 16_777_216 + b * 65_536 + c * 256 + d);
    }
  }

  /** The address that the groups stand for, if there are any. */
  function AddressFrom(groups: Option<Groups>): Option<Address> {
    if groups.Some? && |groups.value| == 8 then Some(FromGroups(groups.value)) else None
  }

  lemma {:induction false} LastColonOf(s: string, t: string)
    requires ':' !in t
    ensures LastColon(s + ":" + t) == |s|
    decreases |t|
  {
    var all := s + ":" + t;
    if t == "" {
      assert all[|all| - 1] == ':';
    } else {
      assert all[|all| - 1] == t[|t| - 1] && t[|t| - 1] in t;
      assert all[..|all| - 1] == s + ":" + t[..|t| - 1];
      LastColonOf(s, t[..|t| - 1]);
    }
  }

  lemma {:induction false} NumeralDigits(n: nat)
    ensures forall i | 0 <= i < |Numeral(n, 10)| :: '0' <= Numeral(n, 10)[i] <= '9'
  {
    if n >= 10 {
      NumeralDigits(n / 10);
    }
  }

  predicate DigitsAndDots(s: string) {
    forall i | 0 <= i < |s| :: '0' <= s[i] <= '9' || s[i] == '.'
  }

  lemma DottedPlain(a: int, b: int, c: int, d: int)
    requires IsOctet(a) && IsOctet(b) && IsOctet(c) && IsOctet(d)
    ensures DigitsAndDots(Dotted(a, b, c, d)) && '.' in Dotted(a, b, c, d)
  {
    hide Numeral;
    NumeralDigits(a);
    NumeralDigits(b);
    NumeralDigits(c);
    NumeralDigits(d);
    assert Dotted(a, b, c, d)[|Numeral(a, 10)|] == '.';
  }

  lemma PlainEnd(prefix: string, end: string)
    requires DigitsAndDots(end)
    ensures ':' !in end && '%' !in end
    ensures ToLower(prefix + ":" + end) == ToLower(prefix) + ":" + end
  {
  }

  lemma TwoHalves(a: int, b: int, c: int, d: int)
    requires IsOctet(a) && IsOctet(b) && IsOctet(c) && IsOctet(d)
    ensures var v := a * 16_777_216 + b * 65_536 + c * 256 + d;
            v / 65_536 == a * 256 + b && v % 65_536 == c * 256 + d && 0 <= v < 0x1_0000_0000
  {
  }

  lemma ExpandedEnd(lower: string, end: string, address: Address)
    requires ':' !in end && '.' in end
    requires ParseIpv4(end) == Some(address) && address.V4? && 0 <= address.value < 0x1_0000_0000
    ensures ExpandDotted(lower + ":" + end)
            == Some(lower + ":" + Numeral(address.value / 65_536, 16) + ":" + Numeral(address.value % 65_536, 16))
  {
    hide Numeral, ParseIpv4, LastColon;
    LastColonOf(lower, end);
    EndSlices(lower, end);
  }

  lemma EndSlices(lower: string, end: string)
    requires '.' in end
    ensures var input := lower + ":" + end;
            input[..|lower|] == lower && input[|lower| + 1..] == end && '.' in input
  {
    var input := lower + ":" + end;
    var i :| 0 <= i < |end| && end[i] == '.';
    assert input[|lower| + 1 + i] == '.';
  }

  lemma EndWith(prefix: string, end: string, address: Address, high: nat, low: nat)
    requires DigitsAndDots(end) && '.' in end && '%' !in prefix
    requires ParseIpv4(end) == Some(address) && address.V4? && 0 <= address.value < 0x1_0000_0000
    requires address.value / 65_536 == high && address.value % 65_536 == low
    ensures ParseIpv6(prefix + ":" + end)
            == AddressFrom(ParseGroups(ToLower(prefix) + ":" + Numeral(high, 16) + ":" + Numeral(low, 16)))
  {
    hide ParseGroups, Numeral, ParseIpv4, FromGroups, ToLower, ExpandDotted;
    PlainEnd(prefix, end);
    ExpandedEnd(ToLower(prefix), end, address);
    assert '%' !in prefix + ":" + end;
  }

  /** A dotted end stands for two groups, whatever precedes it. */
  lemma DottedEnd(prefix: string, a: int, b: int, c: int, d: int)
    requires IsOctet(a) && IsOctet(b) && IsOctet(c) && IsOctet(d) && '%' !in prefix
    ensures ParseIpv6(prefix + ":" + Dotted(a, b, c, d))
            == AddressFrom(ParseGroups(ToLower(prefix) + ":" + Numeral(a * 256 + b, 16) + ":" + Numeral(c * 256 + d, 16)))
  {
    hide ParseGroups, Numeral, ParseIpv4, ParseIpv6, AddressFrom, ToLower, Dotted, DigitsAndDots;
    DottedPlain(a, b, c, d);
    Ipv4Exactly(Dotted(a, b, c, d), a, b, c, d);
    TwoHalves(a, b, c, d);
    EndWith(prefix, Dotted(a, b, c, d), V4([a, b, c, d], a * 16_777_216 + b * 65_536 + c * 256 + d), a * 256 + b, c * 256 + d);
  }

  /** Without a dotted end, letters count in either case, and a zone is refused. */
  lemma Ipv6TextMeans(address: string)
    ensures '%' in address ==> ParseIpv6(address) == None
    ensures '%' !in address && '.' !in address ==> ParseIpv6(address) == AddressFrom(ParseGroups(ToLower(address)))
  {
    hide ParseGroups, FromGroups;
    if '.' !in address {
      forall i | 0 <= i < |address|
        ensures ToLower(address)[i] != '.'
      {
        assert address[i] in address;
      }
    }
  }

  // ---- exactly which texts are ranges --------------------------------------

  lemma PrefixExactly(s: string, n: int)
    ensures ParsePrefix(s) == Some(n) <==> 0 <= n && s == Numeral(n, 10) && |s| <= 3
  {
    hide NumeralValue, Numeral;
    if ParsePrefix(s) == Some(n) {
      NumeralInverse(s, 10);
    }
    if 0 <= n && s == Numeral(n, 10) {
      NumeralRoundTrip(n, 10);
      if n > 0 {
        NoLeadingZero(n, 10);
      } else {
        ZeroNumeral();
      }
    }
  }

  /** A range is an address, a slash and a prefix length without leading zeros, of
      at most 80 characters, whose prefix is no longer than the address; and it has
      the family of the address and that prefix. */
  lemma CidrExactly(text: string, address: string, n: int)
    requires '/' !in address && 0 <= n && text == address + "/" + Numeral(n, 10)
    ensures ParseCidr(text).Some? <==>
              && |text| <= 80 && |Numeral(n, 10)| <= 3
              && ParseAddress(address).Some? && n <= AddressBits(ParseAddress(address).value)
    ensures ParseCidr(text).Some? ==>
              ParseCidr(text).value.family == Family(ParseAddress(address).value) && ParseCidr(text).value.prefix == n
  {
    hide Numeral, ParseAddress, ParsePrefix, ClearLow, Split;
    var number := Numeral(n, 10);
    NumeralDigits(n);
    var parts := [address, number];
    SplitOfJoinAt(parts, '/');
    JoinOneOrTwo(parts, "/");
    PrefixExactly(number, n);
    if ParsePrefix(number).Some? {
      PrefixExactly(number, ParsePrefix(number).value);
      SameNumeral(n, ParsePrefix(number).value);
    }
  }

  lemma SameNumeral(n: nat, m: int)
    requires m >= 0 && Numeral(n, 10) == Numeral(m, 10)
    ensures n == m
  {
    NumeralRoundTrip(n, 10);
    NumeralRoundTrip(m, 10);
  }

  lemma CidrIsWritten(text: string)
    requires ParseCidr(text).Some?
    ensures '/' !in Split(text, "/")[0] && 0 <= ParseCidr(text).value.prefix
    ensures text == Split(text, "/")[0] + "/" + Numeral(ParseCidr(text).value.prefix, 10)
  {
    hide Numeral, ParseAddress, ParsePrefix, ClearLow, Split;
    SplitMeans(text, '/');
    JoinOneOrTwo(Split(text, "/"), "/");
    PrefixExactly(Split(text, "/")[1], ParseCidr(text).value.prefix);
  }
}
