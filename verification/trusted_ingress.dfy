/** Which address a request comes from: the nearest one, walking back through the
    forwarding chain, that is not a trusted proxy. */
module TrustedIngress {
  import opened Basics
  import opened AddressText
  import opened JsonKeys
  import opened NetworkAddress

  const MAX_HOPS := 8
  const MAX_FORWARDED_LENGTH := 512
  const MAX_CIDRS := 64

  datatype IngressResult = DirectSocket(address: Address) | TrustedChain(address: Address) | InvalidIngress

  /** `s.trim()`. */
  function Trim(s: string): string
    decreases |s|
  {
    if s == "" then ""
    else if IsSpace(s[0] as int) then Trim(s[1..])
    else if IsSpace(s[|s| - 1] as int) then Trim(s[..|s| - 1])
    else s
  }

  predicate AllSpaces(s: string) {
    forall i | 0 <= i < |s| :: IsSpace(s[i] as int)
  }

  lemma OneMoreSpace(c: char, s: string)
    requires IsSpace(c as int) && AllSpaces(s)
    ensures AllSpaces([c] + s) && AllSpaces(s + [c])
  {
    hide IsSpace;
  }

  /** What is trimmed off is white space, and none is left at either end. */
  lemma {:induction false} TrimMeans(s: string) returns (before: string, after: string)
    ensures s == before + Trim(s) + after && AllSpaces(before) && AllSpaces(after)
    ensures Trim(s) != "" ==> !IsSpace(Trim(s)[0] as int) && !IsSpace(Trim(s)[|Trim(s)| - 1] as int)
    decreases |s|
  {
    before, after := "", "";
    NoSpaces();
    hide IsSpace, AllSpaces;
    if s != "" && IsSpace(s[0] as int) {
      var rest := s[1..];
      before, after := TrimMeans(rest);
      OneMoreSpace(s[0], before);
      Regroup([s[0]], before, Trim(rest), after);
      assert s == [s[0]] + rest;
      before := [s[0]] + before;
    } else if s != "" && IsSpace(s[|s| - 1] as int) {
      var rest := s[..|s| - 1];
      before, after := TrimMeans(rest);
      OneMoreSpace(s[|s| - 1], after);
      assert s == rest + [s[|s| - 1]];
      assert before + Trim(rest) + (after + [s[|s| - 1]]) == (before + Trim(rest) + after) + [s[|s| - 1]];
      after := after + [s[|s| - 1]];
    }
  }

  lemma NoSpaces()
    ensures AllSpaces("")
  {
  }

  lemma Regroup(x: string, a: string, b: string, c: string)
    ensures x + (a + b + c) == (x + a) + b + c
  {
  }

  function ParseParts(parts: seq<string>): Option<seq<Address>> {
    if parts == [] then Some([])
    else
      var rest, last := ParseParts(parts[..|parts| - 1]), ParseAddress(Trim(parts[|parts| - 1]));
      if rest.Some? && last.Some? then Some(rest.value + [last.value]) else None
  }

  function ForwardedFor(value: string): Option<seq<Address>> {
    if value == "" || |value| > MAX_FORWARDED_LENGTH || |Split(value, ",")| > MAX_HOPS then None
    else ParseParts(Split(value, ","))
  }

  lemma {:induction false} BadPart(parts: seq<string>, i: nat)
    requires i < |parts| && ParseAddress(Trim(parts[i])).None?
    ensures ParseParts(parts).None?
  {
    if i < |parts| - 1 {
      BadPart(parts[..|parts| - 1], i);
    }
  }

  lemma {:induction false} PartsParsed(parts: seq<string>)
    ensures ParseParts(parts).Some? <==> forall i | 0 <= i < |parts| :: ParseAddress(Trim(parts[i])).Some?
    ensures ParseParts(parts).Some? ==>
              && |ParseParts(parts).value| == |parts|
              && forall i | 0 <= i < |parts| :: Some(ParseParts(parts).value[i]) == ParseAddress(Trim(parts[i]))
  {
    hide ParseAddress, Trim;
    if parts != [] {
      var init := parts[..|parts| - 1];
      PartsParsed(init);
      assert forall i | 0 <= i < |init| :: init[i] == parts[i];
      if ParseParts(parts).Some? {
        assert ParseAddress(Trim(parts[|parts| - 1])).Some?;
      }
    }
  }

  /** A header is accepted exactly when it has 1 to 512 characters and at most eight
      parts between its commas, each an address with white space around it; and the
      chain is these addresses in their order. */
  lemma ForwardedForMeans(value: string)
    ensures var parts := Split(value, ",");
            && Join(parts, ",") == value && (forall i | 0 <= i < |parts| :: ',' !in parts[i])
            && (ForwardedFor(value).Some? <==>
                  && 1 <= |value| <= 512 && |parts| <= 8
                  && forall i | 0 <= i < |parts| :: ParseAddress(Trim(parts[i])).Some?)
            && (ForwardedFor(value).Some? ==>
                  && |ForwardedFor(value).value| == |parts|
                  && forall i | 0 <= i < |parts| :: Some(ForwardedFor(value).value[i]) == ParseAddress(Trim(parts[i])))
  {
    hide ParseAddress, Trim, Split, Join, ParseParts;
    SplitMeans(value, ',');
    PartsParsed(Split(value, ","));
  }

  method ParseForwardedFor(value: string) returns (r: Option<seq<Address>>)
    ensures r == ForwardedFor(value)
  {
    if value == "" || |value| > MAX_FORWARDED_LENGTH {
      return None;
    }
    var parts := Split(value, ",");
    if |parts| > MAX_HOPS {
      return None;
    }
    var addresses: seq<Address> := [];
    for i := 0 to |parts|
      invariant ParseParts(parts[..i]) == Some(addresses)
    {
      var address := ParseAddress(Trim(parts[i]));
      if address.None? {
        BadPart(parts, i);
        return None;
      }
      assert parts[..i + 1][..i] == parts[..i];
      addresses := addresses + [address.value];
    }
    assert parts[..|parts|] == parts;
    return Some(addresses);
  }

  function ParseCidrs(values: seq<string>): Option<seq<Cidr>> {
    if values == [] then Some([])
    else
      var rest, last := ParseCidrs(values[..|values| - 1]), ParseCidr(values[|values| - 1]);
      if rest.Some? && last.Some? then Some(rest.value + [last.value]) else None
  }

  lemma {:induction false} ParsedCidrsOk(values: seq<string>)
    requires ParseCidrs(values).Some?
    ensures forall i | 0 <= i < |ParseCidrs(values).value| :: CidrOk(ParseCidrs(values).value[i])
  {
    if values != [] {
      ParsedCidrsOk(values[..|values| - 1]);
      var _ := ParsedRange(values[|values| - 1]);
    }
  }

  lemma {:induction false} CidrsParsed(values: seq<string>)
    ensures ParseCidrs(values).Some? <==> forall i | 0 <= i < |values| :: ParseCidr(values[i]).Some?
    ensures ParseCidrs(values).Some? ==>
              && |ParseCidrs(values).value| == |values|
              && forall i | 0 <= i < |values| :: Some(ParseCidrs(values).value[i]) == ParseCidr(values[i])
  {
    hide ParseCidr;
    if values != [] {
      var init := values[..|values| - 1];
      CidrsParsed(init);
      assert forall i | 0 <= i < |init| :: init[i] == values[i];
      if ParseCidrs(values).Some? {
        assert ParseCidr(values[|values| - 1]).Some?;
      }
    }
  }

  predicate Trusted(cidrs: seq<Cidr>, a: Address)
    requires forall i | 0 <= i < |cidrs| :: CidrOk(cidrs[i])
  {
    exists i | 0 <= i < |cidrs| :: Contains(cidrs[i], a)
  }

  /** An address is trusted when it lies in the range that one of the texts gives. */
  lemma TrustedMeans(values: seq<string>, a: Address)
    requires ParseCidrs(values).Some?
    ensures forall i | 0 <= i < |ParseCidrs(values).value| :: CidrOk(ParseCidrs(values).value[i])
    ensures forall i | 0 <= i < |values| :: ParseCidr(values[i]).Some? && CidrOk(ParseCidr(values[i]).value)
    ensures Trusted(ParseCidrs(values).value, a) <==>
            exists i | 0 <= i < |values| :: InRange(ParseCidr(values[i]).value, a)
  {
    hide ParseCidr, Contains, InRange, CidrOk;
    ParsedCidrsOk(values);
    CidrsParsed(values);
    var cidrs := ParseCidrs(values).value;
    forall i | 0 <= i < |values|
      ensures CidrOk(ParseCidr(values[i]).value) && (Contains(cidrs[i], a) <==> InRange(ParseCidr(values[i]).value, a))
    {
      assert Some(cidrs[i]) == ParseCidr(values[i]);
      RangeMeans(values[i], a);
    }
  }

  /** Of the family of the range, and between its network and its end. */
  predicate InRange(c: Cidr, a: Address)
    requires CidrOk(c)
  {
    c.family == Family(a) && c.network <= a.value < c.network + RangeSize(c)
  }

  lemma RangeMeans(text: string, a: Address)
    requires ParseCidr(text).Some?
    ensures CidrOk(ParseCidr(text).value) && (Contains(ParseCidr(text).value, a) <==> InRange(ParseCidr(text).value, a))
  {
    hide ParseCidr, RangeSize;
    ContainsMeans(text, a);
  }

  /** The last element that is not a trusted proxy. */
  function LastUntrusted(cidrs: seq<Cidr>, hops: seq<Address>): (r: Option<Address>)
    requires forall i | 0 <= i < |cidrs| :: CidrOk(cidrs[i])
  {
    if hops == [] then None
    else if !Trusted(cidrs, hops[|hops| - 1]) then Some(hops[|hops| - 1])
    else LastUntrusted(cidrs, hops[..|hops| - 1])
  }

  /** What that is: an untrusted element with only trusted proxies behind it. */
  lemma {:induction false} LastUntrustedMeans(cidrs: seq<Cidr>, hops: seq<Address>, a: Address)
    requires forall i | 0 <= i < |cidrs| :: CidrOk(cidrs[i])
    ensures LastUntrusted(cidrs, hops) == Some(a) <==>
            exists k | 0 <= k < |hops| :: IsLastUntrusted(cidrs, hops, k) && hops[k] == a
    ensures LastUntrusted(cidrs, hops).None? <==> forall k | 0 <= k < |hops| :: Trusted(cidrs, hops[k])
  {
    hide Trusted, CidrOk;
    if hops != [] && Trusted(cidrs, hops[|hops| - 1]) {
      var init := hops[..|hops| - 1];
      LastUntrustedMeans(cidrs, init, a);
      TrustedBehind(cidrs, hops, a);
    } else if hops != [] {
      assert IsLastUntrusted(cidrs, hops, |hops| - 1);
    }
  }

  lemma TrustedBehind(cidrs: seq<Cidr>, hops: seq<Address>, a: Address)
    requires forall i | 0 <= i < |cidrs| :: CidrOk(cidrs[i])
    requires hops != [] && Trusted(cidrs, hops[|hops| - 1])
    ensures var init := hops[..|hops| - 1];
            && ((exists k | 0 <= k < |init| :: IsLastUntrusted(cidrs, init, k) && init[k] == a) <==>
                exists k | 0 <= k < |hops| :: IsLastUntrusted(cidrs, hops, k) && hops[k] == a)
            && ((forall k | 0 <= k < |init| :: Trusted(cidrs, init[k])) <==>
                forall k | 0 <= k < |hops| :: Trusted(cidrs, hops[k]))
  {
    hide Trusted, CidrOk;
    var init := hops[..|hops| - 1];
    if k :| 0 <= k < |init| && IsLastUntrusted(cidrs, init, k) && init[k] == a {
      LastHopTrusted(cidrs, hops, k);
      assert IsLastUntrusted(cidrs, hops, k) && hops[k] == a;
    }
    if k :| 0 <= k < |hops| && IsLastUntrusted(cidrs, hops, k) && hops[k] == a {
      LastHopTrusted(cidrs, hops, k);
      assert IsLastUntrusted(cidrs, init, k) && init[k] == a;
    }
    assert forall k | 0 <= k < |init| :: hops[k] == init[k];
  }

  predicate IsLastUntrusted(cidrs: seq<Cidr>, hops: seq<Address>, k: nat)
    requires forall i | 0 <= i < |cidrs| :: CidrOk(cidrs[i])
    requires k < |hops|
  {
    !Trusted(cidrs, hops[k]) && forall j | k < j < |hops| :: Trusted(cidrs, hops[j])
  }

  lemma LastHopTrusted(cidrs: seq<Cidr>, hops: seq<Address>, k: nat)
    requires forall i | 0 <= i < |cidrs| :: CidrOk(cidrs[i])
    requires hops != [] && Trusted(cidrs, hops[|hops| - 1]) && k < |hops| - 1
    ensures IsLastUntrusted(cidrs, hops[..|hops| - 1], k) <==> IsLastUntrusted(cidrs, hops, k)
  {
    hide Trusted, CidrOk;
    var init := hops[..|hops| - 1];
    if IsLastUntrusted(cidrs, init, k) {
      forall j | k < j < |hops|
        ensures Trusted(cidrs, hops[j])
      {
        if j < |init| {
          assert Trusted(cidrs, init[j]);
        }
      }
    }
    if IsLastUntrusted(cidrs, hops, k) {
      forall j | k < j < |init|
        ensures Trusted(cidrs, init[j])
      {
        assert Trusted(cidrs, hops[j]);
      }
    }
  }

  /** One step of the walk back: a trusted last hop is passed over. */
  lemma WalkStep(cidrs: seq<Cidr>, hops: seq<Address>, n: nat)
    requires forall i | 0 <= i < |cidrs| :: CidrOk(cidrs[i])
    requires n <= |hops|
    ensures n == 0 ==> LastUntrusted(cidrs, hops[..n]).None?
    ensures n > 0 ==> LastUntrusted(cidrs, hops[..n]) ==
                      if Trusted(cidrs, hops[n - 1]) then LastUntrusted(cidrs, hops[..n - 1]) else Some(hops[n - 1])
  {
    hide Trusted, CidrOk;
    if n > 0 {
      assert hops[..n][..n - 1] == hops[..n - 1];
    }
  }

  /** The walk: for a trusted peer the address found is the last untrusted one of
      the chain followed by the peer, and without one the request is refused. */
  method Resolve(socket: string, forwarded: Option<string>, cidrTexts: seq<string>) returns (r: IngressResult)
    ensures ParseAddress(socket).None? || |cidrTexts| > MAX_CIDRS || ParseCidrs(cidrTexts).None? ==> r == InvalidIngress
    ensures ParseAddress(socket).Some? && |cidrTexts| <= MAX_CIDRS && ParseCidrs(cidrTexts).Some? ==>
              var peer, cidrs := ParseAddress(socket).value, ParseCidrs(cidrTexts).value;
              && (forall i | 0 <= i < |cidrs| :: CidrOk(cidrs[i]))
              && (if !Trusted(cidrs, peer) then r == DirectSocket(peer)
                  else if forwarded.None? || ForwardedFor(forwarded.value).None? then r == InvalidIngress
                  else match LastUntrusted(cidrs, ForwardedFor(forwarded.value).value + [peer])
                       case Some(a) => r == TrustedChain(a)
                       case None => r == InvalidIngress)
  {
    hide ParseAddress, ParseCidrs, ForwardedFor, CidrOk, Trusted, LastUntrusted;
    var parsed := ParseAddress(socket);
    if parsed.None? || |cidrTexts| > MAX_CIDRS {
      return InvalidIngress;
    }
    var peer := parsed.value;
    var parsedCidrs := ParseCidrs(cidrTexts);
    if parsedCidrs.None? {
      return InvalidIngress;
    }
    var cidrs := parsedCidrs.value;
    ParsedCidrsOk(cidrTexts);
    if !Trusted(cidrs, peer) {
      return DirectSocket(peer);
    }
    if forwarded.None? {
      return InvalidIngress;
    }
    var parsedChain := ParseForwardedFor(forwarded.value);
    if parsedChain.None? {
      return InvalidIngress;
    }
    var chain := parsedChain.value;
    var selected := peer;
    var index := |chain| - 1;
    ghost var hops := chain + [peer];
    assert hops[..|hops|] == hops;
    while index >= 0 && Trusted(cidrs, selected)
      invariant -1 <= index < |chain|
      invariant selected == hops[index + 1]
      invariant LastUntrusted(cidrs, hops) == LastUntrusted(cidrs, hops[..index + 2])
      decreases index
    {
      WalkStep(cidrs, hops, index + 2);
      selected := chain[index];
      index := index - 1;
    }
    WalkStep(cidrs, hops, index + 2);
    if Trusted(cidrs, selected) {
      WalkStep(cidrs, hops, index + 1);
      return InvalidIngress;
    }
    return TrustedChain(selected);
  }
}
