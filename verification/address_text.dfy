/** Splitting and joining text, and numerals: the string operations that address
    parsing and printing are made of. */
module AddressText {
  import opened Basics

  /** `s.split(sep)` for a separator that is not empty. */
  function Split(s: string, sep: string): (parts: seq<string>)
    requires sep != ""
    ensures |parts| >= 1
    decreases |s|
  {
    if |s| < |sep| then [s]
    else if s[..|sep|] == sep then [""] + Split(s[|sep|..], sep)
    else if s == "" then [""]
    else
      var rest := Split(s[1..], sep);
      [[s[0]] + rest[0]] + rest[1..]
  }

  function Join(parts: seq<string>, sep: string): string {
    if parts == [] then ""
    else if |parts| == 1 then parts[0]
    else parts[0] + sep + Join(parts[1..], sep)
  }

  /** Parts that a join with ':' keeps apart. */
  predicate Parts(parts: seq<string>) {
    forall i | 0 <= i < |parts| :: parts[i] != "" && ':' !in parts[i]
  }

  predicate NoDouble(s: string) {
    forall i | 0 <= i < |s| - 1 :: !(s[i] == ':' && s[i + 1] == ':')
  }

  /** A part in front of a separator is split off. */
  lemma {:induction false} SplitPart(part: string, rest: string)
    requires ':' !in part
    ensures Split(part + ":" + rest, ":") == [part] + Split(rest, ":")
  {
    var s := part + ":" + rest;
    if part == "" {
      assert s[..1] == ":" && s[1..] == rest;
    } else {
      SplitPart(part[1..], rest);
      assert s[0] == part[0] && s[1..] == part[1..] + ":" + rest;
      assert s[..1] != ":" by {
        assert s[..1][0] == part[0] && part[0] in part;
      }
      assert [part[0]] + part[1..] == part;
    }
  }

  lemma {:induction false} SplitNothing(part: string)
    requires ':' !in part
    ensures Split(part, ":") == [part]
  {
    if part != "" {
      SplitNothing(part[1..]);
      assert part[..1] != ":" by {
        assert part[..1][0] == part[0] && part[0] in part;
      }
      assert [part[0]] + part[1..] == part;
    }
  }

  lemma {:induction false} SplitOfJoin(parts: seq<string>)
    requires Parts(parts) && parts != []
    ensures Split(Join(parts, ":"), ":") == parts
  {
    if |parts| == 1 {
      SplitNothing(parts[0]);
    } else {
      SplitOfJoin(parts[1..]);
      SplitPart(parts[0], Join(parts[1..], ":"));
      assert [parts[0]] + parts[1..] == parts;
    }
  }

  /** A join has no empty part between two colons, nor at either end. */
  lemma {:induction false} JoinShape(parts: seq<string>)
    requires Parts(parts) && parts != []
    ensures var s := Join(parts, ":");
            NoDouble(s) && s != "" && s[0] != ':' && s[|s| - 1] != ':'
  {
    var s := Join(parts, ":");
    var head := parts[0];
    assert forall i | 0 <= i < |head| :: head[i] in head && head[i] != ':';
    if |parts| > 1 {
      JoinShape(parts[1..]);
      var tail := Join(parts[1..], ":");
      assert s == head + ":" + tail;
      forall i | 0 <= i < |s| - 1
        ensures !(s[i] == ':' && s[i + 1] == ':')
      {
        if i >= |head| + 1 {
          assert s[i] == tail[i - |head| - 1] && s[i + 1] == tail[i - |head|];
        }
      }
    }
  }

  lemma {:induction false} SplitWithoutDouble(s: string)
    requires NoDouble(s)
    ensures Split(s, "::") == [s]
  {
    if |s| >= 2 {
      assert s[..2] != "::" by {
        assert s[..2][0] == s[0] && s[..2][1] == s[1];
      }
      assert NoDouble(s[1..]);
      SplitWithoutDouble(s[1..]);
      assert [s[0]] + s[1..] == s;
    }
  }

  /** The text in front of the first double colon is split off. */
  lemma {:induction false} SplitAtDouble(left: string, right: string)
    requires NoDouble(left) && (left != "" ==> left[|left| - 1] != ':')
    ensures Split(left + "::" + right, "::") == [left] + Split(right, "::")
  {
    var s := left + "::" + right;
    if left == "" {
      assert s[..2] == "::" && s[2..] == right;
    } else {
      assert s[..2] != "::" by {
        assert s[..2][0] == s[0] == left[0] && s[..2][1] == s[1];
        if |left| > 1 {
          assert s[1] == left[1];
        }
      }
      assert NoDouble(left[1..]);
      SplitAtDouble(left[1..], right);
      assert s[1..] == left[1..] + "::" + right;
      assert [left[0]] + left[1..] == left;
    }
  }

  // ---- numerals -----------------------------------------------------------

  const DIGITS: string := "0123456789abcdef"

  function DigitValue(c: char): Option<int> {
    if '0' <= c <= '9' then Some(c as int - '0' as int)
    else if 'a' <= c <= 'f' then Some(c as int - 'a' as int + 10)
    else None
  }

  function DigitChar(n: int): char
    requires 0 <= n < 16
  {
    DIGITS[n]
  }

  lemma DigitRoundTrip(n: int)
    requires 0 <= n < 16
    ensures DigitValue(DigitChar(n)) == Some(n)
    ensures DigitChar(n) != ':' && DigitChar(n) != '.'
  {
  }

  /** `n.toString(base)` for base 10 or 16. */
  function Numeral(n: nat, base: int): (s: string)
    requires 2 <= base <= 16
    ensures s != ""
  {
    if n < base then [DigitChar(n)] else Numeral(n / base, base) + [DigitChar(n % base)]
  }

  /** The number that a run of digits of the base denotes. */
  function NumeralValue(s: string, base: int): Option<int>
    requires 2 <= base <= 16
  {
    if s == "" then Some(0)
    else
      var high := NumeralValue(s[..|s| - 1], base);
      var low := DigitValue(s[|s| - 1]);
      if high.Some? && low.Some? && low.value < base then Some(high.value * base + low.value) else None
  }

  lemma DivMod(n: nat, base: int)
    requires base == 10 || base == 16
    ensures n / base * base + n % base == n && 0 <= n % base < base
  {
  }

  lemma {:induction false} NumeralRoundTrip(n: nat, base: int)
    requires base == 10 || base == 16
    ensures NumeralValue(Numeral(n, base), base) == Some(n)
    ensures ':' !in Numeral(n, base) && '.' !in Numeral(n, base)
  {
    hide DigitValue, DigitChar;
    var s := Numeral(n, base);
    DivMod(n, base);
    if n < base {
      DigitRoundTrip(n);
      assert s[..|s| - 1] == "";
    } else {
      NumeralRoundTrip(n / base, base);
      DigitRoundTrip(n % base);
      assert s[..|s| - 1] == Numeral(n / base, base);
    }
  }

  /** Numbers below the cube or the fourth power of a base have at most so many digits. */
  lemma NumeralLength(n: nat, base: int)
    requires base == 10 || base == 16
    ensures base == 16 && n < 65_536 ==> |Numeral(n, base)| <= 4
    ensures base == 10 && n < 1_000 ==> |Numeral(n, base)| <= 3
  {
    if n >= base {
      assert |Numeral(n, base)| == 1 + |Numeral(n / base, base)|;
      if n / base >= base {
        assert |Numeral(n / base, base)| == 1 + |Numeral(n / base / base, base)|;
        if n / base / base >= base {
          assert |Numeral(n / base / base, base)| == 1 + |Numeral(n / base / base / base, base)|;
        }
      }
    }
  }

  // ---- splitting is the inverse of joining ---------------------------------

  /** Splitting at one character gives parts without it that join to the text again. */
  lemma {:induction false} SplitMeans(s: string, c: char)
    ensures Join(Split(s, [c]), [c]) == s
    ensures forall i | 0 <= i < |Split(s, [c])| :: c !in Split(s, [c])[i]
    decreases |s|
  {
    var parts := Split(s, [c]);
    if s != "" {
      var rest := Split(s[1..], [c]);
      SplitMeans(s[1..], c);
      assert s == [s[0]] + s[1..];
      if s[0] == c {
        assert s[..1] == [c] && parts == [""] + rest;
        assert parts[1..] == rest;
      } else {
        assert s[..1][0] != c;
        assert parts == [[s[0]] + rest[0]] + rest[1..];
        JoinFirst(rest, s[0], [c]);
      }
    }
  }

  lemma JoinFirst(parts: seq<string>, x: char, sep: string)
    requires parts != []
    ensures Join([[x] + parts[0]] + parts[1..], sep) == [x] + Join(parts, sep)
  {
    var longer := [[x] + parts[0]] + parts[1..];
    if |parts| > 1 {
      assert longer[1..] == parts[1..];
    }
  }

  /** And parts without the character are what their join is split into. */
  lemma {:induction false} SplitOfJoinAt(parts: seq<string>, c: char)
    requires parts != [] && forall i | 0 <= i < |parts| :: c !in parts[i]
    ensures Split(Join(parts, [c]), [c]) == parts
    decreases |parts|
  {
    if |parts| == 1 {
      SplitAtNone(parts[0], c);
    } else {
      SplitOfJoinAt(parts[1..], c);
      SplitAtFirst(parts[0], c, Join(parts[1..], [c]));
      assert [parts[0]] + parts[1..] == parts;
    }
  }

  lemma {:induction false} SplitAtNone(part: string, c: char)
    requires c !in part
    ensures Split(part, [c]) == [part]
  {
    if part != "" {
      SplitAtNone(part[1..], c);
      assert part[..1][0] == part[0] && part[0] in part;
      assert [part[0]] + part[1..] == part;
    }
  }

  lemma {:induction false} SplitAtFirst(part: string, c: char, rest: string)
    requires c !in part
    ensures Split(part + [c] + rest, [c]) == [part] + Split(rest, [c])
  {
    var s := part + [c] + rest;
    if part == "" {
      assert s[..1] == [c] && s[1..] == rest;
    } else {
      SplitAtFirst(part[1..], c, rest);
      assert s[0] == part[0] && s[1..] == part[1..] + [c] + rest;
      assert s[..1][0] == part[0] && part[0] in part;
      assert [part[0]] + part[1..] == part;
    }
  }

  // ---- numerals are unique ------------------------------------------------

  lemma OneDigit(c: char, base: int)
    requires (base == 10 || base == 16) && NumeralValue([c], base).Some?
    ensures NumeralValue([c], base) == DigitValue(c)
    ensures DigitValue(c).value < base && [c] == Numeral(DigitValue(c).value, base)
  {
    assert [c][..0] == "";
    DigitInverse(c);
  }

  lemma DigitAppended(init: string, c: char, base: int)
    requires (base == 10 || base == 16) && init != "" && NumeralValue(init + [c], base).Some?
    ensures NumeralValue(init, base).Some? && DigitValue(c).Some? && DigitValue(c).value < base
    ensures NumeralValue(init + [c], base).value == NumeralValue(init, base).value * base + DigitValue(c).value
  {
    assert (init + [c])[..|init|] == init;
  }

  lemma NumeralAppended(high: nat, c: char, base: int)
    requires (base == 10 || base == 16) && high >= 1 && DigitValue(c).Some? && DigitValue(c).value < base
    ensures DigitValue(c).value >= 0 && high * base + DigitValue(c).value >= base
    ensures Numeral(high * base + DigitValue(c).value, base) == Numeral(high, base) + [c]
  {
    DigitInverse(c);
    QuotientOf(high, DigitValue(c).value, base);
  }

  /** A run of digits without a needless leading zero is the numeral of its number. */
  lemma {:induction false} NumeralInverse(s: string, base: int)
    requires (base == 10 || base == 16) && s != "" && NumeralValue(s, base).Some?
    requires |s| > 1 ==> s[0] != '0'
    ensures NumeralValue(s, base).value >= 0 && s == Numeral(NumeralValue(s, base).value, base)
    ensures s != "0" ==> NumeralValue(s, base).value >= 1
    decreases |s|
  {
    hide NumeralValue, Numeral, DigitChar;
    var init, c := s[..|s| - 1], s[|s| - 1];
    assert s == init + [c];
    if init == "" {
      assert s == [c];
      OneDigit(c, base);
      DigitInverse(c);
    } else {
      DigitAppended(init, c, base);
      NumeralInverse(init, base);
      assert init[0] == s[0];
      NumeralAppended(NumeralValue(init, base).value, c, base);
    }
  }

  lemma DigitInverse(c: char)
    requires DigitValue(c).Some?
    ensures 0 <= DigitValue(c).value < 16 && DigitChar(DigitValue(c).value) == c
    ensures DigitValue(c).value == 0 ==> c == '0'
  {
  }

  lemma QuotientOf(high: nat, low: nat, base: int)
    requires (base == 10 || base == 16) && low < base
    ensures (high * base + low) / base == high && (high * base + low) % base == low
    ensures high >= 1 ==> high * base + low >= base
  {
  }

  lemma {:induction false} NoLeadingZero(n: nat, base: int)
    requires (base == 10 || base == 16) && n > 0
    ensures Numeral(n, base)[0] != '0'
  {
    if n >= base {
      NoLeadingZero(n / base, base);
    }
  }

  /** Splitting at any separator gives parts that join to the text again. */
  lemma {:induction false} SplitJoins(s: string, sep: string)
    requires sep != ""
    ensures Join(Split(s, sep), sep) == s
    decreases |s|
  {
    if |s| >= |sep| {
      if s[..|sep|] == sep {
        var rest := Split(s[|sep|..], sep);
        SplitJoins(s[|sep|..], sep);
        assert ([""] + rest)[1..] == rest;
        assert s == sep + s[|sep|..];
      } else {
        var rest := Split(s[1..], sep);
        SplitJoins(s[1..], sep);
        JoinFirst(rest, s[0], sep);
        assert s == [s[0]] + s[1..];
      }
    }
  }
}
