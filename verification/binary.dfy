/** Byte encodings shared by the authenticated messages and the frame format. */
module Binary {
  import opened Basics

  type Byte = n: int | 0 <= n < 256
  type Bytes = seq<Byte>

  const TWO_32 := 0x1_0000_0000

  predicate U32(n: int) {
    0 <= n <= UINT32_MAX
  }

  predicate AllAscii(s: string) {
    forall i | 0 <= i < |s| :: s[i] < 128 as char
  }

  function Ascii(s: string): (b: Bytes)
    requires AllAscii(s)
    ensures |b| == |s|
  {
    seq(|s|, i requires 0 <= i < |s| => s[i] as int)
  }

  lemma AsciiInjective(s: string, t: string)
    requires AllAscii(s) && AllAscii(t) && Ascii(s) == Ascii(t)
    ensures s == t
  {
    forall i | 0 <= i < |s|
      ensures s[i] == t[i]
    {
      assert Ascii(s)[i] == Ascii(t)[i];
    }
  }

  // ---- big-endian integers ------------------------------------------------

  function U32be(n: int): (b: Bytes)
    requires U32(n)
    ensures |b| == 4
  {
    [n / 0x100_0000, n / 0x1_0000 % 256, n / 256 % 256, n % 256]
  }

  function ReadU32be(b: Bytes): (n: int)
    requires |b| == 4
    ensures U32(n)
  {
    ((b[0] as int * 256 + b[1]) * 256 + b[2]) * 256 + b[3]
  }

  lemma U32RoundTrip(n: int)
    requires U32(n)
    ensures ReadU32be(U32be(n)) == n
  {
    var a := n / 256;
    var b := a / 256;
    assert n / 0x1_0000 == b && n / 0x100_0000 == b / 256;
  }

  lemma U32Inverse(b: Bytes)
    requires |b| == 4
    ensures U32be(ReadU32be(b)) == b
  {
    var high := (b[0] as int * 256 + b[1]) * 256 + b[2];
    var n := ReadU32be(b);
    assert n / 256 == high && n % 256 == b[3];
    assert high / 256 == b[0] as int * 256 + b[1] && high % 256 == b[2];
    assert n / 0x1_0000 == high / 256;
    assert n / 0x100_0000 == b[0];
  }

  function U64be(n: int): (b: Bytes)
    requires U64(n)
    ensures |b| == 8
  {
    U32be(n / TWO_32) + U32be(n % TWO_32)
  }

  lemma U64Injective(m: int, n: int)
    requires U64(m) && U64(n) && U64be(m) == U64be(n)
    ensures m == n
  {
    var a, b := U64be(m), U64be(n);
    assert a[..4] == U32be(m / TWO_32) && a[4..] == U32be(m % TWO_32);
    assert b[..4] == U32be(n / TWO_32) && b[4..] == U32be(n % TWO_32);
    U32RoundTrip(m / TWO_32);
    U32RoundTrip(n / TWO_32);
    U32RoundTrip(m % TWO_32);
    U32RoundTrip(n % TWO_32);
  }

  // ---- concatenations -----------------------------------------------------

  /** A field of known length can be read off the front. */
  lemma SplitFront(a: Bytes, x: Bytes, b: Bytes, y: Bytes)
    requires a + x == b + y && |a| == |b|
    ensures a == b && x == y
  {
    assert a == (a + x)[..|a|] && b == (b + y)[..|b|];
    assert x == (a + x)[|a|..] && y == (b + y)[|b|..];
  }

  function LengthPrefix(b: Bytes): Bytes
    requires |b| <= UINT32_MAX
  {
    U32be(|b|) + b
  }

  /** So can a field that carries its own length. */
  lemma SplitPrefixed(a: Bytes, x: Bytes, b: Bytes, y: Bytes)
    requires |a| <= UINT32_MAX && |b| <= UINT32_MAX
    requires LengthPrefix(a) + x == LengthPrefix(b) + y
    ensures a == b && x == y
  {
    assert LengthPrefix(a) + x == U32be(|a|) + (a + x);
    assert LengthPrefix(b) + y == U32be(|b|) + (b + y);
    SplitFront(U32be(|a|), a + x, U32be(|b|), b + y);
    U32RoundTrip(|a|);
    U32RoundTrip(|b|);
    SplitFront(a, x, b, y);
  }

  // ---- lower-case hexadecimal ---------------------------------------------

  function HexDigit(c: char): (n: int)
    requires LowerHex(c)
    ensures 0 <= n < 16
  {
    if '0' <= c <= '9' then c as int - '0' as int else c as int - 'a' as int + 10
  }

  function HexBytes(s: string): (b: Bytes)
    requires |s| % 2 == 0 && forall i | 0 <= i < |s| :: LowerHex(s[i])
    ensures |b| == |s| / 2
  {
    if s == [] then [] else [HexDigit(s[0]) * 16 + HexDigit(s[1])] + HexBytes(s[2..])
  }

  lemma {:induction false} HexInjective(s: string, t: string)
    requires |s| % 2 == 0 && forall i | 0 <= i < |s| :: LowerHex(s[i])
    requires |t| % 2 == 0 && forall i | 0 <= i < |t| :: LowerHex(t[i])
    requires HexBytes(s) == HexBytes(t)
    ensures s == t
  {
    if s != [] {
      assert HexBytes(s)[1..] == HexBytes(s[2..]) && HexBytes(t)[1..] == HexBytes(t[2..]);
      HexInjective(s[2..], t[2..]);
      var x := HexBytes(s)[0];
      assert HexDigit(s[0]) == x / 16 == HexDigit(t[0]);
      assert HexDigit(s[1]) == x % 16 == HexDigit(t[1]);
      assert s == [s[0], s[1]] + s[2..] && t == [t[0], t[1]] + t[2..];
    }
  }

  /** The thirty-two bytes behind a "sha256:" digest. */
  function DigestBytes(d: Digest): (b: Bytes)
    requires ValidDigest(d)
    ensures |b| == 32
  {
    HexBytes(d[7..])
  }

  lemma DigestInjective(d: Digest, e: Digest)
    requires ValidDigest(d) && ValidDigest(e) && DigestBytes(d) == DigestBytes(e)
    ensures d == e
  {
    HexInjective(d[7..], e[7..]);
    assert d == d[..7] + d[7..] && e == e[..7] + e[7..];
  }

  // ---- base64url without padding ------------------------------------------

  type Sextet = n: int | 0 <= n < 64

  function Symbol(n: Sextet): char {
    if n < 26 then ('A' as int + n) as char
    else if n < 52 then ('a' as int + n - 26) as char
    else if n < 62 then ('0' as int + n - 52) as char
    else if n == 62 then '-' else '_'
  }

  function SymbolValue(c: char): Option<Sextet> {
    if 'A' <= c <= 'Z' then Some(c as int - 'A' as int)
    else if 'a' <= c <= 'z' then Some(c as int - 'a' as int + 26)
    else if '0' <= c <= '9' then Some(c as int - '0' as int + 52)
    else if c == '-' then Some(62)
    else if c == '_' then Some(63)
    else None
  }

  lemma SymbolRoundTrip(n: Sextet)
    ensures SymbolValue(Symbol(n)) == Some(n)
  {
  }

  function Sextets(b: Bytes): seq<Sextet> {
    if |b| == 0 then []
    else if |b| == 1 then [b[0] / 4, b[0] % 4 * 16]
    else if |b| == 2 then [b[0] / 4, b[0] % 4 * 16 + b[1] / 16, b[1] % 16 * 4]
    else [b[0] / 4, b[0] % 4 * 16 + b[1] / 16, b[1] % 16 * 4 + b[2] / 64, b[2] % 64] + Sextets(b[3..])
  }

  /** The lenient decoder: left-over bits and a lone last symbol are dropped. */
  function FromSextets(s: seq<Sextet>): Bytes {
    if |s| < 2 then []
    else if |s| == 2 then [s[0] as int * 4 + s[1] / 16]
    else if |s| == 3 then [s[0] as int * 4 + s[1] / 16, s[1] as int % 16 * 16 + s[2] / 4]
    else [s[0] as int * 4 + s[1] / 16, s[1] as int % 16 * 16 + s[2] / 4, s[2] as int % 4 * 64 + s[3]] + FromSextets(s[4..])
  }

  function EncodeBase64Url(b: Bytes): string {
    seq(|Sextets(b)|, i requires 0 <= i < |Sextets(b)| => Symbol(Sextets(b)[i]))
  }

  predicate AllSymbols(s: string) {
    forall i | 0 <= i < |s| :: SymbolValue(s[i]).Some?
  }

  function Values(s: string): seq<Sextet>
    requires AllSymbols(s)
  {
    seq(|s|, i requires 0 <= i < |s| => SymbolValue(s[i]).value)
  }

  /** Only the text that encoding would produce is decoded. */
  function DecodeCanonicalBase64Url(s: string): Option<Bytes> {
    if s == "" || !AllSymbols(s) then None
    else
      var decoded := FromSextets(Values(s));
      if EncodeBase64Url(decoded) == s then Some(decoded) else None
  }

  lemma {:induction false} SextetRoundTrip(b: Bytes)
    ensures FromSextets(Sextets(b)) == b
  {
    if |b| >= 3 {
      SextetRoundTrip(b[3..]);
      assert Sextets(b)[4..] == Sextets(b[3..]);
      assert b == [b[0], b[1], b[2]] + b[3..];
    }
  }

  lemma {:induction false} EncodedLength(b: Bytes)
    ensures |EncodeBase64Url(b)| == |b| / 3 * 4 + (if |b| % 3 == 0 then 0 else |b| % 3 + 1)
  {
    if |b| >= 3 {
      EncodedLength(b[3..]);
    }
  }

  lemma SymbolsRoundTrip(b: Bytes)
    ensures AllSymbols(EncodeBase64Url(b)) && Values(EncodeBase64Url(b)) == Sextets(b)
  {
    hide Symbol, SymbolValue, Sextets;
    forall i | 0 <= i < |Sextets(b)|
      ensures SymbolValue(EncodeBase64Url(b)[i]) == Some(Sextets(b)[i])
    {
      SymbolRoundTrip(Sextets(b)[i]);
    }
  }

  /** The canonical decoder accepts exactly the encodings of non-empty values. */
  lemma CanonicalBase64Url(s: string, b: Bytes)
    ensures DecodeCanonicalBase64Url(s) == Some(b) <==> b != [] && s == EncodeBase64Url(b)
  {
    hide Symbol, SymbolValue, FromSextets;
    SymbolsRoundTrip(b);
    SextetRoundTrip(b);
    assert b == [] <==> EncodeBase64Url(b) == "";
  }

  // ---- what the bytes and symbols are -------------------------------------

  /** Most significant byte first. */
  lemma U32Means(n: int)
    requires U32(n)
    ensures var b := U32be(n);
            n == b[0] as int * 16_777_216 + b[1] as int * 65_536 + b[2] as int * 256 + b[3] as int
  {
    U32RoundTrip(n);
  }

  lemma U64Means(n: int)
    requires U64(n)
    ensures var b := U64be(n);
            n == (b[0] as int * 16_777_216 + b[1] as int * 65_536 + b[2] as int * 256 + b[3] as int) * 4_294_967_296
                 + (b[4] as int * 16_777_216 + b[5] as int * 65_536 + b[6] as int * 256 + b[7] as int)
  {
    hide U32be;
    U32Means(n / TWO_32);
    U32Means(n % TWO_32);
  }

  /** The alphabet of section 5 of RFC 4648. */
  lemma Alphabet(n: Sextet)
    ensures n < 26 ==> Symbol(n) == "ABCDEFGHIJKLMNOPQRSTUVWXYZ"[n]
    ensures 26 <= n < 52 ==> Symbol(n) == "abcdefghijklmnopqrstuvwxyz"[n - 26]
    ensures 52 <= n ==> Symbol(n) == "0123456789-_"[n - 52]
  {
  }

  /** Three bytes and their four symbols are the same 24 bits; one or two bytes at
      the end are followed by zero bits. */
  lemma SextetBits(b: Bytes)
    ensures |b| == 1 ==> |Sextets(b)| == 2 && Sextets(b)[0] as int * 64 + Sextets(b)[1] == b[0] as int * 16
    ensures |b| == 2 ==>
              && |Sextets(b)| == 3
              && (Sextets(b)[0] as int * 64 + Sextets(b)[1]) * 64 + Sextets(b)[2] == (b[0] as int * 256 + b[1]) * 4
    ensures |b| >= 3 ==>
              && |Sextets(b)| >= 4 && Sextets(b)[4..] == Sextets(b[3..])
              && ((Sextets(b)[0] as int * 64 + Sextets(b)[1]) * 64 + Sextets(b)[2]) * 64 + Sextets(b)[3]
                 == (b[0] as int * 256 + b[1]) * 256 + b[2]
  {
  }

  /** Two hexadecimal digits a byte, the higher first. */
  lemma {:induction false} HexMeans(s: string, i: nat)
    requires |s| % 2 == 0 && (forall k | 0 <= k < |s| :: LowerHex(s[k])) && i < |s| / 2
    ensures HexBytes(s)[i] as int == HexDigit(s[2 * i]) * 16 + HexDigit(s[2 * i + 1])
  {
    hide HexDigit;
    if i > 0 {
      var rest := s[2..];
      HexMeans(rest, i - 1);
      assert HexBytes(s)[1..] == HexBytes(rest);
      assert rest[2 * (i - 1)] == s[2 * i] && rest[2 * (i - 1) + 1] == s[2 * i + 1];
    }
  }

  lemma HexSymbol(c: char)
    requires LowerHex(c)
    ensures "0123456789abcdef"[HexDigit(c)] == c
  {
    if c <= '9' {
      assert "0123456789abcdef"[..10] == "0123456789" && "0123456789"[HexDigit(c)] == c;
    } else {
      assert "0123456789abcdef"[10..] == "abcdef" && "abcdef"[HexDigit(c) - 10] == c;
    }
  }
}
