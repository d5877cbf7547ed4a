/** The messages that are authenticated: each determines all of its fields, and
    no message of one kind is a message of another. */
module Encodings {
  import opened Basics
  import opened Binary

  const ENVELOPE_DOMAIN: string := "OUTSCAN:RESULT_ENVELOPE:v1\0"
  const TOKEN_DOMAIN: string := "OUTSCAN:GUEST_RESULT_TOKEN:v1\0"
  const COOKIE_DOMAIN: string := "OUTSCAN:GUEST_SESSION_COOKIE:v1\0"

  // ---- result envelope ----------------------------------------------------

  datatype Header = Header(
    jobId: Id,
    attemptId: Id,
    fence: int,
    workload: string,
    audience: string,
    issuedAt: int,
    expiresAt: int,
    digest: Digest,
    size: int)

  const SCHEMA_VERSION := 1

  predicate PrincipalChar(c: char) {
    AsciiLetterOrDigit(c) || c == '.' || c == '_' || c == ':' || c == '/' || c == '-'
  }

  /** A workload identity or an audience. */
  predicate ValidPrincipal(s: string) {
    1 <= |s| <= 128 && AsciiLetterOrDigit(s[0]) && forall i | 0 <= i < |s| :: PrincipalChar(s[i])
  }

  /** The header fields that signing and verifying accept. */
  predicate ValidHeader(h: Header) {
    && ValidId(h.jobId) && ValidId(h.attemptId)
    && PositiveSafe(h.fence)
    && ValidPrincipal(h.workload) && ValidPrincipal(h.audience)
    && PositiveSafe(h.issuedAt) && PositiveSafe(h.expiresAt)
    && ValidDigest(h.digest)
    && 0 <= h.size <= MAX_SAFE
  }

  /** A valid id or principal with its length in front. */
  function TextField(s: string): (b: Bytes)
    requires ValidId(s) || ValidPrincipal(s)
    ensures |b| >= 4
  {
    LengthPrefix(Ascii(s))
  }

  function EnvelopeFields(h: Header): Bytes
    requires ValidHeader(h)
  {
    TextField(h.jobId) + (TextField(h.attemptId) + (U64be(h.fence) + (TextField(h.workload) + (TextField(h.audience)
    + (U64be(h.issuedAt) + (U64be(h.expiresAt) + (DigestBytes(h.digest) + U64be(h.size))))))))
  }

  /** What the MAC of an envelope is computed over. */
  function EnvelopeMessage(h: Header, keyVersion: int): Bytes
    requires ValidHeader(h) && U32(keyVersion)
  {
    Ascii(ENVELOPE_DOMAIN) + (U32be(SCHEMA_VERSION) + (U32be(keyVersion) + EnvelopeFields(h)))
  }

  lemma SplitText(s: string, x: Bytes, t: string, y: Bytes)
    requires (ValidId(s) || ValidPrincipal(s)) && (ValidId(t) || ValidPrincipal(t))
    requires TextField(s) + x == TextField(t) + y
    ensures s == t && x == y
  {
    SplitPrefixed(Ascii(s), x, Ascii(t), y);
    AsciiInjective(s, t);
  }

  lemma SplitU64(m: int, x: Bytes, n: int, y: Bytes)
    requires U64(m) && U64(n) && U64be(m) + x == U64be(n) + y
    ensures m == n && x == y
  {
    SplitFront(U64be(m), x, U64be(n), y);
    U64Injective(m, n);
  }

  lemma EnvelopeFieldsInjective(h: Header, g: Header)
    requires ValidHeader(h) && ValidHeader(g) && EnvelopeFields(h) == EnvelopeFields(g)
    ensures h == g
  {
    hide TextField, U64be, DigestBytes, ValidId, ValidPrincipal, ValidDigest;
    var h9, g9 := U64be(h.size), U64be(g.size);
    var h8, g8 := DigestBytes(h.digest) + h9, DigestBytes(g.digest) + g9;
    var h7, g7 := U64be(h.expiresAt) + h8, U64be(g.expiresAt) + g8;
    var h6, g6 := U64be(h.issuedAt) + h7, U64be(g.issuedAt) + g7;
    var h5, g5 := TextField(h.audience) + h6, TextField(g.audience) + g6;
    var h4, g4 := TextField(h.workload) + h5, TextField(g.workload) + g5;
    var h3, g3 := U64be(h.fence) + h4, U64be(g.fence) + g4;
    var h2, g2 := TextField(h.attemptId) + h3, TextField(g.attemptId) + g3;
    SplitText(h.jobId, h2, g.jobId, g2);
    SplitText(h.attemptId, h3, g.attemptId, g3);
    SplitU64(h.fence, h4, g.fence, g4);
    SplitText(h.workload, h5, g.workload, g5);
    SplitText(h.audience, h6, g.audience, g6);
    SplitU64(h.issuedAt, h7, g.issuedAt, g7);
    SplitU64(h.expiresAt, h8, g.expiresAt, g8);
    SplitFront(DigestBytes(h.digest), h9, DigestBytes(g.digest), g9);
    DigestInjective(h.digest, g.digest);
    U64Injective(h.size, g.size);
  }

  /** An envelope's message determines its whole header and the key version. */
  lemma EnvelopeInjective(h: Header, keyVersion: int, g: Header, otherVersion: int)
    requires ValidHeader(h) && ValidHeader(g) && U32(keyVersion) && U32(otherVersion)
    requires EnvelopeMessage(h, keyVersion) == EnvelopeMessage(g, otherVersion)
    ensures h == g && keyVersion == otherVersion
  {
    hide EnvelopeFields, U32be, ValidHeader;
    var x, y := U32be(keyVersion) + EnvelopeFields(h), U32be(otherVersion) + EnvelopeFields(g);
    SplitFront(Ascii(ENVELOPE_DOMAIN), U32be(SCHEMA_VERSION) + x, Ascii(ENVELOPE_DOMAIN), U32be(SCHEMA_VERSION) + y);
    SplitFront(U32be(SCHEMA_VERSION), x, U32be(SCHEMA_VERSION), y);
    SplitFront(U32be(keyVersion), EnvelopeFields(h), U32be(otherVersion), EnvelopeFields(g));
    U32RoundTrip(keyVersion);
    U32RoundTrip(otherVersion);
    EnvelopeFieldsInjective(h, g);
  }

  // ---- result token -------------------------------------------------------

  /** The authenticated part of a token's metadata; the scan id is its UTF-8 form. */
  datatype TokenFields = TokenFields(scanId: Bytes, version: int, nonce: Bytes, accessExpires: int)

  predicate ValidTokenFields(t: TokenFields) {
    1 <= |t.scanId| <= 512 && U64(t.version) && |t.nonce| == 32 && U64(t.accessExpires)
  }

  function TokenMessage(t: TokenFields): Bytes
    requires ValidTokenFields(t)
  {
    Ascii(TOKEN_DOMAIN) + (LengthPrefix(t.scanId) + (U64be(t.version) + (LengthPrefix(t.nonce) + U64be(t.accessExpires))))
  }

  lemma TokenInjective(t: TokenFields, u: TokenFields)
    requires ValidTokenFields(t) && ValidTokenFields(u) && TokenMessage(t) == TokenMessage(u)
    ensures t == u
  {
    hide U64be, LengthPrefix;
    var t4, u4 := U64be(t.accessExpires), U64be(u.accessExpires);
    var t3, u3 := LengthPrefix(t.nonce) + t4, LengthPrefix(u.nonce) + u4;
    var t2, u2 := U64be(t.version) + t3, U64be(u.version) + u3;
    SplitFront(Ascii(TOKEN_DOMAIN), LengthPrefix(t.scanId) + t2, Ascii(TOKEN_DOMAIN), LengthPrefix(u.scanId) + u2);
    SplitPrefixed(t.scanId, t2, u.scanId, u2);
    SplitU64(t.version, t3, u.version, u3);
    SplitPrefixed(t.nonce, t4, u.nonce, u4);
    U64Injective(t.accessExpires, u.accessExpires);
  }

  // ---- session cookie -----------------------------------------------------

  function CookieMessage(keyVersion: int, session: Bytes): Bytes
    requires U32(keyVersion) && |session| == 32
  {
    Ascii(COOKIE_DOMAIN) + (U32be(keyVersion) + session)
  }

  lemma CookieInjective(keyVersion: int, session: Bytes, otherVersion: int, other: Bytes)
    requires U32(keyVersion) && |session| == 32 && U32(otherVersion) && |other| == 32
    requires CookieMessage(keyVersion, session) == CookieMessage(otherVersion, other)
    ensures keyVersion == otherVersion && session == other
  {
    SplitFront(Ascii(COOKIE_DOMAIN), U32be(keyVersion) + session, Ascii(COOKIE_DOMAIN), U32be(otherVersion) + other);
    SplitFront(U32be(keyVersion), session, U32be(otherVersion), other);
    U32RoundTrip(keyVersion);
    U32RoundTrip(otherVersion);
  }

  // ---- domain separation --------------------------------------------------

  datatype Signed =
    | EnvelopeSigned(header: Header, keyVersion: int)
    | TokenSigned(fields: TokenFields)
    | CookieSigned(cookieVersion: int, session: Bytes)

  predicate ValidSigned(s: Signed) {
    match s
    case EnvelopeSigned(h, v) => ValidHeader(h) && U32(v)
    case TokenSigned(t) => ValidTokenFields(t)
    case CookieSigned(v, session) => U32(v) && |session| == 32
  }

  function Message(s: Signed): Bytes
    requires ValidSigned(s)
  {
    match s
    case EnvelopeSigned(h, v) => EnvelopeMessage(h, v)
    case TokenSigned(t) => TokenMessage(t)
    case CookieSigned(v, session) => CookieMessage(v, session)
  }

  lemma DomainByte(domain: string, rest: Bytes, i: nat)
    requires AllAscii(domain) && i < |domain|
    ensures |Ascii(domain) + rest| > i && (Ascii(domain) + rest)[i] == domain[i] as int
  {
  }

  lemma EnvelopeBytes(h: Header, v: int)
    requires ValidSigned(EnvelopeSigned(h, v))
    ensures |Message(EnvelopeSigned(h, v))| >= 15 && Message(EnvelopeSigned(h, v))[8] == 'R' as int
  {
    hide EnvelopeFields, ValidHeader, U32be, U64be, LengthPrefix, Ascii;
    var rest := U32be(SCHEMA_VERSION) + (U32be(v) + EnvelopeFields(h));
    DomainByte(ENVELOPE_DOMAIN, rest, 8);
    DomainByte(ENVELOPE_DOMAIN, rest, 14);
  }

  lemma TokenBytes(t: TokenFields)
    requires ValidSigned(TokenSigned(t))
    ensures |Message(TokenSigned(t))| >= 15
    ensures Message(TokenSigned(t))[8] == 'G' as int && Message(TokenSigned(t))[14] == 'R' as int
  {
    hide U32be, U64be, LengthPrefix, Ascii;
    var rest := LengthPrefix(t.scanId) + (U64be(t.version) + (LengthPrefix(t.nonce) + U64be(t.accessExpires)));
    DomainByte(TOKEN_DOMAIN, rest, 8);
    DomainByte(TOKEN_DOMAIN, rest, 14);
  }

  lemma CookieBytes(v: int, session: Bytes)
    requires ValidSigned(CookieSigned(v, session))
    ensures |Message(CookieSigned(v, session))| >= 15
    ensures Message(CookieSigned(v, session))[8] == 'G' as int && Message(CookieSigned(v, session))[14] == 'S' as int
  {
    hide U32be, U64be, LengthPrefix, Ascii;
    DomainByte(COOKIE_DOMAIN, U32be(v) + session, 8);
    DomainByte(COOKIE_DOMAIN, U32be(v) + session, 14);
  }

  /** The ninth and the fifteenth byte tell the three kinds apart. */
  lemma DomainBytes(s: Signed)
    requires ValidSigned(s)
    ensures |Message(s)| >= 15
    ensures Message(s)[8] == (if s.EnvelopeSigned? then 'R' as int else 'G' as int)
    ensures s.TokenSigned? ==> Message(s)[14] == 'R' as int
    ensures s.CookieSigned? ==> Message(s)[14] == 'S' as int
  {
    hide Message, ValidSigned;
    match s {
      case EnvelopeSigned(h, v) => EnvelopeBytes(h, v);
      case TokenSigned(t) => TokenBytes(t);
      case CookieSigned(v, session) => CookieBytes(v, session);
    }
  }

  /** Whatever was signed, of any kind, is determined by the signed bytes. */
  lemma MessagesInjective(s: Signed, t: Signed)
    requires ValidSigned(s) && ValidSigned(t) && Message(s) == Message(t)
    ensures s == t
  {
    hide EnvelopeMessage, TokenMessage, CookieMessage, ValidHeader;
    DomainBytes(s);
    DomainBytes(t);
    if s.EnvelopeSigned? {
      EnvelopeInjective(s.header, s.keyVersion, t.header, t.keyVersion);
    } else if s.TokenSigned? {
      TokenInjective(s.fields, t.fields);
    } else {
      CookieInjective(s.cookieVersion, s.session, t.cookieVersion, t.session);
    }
  }

  // ---- the order of the fields --------------------------------------------

  /** A field as it is written: four or eight bytes, bytes with their length in
      front, or bytes alone. */
  datatype Item = Word(n: int) | LongWord(n: int) | Prefixed(octets: Bytes) | Raw(octets: Bytes)

  predicate ItemOk(i: Item) {
    match i
    case Word(n) => U32(n)
    case LongWord(n) => U64(n)
    case Prefixed(b) => |b| <= UINT32_MAX
    case Raw(_) => true
  }

  function WriteItem(i: Item): Bytes
    requires ItemOk(i)
  {
    match i
    case Word(n) => U32be(n)
    case LongWord(n) => U64be(n)
    case Prefixed(b) => U32be(|b|) + b
    case Raw(b) => b
  }

  predicate ItemsOk(items: seq<Item>) {
    forall i | 0 <= i < |items| :: ItemOk(items[i])
  }

  function WriteItems(items: seq<Item>): Bytes
    requires ItemsOk(items)
  {
    if items == [] then [] else WriteItem(items[0]) + WriteItems(items[1..])
  }

  /** What stands behind a domain, field by field. */
  function ItemsOf(s: Signed): (items: seq<Item>)
    requires ValidSigned(s)
    ensures ItemsOk(items)
  {
    match s
    case EnvelopeSigned(h, v) =>
      [Word(1), Word(v), Prefixed(Ascii(h.jobId)), Prefixed(Ascii(h.attemptId)), LongWord(h.fence),
       Prefixed(Ascii(h.workload)), Prefixed(Ascii(h.audience)), LongWord(h.issuedAt), LongWord(h.expiresAt),
       Raw(DigestBytes(h.digest)), LongWord(h.size)]
    case TokenSigned(t) => [Prefixed(t.scanId), LongWord(t.version), Prefixed(t.nonce), LongWord(t.accessExpires)]
    case CookieSigned(v, session) => [Word(v), Raw(session)]
  }

  function DomainOf(s: Signed): (domain: string)
    ensures AllAscii(domain)
  {
    match s
    case EnvelopeSigned(_, _) => "OUTSCAN:RESULT_ENVELOPE:v1\0"
    case TokenSigned(_) => "OUTSCAN:GUEST_RESULT_TOKEN:v1\0"
    case CookieSigned(_, _) => "OUTSCAN:GUEST_SESSION_COOKIE:v1\0"
  }

  lemma WriteNext(items: seq<Item>, i: nat)
    requires ItemsOk(items) && i < |items|
    ensures WriteItems(items[i..]) == WriteItem(items[i]) + WriteItems(items[i + 1..])
  {
    assert items[i..][1..] == items[i + 1..];
  }

  /** Every message is its domain followed by its fields in this order. */
  lemma MessageLayout(s: Signed)
    requires ValidSigned(s)
    ensures AllAscii(DomainOf(s)) && Message(s) == Ascii(DomainOf(s)) + WriteItems(ItemsOf(s))
  {
    hide EnvelopeMessage, TokenMessage, CookieMessage, WriteItems, ItemsOf, DomainOf, ValidHeader, ValidTokenFields;
    match s
    case EnvelopeSigned(h, v) => EnvelopeLayout(h, v);
    case TokenSigned(t) => TokenLayout(t);
    case CookieSigned(v, session) => CookieLayout(v, session);
  }

  lemma EnvelopeLayout(h: Header, v: int)
    requires ValidHeader(h) && U32(v)
    ensures EnvelopeMessage(h, v) == Ascii(DomainOf(EnvelopeSigned(h, v))) + WriteItems(ItemsOf(EnvelopeSigned(h, v)))
  {
    hide ValidHeader, U32be, U64be, DigestBytes, Ascii, WriteItems;
    var items := ItemsOf(EnvelopeSigned(h, v));
    assert items[0..] == items;
    WriteNext(items, 0);
    WriteNext(items, 1);
    WriteNext(items, 2);
    WriteNext(items, 3);
    WriteNext(items, 4);
    WriteNext(items, 5);
    WriteNext(items, 6);
    WriteNext(items, 7);
    WriteNext(items, 8);
    WriteNext(items, 9);
    WriteNext(items, 10);
    NothingWritten(items[11..]);
  }

  lemma NothingWritten(items: seq<Item>)
    requires items == []
    ensures WriteItems(items) == []
  {
  }

  lemma TokenLayout(t: TokenFields)
    requires ValidTokenFields(t)
    ensures TokenMessage(t) == Ascii(DomainOf(TokenSigned(t))) + WriteItems(ItemsOf(TokenSigned(t)))
  {
    hide U32be, U64be, Ascii, WriteItems;
    var items := ItemsOf(TokenSigned(t));
    assert items[0..] == items;
    WriteNext(items, 0);
    WriteNext(items, 1);
    WriteNext(items, 2);
    WriteNext(items, 3);
    NothingWritten(items[4..]);
  }

  lemma CookieLayout(v: int, session: Bytes)
    requires U32(v) && |session| == 32
    ensures CookieMessage(v, session) == Ascii(DomainOf(CookieSigned(v, session))) + WriteItems(ItemsOf(CookieSigned(v, session)))
  {
    hide U32be, Ascii, WriteItems;
    var items := ItemsOf(CookieSigned(v, session));
    assert items[0..] == items;
    WriteNext(items, 0);
    WriteNext(items, 1);
    NothingWritten(items[2..]);
  }
}
