/** The hand-written scan for duplicate keys in JSON text, checked against the
    grammar of section 2 of RFC 8259: rendered syntax trees with any whitespace
    and any escapes. Text is a sequence of UTF-16 code units. */
module JsonKeys {
  import opened Basics

  type Text = seq<int>

  const QUOTE := 0x22
  const COMMA := 0x2c
  const COLON := 0x3a
  const OPEN_BRACKET := 0x5b
  const BACKSLASH := 0x5c
  const CLOSE_BRACKET := 0x5d
  const OPEN_BRACE := 0x7b
  const CLOSE_BRACE := 0x7d

  /** Nesting limits of the two callers. */
  const OUTPUT_DEPTH := 32
  const MOUNTED_FILE_DEPTH := 16

  /** White space of a regular expression's \s, wider than that of JSON. */
  predicate IsSpace(u: int) {
    || 9 <= u <= 13 || u == 32 || u == 0xa0 || u == 0x1680 || 0x2000 <= u <= 0x200a
    || u == 0x2028 || u == 0x2029 || u == 0x202f || u == 0x205f || u == 0x3000 || u == 0xfeff
  }

  predicate JsonSpace(u: int) {
    u == 32 || u == 9 || u == 10 || u == 13
  }

  // ---- decoding one string literal ----------------------------------------

  function HexValue(u: int): Option<int> {
    if 0x30 <= u <= 0x39 then Some(u - 0x30)
    else if 0x41 <= u <= 0x46 then Some(u - 0x41 + 10)
    else if 0x61 <= u <= 0x66 then Some(u - 0x61 + 10)
    else None
  }

  /** The unit that a one-letter escape stands for. */
  function Unescape(letter: int): Option<int> {
    if letter == QUOTE || letter == BACKSLASH || letter == 0x2f then Some(letter)
    else if letter == 0x62 then Some(8)
    else if letter == 0x66 then Some(12)
    else if letter == 0x6e then Some(10)
    else if letter == 0x72 then Some(13)
    else if letter == 0x74 then Some(9)
    else None
  }

  function HexUnit(s: Text): Option<int>
    requires |s| == 4
  {
    var a, b, c, d := HexValue(s[0]), HexValue(s[1]), HexValue(s[2]), HexValue(s[3]);
    if a.Some? && b.Some? && c.Some? && d.Some?
    then Some(a.value * 4096 + b.value * 256 + c.value * 16 + d.value) else None
  }

  function Prefixed(unit: Option<int>, rest: Option<Text>): Option<Text> {
    if unit.Some? && rest.Some? then Some([unit.value] + rest.value) else None
  }

  /** What parsing a quoted string gives for the units between its quotes. */
  function DecodeBody(s: Text): Option<Text> {
    if s == [] then Some([])
    else if s[0] == BACKSLASH then
      if |s| >= 6 && s[1] == 0x75 then Prefixed(HexUnit(s[2..6]), DecodeBody(s[6..]))
      else if |s| >= 2 then Prefixed(Unescape(s[1]), DecodeBody(s[2..]))
      else None
    else if s[0] == QUOTE || s[0] < 0x20 then None
    else Prefixed(Some(s[0]), DecodeBody(s[1..]))
  }

  // ---- the scan -----------------------------------------------------------

  datatype Frame = ArrayFrame | ObjectFrame(keys: set<Text>)

  /** Units before the closing quote, or all of them when there is none. */
  function Close(s: Text, escaped: bool): (n: nat)
    ensures n <= |s|
  {
    if s == [] then 0
    else if escaped then 1 + Close(s[1..], false)
    else if s[0] == BACKSLASH then 1 + Close(s[1..], true)
    else if s[0] == QUOTE then 0
    else 1 + Close(s[1..], false)
  }

  function Spaces(s: Text): (n: nat)
    ensures n <= |s|
    ensures n < |s| ==> !IsSpace(s[n])
  {
    if s == [] || !IsSpace(s[0]) then 0 else 1 + Spaces(s[1..])
  }

  /** A colon follows, after white space. */
  predicate ColonFollows(s: Text) {
    Spaces(s) < |s| && s[Spaces(s)] == COLON
  }

  function Pop(stack: seq<Frame>): seq<Frame> {
    if stack == [] then [] else stack[..|stack| - 1]
  }

  /** The scan of the remaining text with the given stack of open brackets. */
  predicate Scan(s: Text, stack: seq<Frame>, limit: int)
    decreases |s|
  {
    if s == [] then stack == []
    else if s[0] == OPEN_BRACE then |stack| + 1 <= limit && Scan(s[1..], stack + [ObjectFrame({})], limit)
    else if s[0] == OPEN_BRACKET then |stack| + 1 <= limit && Scan(s[1..], stack + [ArrayFrame], limit)
    else if s[0] == CLOSE_BRACE || s[0] == CLOSE_BRACKET then Scan(s[1..], Pop(stack), limit)
    else if s[0] != QUOTE then Scan(s[1..], stack, limit)
    else
      var n := Close(s[1..], false);
      if n + 1 == |s| then false
      else if ColonFollows(s[n + 2..]) && stack != [] && stack[|stack| - 1].ObjectFrame? then
        var key := DecodeBody(s[1..n + 1]);
        var keys := stack[|stack| - 1].keys;
        && key.Some? && key.value !in keys
        && Scan(s[n + 2..], Pop(stack) + [ObjectFrame(keys + {key.value})], limit)
      else Scan(s[n + 2..], stack, limit)
  }

  /** The scan from an index, in terms of the text behind it. */
  lemma ScanAt(text: Text, i: nat, stack: seq<Frame>, limit: int)
    requires i < |text|
    ensures text[i] == OPEN_BRACE ==>
              Scan(text[i..], stack, limit) == (|stack| + 1 <= limit && Scan(text[i + 1..], stack + [ObjectFrame({})], limit))
    ensures text[i] == OPEN_BRACKET ==>
              Scan(text[i..], stack, limit) == (|stack| + 1 <= limit && Scan(text[i + 1..], stack + [ArrayFrame], limit))
    ensures text[i] == CLOSE_BRACE || text[i] == CLOSE_BRACKET ==>
              Scan(text[i..], stack, limit) == Scan(text[i + 1..], Pop(stack), limit)
    ensures text[i] !in {OPEN_BRACE, OPEN_BRACKET, CLOSE_BRACE, CLOSE_BRACKET, QUOTE} ==>
              Scan(text[i..], stack, limit) == Scan(text[i + 1..], stack, limit)
  {
    assert text[i..][1..] == text[i + 1..];
  }

  /** The scan from an opening quote whose partner is at `close`. */
  lemma ScanAtQuote(text: Text, i: nat, close: nat, stack: seq<Frame>, limit: int)
    requires i < close <= |text| && text[i] == QUOTE && Close(text[i + 1..], false) == close - i - 1
    ensures close == |text| ==> !Scan(text[i..], stack, limit)
    ensures close < |text| && ColonFollows(text[close + 1..]) && stack != [] && stack[|stack| - 1].ObjectFrame? ==>
              var key := DecodeBody(text[i + 1..close]);
              var keys := stack[|stack| - 1].keys;
              Scan(text[i..], stack, limit)
              == (key.Some? && key.value !in keys
                  && Scan(text[close + 1..], Pop(stack) + [ObjectFrame(keys + {key.value})], limit))
    ensures close < |text| && !(ColonFollows(text[close + 1..]) && stack != [] && stack[|stack| - 1].ObjectFrame?) ==>
              Scan(text[i..], stack, limit) == Scan(text[close + 1..], stack, limit)
  {
    hide DecodeBody, ColonFollows, Close;
    var s := text[i..];
    assert s[1..] == text[i + 1..];
    if close < |text| {
      assert s[close - i + 1..] == text[close + 1..];
      assert s[1..close - i] == text[i + 1..close];
    }
  }

  lemma CloseStep(s: Text, i: nat, escaped: bool)
    requires i < |s|
    ensures Close(s[i..], escaped)
            == if !escaped && s[i] == QUOTE then 0
               else 1 + Close(s[i + 1..], !escaped && s[i] == BACKSLASH)
  {
    assert s[i..][1..] == s[i + 1..];
  }

  lemma EndOfText()
    ensures forall escaped :: Close([], escaped) == 0
    ensures Spaces([]) == 0
  {
  }

  lemma SpaceStep(s: Text, i: nat)
    requires i < |s|
    ensures Spaces(s[i..]) == if IsSpace(s[i]) then 1 + Spaces(s[i + 1..]) else 0
  {
    assert s[i..][1..] == s[i + 1..];
  }

  lemma ColonAt(s: Text, i: nat, next: nat)
    requires i <= next <= |s| && Spaces(s[i..]) == next - i
    ensures ColonFollows(s[i..]) <==> next < |s| && s[next] == COLON
  {
  }

  lemma ScanEnd(stack: seq<Frame>, limit: int)
    ensures Scan([], stack, limit) <==> stack == []
  {
  }

  // ---- the grammar --------------------------------------------------------

  datatype Piece = Plain(unit: int) | Escape(letter: int) | UnicodeEscape(digits: Text)

  datatype Value =
    | Literal(text: Text)
    | Str(pieces: seq<Piece>)
    | EmptyArray(space: Text)
    | Array(items: Elements)
    | EmptyObject(space: Text)
    | Object(members: Members)

  datatype Element = Element(before: Text, value: Value, after: Text)

  datatype Elements = OneElement(only: Element) | MoreElements(first: Element, others: Elements)

  datatype Member = Member(before: Text, key: seq<Piece>, between: Text, element: Element)

  datatype Members = OneMember(only: Member) | MoreMembers(first: Member, others: Members)

  predicate PieceOk(p: Piece) {
    match p
    case Plain(u) => 0x20 <= u <= 0xffff && u != QUOTE && u != BACKSLASH
    case Escape(letter) => Unescape(letter).Some?
    case UnicodeEscape(digits) => |digits| == 4 && HexUnit(digits).Some?
  }

  predicate PiecesOk(ps: seq<Piece>) {
    forall i | 0 <= i < |ps| :: PieceOk(ps[i])
  }

  predicate SpaceOk(s: Text) {
    forall i | 0 <= i < |s| :: JsonSpace(s[i])
  }

  /** Numbers, true, false and null are runs of these units; nothing else about
      their spelling matters here. */
  predicate LiteralUnit(u: int) {
    0x30 <= u <= 0x39 || 0x61 <= u <= 0x7a || u == 0x45 || u == 0x2b || u == 0x2d || u == 0x2e
  }

  predicate ValueOk(v: Value): (ok: bool)
    ensures ok && v.Array? ==> ElementsOk(v.items)
    ensures ok && v.Object? ==> MembersOk(v.members)
  {
    match v
    case Literal(t) => t != [] && forall i | 0 <= i < |t| :: LiteralUnit(t[i])
    case Str(ps) => PiecesOk(ps)
    case EmptyArray(s) => SpaceOk(s)
    case Array(es) => ElementsOk(es)
    case EmptyObject(s) => SpaceOk(s)
    case Object(ms) => MembersOk(ms)
  }

  predicate ElementOk(e: Element): (ok: bool)
    ensures ok ==> ValueOk(e.value)
  {
    SpaceOk(e.before) && ValueOk(e.value) && SpaceOk(e.after)
  }

  predicate ElementsOk(es: Elements): (ok: bool)
    ensures ok && es.OneElement? ==> ElementOk(es.only)
    ensures ok && es.MoreElements? ==> ElementOk(es.first) && ElementsOk(es.others)
  {
    match es
    case OneElement(e) => ElementOk(e)
    case MoreElements(e, rest) => ElementOk(e) && ElementsOk(rest)
  }

  predicate MemberOk(m: Member): (ok: bool)
    ensures ok ==> PiecesOk(m.key) && ElementOk(m.element)
  {
    SpaceOk(m.before) && PiecesOk(m.key) && SpaceOk(m.between) && ElementOk(m.element)
  }

  predicate MembersOk(ms: Members): (ok: bool)
    ensures ok && ms.OneMember? ==> MemberOk(ms.only)
    ensures ok && ms.MoreMembers? ==> MemberOk(ms.first) && MembersOk(ms.others)
  {
    match ms
    case OneMember(m) => MemberOk(m)
    case MoreMembers(m, rest) => MemberOk(m) && MembersOk(rest)
  }

  function PieceText(p: Piece): Text {
    match p
    case Plain(u) => [u]
    case Escape(letter) => [BACKSLASH, letter]
    case UnicodeEscape(digits) => [BACKSLASH, 0x75] + digits
  }

  function PiecesText(ps: seq<Piece>): Text {
    if ps == [] then [] else PieceText(ps[0]) + PiecesText(ps[1..])
  }

  function Quoted(ps: seq<Piece>): Text {
    [QUOTE] + PiecesText(ps) + [QUOTE]
  }

  function ValueText(v: Value): Text {
    match v
    case Literal(t) => t
    case Str(ps) => Quoted(ps)
    case EmptyArray(s) => [OPEN_BRACKET] + s + [CLOSE_BRACKET]
    case Array(es) => [OPEN_BRACKET] + ElementsText(es) + [CLOSE_BRACKET]
    case EmptyObject(s) => [OPEN_BRACE] + s + [CLOSE_BRACE]
    case Object(ms) => [OPEN_BRACE] + MembersText(ms) + [CLOSE_BRACE]
  }

  function ElementText(e: Element): Text {
    e.before + ValueText(e.value) + e.after
  }

  function ElementsText(es: Elements): Text {
    match es
    case OneElement(e) => ElementText(e)
    case MoreElements(e, rest) => ElementText(e) + [COMMA] + ElementsText(rest)
  }

  function MemberText(m: Member): Text {
    m.before + Quoted(m.key) + m.between + [COLON] + ElementText(m.element)
  }

  function MembersText(ms: Members): Text {
    match ms
    case OneMember(m) => MemberText(m)
    case MoreMembers(m, rest) => MemberText(m) + [COMMA] + MembersText(rest)
  }

  // ---- what the tree means ------------------------------------------------

  function PieceUnit(p: Piece): int
    requires PieceOk(p)
  {
    match p
    case Plain(u) => u
    case Escape(letter) => Unescape(letter).value
    case UnicodeEscape(digits) => HexUnit(digits).value
  }

  /** The string that the pieces denote. */
  function Decoded(ps: seq<Piece>): Text
    requires PiecesOk(ps)
  {
    seq(|ps|, i requires 0 <= i < |ps| => PieceUnit(ps[i]))
  }

  function KeysOf(ms: Members): seq<Text>
    requires MembersOk(ms)
  {
    match ms
    case OneMember(m) => [Decoded(m.key)]
    case MoreMembers(m, rest) => [Decoded(m.key)] + KeysOf(rest)
  }

  predicate Distinct(ks: seq<Text>) {
    forall i, j | 0 <= i < j < |ks| :: ks[i] != ks[j]
  }

  /** Every object in the value has pairwise distinct decoded keys. */
  predicate UniqueKeys(v: Value)
    requires ValueOk(v)
  {
    match v
    case Array(es) => ElementsUnique(es)
    case Object(ms) => Distinct(KeysOf(ms)) && MembersUnique(ms)
    case _ => true
  }

  predicate ElementsUnique(es: Elements)
    requires ElementsOk(es)
  {
    match es
    case OneElement(e) => UniqueKeys(e.value)
    case MoreElements(e, rest) => UniqueKeys(e.value) && ElementsUnique(rest)
  }

  predicate MembersUnique(ms: Members)
    requires MembersOk(ms)
  {
    match ms
    case OneMember(m) => UniqueKeys(m.element.value)
    case MoreMembers(m, rest) => UniqueKeys(m.element.value) && MembersUnique(rest)
  }

  function Max(a: int, b: int): int {
    if a < b then b else a
  }

  /** How deeply arrays and objects are nested. */
  function Depth(v: Value): nat {
    match v
    case Literal(_) => 0
    case Str(_) => 0
    case EmptyArray(_) => 1
    case Array(es) => 1 + ElementsDepth(es)
    case EmptyObject(_) => 1
    case Object(ms) => 1 + MembersDepth(ms)
  }

  function ElementsDepth(es: Elements): nat {
    match es
    case OneElement(e) => Depth(e.value)
    case MoreElements(e, rest) => Max(Depth(e.value), ElementsDepth(rest))
  }

  function MembersDepth(ms: Members): nat {
    match ms
    case OneMember(m) => Depth(m.element.value)
    case MoreMembers(m, rest) => Max(Depth(m.element.value), MembersDepth(rest))
  }

  // ---- scanning rendered tokens -------------------------------------------

  lemma {:induction false} ClosePieces(ps: seq<Piece>, post: Text)
    requires PiecesOk(ps)
    ensures Close(PiecesText(ps) + [QUOTE] + post, false) == |PiecesText(ps)|
  {
    if ps == [] {
      assert PiecesText(ps) + [QUOTE] + post == [QUOTE] + post;
    } else {
      ClosePieces(ps[1..], post);
      var tail := PiecesText(ps[1..]) + [QUOTE] + post;
      ClosePiece(ps[0], tail);
      assert PiecesText(ps) + [QUOTE] + post == PieceText(ps[0]) + tail;
    }
  }

  lemma ClosePiece(p: Piece, tail: Text)
    requires PieceOk(p)
    ensures Close(PieceText(p) + tail, false) == |PieceText(p)| + Close(tail, false)
  {
    match p
    case Plain(u) => assert ([u] + tail)[1..] == tail;
    case Escape(letter) =>
      assert ([BACKSLASH, letter] + tail)[1..] == [letter] + tail;
      assert ([letter] + tail)[1..] == tail;
    case UnicodeEscape(digits) =>
      var s := PieceText(p) + tail;
      assert s[1..][1..] == digits + tail;
      CloseHex(digits, tail);
  }

  lemma {:induction false} CloseHex(digits: Text, tail: Text)
    requires forall i | 0 <= i < |digits| :: HexValue(digits[i]).Some?
    ensures Close(digits + tail, false) == |digits| + Close(tail, false)
  {
    if digits == [] {
      assert digits + tail == tail;
    } else {
      CloseHex(digits[1..], tail);
      assert (digits + tail)[1..] == digits[1..] + tail;
    }
  }

  lemma DecodePiece(p: Piece, tail: Text)
    requires PieceOk(p)
    ensures DecodeBody(PieceText(p) + tail) == Prefixed(Some(PieceUnit(p)), DecodeBody(tail))
  {
    var s := PieceText(p) + tail;
    assert s[|PieceText(p)|..] == tail;
    if p.UnicodeEscape? {
      assert s[2..6] == p.digits;
    }
  }

  /** Parsing a rendered string gives back what its pieces denote. */
  lemma {:induction false} DecodePieces(ps: seq<Piece>)
    requires PiecesOk(ps)
    ensures DecodeBody(PiecesText(ps)) == Some(Decoded(ps))
  {
    if ps == [] {
      assert Decoded(ps) == [];
    } else {
      hide PieceUnit, PieceText;
      DecodePieces(ps[1..]);
      DecodePiece(ps[0], PiecesText(ps[1..]));
      assert Decoded(ps) == [PieceUnit(ps[0])] + Decoded(ps[1..]);
    }
  }

  lemma {:induction false} SpacesThen(space: Text, post: Text)
    requires SpaceOk(space)
    ensures Spaces(space + post) == |space| + Spaces(post)
  {
    if space == [] {
      assert space + post == post;
    } else {
      SpacesThen(space[1..], post);
      assert (space + post)[1..] == space[1..] + post;
    }
  }

  lemma ColonAfterSpace(space: Text, post: Text)
    requires SpaceOk(space)
    ensures ColonFollows(space + post) == ColonFollows(post)
  {
    SpacesThen(space, post);
  }

  /** White space and literals are passed over. */
  lemma {:induction false} ScanPlain(t: Text, post: Text, stack: seq<Frame>, limit: int)
    requires forall i | 0 <= i < |t| :: JsonSpace(t[i]) || LiteralUnit(t[i]) || t[i] == COMMA || t[i] == COLON
    ensures Scan(t + post, stack, limit) == Scan(post, stack, limit)
  {
    if t == [] {
      assert t + post == post;
    } else {
      ScanPlain(t[1..], post, stack, limit);
      assert (t + post)[1..] == t[1..] + post;
    }
  }

  /** A string that is no key is passed over. */
  lemma ScanString(ps: seq<Piece>, post: Text, stack: seq<Frame>, limit: int)
    requires PiecesOk(ps) && !ColonFollows(post)
    ensures Scan(Quoted(ps) + post, stack, limit) == Scan(post, stack, limit)
  {
    var s := Quoted(ps) + post;
    ClosePieces(ps, post);
    assert s[1..] == PiecesText(ps) + [QUOTE] + post;
    assert s[|PiecesText(ps)| + 2..] == post;
  }

  /** A key is decoded and must be new to its object. */
  lemma ScanKey(ps: seq<Piece>, post: Text, below: seq<Frame>, keys: set<Text>, limit: int)
    requires PiecesOk(ps) && ColonFollows(post)
    ensures Scan(Quoted(ps) + post, below + [ObjectFrame(keys)], limit)
            == (Decoded(ps) !in keys && Scan(post, below + [ObjectFrame(keys + {Decoded(ps)})], limit))
  {
    var s := Quoted(ps) + post;
    var stack := below + [ObjectFrame(keys)];
    ClosePieces(ps, post);
    DecodePieces(ps);
    assert s[1..] == PiecesText(ps) + [QUOTE] + post;
    assert s[|PiecesText(ps)| + 2..] == post;
    assert s[1..|PiecesText(ps)| + 1] == PiecesText(ps);
    assert Pop(stack) == below;
  }

  // ---- scanning rendered trees --------------------------------------------

  lemma OpenScan(unit: int, t: Text, post: Text, stack: seq<Frame>, limit: int)
    requires unit == OPEN_BRACE || unit == OPEN_BRACKET
    ensures Scan([unit] + t + post, stack, limit)
            == (|stack| + 1 <= limit
                && Scan(t + post, stack + [if unit == OPEN_BRACE then ObjectFrame({}) else ArrayFrame], limit))
  {
    assert ([unit] + t + post)[1..] == t + post;
  }

  lemma CloseScan(unit: int, post: Text, stack: seq<Frame>, top: Frame, limit: int)
    requires unit == CLOSE_BRACE || unit == CLOSE_BRACKET
    ensures Scan([unit] + post, stack + [top], limit) == Scan(post, stack, limit)
    ensures !ColonFollows([unit] + post)
  {
    assert ([unit] + post)[1..] == post;
    assert Pop(stack + [top]) == stack;
  }

  lemma CommaIsNoColon(post: Text)
    ensures !ColonFollows([COMMA] + post)
  {
  }

  lemma {:induction false} ScanValue(v: Value, post: Text, stack: seq<Frame>, limit: int)
    requires ValueOk(v) && !ColonFollows(post) && |stack| <= limit
    ensures Scan(ValueText(v) + post, stack, limit)
            == (UniqueKeys(v) && |stack| + Depth(v) <= limit && Scan(post, stack, limit))
    decreases v
  {
    hide Scan, ColonFollows;
    match v {
      case Literal(t) => ScanPlain(t, post, stack, limit);
      case Str(ps) => ScanString(ps, post, stack, limit);
      case EmptyArray(space) =>
        var rest := [CLOSE_BRACKET] + post;
        assert ValueText(v) + post == [OPEN_BRACKET] + space + rest;
        OpenScan(OPEN_BRACKET, space, rest, stack, limit);
        ScanPlain(space, rest, stack + [ArrayFrame], limit);
        CloseScan(CLOSE_BRACKET, post, stack, ArrayFrame, limit);
      case EmptyObject(space) =>
        var rest := [CLOSE_BRACE] + post;
        assert ValueText(v) + post == [OPEN_BRACE] + space + rest;
        OpenScan(OPEN_BRACE, space, rest, stack, limit);
        ScanPlain(space, rest, stack + [ObjectFrame({})], limit);
        CloseScan(CLOSE_BRACE, post, stack, ObjectFrame({}), limit);
      case Array(es) =>
        var rest := [CLOSE_BRACKET] + post;
        assert ValueText(v) + post == [OPEN_BRACKET] + ElementsText(es) + rest;
        OpenScan(OPEN_BRACKET, ElementsText(es), rest, stack, limit);
        CloseScan(CLOSE_BRACKET, post, stack, ArrayFrame, limit);
        if |stack| + 1 <= limit {
          ScanElements(es, rest, stack + [ArrayFrame], limit);
        }
      case Object(ms) =>
        var rest := [CLOSE_BRACE] + post;
        assert ValueText(v) + post == [OPEN_BRACE] + MembersText(ms) + rest;
        OpenScan(OPEN_BRACE, MembersText(ms), rest, stack, limit);
        if |stack| + 1 <= limit {
          CloseScan(CLOSE_BRACE, post, stack, ObjectFrame({} + KeySet(ms)), limit);
          ScanMembers(ms, rest, stack, {}, limit);
          NewKeysFromNothing(ms);
        }
    }
  }

  lemma {:induction false} ScanElement(e: Element, post: Text, stack: seq<Frame>, limit: int)
    requires ElementOk(e) && !ColonFollows(post) && |stack| <= limit
    ensures Scan(ElementText(e) + post, stack, limit)
            == (UniqueKeys(e.value) && |stack| + Depth(e.value) <= limit && Scan(post, stack, limit))
    decreases e
  {
    hide Scan, ColonFollows;
    assert ElementText(e) + post == e.before + (ValueText(e.value) + (e.after + post));
    ScanPlain(e.before, ValueText(e.value) + (e.after + post), stack, limit);
    ColonAfterSpace(e.after, post);
    ScanValue(e.value, e.after + post, stack, limit);
    ScanPlain(e.after, post, stack, limit);
  }

  lemma {:induction false} ScanElements(es: Elements, post: Text, stack: seq<Frame>, limit: int)
    requires ElementsOk(es) && !ColonFollows(post) && |stack| <= limit
    ensures Scan(ElementsText(es) + post, stack, limit)
            == (ElementsUnique(es) && |stack| + ElementsDepth(es) <= limit && Scan(post, stack, limit))
    decreases es
  {
    hide Scan, ColonFollows;
    match es {
      case OneElement(e) => ScanElement(e, post, stack, limit);
      case MoreElements(e, others) =>
        var rest := ElementsText(others) + post;
        assert ElementsText(es) + post == ElementText(e) + ([COMMA] + rest);
        CommaIsNoColon(rest);
        ScanElement(e, [COMMA] + rest, stack, limit);
        ScanPlain([COMMA], rest, stack, limit);
        ScanElements(others, post, stack, limit);
    }
  }

  function KeySet(ms: Members): set<Text>
    requires MembersOk(ms)
  {
    match ms
    case OneMember(m) => {Decoded(m.key)}
    case MoreMembers(m, rest) => {Decoded(m.key)} + KeySet(rest)
  }

  /** The keys are new to `keys` and to each other, in the order of the scan. */
  predicate NewKeys(ms: Members, keys: set<Text>)
    requires MembersOk(ms)
  {
    match ms
    case OneMember(m) => Decoded(m.key) !in keys
    case MoreMembers(m, rest) => Decoded(m.key) !in keys && NewKeys(rest, keys + {Decoded(m.key)})
  }

  lemma DistinctCons(k: Text, ks: seq<Text>)
    ensures Distinct([k] + ks) <==> Distinct(ks) && k !in ks
  {
    var all := [k] + ks;
    assert all[0] == k && forall i | 0 <= i < |ks| :: ks[i] == all[i + 1];
    if Distinct(ks) && k !in ks {
      forall i, j | 0 <= i < j < |all|
        ensures all[i] != all[j]
      {
        assert all[j] == ks[j - 1];
        if i > 0 {
          assert all[i] == ks[i - 1];
        }
      }
    }
  }

  lemma {:induction false} NewKeysMeans(ms: Members, keys: set<Text>)
    requires MembersOk(ms)
    ensures NewKeys(ms, keys) <==> Distinct(KeysOf(ms)) && forall k | k in KeysOf(ms) :: k !in keys
  {
    match ms
    case OneMember(_) =>
    case MoreMembers(m, rest) =>
      hide Distinct;
      NewKeysMeans(rest, keys + {Decoded(m.key)});
      DistinctCons(Decoded(m.key), KeysOf(rest));
  }

  lemma NewKeysFromNothing(ms: Members)
    requires MembersOk(ms)
    ensures NewKeys(ms, {}) <==> Distinct(KeysOf(ms))
  {
    NewKeysMeans(ms, {});
  }

  lemma {:induction false} ScanMember(m: Member, post: Text, below: seq<Frame>, keys: set<Text>, limit: int)
    requires MemberOk(m) && !ColonFollows(post) && |below| + 1 <= limit
    ensures Scan(MemberText(m) + post, below + [ObjectFrame(keys)], limit)
            == (Decoded(m.key) !in keys && UniqueKeys(m.element.value) && |below| + 1 + Depth(m.element.value) <= limit
                && Scan(post, below + [ObjectFrame(keys + {Decoded(m.key)})], limit))
    decreases m
  {
    hide Scan, ColonFollows;
    var value := ElementText(m.element) + post;
    var colon := m.between + ([COLON] + value);
    assert MemberText(m) + post == m.before + (Quoted(m.key) + colon);
    ScanPlain(m.before, Quoted(m.key) + colon, below + [ObjectFrame(keys)], limit);
    ColonAfterSpace(m.between, [COLON] + value);
    ColonIsColon(value);
    ScanKey(m.key, colon, below, keys, limit);
    var stack := below + [ObjectFrame(keys + {Decoded(m.key)})];
    ScanPlain(m.between, [COLON] + value, stack, limit);
    ScanPlain([COLON], value, stack, limit);
    ScanElement(m.element, post, stack, limit);
  }

  lemma ColonIsColon(post: Text)
    ensures ColonFollows([COLON] + post)
  {
  }

  lemma {:induction false} ScanMembers(ms: Members, post: Text, below: seq<Frame>, keys: set<Text>, limit: int)
    requires MembersOk(ms) && !ColonFollows(post) && |below| + 1 <= limit
    ensures Scan(MembersText(ms) + post, below + [ObjectFrame(keys)], limit)
            == (NewKeys(ms, keys) && MembersUnique(ms) && |below| + 1 + MembersDepth(ms) <= limit
                && Scan(post, below + [ObjectFrame(keys + KeySet(ms))], limit))
    decreases ms
  {
    hide Scan, ColonFollows;
    match ms {
      case OneMember(m) => ScanMember(m, post, below, keys, limit);
      case MoreMembers(m, others) =>
        var rest := MembersText(others) + post;
        var seen := keys + {Decoded(m.key)};
        assert MembersText(ms) + post == MemberText(m) + ([COMMA] + rest);
        CommaIsNoColon(rest);
        ScanMember(m, [COMMA] + rest, below, keys, limit);
        ScanPlain([COMMA], rest, below + [ObjectFrame(seen)], limit);
        ScanMembers(others, post, below, seen, limit);
        assert seen + KeySet(others) == keys + KeySet(ms);
    }
  }

  /** For every JSON text the scan succeeds exactly when every object in the
      parsed tree has distinct decoded keys and the nesting is within the limit. */
  lemma ScanIsExact(json: Element, limit: nat)
    requires ElementOk(json)
    ensures Scan(ElementText(json), [], limit) <==> UniqueKeys(json.value) && Depth(json.value) <= limit
  {
    assert ElementText(json) + [] == ElementText(json);
    ScanElement(json, [], [], limit);
  }

  /** The scan as the callers run it: it computes the specification, and so on
      every JSON text says exactly whether the tree is as required. */
  method HasUniqueJsonKeys(text: Text, maxDepth: nat) returns (unique: bool)
    ensures unique == Scan(text, [], maxDepth)
    ensures forall json | ElementOk(json) && ElementText(json) == text ::
              unique <==> UniqueKeys(json.value) && Depth(json.value) <= maxDepth
  {
    hide Scan, DecodeBody, Close, Spaces, IsSpace, ColonFollows;
    ScanEnd([], maxDepth);
    forall json | ElementOk(json) && ElementText(json) == text
      ensures Scan(text, [], maxDepth) <==> UniqueKeys(json.value) && Depth(json.value) <= maxDepth
    {
      ScanIsExact(json, maxDepth);
    }
    var stack: seq<Frame> := [];
    var index := 0;
    assert text[0..] == text;
    while index < |text|
      invariant 0 <= index <= |text|
      invariant Scan(text, [], maxDepth) == Scan(text[index..], stack, maxDepth)
    {
      ScanAt(text, index, stack, maxDepth);
      var character := text[index];
      if character == OPEN_BRACE {
        stack := stack + [ObjectFrame({})];
        if |stack| > maxDepth {
          return false;
        }
        index := index + 1;
        continue;
      }
      if character == OPEN_BRACKET {
        stack := stack + [ArrayFrame];
        if |stack| > maxDepth {
          return false;
        }
        index := index + 1;
        continue;
      }
      if character == CLOSE_BRACE || character == CLOSE_BRACKET {
        if |stack| > 0 {
          stack := stack[..|stack| - 1];
        }
        index := index + 1;
        continue;
      }
      if character != QUOTE {
        index := index + 1;
        continue;
      }
      var start := index;
      var escaped := false;
      index := index + 1;
      EndOfText();
      while index < |text|
        invariant start + 1 <= index <= |text|
        invariant Close(text[start + 1..], false) == index - (start + 1) + Close(text[index..], escaped)
      {
        CloseStep(text, index, escaped);
        var current := text[index];
        if escaped {
          escaped := false;
        } else if current == BACKSLASH {
          escaped := true;
        } else if current == QUOTE {
          break;
        }
        index := index + 1;
      }
      ScanAtQuote(text, start, index, stack, maxDepth);
      if index >= |text| {
        return false;
      }
      var next := index + 1;
      while next < |text| && IsSpace(text[next])
        invariant index + 1 <= next <= |text|
        invariant Spaces(text[index + 1..]) == next - (index + 1) + Spaces(text[next..])
      {
        SpaceStep(text, next);
        next := next + 1;
      }
      if next < |text| {
        SpaceStep(text, next);
      }
      ColonAt(text, index + 1, next);
      if next < |text| && text[next] == COLON && |stack| > 0 && stack[|stack| - 1].ObjectFrame? {
        var key := DecodeBody(text[start + 1..index]);
        var keys := stack[|stack| - 1].keys;
        if key.None? || key.value in keys {
          return false;
        }
        stack := stack[..|stack| - 1] + [ObjectFrame(keys + {key.value})];
      }
      index := index + 1;
    }
    assert text[index..] == [];
    ScanEnd(stack, maxDepth);
    return |stack| == 0;
  }

  // ---- what the escapes are -----------------------------------------------

  /** The eight one-letter escapes of section 7 of RFC 8259, and no other. */
  lemma EscapesAre(letter: int)
    ensures Unescape('"' as int) == Some('"' as int) && Unescape('\\' as int) == Some('\\' as int)
    ensures Unescape('/' as int) == Some('/' as int) && Unescape('b' as int) == Some(8) && Unescape('f' as int) == Some(12)
    ensures Unescape('n' as int) == Some(10) && Unescape('r' as int) == Some(13) && Unescape('t' as int) == Some(9)
    ensures Unescape(letter).Some? ==>
              letter in {'"' as int, '\\' as int, '/' as int, 'b' as int, 'f' as int, 'n' as int, 'r' as int, 't' as int}
  {
  }

  /** A hexadecimal digit of either case. */
  function HexUpper(n: int): int
    requires 0 <= n < 16
  {
    if n < 10 then '0' as int + n else 'A' as int + n - 10
  }

  function HexLower(n: int): int
    requires 0 <= n < 16
  {
    if n < 10 then '0' as int + n else 'a' as int + n - 10
  }

  predicate IsHexOf(u: int, n: int) {
    0 <= n < 16 && (u == HexUpper(n) || u == HexLower(n))
  }

  lemma HexValueIs(u: int, n: int)
    ensures HexValue(u) == Some(n) <==> IsHexOf(u, n)
  {
  }

  /** Four hexadecimal digits, the first one the most significant, in either case. */
  lemma HexUnitIs(s: Text, a: int, b: int, c: int, d: int)
    requires |s| == 4 && IsHexOf(s[0], a) && IsHexOf(s[1], b) && IsHexOf(s[2], c) && IsHexOf(s[3], d)
    ensures HexUnit(s) == Some(((a * 16 + b) * 16 + c) * 16 + d)
  {
    hide HexValue;
    HexValueIs(s[0], a);
    HexValueIs(s[1], b);
    HexValueIs(s[2], c);
    HexValueIs(s[3], d);
  }
}
