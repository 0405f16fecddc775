/**
 * The canonical text of JSON values (`canonical`): arrays in order, object members sorted by key, leaves as
 * `JSON.stringify` prints them.  Strings are sequences of UTF-16 code units, escaped as in section 7 of RFC 8259.
 */
module CanonicalJson {
  import opened Outcomes
  import opened Collections

  type CodeUnit = u: int | 0 <= u < 0x10000
  type Text = seq<CodeUnit>

  const QUOTE: CodeUnit := 34
  const COMMA: CodeUnit := 44
  const COLON: CodeUnit := 58
  const OPEN_ARRAY: CodeUnit := 91
  const BACKSLASH: CodeUnit := 92
  const CLOSE_ARRAY: CodeUnit := 93
  const LETTER_U: CodeUnit := 117
  const OPEN_OBJECT: CodeUnit := 123
  const CLOSE_OBJECT: CodeUnit := 125

  /** A number is given by the literal it prints as; finite numbers with equal literals are equal. */
  datatype Json =
    | Null
    | Boolean(b: bool)
    | Number(literal: Text)
    | Str(s: Text)
    | Arr(items: seq<Json>)
    | Obj(members: seq<Member>)

  /** Members in the order in which the object lists them. */
  datatype Member = Member(key: Text, value: Json)

  /** A key with the canonical text of its value. */
  datatype Encoded = Encoded(key: Text, text: Text)

  // ----- string literals

  function HexUnit(d: nat): CodeUnit
    requires d < 16
  {
    if d < 10 then 48 + d else 87 + d
  }

  function Unhex(c: CodeUnit): (d: nat)
    ensures d < 16
  {
    if 48 <= c <= 57 then c - 48 else if 97 <= c <= 102 then c - 87 else 0
  }

  predicate HighSurrogate(u: CodeUnit) {
    0xD800 <= u <= 0xDBFF
  }

  predicate LowSurrogate(u: CodeUnit) {
    0xDC00 <= u <= 0xDFFF
  }

  /** The letter of a two-character escape, if the unit has one. */
  function ShortEscape(u: CodeUnit): Option<CodeUnit> {
    if u == 8 then Some(98)
    else if u == 9 then Some(116)
    else if u == 10 then Some(110)
    else if u == 12 then Some(102)
    else if u == 13 then Some(114)
    else if u == QUOTE then Some(QUOTE)
    else if u == BACKSLASH then Some(BACKSLASH)
    else None
  }

  function EscapeUnit(u: CodeUnit): Text {
    if ShortEscape(u).Some? then [BACKSLASH, ShortEscape(u).value]
    else if u < 32 || HighSurrogate(u) || LowSurrogate(u) then
      [BACKSLASH, LETTER_U, HexUnit(u / 4096), HexUnit(u / 256 % 16), HexUnit(u / 16 % 16), HexUnit(u % 16)]
    else [u]
  }

  /** Surrogate pairs are printed raw, lone surrogates escaped. */
  function Escape(s: Text): Text {
    if s == [] then []
    else if HighSurrogate(s[0]) && |s| > 1 && LowSurrogate(s[1]) then [s[0], s[1]] + Escape(s[2..])
    else EscapeUnit(s[0]) + Escape(s[1..])
  }

  function Quote(s: Text): Text {
    [QUOTE] + (Escape(s) + [QUOTE])
  }

  // ----- which units are escaped

  /** Printed as it is: from the space on, except the quote, the backslash and surrogates. */
  predicate Literal(u: CodeUnit) {
    u >= 32 && u != QUOTE && u != BACKSLASH && !HighSurrogate(u) && !LowSurrogate(u)
  }

  lemma {:induction false} LiteralUnchanged(s: Text)
    requires forall i :: 0 <= i < |s| ==> Literal(s[i])
    ensures Escape(s) == s
  {
    if s == [] {
    } else {
      LiteralUnchanged(s[1..]);
      assert s == [s[0]] + s[1..];
    }
  }

  lemma EscapeOne(u: CodeUnit)
    ensures Escape([u]) == EscapeUnit(u)
  {
    hide EscapeUnit;
    assert [u][1..] == [];
    assert EscapeUnit(u) + [] == EscapeUnit(u);
  }

  /** The two-character escapes. */
  lemma ShortEscapes()
    ensures Escape([QUOTE]) == [BACKSLASH, QUOTE] && Escape([BACKSLASH]) == [BACKSLASH, BACKSLASH]
    ensures Escape([8]) == [BACKSLASH, 98] && Escape([9]) == [BACKSLASH, 116] && Escape([10]) == [BACKSLASH, 110]
    ensures Escape([12]) == [BACKSLASH, 102] && Escape([13]) == [BACKSLASH, 114]
  {
    hide Escape;
    EscapeOne(QUOTE);
    EscapeOne(BACKSLASH);
    EscapeOne(8);
    EscapeOne(9);
    EscapeOne(10);
    EscapeOne(12);
    EscapeOne(13);
  }

  /** The six-character escapes of the remaining control units and of a surrogate on its own. */
  lemma LongEscapes(u: CodeUnit)
    requires (u < 32 && u != 8 && u != 9 && u != 10 && u != 12 && u != 13) || HighSurrogate(u) || LowSurrogate(u)
    ensures var e := Escape([u]);
            && |e| == 6 && e[0] == BACKSLASH && e[1] == LETTER_U
            && u == 4096 * Unhex(e[2]) + 256 * Unhex(e[3]) + 16 * Unhex(e[4]) + Unhex(e[5])
  {
    EscapeOne(u);
    var a, b, c, d := u / 4096, u / 256 % 16, u / 16 % 16, u % 16;
    HexDigits(u);
    assert EscapeUnit(u) == [BACKSLASH, LETTER_U, HexUnit(a), HexUnit(b), HexUnit(c), HexUnit(d)];
    HexReads(a);
    HexReads(b);
    HexReads(c);
    HexReads(d);
    hide Escape, EscapeUnit, HexUnit, Unhex;
  }

  lemma HexReads(d: nat)
    requires d < 16
    ensures Unhex(HexUnit(d)) == d
  {
  }

  lemma PairUnchanged(high: CodeUnit, low: CodeUnit, rest: Text)
    requires HighSurrogate(high) && LowSurrogate(low)
    ensures Escape([high, low] + rest) == [high, low] + Escape(rest)
  {
    assert ([high, low] + rest)[2..] == rest;
  }

  // ----- the encoder

  function Join(texts: seq<Text>): Text {
    if texts == [] then []
    else if |texts| == 1 then texts[0]
    else texts[0] + ([COMMA] + Join(texts[1..]))
  }

  function MemberText(e: Encoded): Text {
    Quote(e.key) + ([COLON] + e.text)
  }

  function ByKey(le: (Text, Text) -> bool): (Encoded, Encoded) -> bool {
    (a: Encoded, b: Encoded) => le(a.key, b.key)
  }

  /** `le` is the `localeCompare` order on keys. */
  function Canonical(v: Json, le: (Text, Text) -> bool): Text
    decreases v, 1
  {
    match v
    case Null => [110, 117, 108, 108]
    case Boolean(b) => if b then [116, 114, 117, 101] else [102, 97, 108, 115, 101]
    case Number(literal) => literal
    case Str(s) => Quote(s)
    case Arr(items) => [OPEN_ARRAY] + (Join(CanonicalItems(items, le)) + [CLOSE_ARRAY])
    case Obj(members) =>
      [OPEN_OBJECT] + (Join(Map(Sort(CanonicalMembers(members, le), ByKey(le)), MemberText)) + [CLOSE_OBJECT])
  }

  function CanonicalItems(items: seq<Json>, le: (Text, Text) -> bool): seq<Text>
    decreases items, 0
  {
    if items == [] then [] else [Canonical(items[0], le)] + CanonicalItems(items[1..], le)
  }

  function CanonicalMembers(members: seq<Member>, le: (Text, Text) -> bool): seq<Encoded>
    decreases members, 0
  {
    if members == [] then []
    else [Encoded(members[0].key, Canonical(members[0].value, le))] + CanonicalMembers(members[1..], le)
  }

  // ----- well-formed values and their equality

  predicate Delimiter(u: CodeUnit) {
    u == COMMA || u == CLOSE_ARRAY || u == CLOSE_OBJECT
  }

  /** Number literals start with a digit or a minus sign and contain no delimiter. */
  predicate NumberLiteral(t: Text) {
    |t| > 0 && (t[0] == 45 || 48 <= t[0] <= 57) && forall i :: 0 <= i < |t| ==> !Delimiter(t[i])
  }

  ghost predicate DistinctKeys(members: seq<Member>) {
    forall i, j :: 0 <= i < j < |members| ==> members[i].key != members[j].key
  }

  /** Values that exist: numbers with literals, objects without repeated keys. */
  ghost predicate WellFormed(v: Json) {
    match v
    case Number(literal) => NumberLiteral(literal)
    case Arr(items) => forall x :: x in items ==> WellFormed(x)
    case Obj(members) => DistinctKeys(members) && forall m :: m in members ==> WellFormed(m.value)
    case _ => true
  }

  /** Equality up to the order of object members. */
  ghost predicate Equal(v: Json, w: Json) {
    match (v, w)
    case (Arr(a), Arr(b)) => |a| == |b| && forall i :: 0 <= i < |a| ==> Equal(a[i], b[i])
    case (Obj(a), Obj(b)) => |a| == |b| && forall m :: m in a ==> exists n :: n in b && n.key == m.key && Equal(m.value, n.value)
    case _ => v == w
  }

  // ----- reading string literals back

  /** The unit that the first piece of an escaped text stands for, and the length of that piece. */
  function Piece(t: Text): (r: (CodeUnit, nat))
    requires t != []
    ensures 0 < r.1 <= |t|
  {
    if t[0] != BACKSLASH || |t| == 1 then (t[0], 1)
    else if t[1] == LETTER_U && |t| >= 6 then
      (4096 * Unhex(t[2]) + 256 * Unhex(t[3]) + 16 * Unhex(t[4]) + Unhex(t[5]), 6)
    else
      (if t[1] == 98 then 8 else if t[1] == 116 then 9 else if t[1] == 110 then 10 else if t[1] == 102 then 12
       else if t[1] == 114 then 13 else t[1], 2)
  }

  /** Units up to the closing quote, and what follows it. */
  function ReadString(t: Text): (Text, Text) {
    if t == [] then ([], [])
    else if t[0] == QUOTE then ([], t[1..])
    else
      var (u, n) := Piece(t);
      var (s, rest) := ReadString(t[n..]);
      ([u] + s, rest)
  }

  lemma HexDigits(u: CodeUnit)
    ensures u == 4096 * (u / 4096) + 256 * (u / 256 % 16) + 16 * (u / 16 % 16) + u % 16
    ensures 0 <= u / 4096 < 16
  {
    assert u / 16 == (u / 256) * 16 + u / 16 % 16;
    assert u / 256 == (u / 4096) * 16 + u / 256 % 16;
  }

  lemma PieceOfEscape(u: CodeUnit, rest: Text)
    ensures var t := EscapeUnit(u) + rest;
            t != [] && t[0] != QUOTE && Piece(t) == (u, |EscapeUnit(u)|) && t[|EscapeUnit(u)|..] == rest
  {
    HexDigits(u);
    var e := EscapeUnit(u);
    var t := e + rest;
    assert forall i :: 0 <= i < |e| ==> t[i] == e[i];
  }

  lemma ReadOne(u: CodeUnit, piece: Text, rest: Text)
    requires piece != [] && piece[0] != QUOTE && Piece(piece + rest) == (u, |piece|)
    ensures ReadString(piece + rest) == ([u] + ReadString(rest).0, ReadString(rest).1)
  {
    assert (piece + rest)[0] == piece[0];
    assert (piece + rest)[|piece|..] == rest;
  }

  lemma ReadPair(high: CodeUnit, low: CodeUnit, tail: Text)
    requires HighSurrogate(high) && LowSurrogate(low)
    ensures ReadString([high, low] + tail) == ([high, low] + ReadString(tail).0, ReadString(tail).1)
  {
    ReadOne(low, [low], tail);
    ReadOne(high, [high], [low] + tail);
    assert [high, low] + tail == [high] + ([low] + tail);
    assert [high] + ([low] + ReadString(tail).0) == [high, low] + ReadString(tail).0;
  }

  lemma ReadUnit(u: CodeUnit, tail: Text)
    ensures ReadString(EscapeUnit(u) + tail) == ([u] + ReadString(tail).0, ReadString(tail).1)
  {
    hide Piece, ReadString;
    PieceOfEscape(u, tail);
    EscapeNonempty(u);
    ReadOne(u, EscapeUnit(u), tail);
  }

  lemma ReadClose(rest: Text)
    ensures ReadString([QUOTE] + rest) == ([], rest)
  {
    assert ([QUOTE] + rest)[1..] == rest;
  }

  predicate StartsWithPair(s: Text) {
    |s| > 1 && HighSurrogate(s[0]) && LowSurrogate(s[1])
  }

  lemma EscapeStep(s: Text, close: Text)
    requires s != []
    ensures StartsWithPair(s) ==> Escape(s) + close == [s[0], s[1]] + (Escape(s[2..]) + close)
    ensures !StartsWithPair(s) ==> Escape(s) + close == EscapeUnit(s[0]) + (Escape(s[1..]) + close)
  {
    hide EscapeUnit;
    if StartsWithPair(s) {
      Associate([s[0], s[1]], Escape(s[2..]), close);
    } else {
      Associate(EscapeUnit(s[0]), Escape(s[1..]), close);
    }
  }

  lemma Associate(a: Text, b: Text, c: Text)
    ensures (a + b) + c == a + (b + c)
  {
  }

  lemma {:induction false} ReadEscaped(s: Text, rest: Text)
    ensures ReadString(Escape(s) + ([QUOTE] + rest)) == (s, rest)
    decreases |s|
  {
    hide ReadString, EscapeUnit, Escape;
    var close := [QUOTE] + rest;
    if s == [] {
      ReadClose(rest);
      EscapeNothing(close);
    } else if StartsWithPair(s) {
      EscapeStep(s, close);
      ReadEscaped(s[2..], rest);
      ReadPair(s[0], s[1], Escape(s[2..]) + close);
      assert [s[0], s[1]] + s[2..] == s;
    } else {
      EscapeStep(s, close);
      ReadEscaped(s[1..], rest);
      ReadUnit(s[0], Escape(s[1..]) + close);
      assert [s[0]] + s[1..] == s;
    }
  }

  lemma EscapeNothing(close: Text)
    ensures Escape([]) + close == close
  {
  }

  lemma EscapeNonempty(u: CodeUnit)
    ensures EscapeUnit(u) != [] && EscapeUnit(u)[0] != QUOTE
  {
  }

  /** Two quoted strings followed by anything: equal texts mean equal strings and equal remainders. */
  lemma QuotePrefix(s: Text, t: Text, r: Text, q: Text)
    requires Quote(s) + r == Quote(t) + q
    ensures s == t && r == q
  {
    hide Escape, ReadString;
    ReadEscaped(s, r);
    ReadEscaped(t, q);
    assert (Quote(s) + r)[1..] == Escape(s) + ([QUOTE] + r);
    assert (Quote(t) + q)[1..] == Escape(t) + ([QUOTE] + q);
  }

  // ----- printing without sorting is uniquely readable

  function Print(v: Json): Text
    decreases v, 1
  {
    match v
    case Null => [110, 117, 108, 108]
    case Boolean(b) => if b then [116, 114, 117, 101] else [102, 97, 108, 115, 101]
    case Number(literal) => literal
    case Str(s) => Quote(s)
    case Arr(items) => [OPEN_ARRAY] + (Join(PrintItems(items)) + [CLOSE_ARRAY])
    case Obj(members) => [OPEN_OBJECT] + (Join(Map(PrintMembers(members), MemberText)) + [CLOSE_OBJECT])
  }

  function PrintItems(items: seq<Json>): (r: seq<Text>)
    ensures |r| == |items|
    decreases items, 0
  {
    if items == [] then [] else [Print(items[0])] + PrintItems(items[1..])
  }

  function PrintMembers(members: seq<Member>): (r: seq<Encoded>)
    ensures |r| == |members|
    decreases members, 0
  {
    if members == [] then []
    else [Encoded(members[0].key, Print(members[0].value))] + PrintMembers(members[1..])
  }

  /** The kind of value that a first code unit announces. */
  function KindOf(u: CodeUnit): nat {
    if u == 110 then 0 else if u == 116 then 1 else if u == 102 then 2 else if u == QUOTE then 3
    else if u == OPEN_ARRAY then 4 else if u == OPEN_OBJECT then 5 else 6
  }

  function Kind(v: Json): nat {
    match v
    case Null => 0
    case Boolean(b) => if b then 1 else 2
    case Str(_) => 3
    case Arr(_) => 4
    case Obj(_) => 5
    case Number(_) => 6
  }

  lemma Lead(v: Json)
    requires WellFormed(v)
    ensures Print(v) != [] && KindOf(Print(v)[0]) == Kind(v) && !Delimiter(Print(v)[0])
  {
    hide Join, Escape, PrintItems, PrintMembers;
  }

  /** What may follow a value. */
  predicate Stop(r: Text) {
    r == [] || Delimiter(r[0])
  }

  lemma NumberPrefix(a: Text, b: Text, r: Text, q: Text)
    requires NumberLiteral(a) && NumberLiteral(b) && Stop(r) && Stop(q) && a + r == b + q
    ensures a == b && r == q
  {
    var t := a + r;
    assert forall i :: 0 <= i < |a| ==> t[i] == a[i];
    assert forall i :: 0 <= i < |b| ==> t[i] == b[i];
    assert r != [] ==> t[|a|] == r[0];
    assert q != [] ==> t[|b|] == q[0];
    assert |a| == |b|;
    assert a == t[..|a|] && b == t[..|b|];
    assert r == t[|a|..] && q == t[|b|..];
  }

  lemma DropPrefix<T>(p: seq<T>, r: seq<T>, q: seq<T>)
    requires p + r == p + q
    ensures r == q
  {
    assert r == (p + r)[|p|..] && q == (p + q)[|p|..];
  }

  lemma SameKind(v: Json, w: Json, r: Text, q: Text)
    requires WellFormed(v) && WellFormed(w) && Print(v) + r == Print(w) + q
    ensures Kind(v) == Kind(w)
  {
    hide Print, WellFormed;
    Lead(v);
    Lead(w);
    assert (Print(v) + r)[0] == Print(v)[0];
    assert (Print(w) + q)[0] == Print(w)[0];
  }

  /** Print is uniquely readable: a printed value followed by a delimiter or the end can be read in one way only. */
  lemma {:induction false} PrintPrefix(v: Json, w: Json, r: Text, q: Text)
    requires WellFormed(v) && WellFormed(w) && Stop(r) && Stop(q)
    requires Print(v) + r == Print(w) + q
    ensures v == w && r == q
    decreases v, 1
  {
    hide Join, Escape, Delimiter, NumberLiteral;
    SameKind(v, w, r, q);
    match v
    case Null => DropPrefix(Print(v), r, q);
    case Boolean(_) => DropPrefix(Print(v), r, q);
    case Number(literal) => NumberPrefix(literal, w.literal, r, q);
    case Str(s) => QuotePrefix(s, w.s, r, q);
    case Arr(a) =>
      var b := w.items;
      var close := [CLOSE_ARRAY];
      assert (Print(v) + r)[1..] == Join(PrintItems(a)) + (close + r);
      assert (Print(w) + q)[1..] == Join(PrintItems(b)) + (close + q);
      ItemsPrefix(a, b, close + r, close + q);
      DropPrefix(close, r, q);
    case Obj(a) =>
      var b := w.members;
      var close := [CLOSE_OBJECT];
      assert (Print(v) + r)[1..] == Join(Map(PrintMembers(a), MemberText)) + (close + r);
      assert (Print(w) + q)[1..] == Join(Map(PrintMembers(b), MemberText)) + (close + q);
      MembersPrefix(a, b, close + r, close + q);
      DropPrefix(close, r, q);
  }

  /** What follows the first of several joined texts. */
  function AfterFirst(texts: seq<Text>, r: Text): Text
    requires texts != []
  {
    if |texts| == 1 then r else [COMMA] + (Join(texts[1..]) + r)
  }

  lemma JoinFirst(texts: seq<Text>, r: Text)
    requires texts != []
    ensures Join(texts) + r == texts[0] + AfterFirst(texts, r)
  {
    if |texts| > 1 {
      var rest := Join(texts[1..]);
      assert (texts[0] + ([COMMA] + rest)) + r == texts[0] + ([COMMA] + (rest + r));
    }
  }

  lemma {:induction false} ItemsPrefix(a: seq<Json>, b: seq<Json>, r: Text, q: Text)
    requires (forall x :: x in a ==> WellFormed(x)) && forall x :: x in b ==> WellFormed(x)
    requires r != [] && q != [] && r[0] == q[0] == CLOSE_ARRAY
    requires Join(PrintItems(a)) + r == Join(PrintItems(b)) + q
    ensures a == b && r == q
    decreases a, 0
  {
    hide WellFormed, Print;
    if a == [] || b == [] {
      ItemsEmpty(a, b, r, q);
    } else {
      var xs, ys := PrintItems(a), PrintItems(b);
      JoinFirst(xs, r);
      JoinFirst(ys, q);
      assert xs[0] == Print(a[0]) && ys[0] == Print(b[0]) && xs[1..] == PrintItems(a[1..]) && ys[1..] == PrintItems(b[1..]);
      hide Join, PrintItems;
      var ra, rb := AfterFirst(xs, r), AfterFirst(ys, q);
      PrintPrefix(a[0], b[0], ra, rb);
      assert ra == rb;
      assert ra[0] == if |xs| == 1 then CLOSE_ARRAY else COMMA;
      assert rb[0] == if |ys| == 1 then CLOSE_ARRAY else COMMA;
      if |a| == 1 {
        assert a == [a[0]] && b == [b[0]];
      } else {
        DropPrefix([COMMA], Join(xs[1..]) + r, Join(ys[1..]) + q);
        ItemsPrefix(a[1..], b[1..], r, q);
        assert a == [a[0]] + a[1..] && b == [b[0]] + b[1..];
      }
    }
  }

  /** An empty list is followed at once by the closing bracket, a non-empty one by a value. */
  lemma ItemsEmpty(a: seq<Json>, b: seq<Json>, r: Text, q: Text)
    requires (forall x :: x in a ==> WellFormed(x)) && forall x :: x in b ==> WellFormed(x)
    requires r != [] && q != [] && r[0] == q[0] == CLOSE_ARRAY
    requires Join(PrintItems(a)) + r == Join(PrintItems(b)) + q
    requires a == [] || b == []
    ensures a == b && r == q
  {
    hide WellFormed, Print;
    FirstUnit(a, r);
    FirstUnit(b, q);
    assert [] + r == r && [] + q == q;
  }

  lemma FirstUnit(a: seq<Json>, r: Text)
    requires (forall x :: x in a ==> WellFormed(x)) && r != [] && r[0] == CLOSE_ARRAY
    ensures var t := Join(PrintItems(a)) + r;
            t != [] && (a == [] <==> t[0] == CLOSE_ARRAY)
  {
    hide WellFormed, Print;
    if a != [] {
      var xs := PrintItems(a);
      JoinFirst(xs, r);
      Lead(a[0]);
      assert (xs[0] + AfterFirst(xs, r))[0] == xs[0][0];
    }
  }

  lemma MemberSplit(e: Encoded, tail: Text)
    ensures MemberText(e) + tail == Quote(e.key) + ([COLON] + (e.text + tail))
  {
    hide Quote;
    assert (Quote(e.key) + ([COLON] + e.text)) + tail == Quote(e.key) + ([COLON] + (e.text + tail));
  }

  lemma {:induction false} MembersPrefix(a: seq<Member>, b: seq<Member>, r: Text, q: Text)
    requires (forall m :: m in a ==> WellFormed(m.value)) && forall m :: m in b ==> WellFormed(m.value)
    requires r != [] && q != [] && r[0] == q[0] == CLOSE_OBJECT
    requires Join(Map(PrintMembers(a), MemberText)) + r == Join(Map(PrintMembers(b), MemberText)) + q
    ensures a == b && r == q
    decreases a, 0
  {
    hide WellFormed, Print, Quote;
    if a == [] || b == [] {
      MembersEmpty(a, b, r, q);
    } else {
      var xs, ys := Map(PrintMembers(a), MemberText), Map(PrintMembers(b), MemberText);
      JoinFirst(xs, r);
      JoinFirst(ys, q);
      var e, f := PrintMembers(a)[0], PrintMembers(b)[0];
      assert e == Encoded(a[0].key, Print(a[0].value)) && f == Encoded(b[0].key, Print(b[0].value));
      assert xs[1..] == Map(PrintMembers(a[1..]), MemberText) && ys[1..] == Map(PrintMembers(b[1..]), MemberText);
      var ra, rb := AfterFirst(xs, r), AfterFirst(ys, q);
      MemberSplit(e, ra);
      MemberSplit(f, rb);
      hide Join, PrintMembers, MemberText;
      QuotePrefix(e.key, f.key, [COLON] + (e.text + ra), [COLON] + (f.text + rb));
      DropPrefix([COLON], e.text + ra, f.text + rb);
      PrintPrefix(a[0].value, b[0].value, ra, rb);
      assert a[0] == b[0];
      assert ra[0] == if |xs| == 1 then CLOSE_OBJECT else COMMA;
      assert rb[0] == if |ys| == 1 then CLOSE_OBJECT else COMMA;
      if |a| == 1 {
        assert a == [a[0]] && b == [b[0]];
      } else {
        DropPrefix([COMMA], Join(xs[1..]) + r, Join(ys[1..]) + q);
        MembersPrefix(a[1..], b[1..], r, q);
        assert a == [a[0]] + a[1..] && b == [b[0]] + b[1..];
      }
    }
  }

  lemma MembersEmpty(a: seq<Member>, b: seq<Member>, r: Text, q: Text)
    requires r != [] && q != [] && r[0] == q[0] == CLOSE_OBJECT
    requires Join(Map(PrintMembers(a), MemberText)) + r == Join(Map(PrintMembers(b), MemberText)) + q
    requires a == [] || b == []
    ensures a == b && r == q
  {
    hide Print;
    FirstOfMembers(a, r);
    FirstOfMembers(b, q);
    assert [] + r == r && [] + q == q;
  }

  lemma FirstOfMembers(a: seq<Member>, r: Text)
    requires r != [] && r[0] == CLOSE_OBJECT
    ensures var t := Join(Map(PrintMembers(a), MemberText)) + r;
            t != [] && (a == [] <==> t[0] == CLOSE_OBJECT)
  {
    hide Print, Escape;
    if a != [] {
      var xs := Map(PrintMembers(a), MemberText);
      JoinFirst(xs, r);
      assert xs[0] == MemberText(PrintMembers(a)[0]);
      assert xs[0][0] == QUOTE;
      assert (xs[0] + AfterFirst(xs, r))[0] == xs[0][0];
    }
  }

  lemma PrintInjective(v: Json, w: Json)
    requires WellFormed(v) && WellFormed(w) && Print(v) == Print(w)
    ensures v == w
  {
    assert Print(v) + [] == Print(w) + [];
    PrintPrefix(v, w, [], []);
  }

  // ----- sorting members

  function MemberByKey(le: (Text, Text) -> bool): (Member, Member) -> bool {
    (a: Member, b: Member) => le(a.key, b.key)
  }

  function Normalize(v: Json, le: (Text, Text) -> bool): Json
    decreases v, 1
  {
    match v
    case Arr(items) => Arr(NormalizeItems(items, le))
    case Obj(members) => Obj(Sort(NormalizeMembers(members, le), MemberByKey(le)))
    case _ => v
  }

  function NormalizeItems(items: seq<Json>, le: (Text, Text) -> bool): (r: seq<Json>)
    ensures |r| == |items| && forall i :: 0 <= i < |items| ==> r[i] == Normalize(items[i], le)
    decreases items, 0
  {
    if items == [] then [] else [Normalize(items[0], le)] + NormalizeItems(items[1..], le)
  }

  function NormalizeMembers(members: seq<Member>, le: (Text, Text) -> bool): (r: seq<Member>)
    ensures |r| == |members|
    ensures forall i :: 0 <= i < |members| ==> r[i] == Member(members[i].key, Normalize(members[i].value, le))
    decreases members, 0
  {
    if members == [] then []
    else [Member(members[0].key, Normalize(members[0].value, le))] + NormalizeMembers(members[1..], le)
  }

  lemma {:induction false} InsertCommutes(m: Member, members: seq<Member>, le: (Text, Text) -> bool)
    ensures PrintMembers(Insert(m, members, MemberByKey(le))) ==
            Insert(Encoded(m.key, Print(m.value)), PrintMembers(members), ByKey(le))
  {
    hide Print;
    if members != [] && !le(m.key, members[0].key) {
      InsertCommutes(m, members[1..], le);
      var rest := Insert(m, members[1..], MemberByKey(le));
      assert ([members[0]] + rest)[1..] == rest;
    } else {
      assert ([m] + members)[1..] == members;
    }
  }

  lemma {:induction false} SortCommutes(members: seq<Member>, le: (Text, Text) -> bool)
    ensures PrintMembers(Sort(members, MemberByKey(le))) == Sort(PrintMembers(members), ByKey(le))
  {
    hide Print;
    if members == [] {
    } else {
      SortCommutes(members[1..], le);
      InsertCommutes(members[0], Sort(members[1..], MemberByKey(le)), le);
    }
  }

  /** The encoder prints the value with the members of every object sorted. */
  lemma {:induction false} CanonicalIsPrint(v: Json, le: (Text, Text) -> bool)
    ensures Canonical(v, le) == Print(Normalize(v, le))
    decreases v, 1
  {
    hide Join, Escape, Sort;
    match v
    case Arr(items) => ItemsArePrinted(items, le);
    case Obj(members) =>
      MembersArePrinted(members, le);
      SortCommutes(NormalizeMembers(members, le), le);
    case _ =>
  }

  lemma {:induction false} ItemsArePrinted(items: seq<Json>, le: (Text, Text) -> bool)
    ensures CanonicalItems(items, le) == PrintItems(NormalizeItems(items, le))
    decreases items, 0
  {
    hide Canonical, Print, Normalize;
    if items == [] {
    } else {
      CanonicalIsPrint(items[0], le);
      ItemsArePrinted(items[1..], le);
      assert NormalizeItems(items, le)[1..] == NormalizeItems(items[1..], le);
    }
  }

  lemma {:induction false} MembersArePrinted(members: seq<Member>, le: (Text, Text) -> bool)
    ensures CanonicalMembers(members, le) == PrintMembers(NormalizeMembers(members, le))
    decreases members, 0
  {
    hide Canonical, Print, Normalize;
    if members == [] {
    } else {
      CanonicalIsPrint(members[0].value, le);
      MembersArePrinted(members[1..], le);
      assert NormalizeMembers(members, le)[1..] == NormalizeMembers(members[1..], le);
    }
  }

  lemma SortedKeysDistinct(members: seq<Member>, le: (Text, Text) -> bool)
    requires DistinctKeys(members)
    ensures DistinctKeys(Sort(members, MemberByKey(le)))
  {
    hide Sort;
    var sorted := Sort(members, MemberByKey(le));
    SortPermutes(members, MemberByKey(le));
    SortMembers(members, MemberByKey(le));
    ElementsSize(members);
    ElementsSize(sorted);
    assert Elements(sorted) == Elements(members);
    assert Distinct(members);
    assert Distinct(sorted);
    forall i, j | 0 <= i < j < |sorted|
      ensures sorted[i].key != sorted[j].key
    {
      assert sorted[i] in members && sorted[j] in members && sorted[i] != sorted[j];
    }
  }

  lemma {:induction false} NormalizeWellFormed(v: Json, le: (Text, Text) -> bool)
    requires WellFormed(v)
    ensures WellFormed(Normalize(v, le))
    decreases v
  {
    hide Sort;
    match v
    case Arr(items) =>
      var ns := NormalizeItems(items, le);
      forall x | x in ns
        ensures WellFormed(x)
      {
        var i :| 0 <= i < |ns| && ns[i] == x;
        NormalizeWellFormed(items[i], le);
      }
    case Obj(members) =>
      var ns := NormalizeMembers(members, le);
      SortedKeysDistinct(ns, le);
      SortMembers(ns, MemberByKey(le));
      forall m | m in Sort(ns, MemberByKey(le))
        ensures WellFormed(m.value)
      {
        var i :| 0 <= i < |ns| && ns[i] == m;
        NormalizeWellFormed(members[i].value, le);
      }
    case _ =>
  }

  // ----- equality and normal forms

  lemma MembersEqualSorted(a: seq<Member>, b: seq<Member>, le: (Text, Text) -> bool)
    requires TotalPreorder(le) && Antisymmetric(le) && DistinctKeys(a) && DistinctKeys(b)
    requires |a| == |b| && forall m :: m in a ==> m in b
    ensures Sort(a, MemberByKey(le)) == Sort(b, MemberByKey(le))
  {
    hide Sort;
    var order := MemberByKey(le);
    ElementsSize(a);
    ElementsSize(b);
    assert Distinct(a) && Distinct(b);
    SubsetSameSize(Elements(a), Elements(b));
    DistinctMultiset(a);
    DistinctMultiset(b);
    SortPermutes(a, order);
    SortPermutes(b, order);
    KeyOrder(le);
    SortSorts(a, order);
    SortSorts(b, order);
    SortMembers(a, order);
    SortedUnique(Sort(a, order), Sort(b, order), order);
  }

  lemma KeyOrder(le: (Text, Text) -> bool)
    requires TotalPreorder(le)
    ensures TotalPreorder(MemberByKey(le))
  {
    var order := MemberByKey(le);
    forall x, y
      ensures order(x, y) || order(y, x)
    {
      assert le(x.key, y.key) || le(y.key, x.key);
    }
    forall x, y, z
      ensures order(x, y) && order(y, z) ==> order(x, z)
    {
      assert le(x.key, y.key) && le(y.key, z.key) ==> le(x.key, z.key);
    }
  }

  lemma SubsetSameSize<T>(a: set<T>, b: set<T>)
    requires a <= b && |a| == |b|
    ensures a == b
  {
    assert b == a + (b - a);
    assert |b| == |a| + |b - a|;
  }

  lemma {:induction false} EqualIffSameNormal(v: Json, w: Json, le: (Text, Text) -> bool)
    requires WellFormed(v) && WellFormed(w) && TotalPreorder(le) && Antisymmetric(le)
    ensures Equal(v, w) <==> Normalize(v, le) == Normalize(w, le)
    decreases v
  {
    hide Sort, TotalPreorder, Antisymmetric;
    match (v, w)
    case (Arr(a), Arr(b)) =>
      forall i | 0 <= i < |a| && i < |b|
        ensures Equal(a[i], b[i]) <==> Normalize(a[i], le) == Normalize(b[i], le)
      {
        EqualIffSameNormal(a[i], b[i], le);
      }
      ItemsEqualIff(a, b, le);
    case (Obj(a), Obj(b)) =>
      forall m, n | m in a && n in b
        ensures Equal(m.value, n.value) <==> Normalize(m.value, le) == Normalize(n.value, le)
      {
        EqualIffSameNormal(m.value, n.value, le);
      }
      MembersEqualIff(a, b, le);
    case _ =>
  }

  lemma ItemsEqualIff(a: seq<Json>, b: seq<Json>, le: (Text, Text) -> bool)
    requires forall i :: 0 <= i < |a| && i < |b| ==> (Equal(a[i], b[i]) <==> Normalize(a[i], le) == Normalize(b[i], le))
    ensures Equal(Arr(a), Arr(b)) <==> Normalize(Arr(a), le) == Normalize(Arr(b), le)
  {
    var x, y := NormalizeItems(a, le), NormalizeItems(b, le);
    if x == y {
      forall i | 0 <= i < |a|
        ensures Equal(a[i], b[i])
      {
        assert x[i] == y[i];
      }
    }
  }

  ghost predicate MembersEqual(a: seq<Member>, b: seq<Member>) {
    |a| == |b| && forall m :: m in a ==> HasEqual(m, b)
  }

  ghost predicate HasEqual(m: Member, b: seq<Member>) {
    exists n :: n in b && n.key == m.key && Equal(m.value, n.value)
  }

  lemma EqualObjects(a: seq<Member>, b: seq<Member>)
    ensures Equal(Obj(a), Obj(b)) <==> MembersEqual(a, b)
  {
  }

  lemma NormalizedKeys(a: seq<Member>, le: (Text, Text) -> bool)
    requires WellFormed(Obj(a))
    ensures DistinctKeys(NormalizeMembers(a, le))
  {
    hide Normalize;
  }

  lemma MembersEqualIff(a: seq<Member>, b: seq<Member>, le: (Text, Text) -> bool)
    requires WellFormed(Obj(a)) && WellFormed(Obj(b)) && TotalPreorder(le) && Antisymmetric(le)
    requires forall m, n :: m in a && n in b ==> (Equal(m.value, n.value) <==> Normalize(m.value, le) == Normalize(n.value, le))
    ensures Equal(Obj(a), Obj(b)) <==> Normalize(Obj(a), le) == Normalize(Obj(b), le)
  {
    assert Normalize(Obj(a), le) == Obj(Sort(NormalizeMembers(a, le), MemberByKey(le)));
    assert Normalize(Obj(b), le) == Obj(Sort(NormalizeMembers(b, le), MemberByKey(le)));
    hide Sort, TotalPreorder, Antisymmetric, Equal, Normalize, WellFormed, NormalizeMembers, HasEqual;
    var x, y := NormalizeMembers(a, le), NormalizeMembers(b, le);
    NormalizedKeys(a, le);
    NormalizedKeys(b, le);
    EqualObjects(a, b);
    if MembersEqual(a, b) {
      forall m | m in x
        ensures m in y
      {
        ImageOfEqual(a, b, le, m);
      }
      MembersEqualSorted(x, y, le);
    }
    if Sort(x, MemberByKey(le)) == Sort(y, MemberByKey(le)) {
      SortPermutes(x, MemberByKey(le));
      SortPermutes(y, MemberByKey(le));
      SortMembers(x, MemberByKey(le));
      SortMembers(y, MemberByKey(le));
      forall m | m in a
        ensures HasEqual(m, b)
      {
        PreimageOfEqual(a, b, le, m);
      }
    }
  }

  lemma ImageOfEqual(a: seq<Member>, b: seq<Member>, le: (Text, Text) -> bool, m: Member)
    requires m in NormalizeMembers(a, le) && MembersEqual(a, b)
    requires forall p, n :: p in a && n in b ==> (Equal(p.value, n.value) <==> Normalize(p.value, le) == Normalize(n.value, le))
    ensures m in NormalizeMembers(b, le)
  {
    hide Equal, Normalize;
    var x, y := NormalizeMembers(a, le), NormalizeMembers(b, le);
    var i :| 0 <= i < |x| && x[i] == m;
    assert a[i] in a;
    var n :| n in b && n.key == a[i].key && Equal(a[i].value, n.value);
    var j :| 0 <= j < |b| && b[j] == n;
    assert y[j] == m;
  }

  lemma PreimageOfEqual(a: seq<Member>, b: seq<Member>, le: (Text, Text) -> bool, m: Member)
    requires m in a && forall p :: p in NormalizeMembers(a, le) ==> p in NormalizeMembers(b, le)
    requires forall p, n :: p in a && n in b && Normalize(p.value, le) == Normalize(n.value, le) ==> Equal(p.value, n.value)
    ensures HasEqual(m, b)
  {
    hide Equal, Normalize;
    var x, y := NormalizeMembers(a, le), NormalizeMembers(b, le);
    var i :| 0 <= i < |a| && a[i] == m;
    assert x[i] in x;
    var j :| 0 <= j < |y| && y[j] == x[i];
    assert b[j] in b && b[j].key == m.key;
  }

  /** Two JSON values encode alike exactly when they are equal up to the order of object members. */
  lemma CanonicalInjective(v: Json, w: Json, le: (Text, Text) -> bool)
    requires WellFormed(v) && WellFormed(w) && TotalPreorder(le) && Antisymmetric(le)
    ensures Canonical(v, le) == Canonical(w, le) <==> Equal(v, w)
  {
    hide Canonical, Print, Normalize, Equal, WellFormed, TotalPreorder, Antisymmetric;
    CanonicalIsPrint(v, le);
    CanonicalIsPrint(w, le);
    EqualIffSameNormal(v, w, le);
    NormalizeWellFormed(v, le);
    NormalizeWellFormed(w, le);
    if Canonical(v, le) == Canonical(w, le) {
      PrintInjective(Normalize(v, le), Normalize(w, le));
    }
  }

  // ----- comparators with ties

  lemma {:induction false} SameNormalEqual(v: Json, w: Json, le: (Text, Text) -> bool)
    requires Normalize(v, le) == Normalize(w, le)
    ensures Equal(v, w)
    decreases v
  {
    hide Sort;
    match (v, w)
    case (Arr(a), Arr(b)) =>
      var x, y := NormalizeItems(a, le), NormalizeItems(b, le);
      forall i | 0 <= i < |a|
        ensures Equal(a[i], b[i])
      {
        assert x[i] == y[i];
        SameNormalEqual(a[i], b[i], le);
      }
    case (Obj(a), Obj(b)) =>
      forall m, n | m in a && n in b && Normalize(m.value, le) == Normalize(n.value, le)
        ensures Equal(m.value, n.value)
      {
        SameNormalEqual(m.value, n.value, le);
      }
      SameSortedMembers(a, b, le);
    case _ =>
  }

  lemma SameSortedMembers(a: seq<Member>, b: seq<Member>, le: (Text, Text) -> bool)
    requires Normalize(Obj(a), le) == Normalize(Obj(b), le)
    requires forall m, n :: m in a && n in b && Normalize(m.value, le) == Normalize(n.value, le) ==> Equal(m.value, n.value)
    ensures Equal(Obj(a), Obj(b))
  {
    assert Normalize(Obj(a), le) == Obj(Sort(NormalizeMembers(a, le), MemberByKey(le)));
    assert Normalize(Obj(b), le) == Obj(Sort(NormalizeMembers(b, le), MemberByKey(le)));
    hide Sort, Equal, Normalize, NormalizeMembers, HasEqual;
    var x, y := NormalizeMembers(a, le), NormalizeMembers(b, le);
    EqualObjects(a, b);
    SortPermutes(x, MemberByKey(le));
    SortPermutes(y, MemberByKey(le));
    SortMembers(x, MemberByKey(le));
    SortMembers(y, MemberByKey(le));
    forall m | m in a
      ensures HasEqual(m, b)
    {
      PreimageOfEqual(a, b, le, m);
    }
  }

  /** Whatever the comparator does, equal texts mean equal values. */
  lemma CanonicalSound(v: Json, w: Json, le: (Text, Text) -> bool)
    requires WellFormed(v) && WellFormed(w) && Canonical(v, le) == Canonical(w, le)
    ensures Equal(v, w)
  {
    hide Canonical, Print, Normalize, Equal, WellFormed;
    CanonicalIsPrint(v, le);
    CanonicalIsPrint(w, le);
    NormalizeWellFormed(v, le);
    NormalizeWellFormed(w, le);
    PrintInjective(Normalize(v, le), Normalize(w, le));
    SameNormalEqual(v, w, le);
  }

  function TwoKeys(j: Text, k: Text): Json {
    Obj([Member(j, Null), Member(k, Null)])
  }

  lemma TiedKeys(j: Text, k: Text, le: (Text, Text) -> bool)
    requires j != k && le(j, k)
    ensures WellFormed(TwoKeys(j, k)) && Normalize(TwoKeys(j, k), le) == TwoKeys(j, k)
  {
    var a, b := Member(j, Null), Member(k, Null);
    var members := [a, b];
    assert NormalizeMembers(members, le) == members;
    assert members[1..] == [b] && [b][1..] == [];
    assert Sort([b], MemberByKey(le)) == [b];
    assert Sort(members, MemberByKey(le)) == Insert(a, [b], MemberByKey(le)) == [a] + [b];
  }

  /** Two keys that tie keep their order of insertion, so equal objects encode differently. */
  lemma TiesDistinguish(j: Text, k: Text, le: (Text, Text) -> bool)
    requires j != k && le(j, k) && le(k, j)
    ensures WellFormed(TwoKeys(j, k)) && WellFormed(TwoKeys(k, j)) && Equal(TwoKeys(j, k), TwoKeys(k, j))
    ensures Canonical(TwoKeys(j, k), le) != Canonical(TwoKeys(k, j), le)
  {
    var v, w := TwoKeys(j, k), TwoKeys(k, j);
    EqualObjects(v.members, w.members);
    assert w.members[0] in w.members && w.members[1] in w.members;
    assert Equal(Null, Null);
    assert MembersEqual(v.members, w.members);
    TiedKeys(j, k, le);
    TiedKeys(k, j, le);
    hide Canonical, Print, Normalize, Equal, WellFormed;
    CanonicalIsPrint(v, le);
    CanonicalIsPrint(w, le);
    assert v.members[0] != w.members[0];
    if Canonical(v, le) == Canonical(w, le) {
      PrintInjective(v, w);
    }
  }

  /** Among consistent comparators, exactly those without ties encode all equal values alike. */
  lemma CompleteIffNoTies(le: (Text, Text) -> bool)
    requires TotalPreorder(le)
    ensures (forall v, w :: WellFormed(v) && WellFormed(w) && Equal(v, w) ==> Canonical(v, le) == Canonical(w, le))
            <==> Antisymmetric(le)
  {
    hide Canonical, Equal, WellFormed, TotalPreorder;
    if Antisymmetric(le) {
      forall v, w | WellFormed(v) && WellFormed(w) && Equal(v, w)
        ensures Canonical(v, le) == Canonical(w, le)
      {
        hide Antisymmetric;
        CanonicalInjective(v, w, le);
      }
    } else {
      var j, k :| le(j, k) && le(k, j) && j != k;
      TiesDistinguish(j, k, le);
    }
  }
}
