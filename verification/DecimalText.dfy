/** The canonical text of exact decimals: the accepted grammar, `parse` and `toCanonical`. */
module DecimalText {
  import opened Outcomes
  import opened Collections
  import opened Rounding
  import opened ExactDecimal

  predicate IsDigit(c: char) {
    '0' <= c <= '9'
  }

  predicate AllDigits(s: string) {
    forall i :: 0 <= i < |s| ==> IsDigit(s[i])
  }

  function DigitChar(d: nat): (c: char)
    requires d < 10
    ensures IsDigit(c) && DigitOf(c) == d
  {
    '0' + d as char
  }

  function DigitOf(c: char): (d: nat)
    requires IsDigit(c)
    ensures d < 10
  {
    c as int - '0' as int
  }

  /** Decimal digits of a natural number, as bigint `toString` prints them. */
  function NatText(n: nat): (s: string)
    ensures |s| == DigitCount(n) && AllDigits(s)
  {
    if n < 10 then [DigitChar(n)] else NatText(n / 10) + [DigitChar(n % 10)]
  }

  /** The number a digit string stands for, as `BigInt` reads it. */
  function TextNat(s: string): nat
    requires AllDigits(s)
  {
    if s == [] then 0 else 10 * TextNat(s[..|s| - 1]) + DigitOf(s[|s| - 1])
  }

  function Zeros(k: nat): (z: string)
    ensures |z| == k && AllDigits(z) && forall i :: 0 <= i < k ==> z[i] == '0'
  {
    seq(k, _ => '0')
  }

  function PadStart(s: string, width: nat): string {
    if |s| >= width then s else Zeros(width - |s|) + s
  }

  /** `replace(/^0+/, "")` */
  function StripLeading(s: string): string {
    if |s| > 0 && s[0] == '0' then StripLeading(s[1..]) else s
  }

  /** `replace(/0+$/, "")` */
  function StripTrailing(s: string): string {
    if |s| > 0 && s[|s| - 1] == '0' then StripTrailing(s[..|s| - 1]) else s
  }

  // ----- the grammar

  /** `[1-9][0-9]*` */
  predicate IntegerPart(s: string) {
    |s| > 0 && AllDigits(s) && s[0] != '0'
  }

  /** `[0-9]*[1-9]` */
  predicate FractionPart(s: string) {
    |s| > 0 && AllDigits(s) && s[|s| - 1] != '0'
  }

  /** The language of DECIMAL_PATTERN, read off its three alternatives. */
  ghost predicate InGrammar(s: string) {
    || s == "0"
    || (exists negative: bool, i: string :: IntegerPart(i) && s == Compose(negative, i, ""))
    || (exists negative: bool, i: string, f: string ::
          (IntegerPart(i) || i == "0") && FractionPart(f) && s == Compose(negative, i, f))
  }

  /** `-`, integer digits, and the fraction after a point when there is one. */
  function Compose(negative: bool, integer: string, fraction: string): string {
    (if negative then "-" else "") + (integer + (if fraction == "" then "" else "." + fraction))
  }

  predicate Negative(s: string) {
    |s| > 0 && s[0] == '-'
  }

  function Unsigned(s: string): string {
    if Negative(s) then s[1..] else s
  }

  function PointIndex(s: string): (k: nat)
    ensures k <= |s|
    ensures forall i :: 0 <= i < k ==> s[i] != '.'
    ensures k < |s| ==> s[k] == '.'
  {
    if s == [] || s[0] == '.' then 0 else 1 + PointIndex(s[1..])
  }

  function IntegerOf(s: string): string {
    var u := Unsigned(s);
    u[..PointIndex(u)]
  }

  function FractionOf(s: string): string {
    var u := Unsigned(s);
    if PointIndex(u) < |u| then u[PointIndex(u) + 1..] else ""
  }

  predicate HasPoint(s: string) {
    PointIndex(Unsigned(s)) < |Unsigned(s)|
  }

  /** The second and third alternatives of DECIMAL_PATTERN, after the sign. */
  predicate Shape(pointed: bool, integer: string, fraction: string) {
    if pointed then (IntegerPart(integer) || integer == "0") && FractionPart(fraction) else IntegerPart(integer)
  }

  /** DECIMAL_PATTERN as a scan. */
  predicate MatchesPattern(s: string) {
    s == "0" || Shape(HasPoint(s), IntegerOf(s), FractionOf(s))
  }

  function Parse(s: string): Outcome<Decimal> {
    if !MatchesPattern(s) then Err(InvalidDecimal)
    else
      var digits := IntegerOf(s) + FractionOf(s);
      if |StripLeading(digits)| > MAX_PARSED_DIGITS || |FractionOf(s)| > MAX_SCALE then Err(Overflow)
      else Create(SignedDigits(s), |FractionOf(s)|)
  }

  function ToCanonical(d: Decimal): string {
    if d.coefficient == 0 then "0"
    else
      var digits := PadStart(NatText(Abs(d.coefficient)), d.scale + 1);
      var cut := |digits| - d.scale;
      Compose(d.coefficient < 0, digits[..cut], StripTrailing(digits[cut..]))
  }

  /** The rational that an accepted text denotes; no digit cap applies here. */
  function Denotes(s: string): real
    requires MatchesPattern(s)
  {
    Ratio(SignedDigits(s), |FractionOf(s)|)
  }

  // ----- composing and splitting

  lemma PointIndexAt(i: string, rest: string)
    requires AllDigits(i) && (rest == "" || rest[0] == '.')
    ensures PointIndex(i + rest) == |i|
  {
    var s := i + rest;
    assert forall j :: 0 <= j < |i| ==> s[j] == i[j];
    assert forall j :: 0 <= j < |i| ==> s[j] != '.';
    assert rest != "" ==> s[|i|] == rest[0];
  }

  lemma SplitComposed(negative: bool, i: string, f: string)
    requires |i| > 0 && AllDigits(i) && AllDigits(f)
    ensures var s := Compose(negative, i, f);
            Negative(s) == negative && IntegerOf(s) == i && FractionOf(s) == f && (HasPoint(s) <==> f != "")
  {
    var rest := if f == "" then "" else "." + f;
    UnsignedComposed(negative, i, f);
    PointIndexAt(i, rest);
    hide Compose, Unsigned, PointIndex, AllDigits;
    assert (i + rest)[..|i|] == i;
    assert f != "" ==> (i + rest)[|i| + 1..] == f;
  }

  lemma UnsignedComposed(negative: bool, i: string, f: string)
    requires |i| > 0 && IsDigit(i[0])
    ensures Negative(Compose(negative, i, f)) == negative
    ensures Unsigned(Compose(negative, i, f)) == i + (if f == "" then "" else "." + f)
  {
    var rest := if f == "" then "" else "." + f;
    assert (i + rest)[0] == i[0];
    assert ("-" + (i + rest))[1..] == i + rest;
  }

  lemma SplitAtPoint(u: string)
    ensures var k := PointIndex(u);
            u == u[..k] + (if k < |u| then "." + u[k + 1..] else "")
  {
    var k := PointIndex(u);
    hide PointIndex;
    if k < |u| {
      SplitAt(u, k);
      assert [u[k]] == ".";
    } else {
      assert u[..k] == u;
    }
  }

  lemma PartsOfZero()
    ensures IntegerOf("0") == "0" && FractionOf("0") == "" && !Negative("0")
    ensures TextNat("0") == 0 && StripLeading("0") == ""
  {
    SplitComposed(false, "0", "");
    assert Compose(false, "0", "") == "0";
    assert "0"[..0] == "" && "0"[1..] == "";
  }

  lemma ComposeSplit(s: string)
    requires MatchesPattern(s)
    ensures s == Compose(Negative(s), IntegerOf(s), FractionOf(s))
    ensures |IntegerOf(s)| > 0 && AllDigits(IntegerOf(s)) && AllDigits(FractionOf(s))
  {
    if s == "0" {
      PartsOfZero();
    } else {
      Recompose(s);
    }
  }

  lemma Resign(s: string)
    ensures s == (if Negative(s) then "-" else "") + Unsigned(s)
  {
  }

  lemma Recompose(s: string)
    requires HasPoint(s) ==> FractionOf(s) != ""
    ensures s == Compose(Negative(s), IntegerOf(s), FractionOf(s))
  {
    var u := Unsigned(s);
    var k := PointIndex(u);
    SplitAtPoint(u);
    Resign(s);
    hide PointIndex;
    assert FractionOf(s) == if k < |u| then u[k + 1..] else "";
  }

  lemma ComposedMatches(negative: bool, i: string, f: string)
    requires if f == "" then IntegerPart(i) else (IntegerPart(i) || i == "0") && FractionPart(f)
    ensures MatchesPattern(Compose(negative, i, f))
  {
    SplitComposed(negative, i, f);
    hide Compose, HasPoint, IntegerOf, FractionOf;
  }

  lemma MatchedIsComposed(s: string)
    requires MatchesPattern(s)
    ensures InGrammar(s)
  {
    ComposeSplit(s);
    assert !HasPoint(s) ==> FractionOf(s) == "";
    hide Compose, HasPoint, IntegerOf, FractionOf, Negative;
    if s != "0" && FractionOf(s) == "" {
      assert IntegerPart(IntegerOf(s)) && s == Compose(Negative(s), IntegerOf(s), "");
    }
  }

  /** The scan accepts exactly the language of the regular expression. */
  lemma PatternIsGrammar(s: string)
    ensures MatchesPattern(s) <==> InGrammar(s)
  {
    if MatchesPattern(s) {
      MatchedIsComposed(s);
    }
    hide Compose, HasPoint, IntegerOf, FractionOf;
    if negative: bool, i: string :| IntegerPart(i) && s == Compose(negative, i, "") {
      ComposedMatches(negative, i, "");
    }
    if negative: bool, i: string, f: string :| (IntegerPart(i) || i == "0") && FractionPart(f) && s == Compose(negative, i, f) {
      ComposedMatches(negative, i, f);
    }
  }

  // ----- digits and numbers

  lemma {:induction false} PadRestores(t: string)
    requires |t| > 0 && AllDigits(t)
    ensures PadStart(NatText(TextNat(t)), |t|) == t
  {
    var front, d := t[..|t| - 1], DigitOf(t[|t| - 1]);
    assert t == front + [DigitChar(d)];
    if |t| == 1 {
      assert TextNat(front) == 0;
    } else {
      PadRestores(front);
      var n := TextNat(front);
      assert (10 * n + d) / 10 == n && (10 * n + d) % 10 == d;
    }
  }

  lemma {:induction false} TextNatOfPadded(k: nat, n: nat)
    ensures TextNat(Zeros(k) + NatText(n)) == n
    decreases n, k
  {
    var t := Zeros(k) + NatText(n);
    var front := t[..|t| - 1];
    if n >= 10 {
      assert front == Zeros(k) + NatText(n / 10);
      TextNatOfPadded(k, n / 10);
    } else {
      assert front == Zeros(k);
      ZerosAreZero(k);
    }
  }

  lemma {:induction false} ZerosAreZero(k: nat)
    ensures TextNat(Zeros(k)) == 0
  {
    if k == 0 {
    } else {
      assert Zeros(k)[..k - 1] == Zeros(k - 1);
      ZerosAreZero(k - 1);
    }
  }

  lemma {:induction false} StripLeadingOfPadded(k: nat, s: string)
    requires |s| > 0 && s[0] != '0'
    ensures StripLeading(Zeros(k) + s) == s
  {
    if k > 0 {
      assert (Zeros(k) + s)[1..] == Zeros(k - 1) + s;
      StripLeadingOfPadded(k - 1, s);
    } else {
      assert Zeros(0) + s == s;
    }
  }

  lemma {:induction false} NatTextEnds(n: nat)
    ensures n > 0 ==> NatText(n)[0] != '0'
    ensures NatText(n)[|NatText(n)| - 1] == DigitChar(n % 10)
  {
    if n >= 10 {
      NatTextEnds(n / 10);
    }
  }

  // ----- parse, then print

  predicate WithinCaps(s: string) {
    |StripLeading(IntegerOf(s) + FractionOf(s))| <= MAX_PARSED_DIGITS && |FractionOf(s)| <= MAX_SCALE
  }

  function SignedDigits(s: string): int
    requires MatchesPattern(s)
  {
    ComposeSplit(s);
    (if Negative(s) then -1 else 1) * TextNat(IntegerOf(s) + FractionOf(s))
  }

  lemma CapsBoundCoefficient(s: string)
    requires MatchesPattern(s) && WithinCaps(s)
    ensures Abs(SignedDigits(s)) < Pow10(MAX_PARSED_DIGITS) <= Pow10(MAX_DIGITS)
  {
    ComposeSplit(s);
    var digits := IntegerOf(s) + FractionOf(s);
    hide Pow10, IntegerOf, FractionOf, TextNat, StripLeading, MatchesPattern;
    StripLeadingValue(digits);
    Pow10Monotone(|StripLeading(digits)|, MAX_PARSED_DIGITS);
    Pow10Monotone(MAX_PARSED_DIGITS, MAX_DIGITS);
  }

  /** What `parse` accepts and returns: the grammar, the two caps, and the rational the text denotes. */
  lemma ParseExact(s: string)
    ensures Parse(s).Ok? ==> MatchesPattern(s) && Parsed(Parse(s).value) && Value(Parse(s).value) == Denotes(s)
    ensures !MatchesPattern(s) <==> Parse(s) == Err(InvalidDecimal)
    ensures MatchesPattern(s) ==> (Parse(s).Ok? <==> WithinCaps(s))
    ensures MatchesPattern(s) && !WithinCaps(s) ==> Parse(s) == Err(Overflow)
  {
    hide Create, Ratio, Normal, Pow10, IntegerOf, FractionOf, TextNat, StripLeading, MatchesPattern;
    if MatchesPattern(s) && WithinCaps(s) {
      CapsBoundCoefficient(s);
      CreateExact(SignedDigits(s), |FractionOf(s)|);
    }
  }

  lemma {:induction false} StripLeadingValue(t: string)
    requires AllDigits(t)
    ensures AllDigits(StripLeading(t)) && TextNat(StripLeading(t)) == TextNat(t)
    ensures TextNat(t) < Pow10(|StripLeading(t)|)
    decreases |t|
  {
    if |t| > 0 && t[0] == '0' {
      LeadingZero(t[1..]);
      assert t == "0" + t[1..];
      StripLeadingValue(t[1..]);
    } else {
      TextNatBound(t);
    }
  }

  lemma {:induction false} LeadingZero(t: string)
    requires AllDigits(t)
    ensures AllDigits("0" + t) && TextNat("0" + t) == TextNat(t)
  {
    if t == [] {
      assert "0"[..0] == "";
    } else {
      LeadingZero(t[..|t| - 1]);
      assert ("0" + t)[..|t|] == "0" + t[..|t| - 1];
    }
  }

  lemma {:induction false} TextNatBound(t: string)
    requires AllDigits(t)
    ensures TextNat(t) < Pow10(|t|)
  {
    if t == [] {
    } else {
      TextNatBound(t[..|t| - 1]);
    }
  }

  lemma LastDigit(i: string, f: string)
    requires AllDigits(i) && FractionPart(f)
    ensures AllDigits(i + f) && TextNat(i + f) % 10 != 0
  {
    var t := i + f;
    assert t[|t| - 1] == f[|f| - 1] != '0';
    LastOfText(t);
    hide TextNat;
  }

  lemma LastOfText(t: string)
    requires AllDigits(t) && |t| > 0
    ensures TextNat(t) % 10 == DigitOf(t[|t| - 1])
  {
    assert TextNat(t) == 10 * TextNat(t[..|t| - 1]) + DigitOf(t[|t| - 1]);
    hide TextNat, AllDigits;
  }

  lemma LastSignedDigit(s: string)
    requires MatchesPattern(s) && FractionOf(s) != ""
    ensures SignedDigits(s) % 10 != 0
  {
    FractionIsPart(s);
    ComposeSplit(s);
    hide IntegerOf, FractionOf, TextNat, Compose, Negative, MatchesPattern, FractionPart, AllDigits;
    LastDigit(IntegerOf(s), FractionOf(s));
  }

  lemma FractionIsPart(s: string)
    requires MatchesPattern(s) && FractionOf(s) != ""
    ensures FractionPart(FractionOf(s))
  {
    PartsOfZero();
    hide PointIndex, Unsigned, IntegerOf, FractionPart, IntegerPart;
  }

  lemma CreateKeepsDigits(s: string)
    requires MatchesPattern(s)
    ensures var r := Create(SignedDigits(s), |FractionOf(s)|);
            r.Ok? ==> r.value == Decimal(SignedDigits(s), |FractionOf(s)|)
  {
    hide *;
    if FractionOf(s) != "" {
      LastSignedDigit(s);
    }
    CreateKeeps(SignedDigits(s), |FractionOf(s)|);
  }

  /** An accepted text is already normalised: `create` strips nothing from it. */
  lemma ParsedParts(s: string)
    requires Parse(s).Ok?
    ensures Parse(s).value == Decimal(SignedDigits(s), |FractionOf(s)|)
  {
    CreateKeepsDigits(s);
    hide IntegerOf, FractionOf, StripLeading, Create, SignedDigits, MatchesPattern;
  }

  lemma NonzeroText(i: string, f: string)
    requires AllDigits(i) && AllDigits(f)
    requires Shape(f != "", i, f)
    ensures TextNat(i + f) != 0
  {
    var t := i + f;
    PadRestores(t);
    assert NatText(0) == "0";
    hide NatText, TextNat, AllDigits;
    var zero := PadStart("0", |t|);
    assert zero[0] == '0' && zero[|t| - 1] == '0';
    assert t[0] == i[0] && (f != "" ==> t[|t| - 1] == f[|f| - 1]);
  }

  lemma PadNothing(text: string, t: string, width: nat)
    requires |t| > 0 && PadStart(text, |t|) == t && width <= |t|
    requires t[0] != '0' || width == |t|
    ensures PadStart(text, width) == t
  {
    assert |text| < |t| ==> t[0] == Zeros(|t| - |text|)[0];
  }

  lemma PaddedIs(i: string, f: string)
    requires AllDigits(i) && AllDigits(f)
    requires Shape(f != "", i, f)
    ensures PadStart(NatText(TextNat(i + f)), |f| + 1) == i + f
    ensures StripTrailing(f) == f
  {
    var t := i + f;
    PadRestores(t);
    hide NatText, TextNat, AllDigits, PadStart;
    assert t[0] == i[0];
    PadNothing(NatText(TextNat(t)), t, |f| + 1);
  }

  /** Printing what was parsed gives the text back. */
  lemma ParseThenPrint(s: string)
    requires Parse(s).Ok?
    ensures ToCanonical(Parse(s).value) == s
  {
    ParsedParts(s);
    ComposeSplit(s);
    if s == "0" {
      PartsOfZero();
    } else {
      var i, f := IntegerOf(s), FractionOf(s);
      var t := i + f;
      hide IntegerOf, FractionOf, Parse, NatText, TextNat, PadStart, StripTrailing;
      NonzeroText(i, f);
      PaddedIs(i, f);
      assert t[..|i|] == i && t[|i|..] == f;
    }
  }

  // ----- print, then parse

  lemma PaddedDigits(n: nat, scale: nat)
    requires n > 0
    ensures var digits := PadStart(NatText(n), scale + 1);
            && AllDigits(digits) && TextNat(digits) == n && |StripLeading(digits)| == DigitCount(n)
            && |digits| > scale && digits[|digits| - 1] == DigitChar(n % 10)
            && (digits[0] != '0' || (|digits| == scale + 1 && scale > 0))
  {
    var text := NatText(n);
    var digits := PadStart(text, scale + 1);
    var k := |digits| - |text|;
    assert digits == Zeros(k) + text;
    TextNatOfPadded(k, n);
    NatTextEnds(n);
    StripLeadingOfPadded(k, text);
  }

  lemma CutShape(digits: string, scale: nat)
    requires AllDigits(digits) && |digits| > scale
    requires digits[0] != '0' || (|digits| == scale + 1 && scale > 0)
    requires scale > 0 ==> digits[|digits| - 1] != '0'
    ensures var cut := |digits| - scale;
            && AllDigits(digits[..cut]) && AllDigits(digits[cut..])
            && StripTrailing(digits[cut..]) == digits[cut..]
            && Shape(scale > 0, digits[..cut], digits[cut..])
  {
    var cut := |digits| - scale;
    var i, f := digits[..cut], digits[cut..];
    assert i[0] == digits[0];
    assert scale > 0 ==> f[|f| - 1] == digits[|digits| - 1];
    assert digits[0] == '0' ==> i == "0";
  }

  lemma NormalEnd(d: Decimal)
    requires Normal(d) && d.scale > 0
    ensures Abs(d.coefficient) % 10 != 0
  {
    hide DigitCount;
  }

  lemma PrintedParts(d: Decimal)
    requires Normal(d) && d.coefficient != 0
    ensures var digits := PadStart(NatText(Abs(d.coefficient)), d.scale + 1);
            var cut := |digits| - d.scale;
            && AllDigits(digits) && 0 < cut
            && AllDigits(digits[..cut]) && AllDigits(digits[cut..])
            && StripTrailing(digits[cut..]) == digits[cut..]
            && Shape(d.scale > 0, digits[..cut], digits[cut..])
  {
    hide PadStart, NatText, Normal, AllDigits, Shape, StripTrailing;
    var n := Abs(d.coefficient);
    if d.scale > 0 {
      NormalEnd(d);
    }
    PaddedDigits(n, d.scale);
    CutShape(PadStart(NatText(n), d.scale + 1), d.scale);
  }

  lemma PrintedComposed(d: Decimal)
    requires Normal(d) && d.coefficient != 0
    ensures var digits := PadStart(NatText(Abs(d.coefficient)), d.scale + 1);
            var cut := |digits| - d.scale;
            && 0 < cut && ToCanonical(d) == Compose(d.coefficient < 0, digits[..cut], digits[cut..])
  {
    PrintedParts(d);
    hide PadStart, NatText, Normal, AllDigits, Shape, StripTrailing, Compose;
  }

  lemma ComposedValue(negative: bool, i: string, f: string)
    requires |i| > 0 && AllDigits(i) && AllDigits(f) && Shape(f != "", i, f)
    ensures var s := Compose(negative, i, f);
            && MatchesPattern(s) && IntegerOf(s) == i && FractionOf(s) == f
            && SignedDigits(s) == (if negative then -1 else 1) * TextNat(i + f)
  {
    hide IntegerOf, FractionOf, HasPoint, TextNat;
    SplitComposed(negative, i, f);
  }

  /** Every normalised value prints into the accepted grammar, and its text denotes it, whatever its size. */
  lemma PrintedDenotes(d: Decimal)
    requires Normal(d)
    ensures MatchesPattern(ToCanonical(d)) && Denotes(ToCanonical(d)) == Value(d)
    ensures WithinCaps(ToCanonical(d)) <==> Parsed(d)
  {
    hide MatchesPattern, Denotes, ToCanonical, WithinCaps, Parsed, Value, Normal;
    if d.coefficient == 0 {
      PrintedZero(d);
    } else {
      PrintedNonzero(d);
    }
  }

  lemma PrintedNonzero(d: Decimal)
    requires Normal(d) && d.coefficient != 0
    ensures MatchesPattern(ToCanonical(d)) && Denotes(ToCanonical(d)) == Value(d)
    ensures WithinCaps(ToCanonical(d)) <==> Parsed(d)
  {
    hide MatchesPattern, Denotes, ToCanonical, WithinCaps, Parsed, Value, Normal, PadStart, NatText, TextNat,
         DigitCount, Pow10, Compose, StripTrailing, StripLeading, Shape, IntegerOf, FractionOf, SignedDigits;
    var n := Abs(d.coefficient);
    var digits := PadStart(NatText(n), d.scale + 1);
    var cut := |digits| - d.scale;
    PrintedParts(d);
    PrintedComposed(d);
    PaddedDigits(n, d.scale);
    DigitCountBound(n, MAX_PARSED_DIGITS);
    assert digits[..cut] + digits[cut..] == digits;
    ComposedValue(d.coefficient < 0, digits[..cut], digits[cut..]);
    PrintedFrom(d, digits, ToCanonical(d));
  }

  lemma PrintedZero(d: Decimal)
    requires Normal(d) && d.coefficient == 0
    ensures MatchesPattern(ToCanonical(d)) && Denotes(ToCanonical(d)) == Value(d)
    ensures WithinCaps(ToCanonical(d)) && Parsed(d)
  {
    PartsOfZero();
    hide Pow10, IntegerOf, FractionOf, TextNat;
    assert "0" + "" == "0";
  }

  lemma PrintedFrom(d: Decimal, digits: string, s: string)
    requires Normal(d) && d.coefficient != 0
    requires MatchesPattern(s) && IntegerOf(s) + FractionOf(s) == digits && |FractionOf(s)| == d.scale
    requires AllDigits(digits) && TextNat(digits) == Abs(d.coefficient)
    requires SignedDigits(s) == (if d.coefficient < 0 then -1 else 1) * Abs(d.coefficient)
    requires |StripLeading(digits)| == DigitCount(Abs(d.coefficient))
    requires DigitCount(Abs(d.coefficient)) <= MAX_PARSED_DIGITS <==> Abs(d.coefficient) < Pow10(MAX_PARSED_DIGITS)
    ensures Denotes(s) == Value(d)
    ensures WithinCaps(s) <==> Parsed(d)
  {
    hide MatchesPattern, IntegerOf, FractionOf, TextNat, SignedDigits, StripLeading, DigitCount, Pow10, Ratio;
  }

  /** Parsing a printed value gives it back exactly when it is within 38 digits and 18 places; otherwise overflow. */
  lemma PrintThenParse(d: Decimal)
    requires Normal(d)
    ensures Parse(ToCanonical(d)) == if Parsed(d) then Ok(d) else Err(Overflow)
  {
    hide Parse, ToCanonical, WithinCaps, Value, Denotes, MatchesPattern;
    PrintedDenotes(d);
    ParseExact(ToCanonical(d));
    if Parsed(d) {
      NormalUnique(Parse(ToCanonical(d)).value, d);
    }
  }

  /** Distinct normalised values print differently. */
  lemma PrintInjective(x: Decimal, y: Decimal)
    requires Normal(x) && Normal(y) && ToCanonical(x) == ToCanonical(y)
    ensures x == y
  {
    hide ToCanonical, Denotes, Value;
    PrintedDenotes(x);
    PrintedDenotes(y);
    NormalUnique(x, y);
  }

  // ----- the rational behind a text

  /** The rational a text denotes; texts outside the grammar count as zero. */
  function TextValue(s: string): real {
    if MatchesPattern(s) then Denotes(s) else 0.0
  }

  lemma ParseValue(s: string)
    requires Parse(s).Ok?
    ensures Value(Parse(s).value) == TextValue(s) && Parsed(Parse(s).value)
  {
    hide Parse, MatchesPattern, Denotes, Value, Parsed;
    ParseExact(s);
  }

  lemma ParseNormal(s: string)
    requires Parse(s).Ok?
    ensures Normal(Parse(s).value)
  {
    hide Parse, Normal, Value, TextValue, Pow10;
    ParseValue(s);
  }
}
