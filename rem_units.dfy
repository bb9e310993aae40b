/** `convertRemToPixels` from the shared utilities: a rem length, given as a
    number or as text such as "2.25rem", times the root font size. Text is
    reduced to its digits, '.' and '-' and then read the way `parseFloat`
    reads it: the longest leading decimal literal, or an error when there is
    none. The root font size, which the script reads from the computed style
    of the document element, is a parameter. */
module RemUnits {
  import opened Common

  datatype RemInput = RemNumber(n: real) | RemString(s: string) | RemOther

  datatype RemError = InvalidRemValue | NotNumberOrString

  function Message(e: RemError): string {
    match e
    case InvalidRemValue => "Invalid REM value provided"
    case NotNumberOrString => "REM value must be a number or string"
  }

  predicate IsNumericChar(c: char) {
    IsDigit(c) || c == '.' || c == '-'
  }

  /** `s.replace(/[^\d.-]/g, "")`. */
  function KeepNumericChars(s: string): (r: string)
    ensures forall i :: 0 <= i < |r| ==> IsNumericChar(r[i])
    ensures |r| <= |s|
  {
    if s == [] then []
    else (if IsNumericChar(s[0]) then [s[0]] else []) + KeepNumericChars(s[1..])
  }

  /** The reduction works character by character, so it distributes over
      concatenation ... */
  lemma {:induction false} KeepNumericCharsConcat(a: string, b: string)
    ensures KeepNumericChars(a + b) == KeepNumericChars(a) + KeepNumericChars(b)
  {
    if a != [] {
      assert (a + b)[0] == a[0];
      assert (a + b)[1..] == a[1..] + b;
      KeepNumericCharsConcat(a[1..], b);
      var h := if IsNumericChar(a[0]) then [a[0]] else [];
      calc {
        KeepNumericChars(a + b);
        h + KeepNumericChars(a[1..] + b);
        h + (KeepNumericChars(a[1..]) + KeepNumericChars(b));
        (h + KeepNumericChars(a[1..])) + KeepNumericChars(b);
      }
    } else {
      assert a + b == b;
    }
  }

  /** ... and leaves a string that has only numeric characters as it is ... */
  lemma {:induction false} KeepNumericCharsKeepsNumeric(s: string)
    requires forall i :: 0 <= i < |s| ==> IsNumericChar(s[i])
    ensures KeepNumericChars(s) == s
  {
    if s != [] {
      KeepNumericCharsKeepsNumeric(s[1..]);
    }
  }

  /** ... while a single character that is not numeric is removed. Every
      string is its characters concatenated, so with the concatenation rule
      this says that exactly the numeric characters are kept, in their
      original order. */
  lemma KeepNumericCharsSingle(c: char)
    ensures KeepNumericChars([c]) == if IsNumericChar(c) then [c] else []
  {
    assert [c][1..] == [];
  }

  lemma KeepNumericCharsIdempotent(s: string)
    ensures KeepNumericChars(KeepNumericChars(s)) == KeepNumericChars(s)
  {
    KeepNumericCharsKeepsNumeric(KeepNumericChars(s));
  }

  // ---------------------------------------------------------------------
  // The decimal literals that `parseFloat` accepts, once letters, signs
  // other than '-', exponents and white space are gone: an optional '-',
  // then digits and at most one '.', with at least one digit.

  predicate IsUnsignedLiteral(q: string) {
    && (forall i :: 0 <= i < |q| ==> IsDigit(q[i]) || q[i] == '.')
    && (forall i, j :: 0 <= i < j < |q| ==> !(q[i] == '.' && q[j] == '.'))
    && (exists i :: 0 <= i < |q| && IsDigit(q[i]))
  }

  predicate IsDecimalLiteral(p: string) {
    if |p| > 0 && p[0] == '-' then IsUnsignedLiteral(p[1..]) else IsUnsignedLiteral(p)
  }

  /** A literal as the scanner splits it: sign, whole digits, whether a '.'
      was taken, fraction digits. */
  datatype Literal = Literal(negative: bool, whole: string, hasDot: bool, fraction: string)

  /** A split the scanner can produce: digits on both sides of the point,
      and no fraction digits unless a '.' was taken. */
  predicate WellSplit(l: Literal) {
    AllDigits(l.whole) && AllDigits(l.fraction) && (!l.hasDot ==> l.fraction == "")
  }

  function LiteralText(l: Literal): string {
    (if l.negative then "-" else "") + l.whole + (if l.hasDot then "." else "") + l.fraction
  }

  /** `n` with the decimal point moved `places` digits to the left. */
  function PointShifted(n: nat, places: nat): real {
    n as real / Pow10(places) as real
  }

  /** The number a literal denotes, read as whole part plus fraction. */
  function LiteralValue(l: Literal): real
    requires AllDigits(l.whole) && AllDigits(l.fraction)
  {
    var magnitude := DigitsValue(l.whole) as real + PointShifted(DigitsValue(l.fraction), |l.fraction|);
    if l.negative then -magnitude else magnitude
  }

  /** Length of the run of digits at the start of `s`. */
  function DigitRun(s: string): (n: nat)
    ensures n <= |s| && AllDigits(s[..n])
    ensures n < |s| ==> !IsDigit(s[n])
  {
    if s != [] && IsDigit(s[0]) then 1 + DigitRun(s[1..]) else 0
  }

  /** The characters the sign takes: one for a leading '-'. */
  function SignLength(s: string): (n: nat)
    ensures n <= |s|
  {
    if |s| > 0 && s[0] == '-' then 1 else 0
  }

  function Unsigned(s: string): string {
    s[SignLength(s)..]
  }

  /** The digits before the point. */
  function WholeRun(s: string): nat {
    DigitRun(Unsigned(s))
  }

  /** Whether a '.' follows the whole digits. */
  predicate TakesDot(s: string) {
    WholeRun(s) < |Unsigned(s)| && Unsigned(s)[WholeRun(s)] == '.'
  }

  /** The digits after the point. */
  function FractionRun(s: string): nat {
    if TakesDot(s) then DigitRun(Unsigned(s)[WholeRun(s) + 1..]) else 0
  }

  /** How much of the unsigned text the scanner takes. */
  function RunLength(s: string): (n: nat)
    ensures n <= |Unsigned(s)|
  {
    if TakesDot(s) then WholeRun(s) + 1 + FractionRun(s) else WholeRun(s)
  }

  /** The scanner of `parseFloat`: an optional '-', a run of digits, and when
      a '.' follows, a second run of digits; nothing (NaN) when neither run
      has a digit. */
  function LeadingDecimal(s: string): (r: Option<Literal>)
    ensures r.Some? ==> WellSplit(r.value)
  {
    var u, w, f := Unsigned(s), WholeRun(s), FractionRun(s);
    if w == 0 && f == 0 then None
    else Some(Literal(SignLength(s) == 1, u[..w], TakesDot(s), if TakesDot(s) then u[w + 1..][..f] else ""))
  }

  /** `parseFloat` of the reduced text; `None` stands for NaN. */
  function ParseRem(s: string): (v: Option<real>)
    ensures var d := KeepNumericChars(s);
            v.None? <==> forall k :: 0 < k <= |d| ==> !IsDecimalLiteral(d[..k])
    ensures var d := KeepNumericChars(s);
            v.Some? ==>
              exists l: Literal :: && WellSplit(l)
                          && LiteralText(l) <= d && IsDecimalLiteral(LiteralText(l))
                          && (forall k :: |LiteralText(l)| < k <= |d| ==> !IsDecimalLiteral(d[..k]))
                          && v.value == LiteralValue(l)
  {
    LeadingDecimalIsLongestLiteral(KeepNumericChars(s));
    match LeadingDecimal(KeepNumericChars(s))
    case None => None
    case Some(l) => Some(LiteralValue(l))
  }

  /** A length in rem times the root font size. */
  function Times(rem: real, rootFontSize: real): real {
    rem * rootFontSize
  }

  /** The rem length in pixels, or the error the script throws. */
  function ConvertRemToPixels(rem: RemInput, rootFontSize: real): (r: Result<real, RemError>)
    ensures rem.RemNumber? ==> r.Ok? && r.value == Times(rem.n, rootFontSize)
    ensures rem.RemOther? ==> r == Err(NotNumberOrString)
    ensures rem.RemString? && r.Err? ==> r.error == InvalidRemValue && ParseRem(rem.s).None?
    ensures rem.RemString? && r.Ok? ==> ParseRem(rem.s).Some? && r.value == Times(ParseRem(rem.s).value, rootFontSize)
  {
    if rem.RemNumber? then Ok(Times(rem.n, rootFontSize))
    else if rem.RemString? then
      var v := ParseRem(rem.s);
      if v.None? then Err(InvalidRemValue) else Ok(Times(v.value, rootFontSize))
    else Err(NotNumberOrString)
  }

  /** Text is rejected exactly when its numeric characters do not begin
      with a decimal literal; otherwise the value is that of the longest
      literal they begin with. */
  lemma ConvertRemReadsLongestLiteral(s: string, rootFontSize: real)
    ensures var digits := KeepNumericChars(s);
            ConvertRemToPixels(RemString(s), rootFontSize) == Err(InvalidRemValue) <==>
              forall k :: 0 < k <= |digits| ==> !IsDecimalLiteral(digits[..k])
    ensures var digits := KeepNumericChars(s);
            var r := ConvertRemToPixels(RemString(s), rootFontSize);
            r.Ok? ==>
              exists l :: && LeadingDecimal(digits) == Some(l) && WellSplit(l)
                          && LiteralText(l) <= digits && IsDecimalLiteral(LiteralText(l))
                          && (forall k :: |LiteralText(l)| < k <= |digits| ==> !IsDecimalLiteral(digits[..k]))
                          && r.value == Times(LiteralValue(l), rootFontSize)
  {
    LeadingDecimalIsLongestLiteral(KeepNumericChars(s));
  }

  /** The value is fixed by the text alone: every well-split literal that
      is the longest literal prefix of the reduced text has the value
      `parseFloat` returns. */
  lemma LongestLiteralFixesValue(s: string, l: Literal)
    requires WellSplit(l)
    requires var d := KeepNumericChars(s);
             && LiteralText(l) <= d && IsDecimalLiteral(LiteralText(l))
             && forall k :: |LiteralText(l)| < k <= |d| ==> !IsDecimalLiteral(d[..k])
    ensures ParseRem(s) == Some(LiteralValue(l))
  {
    var d := KeepNumericChars(s);
    var t := LiteralText(l);
    LeadingDecimalIsLongestLiteral(d);
    assert d[..|t|] == t;
    var m := LeadingDecimal(d).value;
    var u := LiteralText(m);
    assert d[..|u|] == u;
    assert |u| == |t|;
    LiteralSplitIsUnique(m, l);
  }

  /** A literal's text determines its split. */
  lemma LiteralSplitIsUnique(a: Literal, b: Literal)
    requires WellSplit(a) && WellSplit(b)
    requires LiteralText(a) == LiteralText(b)
    ensures a == b
  {
    LiteralTextParts(a);
    LiteralTextParts(b);
    var ua, ub := UnsignedText(a), UnsignedText(b);
    assert a.negative == b.negative;
    assert ua == ub;
    assert Tail(a) == Tail(b);
  }

  /** The text after the sign. */
  function UnsignedText(l: Literal): string {
    l.whole + Tail(l)
  }

  /** The text after the whole digits. */
  function Tail(l: Literal): string {
    (if l.hasDot then "." else "") + l.fraction
  }

  /** How a well-split literal's text falls apart again. */
  lemma LiteralTextParts(l: Literal)
    requires WellSplit(l)
    ensures l.negative ==> |LiteralText(l)| > 0 && LiteralText(l)[0] == '-' && LiteralText(l)[1..] == UnsignedText(l)
    ensures !l.negative ==> LiteralText(l) == UnsignedText(l)
    ensures UnsignedText(l) == [] || UnsignedText(l)[0] != '-'
    ensures DigitRun(UnsignedText(l)) == |l.whole|
    ensures l.whole == UnsignedText(l)[..|l.whole|] && Tail(l) == UnsignedText(l)[|l.whole|..]
    ensures l.hasDot <==> Tail(l) != []
    ensures l.hasDot ==> l.fraction == Tail(l)[1..]
  {
    var sign := if l.negative then "-" else "";
    var dot := if l.hasDot then "." else "";
    assert LiteralText(l) == sign + (l.whole + (dot + l.fraction));
    DigitRunStops(l.whole, Tail(l));
  }

  /** A run of digits followed by a non-digit is read in full and no further. */
  lemma {:induction false} DigitRunStops(w: string, rest: string)
    requires AllDigits(w)
    requires rest == [] || !IsDigit(rest[0])
    ensures DigitRun(w + rest) == |w|
  {
    if w != [] {
      assert (w + rest)[1..] == w[1..] + rest;
      DigitRunStops(w[1..], rest);
    }
  }

  // ---------------------------------------------------------------------
  // The scanner finds the longest leading literal.

  /** What the scanner sees in an unsigned run `u`: `w` leading digits and,
      when a '.' follows them, `f` digits after it. */
  predicate ScanShape(u: string, w: nat, dot: bool, f: nat) {
    && w + (if dot then 1 + f else 0) <= |u|
    && (forall i :: 0 <= i < w ==> IsDigit(u[i]))
    && (w < |u| ==> !IsDigit(u[w]))
    && (dot <==> w < |u| && u[w] == '.')
    && (dot ==> forall i :: w + 1 <= i < w + 1 + f ==> IsDigit(u[i]))
    && (dot && w + 1 + f < |u| ==> !IsDigit(u[w + 1 + f]))
    && (!dot ==> f == 0)
  }

  lemma ScanShapeOfRuns(s: string)
    ensures ScanShape(Unsigned(s), WholeRun(s), TakesDot(s), FractionRun(s))
  {
    var u, w := Unsigned(s), WholeRun(s);
    assert forall i :: 0 <= i < w ==> u[..w][i] == u[i];
    if TakesDot(s) {
      var v := u[w + 1..];
      var f := DigitRun(v);
      assert forall i :: w + 1 <= i < w + 1 + f ==> u[i] == v[..f][i - (w + 1)];
      assert w + 1 + f < |u| ==> u[w + 1 + f] == v[f];
    }
  }

  /** Which prefixes of an unsigned run are literals: exactly those that
      have a digit and stop within the digits the scanner takes. */
  lemma UnsignedPrefixes(u: string, k: nat, w: nat, dot: bool, f: nat)
    requires ScanShape(u, w, dot, f) && k <= |u|
    ensures IsUnsignedLiteral(u[..k]) <==> 0 < k <= (if dot then w + 1 + f else w) && (0 < w || 1 < k)
  {
    var longest := if dot then w + 1 + f else w;
    var p := u[..k];
    if 0 < k <= longest && (0 < w || 1 < k) {
      assert forall i :: 0 <= i < |p| ==> p[i] == u[i];
      assert forall i :: 0 <= i < |p| && i != w ==> IsDigit(p[i]);
      if 0 < w {
        assert IsDigit(p[0]);
      } else {
        assert IsDigit(p[1]);
      }
      assert IsUnsignedLiteral(p);
    }
    if k > longest {
      var m := longest;
      assert p[m] == u[m] && !IsDigit(p[m]);
      if dot && p[m] == '.' {
        assert p[w] == '.' && w < m;
      }
      assert !IsUnsignedLiteral(p);
    }
    if w == 0 && k <= 1 {
      assert forall i :: 0 <= i < |p| ==> i == 0 && p[i] == u[0];
      assert !IsUnsignedLiteral(p);
    }
  }

  /** A prefix of length `k` is a literal exactly when it ends after the
      sign, within what the scanner takes, and holds a digit. */
  predicate LiteralPrefixLength(s: string, k: nat) {
    SignLength(s) < k <= SignLength(s) + RunLength(s) && (0 < WholeRun(s) || 1 < k - SignLength(s))
  }

  lemma SignedPrefixes(s: string, k: nat)
    requires 0 < k <= |s|
    ensures IsDecimalLiteral(s[..k]) <==> LiteralPrefixLength(s, k)
  {
    ScanShapeOfRuns(s);
    if s[0] == '-' {
      assert s[..k][1..] == Unsigned(s)[..k - 1];
      UnsignedPrefixes(Unsigned(s), k - 1, WholeRun(s), TakesDot(s), FractionRun(s));
    } else {
      UnsignedPrefixes(s, k, WholeRun(s), TakesDot(s), FractionRun(s));
    }
  }

  /** The text of the literal the scanner returns is the prefix it took. */
  lemma ScannedTextIsPrefix(s: string)
    requires LeadingDecimal(s).Some?
    ensures LiteralText(LeadingDecimal(s).value) == s[..SignLength(s) + RunLength(s)]
  {
    var l := LeadingDecimal(s).value;
    ScannedDigitsArePrefix(s);
    SignThenUnsigned(s, RunLength(s));
    assert LiteralText(l) == (if l.negative then "-" else "") + (l.whole + (if l.hasDot then "." else "") + l.fraction);
  }

  /** Without its sign, the literal is the unsigned prefix the scanner took. */
  lemma ScannedDigitsArePrefix(s: string)
    requires LeadingDecimal(s).Some?
    ensures var l := LeadingDecimal(s).value;
            && l.negative == (SignLength(s) == 1)
            && l.whole + (if l.hasDot then "." else "") + l.fraction == Unsigned(s)[..RunLength(s)]
  {
    var u, w, f := Unsigned(s), WholeRun(s), FractionRun(s);
    RunsArePrefix(u, w, TakesDot(s), f);
  }

  lemma SignThenUnsigned(s: string, n: nat)
    requires n <= |Unsigned(s)|
    ensures s[..SignLength(s) + n] == (if SignLength(s) == 1 then "-" else "") + Unsigned(s)[..n]
  {
    if SignLength(s) == 1 {
      assert s[..1 + n] == [s[0]] + s[1..][..n];
    }
  }

  /** The whole digits, the point and the fraction digits, written one
      after the other, are a prefix of the unsigned text. */
  lemma RunsArePrefix(u: string, w: nat, dot: bool, f: nat)
    requires w + (if dot then 1 + f else 0) <= |u|
    requires dot ==> u[w] == '.'
    ensures u[..w] + (if dot then "." else "") + (if dot then u[w + 1..][..f] else "")
            == u[..if dot then w + 1 + f else w]
  {
    if dot {
      assert u[..w + 1 + f] == u[..w] + [u[w]] + u[w + 1..][..f];
    }
  }

  lemma LeadingDecimalIsLongestLiteral(s: string)
    ensures LeadingDecimal(s) == None <==> forall k :: 0 < k <= |s| ==> !IsDecimalLiteral(s[..k])
    ensures LeadingDecimal(s).Some? ==>
              var t := LiteralText(LeadingDecimal(s).value);
              && t <= s && IsDecimalLiteral(t)
              && forall k :: |t| < k <= |s| ==> !IsDecimalLiteral(s[..k])
  {
    if LeadingDecimal(s) == None {
      NoLiteralPrefix(s);
    } else {
      LongestLiteralPrefix(s);
      var t := LiteralText(LeadingDecimal(s).value);
      assert 0 < |t| && s[..|t|] == t;
    }
  }

  /** When both runs are empty, no prefix is a literal. */
  lemma NoLiteralPrefix(s: string)
    requires LeadingDecimal(s) == None
    ensures forall k :: 0 < k <= |s| ==> !IsDecimalLiteral(s[..k])
  {
    forall k | 0 < k <= |s|
      ensures !IsDecimalLiteral(s[..k])
    {
      SignedPrefixes(s, k);
    }
  }

  /** Otherwise the literal the scanner returns is a prefix, and no longer
      prefix is a literal. */
  lemma LongestLiteralPrefix(s: string)
    requires LeadingDecimal(s).Some?
    ensures var t := LiteralText(LeadingDecimal(s).value);
            && t <= s && IsDecimalLiteral(t)
            && forall k :: |t| < k <= |s| ==> !IsDecimalLiteral(s[..k])
  {
    var n := SignLength(s) + RunLength(s);
    ScannedTextIsPrefix(s);
    SignedPrefixes(s, n);
    forall k | n < k <= |s|
      ensures !IsDecimalLiteral(s[..k])
    {
      SignedPrefixes(s, k);
    }
  }

  // ---------------------------------------------------------------------
  // The value of a literal is the number its digits spell with the point
  // moved left by the length of the fraction.

  lemma LiteralValueShiftsPoint(l: Literal)
    requires AllDigits(l.whole) && AllDigits(l.fraction)
    ensures AllDigits(l.whole + l.fraction)
    ensures var magnitude := PointShifted(DigitsValue(l.whole + l.fraction), |l.fraction|);
            LiteralValue(l) == if l.negative then -magnitude else magnitude
  {
    DigitsValueConcat(l.whole, l.fraction);
    ShiftedSum(DigitsValue(l.whole), DigitsValue(l.fraction), |l.fraction|);
  }

  /** Moving the point past the digits of `w` leaves `w` whole. */
  lemma ShiftedSum(w: nat, f: nat, places: nat)
    ensures PointShifted(w * Pow10(places) + f, places) == w as real + PointShifted(f, places)
  {
    var p := Pow10(places);
    assert (w * p + f) as real == w as real * p as real + f as real;
    MovePoint(w as real, f as real, p as real);
  }

  lemma MovePoint(w: real, f: real, p: real)
    requires p > 0.0
    ensures (w * p + f) / p == w + f / p
  {
  }

  lemma ScanTwoAndAQuarter()
    ensures LeadingDecimal("2.25") == Some(Literal(false, "2", true, "25"))
  {
    assert SignLength("2.25") == 0 && Unsigned("2.25") == "2.25";
    assert DigitRun(".25") == 0;
    assert DigitRun("2.25") == 1;
    assert "2.25"[2..] == "25";
    assert DigitRun("") == 0;
    assert DigitRun("5") == 1;
    assert DigitRun("25") == 2;
    assert WholeRun("2.25") == 1 && TakesDot("2.25") && FractionRun("2.25") == 2;
    assert "2.25"[..1] == "2" && "25"[..2] == "25";
  }

  lemma KeepTwoAndAQuarter()
    ensures KeepNumericChars("2.25rem") == "2.25"
  {
    KeepNumericCharsConcat("2.25", "rem");
    KeepNumericCharsKeepsNumeric("2.25");
    assert KeepNumericChars("rem") == "";
  }

  lemma ParseTwoAndAQuarter()
    ensures ParseRem("2.25rem") == Some(2.25)
  {
    KeepTwoAndAQuarter();
    ScanTwoAndAQuarter();
    ValueTwoAndAQuarter();
  }

  lemma ValueTwoAndAQuarter()
    ensures LiteralValue(Literal(false, "2", true, "25")) == 2.25
  {
    assert "25"[..1] == "2" && "2"[..0] == "";
    assert DigitsValue("2") == 2;
    assert DigitsValue("25") == 25;
    assert Pow10(2) == 100;
    assert PointShifted(25, 2) == 0.25;
  }

  lemma KeepOneHalf()
    ensures KeepNumericChars("0.5rem") == "0.5"
  {
    KeepNumericCharsConcat("0.5", "rem");
    KeepNumericCharsKeepsNumeric("0.5");
    assert KeepNumericChars("rem") == "";
  }

  lemma ScanOneHalf()
    ensures LeadingDecimal("0.5") == Some(Literal(false, "0", true, "5"))
  {
    assert SignLength("0.5") == 0 && Unsigned("0.5") == "0.5";
    assert DigitRun(".5") == 0;
    assert DigitRun("0.5") == 1;
    assert "0.5"[2..] == "5";
    assert DigitRun("") == 0;
    assert DigitRun("5") == 1;
    assert WholeRun("0.5") == 1 && TakesDot("0.5") && FractionRun("0.5") == 1;
    assert "0.5"[..1] == "0" && "5"[..1] == "5";
  }

  lemma ParseOneHalf()
    ensures ParseRem("0.5rem") == Some(0.5)
  {
    KeepOneHalf();
    ScanOneHalf();
    ValueOneHalf();
  }

  lemma ValueOneHalf()
    ensures LiteralValue(Literal(false, "0", true, "5")) == 0.5
  {
    assert "0"[..0] == "" && "5"[..0] == "";
    assert DigitsValue("0") == 0;
    assert DigitsValue("5") == 5;
    assert Pow10(1) == 10;
    assert PointShifted(5, 1) == 0.5;
  }

  /** The two lengths the hencurve script asks for. */
  lemma HencurveLengths(rootFontSize: real)
    ensures ConvertRemToPixels(RemString("2.25rem"), rootFontSize) == Ok(Times(2.25, rootFontSize))
    ensures ConvertRemToPixels(RemString("0.5rem"), rootFontSize) == Ok(Times(0.5, rootFontSize))
  {
    ParseTwoAndAQuarter();
    ParseOneHalf();
  }
}
