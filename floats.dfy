/**
 * TOML v1.0.0 float literals (section "Float") and the formatter's float
 * rule `PrettyTomlDocument._prettify_float`.
 *
 * A float literal is an optional sign followed by `inf` or `nan`, or by a
 * decimal integer part with a fraction (`.` and digits), an exponent
 * (`e` or `E`, an optional sign and digits), or both. The literal is parsed
 * into a `FloatLit`; its number is computed from its digits as a real.
 * The rule itself is a function on the literal text that performs the
 * same string steps as the source, and it is proved equal to rendering a
 * canonical literal (`CanonLit`) that denotes the same number.
 */
module TomlFloat {
  import opened Options
  import opened Text
  import opened TomlInteger

  datatype Sign = NoSign | Plus | Minus

  datatype Exponent = Exponent(marker: char, sign: Sign, digits: string)

  datatype FloatLit =
    | Special(sign: Sign, name: string)
    | Number(sign: Sign, whole: string, frac: Option<string>, exp: Option<Exponent>)

  function SignText(g: Sign): (r: string) {
    match g
    case NoSign => ""
    case Plus => "+"
    case Minus => "-"
  }

  /** The grammar of float literals, on the parsed structure. */
  predicate WellFormed(lit: FloatLit) {
    match lit
    case Special(_, name) => name == "inf" || name == "nan"
    case Number(_, whole, frac, exp) =>
      && ValidDecimalMagnitude(whole)
      && (frac.Some? ==> DigitRun(Decimal, frac.value))
      && (exp.Some? ==> (exp.value.marker == 'e' || exp.value.marker == 'E') && DigitRun(Decimal, exp.value.digits))
      && (frac.Some? || exp.Some?)
  }

  function FracText(frac: Option<string>): (r: string) {
    if frac.Some? then "." + frac.value else ""
  }

  function ExpText(exp: Option<Exponent>): (r: string) {
    if exp.Some? then [exp.value.marker] + (SignText(exp.value.sign) + exp.value.digits) else ""
  }

  /** The text of a literal. */
  function Render(lit: FloatLit): (r: string) {
    match lit
    case Special(g, name) => SignText(g) + name
    case Number(g, whole, frac, exp) => SignText(g) + (whole + (FracText(frac) + ExpText(exp)))
  }

  // ---------------------------------------------------------------------
  // Parsing

  predicate IsDecimalChar(c: char) {
    '0' <= c <= '9' || c == '_'
  }

  /** Digits and separators, as in the integer part, fraction and exponent of a literal. */
  predicate DecimalChars(s: string) {
    forall i :: 0 <= i < |s| ==> IsDecimalChar(s[i])
  }

  /** The longest prefix made of decimal digits and separators. */
  function Span(t: string): (r: string)
    ensures |r| <= |t| && r == t[..|r|]
    ensures DecimalChars(r)
    ensures |r| < |t| ==> !IsDecimalChar(t[|r|])
  {
    if t != [] && IsDecimalChar(t[0]) then [t[0]] + Span(t[1..]) else []
  }

  function ParseSign(s: string): (r: (Sign, string)) {
    if StartsWith(s, "+") then (Plus, s[1..])
    else if StartsWith(s, "-") then (Minus, s[1..])
    else (NoSign, s)
  }

  /** An optional fraction: `.` and the digits after it; and what follows. */
  function ParseFraction(t: string): (r: (Option<string>, string)) {
    if StartsWith(t, ".") then
      var f := Span(t[1..]);
      (Some(f), t[1 + |f|..])
    else (None, t)
  }

  /** An optional exponent that ends the text; `None` if the text is something else. */
  function ParseExponent(t: string): (r: Option<Option<Exponent>>) {
    if t == [] then Some(None)
    else if t[0] == 'e' || t[0] == 'E' then
      var (g, d) := ParseSign(t[1..]);
      Some(Some(Exponent(t[0], g, d)))
    else None
  }

  /** An unsigned decimal float: integer part, then fraction and exponent. */
  function ParseNumber(g: Sign, t: string): (r: Option<FloatLit>) {
    var whole := Span(t);
    var (frac, rest) := ParseFraction(t[|whole|..]);
    var exp := ParseExponent(rest);
    if exp.Some? && WellFormed(Number(g, whole, frac, exp.value)) then Some(Number(g, whole, frac, exp.value))
    else None
  }

  /** The literal a text spells, if it is a float literal. */
  function ParseFloat(s: string): (r: Option<FloatLit>) {
    var (g, t) := ParseSign(s);
    if t == "inf" || t == "nan" then Some(Special(g, t)) else ParseNumber(g, t)
  }

  predicate ValidFloat(s: string) {
    ParseFloat(s).Some?
  }

  lemma {:induction false} SpanOfDigits(a: string, b: string)
    requires DecimalChars(a)
    requires b == [] || !IsDecimalChar(b[0])
    ensures Span(a + b) == a
  {
    if a != [] {
      assert (a + b)[1..] == a[1..] + b;
      SpanOfDigits(a[1..], b);
    }
  }

  lemma ParseSignOf(g: Sign, t: string)
    requires t != [] && t[0] != '+' && t[0] != '-'
    ensures ParseSign(SignText(g) + t) == (g, t)
  {
    if g == NoSign {
      assert SignText(g) + t == t;
    }
  }

  lemma RunIsDecimal(s: string)
    requires DigitRun(Decimal, s) || ValidDecimalMagnitude(s)
    ensures DecimalChars(s)
    ensures s != [] && '0' <= s[0] <= '9'
  {
  }

  lemma ParseFractionOf(frac: Option<string>, x: string)
    requires frac.Some? ==> DigitRun(Decimal, frac.value)
    requires x == [] || x[0] == 'e' || x[0] == 'E'
    ensures ParseFraction(FracText(frac) + x) == (frac, x)
  {
    if frac.Some? {
      var f := frac.value;
      var t := FracText(frac) + x;
      RunIsDecimal(f);
      assert t[1..] == f + x;
      SpanOfDigits(f, x);
      assert t[1 + |f|..] == x;
    } else {
      assert FracText(frac) + x == x;
    }
  }

  lemma ParseExponentOf(exp: Option<Exponent>)
    requires exp.Some? ==> DigitRun(Decimal, exp.value.digits) && (exp.value.marker == 'e' || exp.value.marker == 'E')
    ensures ParseExponent(ExpText(exp)) == Some(exp)
  {
    if exp.Some? {
      var e := exp.value;
      var x := ExpText(exp);
      RunIsDecimal(e.digits);
      assert x[1..] == SignText(e.sign) + e.digits;
      ParseSignOf(e.sign, e.digits);
    }
  }

  /** Parsing the text of a well-formed literal gives the literal back. */
  lemma ParseRender(lit: FloatLit)
    requires WellFormed(lit)
    ensures ParseFloat(Render(lit)) == Some(lit)
  {
    match lit
    case Special(g, name) =>
      ParseSignOf(g, name);
    case Number(g, whole, frac, exp) =>
      RunIsDecimal(whole);
      var x := ExpText(exp);
      var t1 := FracText(frac) + x;
      var t := whole + t1;
      assert Render(lit) == SignText(g) + t;
      ParseSignOf(g, t);
      assert t != "inf" && t != "nan" by {
        assert '0' <= t[0] <= '9';
      }
      assert t1 == [] || t1[0] == '.' || t1[0] == 'e' || t1[0] == 'E';
      SpanOfDigits(whole, t1);
      assert t[|whole|..] == t1;
      ParseFractionOf(frac, x);
      ParseExponentOf(exp);
  }

  lemma ParseFractionText(t: string)
    ensures t == FracText(ParseFraction(t).0) + ParseFraction(t).1
  {
    if StartsWith(t, ".") {
      var f := Span(t[1..]);
      assert t == "." + f + t[1 + |f|..];
    }
  }

  lemma ParseExponentText(t: string)
    requires ParseExponent(t).Some?
    ensures t == ExpText(ParseExponent(t).value)
  {
    if t != [] {
      var (g, d) := ParseSign(t[1..]);
      assert t[1..] == SignText(g) + d;
    }
  }

  lemma RenderParseNumber(g: Sign, t: string)
    requires ParseNumber(g, t).Some?
    ensures WellFormed(ParseNumber(g, t).value)
    ensures Render(ParseNumber(g, t).value) == SignText(g) + t
  {
    var whole := Span(t);
    var t1 := t[|whole|..];
    var p := ParseFraction(t1);
    var e := ParseExponent(p.1);
    assert ParseNumber(g, t).value == Number(g, whole, p.0, e.value);
    ParsedNumberText(g, t, whole, t1, p.0, p.1, e.value);
  }

  lemma ParsedNumberText(g: Sign, t: string, whole: string, t1: string, frac: Option<string>, rest: string, exp: Option<Exponent>)
    requires whole == Span(t) && t1 == t[|whole|..]
    requires (frac, rest) == ParseFraction(t1) && ParseExponent(rest) == Some(exp)
    ensures Render(Number(g, whole, frac, exp)) == SignText(g) + t
  {
    var f, x := FracText(frac), ExpText(exp);
    assert t1 == f + x by {
      ParseFractionText(t1);
      ParseExponentText(rest);
    }
    assert t == whole + t1;
  }

  /** A text the parser accepts is the text of the literal it yields. */
  lemma RenderParse(s: string)
    requires ValidFloat(s)
    ensures WellFormed(ParseFloat(s).value)
    ensures Render(ParseFloat(s).value) == s
  {
    var (g, t) := ParseSign(s);
    assert s == SignText(g) + t;
    if t != "inf" && t != "nan" {
      RenderParseNumber(g, t);
    }
  }

  // ---------------------------------------------------------------------
  // The number a literal denotes

  datatype FloatValue = Finite(r: real) | Infinity(negative: bool) | NaN

  function Pow10(n: nat): (r: real)
    ensures r > 0.0
  {
    if n == 0 then 1.0 else 10.0 * Pow10(n - 1)
  }

  /** The value of the digits after the `.`: `0.f` */
  function FracValue(f: string): (r: real) {
    DigitsValue(f, 10) as real / Pow10(|Remove(f, '_')|)
  }

  function ExpValue(exp: Option<Exponent>): (r: int) {
    if exp.None? then 0
    else
      var d: int := DigitsValue(exp.value.digits, 10);
      if exp.value.sign == Minus then -d else d
  }

  /** `m * 10^e` */
  function Scale(m: real, e: int): (r: real) {
    if e >= 0 then m * Pow10(e) else m / Pow10(-e)
  }

  function Mantissa(whole: string, frac: Option<string>): (r: real) {
    DigitsValue(whole, 10) as real + (if frac.Some? then FracValue(frac.value) else 0.0)
  }

  function LitValue(lit: FloatLit): (r: FloatValue) {
    match lit
    case Special(g, name) => if name == "nan" then NaN else Infinity(g == Minus)
    case Number(g, whole, frac, exp) =>
      var v := Scale(Mantissa(whole, frac), ExpValue(exp));
      Finite(if g == Minus then -v else v)
  }

  /** The number a float literal denotes (IEEE rounding is not modelled). */
  function Value(s: string): (r: FloatValue)
    requires ValidFloat(s)
  {
    LitValue(ParseFloat(s).value)
  }

  /** All digits of the integer part and the fraction are zero. */
  predicate LitIsZero(lit: FloatLit) {
    && lit.Number?
    && IsZeroDigits(lit.whole)
    && (lit.frac.Some? ==> IsZeroDigits(lit.frac.value))
  }

  /** The digit-based replacement of the source's `value == 0.0`. */
  predicate FloatIsZero(s: string)
    requires ValidFloat(s)
  {
    LitIsZero(ParseFloat(s).value)
  }

  // ---------------------------------------------------------------------
  // The rule

  /** `str(int(d))` for a string of decimal digits. */
  function IntText(d: string): (r: string) {
    var z := LStrip(d, '0');
    if z == [] then "0" else z
  }

  /**
   * `number, exponent = x.split("e")` and `"{}e{}".format(number, int(exponent))`
   * when `"e0" in x`; a float literal has at most one `e`, so the split is
   * taken at the first one.
   */
  function NormalizeExponent(x: string): (r: string) {
    if Contains(x, "e0") then
      var i := IndexOf(x, 'e');
      x[..i] + ("e" + IntText(if i < |x| then x[i + 1..] else []))
    else x
  }

  /** `x.rstrip("0")`, then a `0` appended if that leaves a final `.` */
  function StripTrailingZeros(x: string): (r: string) {
    var y := RStrip(x, '0');
    if EndsWith(y, ".") then y + "0" else y
  }

  /**
   * Steps 1 to 4 of `_prettify_float` on the text, with the trailing-zero
   * step limited to literals without an exponent: remove separators, drop
   * a leading `+`, lowercase the exponent marker and strip an `e0...`
   * exponent's leading zeros, and strip trailing zeros of the fraction
   * keeping one digit. The tests look at the text before any step.
   */
  function FloatSteps(s: string): (r: string) {
    var isExponential := 'e' in s || 'E' in s;
    var hasTrailingZeros := EndsWith(s, "0");
    var s2 := DropPlus(Remove(s, '_'));
    var s3 := if isExponential then NormalizeExponent(Lower(s2)) else s2;
    if hasTrailingZeros && !isExponential then StripTrailingZeros(s3) else s3
  }

  /** Steps 1 to 4 as written: the trailing-zero step also runs on exponential literals. */
  function FloatStepsAsWritten(s: string): (r: string) {
    var isExponential := 'e' in s || 'E' in s;
    var hasTrailingZeros := EndsWith(s, "0");
    var s2 := DropPlus(Remove(s, '_'));
    var s3 := if isExponential then NormalizeExponent(Lower(s2)) else s2;
    if hasTrailingZeros then StripTrailingZeros(s3) else s3
  }

  /** `_prettify_float`, corrected: the steps, and every zero written as `0.0`. */
  function PrettifyFloat(s: string): (r: string)
    requires ValidFloat(s)
  {
    if FloatIsZero(s) then "0.0" else FloatSteps(s)
  }

  /** `_prettify_float` as written. */
  function PrettifyFloatAsWritten(s: string): (r: string)
    requires ValidFloat(s)
  {
    if FloatIsZero(s) then "0.0" else FloatStepsAsWritten(s)
  }

  // ---------------------------------------------------------------------
  // The canonical literal

  function DropPlusSign(g: Sign): (r: Sign) {
    if g == Plus then NoSign else g
  }

  /** Fraction digits without trailing zeros, keeping at least one digit. */
  function TrimFraction(f: string): (r: string) {
    var z := RStrip(f, '0');
    if z == [] then "0" else z
  }

  /** Marker `e`, separators removed, leading zeros of an unsigned exponent removed. */
  function CanonExponent(x: Exponent): (r: Exponent) {
    var d := Remove(x.digits, '_');
    Exponent('e', x.sign, if x.sign == NoSign && StartsWith(d, "0") then IntText(d) else d)
  }

  /** The literal the rule produces, stated on the structure. */
  function CanonLit(lit: FloatLit): (r: FloatLit) {
    match lit
    case Special(g, name) => Special(DropPlusSign(g), name)
    case Number(g, whole, frac, exp) =>
      if LitIsZero(lit) then Number(NoSign, "0", Some("0"), None)
      else
        Number(DropPlusSign(g), Remove(whole, '_'),
               if frac.None? then None
               else if exp.None? then Some(TrimFraction(Remove(frac.value, '_')))
               else Some(Remove(frac.value, '_')),
               if exp.None? then None else Some(CanonExponent(exp.value)))
  }

  // ---------------------------------------------------------------------
  // The rule on the text of a literal, step by step

  lemma Associate(a: string, b: string, c: string)
    ensures a + (b + c) == (a + b) + c
  {
  }

  lemma SignTextChars(g: Sign)
    ensures '_' !in SignText(g) && 'e' !in SignText(g) && 'E' !in SignText(g)
    ensures NoUppercase(SignText(g))
    ensures Remove(SignText(g), '_') == SignText(g)
  {
    RemoveAbsent(SignText(g), '_');
  }

  lemma DecimalCharsFacts(s: string)
    requires DecimalChars(s)
    ensures 'e' !in s && 'E' !in s && '.' !in s && '+' !in s && '-' !in s
    ensures NoUppercase(s)
    ensures DecimalChars(Remove(s, '_'))
  {
    forall c | c in Remove(s, '_')
      ensures IsDecimalChar(c)
    {
      assert c in s;
    }
  }

  /** The literal with every `_` removed. */
  function WithoutSeparators(lit: FloatLit): (r: FloatLit) {
    match lit
    case Special(g, name) => lit
    case Number(g, whole, frac, exp) =>
      Number(g, Remove(whole, '_'),
             if frac.None? then None else Some(Remove(frac.value, '_')),
             if exp.None? then None else Some(Exponent(exp.value.marker, exp.value.sign, Remove(exp.value.digits, '_'))))
  }

  lemma RemoveFracText(frac: Option<string>)
    ensures Remove(FracText(frac), '_') == FracText(if frac.None? then None else Some(Remove(frac.value, '_')))
  {
    if frac.Some? {
      RemoveAppend(".", frac.value, '_');
      assert Remove(".", '_') == ".";
    }
  }

  lemma RemoveExpText(exp: Option<Exponent>)
    requires exp.Some? ==> exp.value.marker != '_'
    ensures Remove(ExpText(exp), '_') ==
            ExpText(if exp.None? then None else Some(Exponent(exp.value.marker, exp.value.sign, Remove(exp.value.digits, '_'))))
  {
    if exp.Some? {
      var e := exp.value;
      RemoveAppend([e.marker], SignText(e.sign) + e.digits, '_');
      RemoveAppend(SignText(e.sign), e.digits, '_');
      SignTextChars(e.sign);
      assert Remove([e.marker], '_') == [e.marker] by {
        assert Remove([e.marker], '_') == [e.marker] + Remove([e.marker][1..], '_');
      }
    }
  }

  /** Step 1, `replace("_", "")`. */
  lemma RemoveRender(lit: FloatLit)
    requires WellFormed(lit)
    ensures Remove(Render(lit), '_') == Render(WithoutSeparators(lit))
  {
    match lit
    case Special(g, name) =>
      SignTextChars(g);
      assert '_' !in Render(lit);
      RemoveAbsent(Render(lit), '_');
    case Number(g, whole, frac, exp) =>
      var f, x := FracText(frac), ExpText(exp);
      RemoveAppend(SignText(g), whole + (f + x), '_');
      RemoveAppend(whole, f + x, '_');
      RemoveAppend(f, x, '_');
      SignTextChars(g);
      RemoveFracText(frac);
      RemoveExpText(exp);
  }

  /** Step 2, dropping a leading `+`. */
  lemma DropPlusRender(g: Sign, body: string)
    requires body != [] && body[0] != '+' && body[0] != '-'
    ensures DropPlus(SignText(g) + body) == SignText(DropPlusSign(g)) + body
  {
    if g == NoSign {
      assert SignText(g) + body == body;
    }
  }

  /** The exponential test of the source: an `e` or `E` occurs exactly when there is an exponent. */
  lemma ExponentialIff(lit: FloatLit)
    requires WellFormed(lit)
    ensures ('e' in Render(lit) || 'E' in Render(lit)) <==> lit.Number? && lit.exp.Some?
  {
    SignTextChars(lit.sign);
    match lit
    case Special(g, name) =>
    case Number(g, whole, frac, exp) =>
      RunIsDecimal(whole);
      DecimalCharsFacts(whole);
      if frac.Some? {
        RunIsDecimal(frac.value);
        DecimalCharsFacts(frac.value);
      }
      if exp.Some? {
        assert ExpText(exp)[0] == exp.value.marker;
      }
  }

  /** The literal with its exponent replaced. */
  function WithExponent(lit: FloatLit, x: Exponent): (r: FloatLit)
    requires lit.Number?
  {
    Number(lit.sign, lit.whole, lit.frac, Some(x))
  }

  /** A number whose parts hold only digits and separators. */
  predicate DecimalParts(lit: FloatLit) {
    && lit.Number?
    && DecimalChars(lit.whole)
    && (lit.frac.Some? ==> DecimalChars(lit.frac.value))
    && (lit.exp.Some? ==> DecimalChars(lit.exp.value.digits))
  }

  lemma FracTextChars(frac: Option<string>)
    requires frac.Some? ==> DecimalChars(frac.value)
    ensures NoUppercase(FracText(frac)) && 'e' !in FracText(frac)
  {
    if frac.Some? {
      DecimalCharsFacts(frac.value);
    }
  }

  /** Step 3a, `lower()` on an exponential literal: only the marker changes. */
  lemma LowerRender(lit: FloatLit)
    requires DecimalParts(lit) && lit.exp.Some?
    ensures Lower(Render(lit)) == Render(WithExponent(lit, lit.exp.value.(marker := ToLower(lit.exp.value.marker))))
  {
    var e := lit.exp.value;
    var f, x := FracText(lit.frac), ExpText(lit.exp);
    LowerAppend(SignText(lit.sign), lit.whole + (f + x));
    LowerAppend(lit.whole, f + x);
    LowerAppend(f, x);
    LowerAppend([e.marker], SignText(e.sign) + e.digits);
    SignTextChars(lit.sign);
    SignTextChars(e.sign);
    DecimalCharsFacts(lit.whole);
    DecimalCharsFacts(e.digits);
    FracTextChars(lit.frac);
    LowerOfNoUppercase(SignText(lit.sign));
    LowerOfNoUppercase(lit.whole);
    LowerOfNoUppercase(f);
    LowerOfNoUppercase(SignText(e.sign) + e.digits);
  }

  /** The exponent digits after `NormalizeExponent`. */
  function ExponentDigits(x: Exponent): (r: string) {
    if x.sign == NoSign && StartsWith(x.digits, "0") then IntText(x.digits) else x.digits
  }

  /** `NormalizeExponent` on a text with exactly one `e`. */
  lemma NormalizeExponentSplit(head: string, q: string)
    requires 'e' !in head && 'e' !in q
    ensures NormalizeExponent(head + ("e" + q)) ==
            if StartsWith(q, "0") then head + ("e" + IntText(q)) else head + ("e" + q)
  {
    var r := head + ("e" + q);
    EZeroIff(head, q);
    IndexOfE(head, q);
    var k := |head|;
    assert r[..k] == head;
    assert r[k + 1..] == q;
  }

  lemma EZeroIff(head: string, q: string)
    requires 'e' !in head && 'e' !in q
    ensures Contains(head + ("e" + q), "e0") <==> StartsWith(q, "0")
  {
    ContainsSkip(head, "e" + q, "e0");
    assert ("e" + q)[1..] == q;
    NotContains(q, "e0");
    if |q| >= 1 {
      assert ("e" + q)[..2] == "e" + q[..1];
    }
  }

  lemma IndexOfE(head: string, q: string)
    requires 'e' !in head
    ensures IndexOf(head + ("e" + q), 'e') == |head|
  {
    var r := head + ("e" + q);
    var k := |head|;
    assert r[k] == 'e';
    forall j | 0 <= j < k
      ensures r[j] != 'e'
    {
      assert r[j] == head[j];
    }
  }

  /** Render with the text before the exponent digits grouped. */
  lemma RenderExponential(lit: FloatLit)
    requires lit.Number? && lit.exp.Some?
    ensures Render(lit) == (SignText(lit.sign) + (lit.whole + FracText(lit.frac))) +
                           ([lit.exp.value.marker] + (SignText(lit.exp.value.sign) + lit.exp.value.digits))
  {
    var S, w, f := SignText(lit.sign), lit.whole, FracText(lit.frac);
    var x := ExpText(lit.exp);
    Associate(w, f, x);
    Associate(S, w + f, x);
  }

  /** Step 3b, the `e0` test, the split at `e` and `int()` of the exponent. */
  lemma NormalizeExponentRender(lit: FloatLit)
    requires DecimalParts(lit) && lit.exp.Some? && lit.exp.value.marker == 'e'
    ensures NormalizeExponent(Render(lit)) ==
            Render(WithExponent(lit, lit.exp.value.(digits := ExponentDigits(lit.exp.value))))
  {
    var e := lit.exp.value;
    var head := SignText(lit.sign) + (lit.whole + FracText(lit.frac));
    var q := SignText(e.sign) + e.digits;
    var d := ExponentDigits(e);
    var lit' := WithExponent(lit, e.(digits := d));
    assert 'e' !in head && 'e' !in q by {
      SignTextChars(lit.sign);
      SignTextChars(e.sign);
      DecimalCharsFacts(lit.whole);
      DecimalCharsFacts(e.digits);
      FracTextChars(lit.frac);
    }
    assert Render(lit) == head + ("e" + q) by {
      RenderExponential(lit);
    }
    assert Render(lit') == head + ("e" + (SignText(e.sign) + d)) by {
      RenderExponential(lit');
    }
    NormalizeExponentOf(e, head);
  }

  lemma NormalizeExponentOf(e: Exponent, head: string)
    requires 'e' !in head && 'e' !in SignText(e.sign) + e.digits
    ensures NormalizeExponent(head + ("e" + (SignText(e.sign) + e.digits))) ==
            head + ("e" + (SignText(e.sign) + ExponentDigits(e)))
  {
    var q := SignText(e.sign) + e.digits;
    if e.sign == NoSign {
      assert q == e.digits;
      assert SignText(e.sign) + ExponentDigits(e) == ExponentDigits(e);
      NormalizeExponentSplit(head, e.digits);
    } else {
      assert !StartsWith(q, "0") by {
        assert q[0] == '+' || q[0] == '-';
      }
      assert ExponentDigits(e) == e.digits;
      NormalizeExponentSplit(head, q);
    }
  }

  /** Step 4, `rstrip("0")` and the re-added `0`, on a literal without exponent. */
  lemma StripTrailingZerosRender(lit: FloatLit)
    requires lit.Number? && lit.exp.None? && lit.frac.Some?
    requires AllDigits(Decimal, lit.frac.value)
    ensures StripTrailingZeros(Render(lit)) == Render(lit.(frac := Some(TrimFraction(lit.frac.value))))
  {
    var f := lit.frac.value;
    var P := SignText(lit.sign) + (lit.whole + ".");
    var t := TrimFraction(f);
    RenderFraction(lit, f);
    RenderFraction(lit, t);
    assert lit.(frac := Some(f)) == lit;
    var z := RStrip(f, '0');
    if z != [] {
      RStripAppend(P, f, '0');
      assert (P + z)[|P + z| - 1] == z[|z| - 1];
      assert !EndsWith(P + z, ".");
    } else {
      RStripAppendVanishing(P, f, '0');
      assert P[|P| - 1] == '.';
      assert RStrip(P, '0') == P;
    }
  }

  /** The text of a literal without exponent whose fraction is `f`. */
  lemma RenderFraction(lit: FloatLit, f: string)
    requires lit.Number? && lit.exp.None?
    ensures Render(lit.(frac := Some(f))) == SignText(lit.sign) + (lit.whole + ".") + f
  {
    assert FracText(Some(f)) + ExpText(lit.exp) == "." + f;
    Associate(lit.whole, ".", f);
    Associate(SignText(lit.sign), lit.whole + ".", f);
  }

  /** The literal after steps 1 and 2: separators removed and `+` dropped. */
  function Cleaned(lit: FloatLit): (r: FloatLit)
    requires lit.Number?
  {
    var l := WithoutSeparators(lit);
    Number(DropPlusSign(lit.sign), l.whole, l.frac, l.exp)
  }

  lemma MagnitudeRemove(whole: string)
    requires ValidDecimalMagnitude(whole)
    ensures Remove(whole, '_') != [] && Remove(whole, '_')[0] == whole[0]
    ensures AllDigits(Decimal, Remove(whole, '_'))
  {
    if whole == "0" {
      assert Remove(whole, '_') == "0";
    } else {
      RunRemoveFirst(Decimal, whole);
    }
  }

  lemma AllDigitsDecimalChars(s: string)
    requires AllDigits(Decimal, s)
    ensures DecimalChars(s)
  {
  }

  /** The parts of `Cleaned(lit)` hold digits only. */
  predicate DigitParts(lit: FloatLit) {
    && lit.Number?
    && AllDigits(Decimal, lit.whole) && lit.whole != [] && '0' <= lit.whole[0] <= '9'
    && (lit.frac.Some? ==> AllDigits(Decimal, lit.frac.value) && lit.frac.value != [])
    && (lit.exp.Some? ==> AllDigits(Decimal, lit.exp.value.digits) && lit.exp.value.digits != [])
  }

  lemma DigitPartsDecimal(lit: FloatLit)
    requires DigitParts(lit)
    ensures DecimalParts(lit)
  {
    AllDigitsDecimalChars(lit.whole);
    if lit.frac.Some? {
      AllDigitsDecimalChars(lit.frac.value);
    }
    if lit.exp.Some? {
      AllDigitsDecimalChars(lit.exp.value.digits);
    }
  }

  /** Steps 1 and 2 on the text of a number. */
  lemma CleanRender(lit: FloatLit)
    requires WellFormed(lit) && lit.Number?
    ensures DropPlus(Remove(Render(lit), '_')) == Render(Cleaned(lit))
    ensures DigitParts(Cleaned(lit))
  {
    var l := WithoutSeparators(lit);
    RemoveRender(lit);
    MagnitudeRemove(lit.whole);
    var body := l.whole + (FracText(l.frac) + ExpText(l.exp));
    assert body[0] == lit.whole[0];
    DropPlusRender(lit.sign, body);
    if lit.frac.Some? {
      RunRemoveFirst(Decimal, lit.frac.value);
    }
    if lit.exp.Some? {
      RunRemoveFirst(Decimal, lit.exp.value.digits);
    }
  }

  lemma RemoveKeepsLast(s: string)
    requires s != [] && s[|s| - 1] != '_'
    ensures Remove(s, '_') != [] && Remove(s, '_')[|Remove(s, '_')| - 1] == s[|s| - 1]
  {
    var n := |s|;
    assert s == s[..n - 1] + [s[n - 1]];
    RemoveAppend(s[..n - 1], [s[n - 1]], '_');
    assert Remove([s[n - 1]], '_') == [s[n - 1]] by {
      assert Remove([s[n - 1]], '_') == [s[n - 1]] + Remove([s[n - 1]][1..], '_');
    }
  }

  lemma TrimWithoutTrailingZero(f: string)
    requires f != [] && f[|f| - 1] != '0'
    ensures TrimFraction(f) == f
  {
  }

  /** The last character of a literal without exponent is the last fraction digit. */
  lemma LastOfFraction(lit: FloatLit)
    requires lit.Number? && lit.exp.None? && lit.frac.Some? && lit.frac.value != []
    ensures var r := Render(lit); r != [] && r[|r| - 1] == lit.frac.value[|lit.frac.value| - 1]
  {
    var f := lit.frac.value;
    assert FracText(lit.frac) + ExpText(lit.exp) == "." + f;
  }

  lemma SpecialCase(lit: FloatLit)
    requires WellFormed(lit) && lit.Special?
    ensures ValidFloat(Render(lit))
    ensures PrettifyFloat(Render(lit)) == Render(CanonLit(lit))
  {
    var s := Render(lit);
    ParseRender(lit);
    ExponentialIff(lit);
    RemoveRender(lit);
    DropPlusRender(lit.sign, lit.name);
    assert !EndsWith(s, "0") by {
      assert s[|s| - 1] == lit.name[2];
    }
  }

  lemma ZeroCase(lit: FloatLit)
    requires WellFormed(lit) && LitIsZero(lit)
    ensures ValidFloat(Render(lit))
    ensures PrettifyFloat(Render(lit)) == Render(CanonLit(lit)) == "0.0"
  {
    ParseRender(lit);
    assert Render(Number(NoSign, "0", Some("0"), None)) == "0.0";
  }

  lemma ExponentialCase(lit: FloatLit)
    requires WellFormed(lit) && lit.Number? && lit.exp.Some? && !LitIsZero(lit)
    ensures ValidFloat(Render(lit))
    ensures PrettifyFloat(Render(lit)) == Render(CanonLit(lit))
  {
    ExponentialSteps(lit);
    ExponentialCanon(lit);
  }

  lemma ExponentialSteps(lit: FloatLit)
    requires WellFormed(lit) && lit.Number? && lit.exp.Some? && !LitIsZero(lit)
    ensures ValidFloat(Render(lit))
    ensures PrettifyFloat(Render(lit)) == NormalizeExponent(Lower(Render(Cleaned(lit))))
  {
    ParseRender(lit);
    ExponentialIff(lit);
    CleanRender(lit);
  }

  lemma ExponentialCanon(lit: FloatLit)
    requires WellFormed(lit) && lit.Number? && lit.exp.Some? && !LitIsZero(lit)
    ensures NormalizeExponent(Lower(Render(Cleaned(lit)))) == Render(CanonLit(lit))
  {
    var c := Cleaned(lit);
    CleanRender(lit);
    DigitPartsDecimal(c);
    LowerRender(c);
    var e := c.exp.value;
    var c1 := WithExponent(c, e.(marker := 'e'));
    assert ToLower(e.marker) == 'e';
    NormalizeExponentRender(c1);
    CleanedExponentCanon(lit);
  }

  /** Lower-casing the marker and normalising the exponent digits of the cleaned literal give the canonical one. */
  lemma CleanedExponentCanon(lit: FloatLit)
    requires lit.Number? && lit.exp.Some? && !LitIsZero(lit)
    ensures var c1 := WithExponent(Cleaned(lit), Cleaned(lit).exp.value.(marker := 'e'));
            WithExponent(c1, c1.exp.value.(digits := ExponentDigits(c1.exp.value))) == CanonLit(lit)
  {
  }

  lemma FractionCase(lit: FloatLit)
    requires WellFormed(lit) && lit.Number? && lit.exp.None? && !LitIsZero(lit)
    ensures ValidFloat(Render(lit))
    ensures PrettifyFloat(Render(lit)) == Render(CanonLit(lit))
  {
    var s := Render(lit);
    var c := Cleaned(lit);
    var f := lit.frac.value;
    var f' := Remove(f, '_');
    assert PrettifyFloat(s) == if EndsWith(s, "0") then StripTrailingZeros(Render(c)) else Render(c) by {
      ParseRender(lit);
      ExponentialIff(lit);
      CleanRender(lit);
    }
    CleanRender(lit);
    assert EndsWith(s, "0") <==> f'[|f'| - 1] == '0' by {
      LastOfFraction(lit);
      RemoveKeepsLast(f);
    }
    if EndsWith(s, "0") {
      StripTrailingZerosRender(c);
      assert c.(frac := Some(TrimFraction(f'))) == CanonLit(lit);
    } else {
      TrimWithoutTrailingZero(f');
      assert c == CanonLit(lit);
    }
  }

  /**
   * The rule on the text of any well-formed literal is the text of its
   * canonical literal.
   */
  lemma PrettifyFloatRender(lit: FloatLit)
    requires WellFormed(lit)
    ensures ValidFloat(Render(lit))
    ensures PrettifyFloat(Render(lit)) == Render(CanonLit(lit))
  {
    if lit.Special? {
      SpecialCase(lit);
    } else if LitIsZero(lit) {
      ZeroCase(lit);
    } else if lit.exp.Some? {
      ExponentialCase(lit);
    } else {
      FractionCase(lit);
    }
  }

  // ---------------------------------------------------------------------
  // Properties of the canonical literal

  lemma DigitsFormRun(s: string)
    requires AllDigits(Decimal, s) && s != []
    ensures DigitRun(Decimal, s)
  {
    NoSeparatorNoDouble(s);
  }

  lemma TrimFractionDigits(f: string)
    requires AllDigits(Decimal, f)
    ensures AllDigits(Decimal, TrimFraction(f)) && TrimFraction(f) != []
    ensures TrimFraction(f) == "0" || TrimFraction(f)[|TrimFraction(f)| - 1] != '0'
  {
  }

  lemma IntTextDigits(d: string)
    requires AllDigits(Decimal, d)
    ensures AllDigits(Decimal, IntText(d)) && IntText(d) != []
    ensures IntText(d) == "0" || IntText(d)[0] != '0'
  {
    var z := LStrip(d, '0');
    if z == [] {
      assert IntText(d) == "0";
      assert AllDigits(Decimal, "0") by {
        assert "0"[0] == '0';
      }
    } else {
      assert IntText(d) == z && z[0] != '0';
      assert AllDigits(Decimal, z) by {
        forall i | 0 <= i < |z|
          ensures IsDigitIn(Decimal, z[i])
        {
          assert z[i] == d[|d| - |z| + i];
        }
      }
    }
  }

  lemma CanonExponentDigits(x: Exponent)
    requires DigitRun(Decimal, x.digits)
    ensures AllDigits(Decimal, CanonExponent(x).digits) && CanonExponent(x).digits != []
  {
    RunRemoveFirst(Decimal, x.digits);
    IntTextDigits(Remove(x.digits, '_'));
  }

  /** The canonical literal is a float literal. */
  lemma CanonWellFormed(lit: FloatLit)
    requires WellFormed(lit)
    ensures WellFormed(CanonLit(lit))
  {
    if lit.Number? && !LitIsZero(lit) {
      var c := CanonLit(lit);
      MagnitudeRemove(lit.whole);
      if lit.whole != "0" {
        DigitsFormRun(c.whole);
      }
      if lit.frac.Some? {
        RunRemoveFirst(Decimal, lit.frac.value);
        TrimFractionDigits(Remove(lit.frac.value, '_'));
        DigitsFormRun(c.frac.value);
      }
      if lit.exp.Some? {
        CanonExponentDigits(lit.exp.value);
        DigitsFormRun(c.exp.value.digits);
      }
    }
  }

  lemma FracValueRemove(f: string)
    ensures FracValue(Remove(f, '_')) == FracValue(f)
  {
    DigitsValueRemove(f, 10);
    RemoveAbsent(Remove(f, '_'), '_');
  }

  lemma CancelTen(a: real, b: real)
    requires b > 0.0
    ensures (a * 10.0) / (10.0 * b) == a / b
  {
  }

  /** Trailing zeros of a fraction do not change its value. */
  lemma {:induction false} FracValueRStrip(f: string)
    requires AllDigits(Decimal, f)
    ensures FracValue(RStrip(f, '0')) == FracValue(f)
    decreases |f|
  {
    var n := |f|;
    if f != [] && f[n - 1] == '0' {
      var g := f[..n - 1];
      assert f == g + ['0'];
      DigitsValueSnoc(g, '0', 10);
      RemoveAbsent(f, '_');
      RemoveAbsent(g, '_');
      CancelTen(DigitsValue(g, 10) as real, Pow10(|g|));
      assert FracValue(f) == FracValue(g);
      FracValueRStrip(g);
    }
  }

  lemma FracValueTrim(f: string)
    requires AllDigits(Decimal, f)
    ensures FracValue(TrimFraction(f)) == FracValue(f)
  {
    FracValueRStrip(f);
    if RStrip(f, '0') == [] {
      assert DigitsValue("0", 10) == 0 by {
        assert "0"[..0] == [];
      }
      assert FracValue("0") == 0.0;
    }
  }

  lemma IntTextValue(d: string)
    ensures DigitsValue(IntText(d), 10) == DigitsValue(d, 10)
  {
    DigitsValueLStrip(d, 10);
    assert DigitsValue("0", 10) == 0 by {
      assert "0"[..0] == [];
    }
  }

  lemma CanonExponentValue(x: Exponent)
    ensures DigitsValue(CanonExponent(x).digits, 10) == DigitsValue(x.digits, 10)
    ensures CanonExponent(x).sign == x.sign
  {
    DigitsValueRemove(x.digits, 10);
    IntTextValue(Remove(x.digits, '_'));
  }

  lemma ScaleZero(m: real, e: int)
    ensures Scale(m, e) == 0.0 <==> m == 0.0
  {
  }

  lemma FracValueZero(f: string)
    ensures FracValue(f) >= 0.0
    ensures FracValue(f) == 0.0 <==> DigitsValue(f, 10) == 0
  {
    var d := DigitsValue(f, 10) as real;
    var p := Pow10(|Remove(f, '_')|);
    assert p > 0.0;
    assert d >= 0.0;
    assert FracValue(f) == d / p;
  }

  lemma MantissaZero(whole: string, frac: Option<string>)
    ensures Mantissa(whole, frac) == 0.0 <==>
              DigitsValue(whole, 10) == 0 && (frac.Some? ==> DigitsValue(frac.value, 10) == 0)
  {
    if frac.Some? {
      FracValueZero(frac.value);
    }
  }

  /** The digit-based zero test agrees with the value. */
  lemma LitZeroTest(lit: FloatLit)
    requires WellFormed(lit)
    ensures LitIsZero(lit) <==> LitValue(lit) == Finite(0.0)
  {
    if lit.Number? {
      RunIsDigitsOrSeparators(Decimal, lit.whole);
      ZeroDigitsIffZeroValue(Decimal, lit.whole);
      if lit.frac.Some? {
        RunIsDigitsOrSeparators(Decimal, lit.frac.value);
        ZeroDigitsIffZeroValue(Decimal, lit.frac.value);
      }
      var m := Mantissa(lit.whole, lit.frac);
      MantissaZero(lit.whole, lit.frac);
      ScaleZero(m, ExpValue(lit.exp));
    }
  }

  /** The canonical literal denotes the same number. */
  lemma CanonValue(lit: FloatLit)
    requires WellFormed(lit)
    ensures LitValue(CanonLit(lit)) == LitValue(lit)
  {
    if lit.Number? {
      if LitIsZero(lit) {
        CanonValueZero(lit);
      } else {
        CanonMantissa(lit);
        CanonExpValue(lit);
        SameParts(CanonLit(lit), lit);
      }
    }
  }

  lemma CanonValueZero(lit: FloatLit)
    requires WellFormed(lit) && LitIsZero(lit)
    ensures LitValue(CanonLit(lit)) == LitValue(lit)
  {
    LitZeroTest(lit);
    assert LitIsZero(CanonLit(lit));
    CanonWellFormed(lit);
    LitZeroTest(CanonLit(lit));
  }

  lemma CanonMantissa(lit: FloatLit)
    requires WellFormed(lit) && lit.Number? && !LitIsZero(lit)
    ensures CanonLit(lit).Number?
    ensures Mantissa(CanonLit(lit).whole, CanonLit(lit).frac) == Mantissa(lit.whole, lit.frac)
  {
    DigitsValueRemove(lit.whole, 10);
    if lit.frac.Some? {
      FracValueRemove(lit.frac.value);
      if lit.exp.None? {
        RunRemoveFirst(Decimal, lit.frac.value);
        FracValueTrim(Remove(lit.frac.value, '_'));
      }
    }
  }

  lemma CanonExpValue(lit: FloatLit)
    requires WellFormed(lit) && lit.Number? && !LitIsZero(lit)
    ensures CanonLit(lit).Number? && ExpValue(CanonLit(lit).exp) == ExpValue(lit.exp)
  {
    if lit.exp.Some? {
      CanonExponentValue(lit.exp.value);
    }
  }

  /** Two numbers with the same sign, mantissa and exponent have the same value. */
  lemma SameParts(a: FloatLit, b: FloatLit)
    requires a.Number? && b.Number? && (a.sign == Minus <==> b.sign == Minus)
    requires Mantissa(a.whole, a.frac) == Mantissa(b.whole, b.frac)
    requires ExpValue(a.exp) == ExpValue(b.exp)
    ensures LitValue(a) == LitValue(b)
  {
  }

  lemma TrimFractionIdempotent(f: string)
    requires AllDigits(Decimal, f)
    ensures TrimFraction(TrimFraction(f)) == TrimFraction(f)
  {
    TrimFractionDigits(f);
    var t := TrimFraction(f);
    if t == "0" {
      assert RStrip("0", '0') == RStrip("", '0');
    }
  }

  lemma CanonExponentIdempotent(x: Exponent)
    requires DigitRun(Decimal, x.digits)
    ensures CanonExponent(CanonExponent(x)) == CanonExponent(x)
  {
    var d := Remove(x.digits, '_');
    RunRemoveFirst(Decimal, x.digits);
    var c := CanonExponent(x);
    RemoveAbsent(c.digits, '_');
    if x.sign == NoSign && StartsWith(d, "0") {
      IntTextDigits(d);
      if c.digits == "0" {
        assert LStrip("0", '0') == LStrip("", '0');
      }
    }
  }

  /** The canonical literal is its own canonical literal. */
  lemma CanonIdempotent(lit: FloatLit)
    requires WellFormed(lit)
    ensures CanonLit(CanonLit(lit)) == CanonLit(lit)
  {
    var c := CanonLit(lit);
    if lit.Number? && !LitIsZero(lit) {
      assert !LitIsZero(c) by {
        CanonWellFormed(lit);
        CanonValue(lit);
        LitZeroTest(lit);
        LitZeroTest(c);
      }
      MagnitudeRemove(lit.whole);
      RemoveAbsent(c.whole, '_');
      if lit.frac.Some? {
        RunRemoveFirst(Decimal, lit.frac.value);
        TrimFractionDigits(Remove(lit.frac.value, '_'));
        RemoveAbsent(c.frac.value, '_');
        if lit.exp.None? {
          TrimFractionIdempotent(Remove(lit.frac.value, '_'));
        }
      }
      if lit.exp.Some? {
        CanonExponentIdempotent(lit.exp.value);
      }
    } else if lit.Number? {
      assert LitIsZero(c);
    }
  }

  /** The canonical literal has no `+` sign, digits only in its parts and the marker `e`. */
  lemma CanonParts(lit: FloatLit)
    requires WellFormed(lit)
    ensures CanonLit(lit).sign != Plus
    ensures CanonLit(lit).Special? ==> WellFormed(CanonLit(lit))
    ensures CanonLit(lit).Number? ==> DigitParts(CanonLit(lit))
    ensures CanonLit(lit).Number? && CanonLit(lit).exp.Some? ==> CanonLit(lit).exp.value.marker == 'e'
  {
    var c := CanonLit(lit);
    if lit.Number? && !LitIsZero(lit) {
      MagnitudeRemove(lit.whole);
      if lit.frac.Some? {
        RunRemoveFirst(Decimal, lit.frac.value);
        TrimFractionDigits(Remove(lit.frac.value, '_'));
      }
      if lit.exp.Some? {
        CanonExponentDigits(lit.exp.value);
      }
    }
  }

  lemma DigitPartsText(c: FloatLit)
    requires DigitParts(c) && c.sign != Plus
    requires c.exp.Some? ==> c.exp.value.marker == 'e'
    ensures var r := Render(c); '_' !in r && 'E' !in r && r != [] && r[0] != '+'
  {
    SignTextChars(c.sign);
    DigitPartsDecimal(c);
    DecimalCharsFacts(c.whole);
    assert '_' !in c.whole;
    if c.frac.Some? {
      assert '_' !in c.frac.value;
      DecimalCharsFacts(c.frac.value);
    }
    if c.exp.Some? {
      SignTextChars(c.exp.value.sign);
      assert '_' !in c.exp.value.digits;
      DecimalCharsFacts(c.exp.value.digits);
    }
    var r := Render(c);
    assert r[0] == '-' || r[0] == c.whole[0];
  }

  /** The text of a canonical literal has no `_`, no `E` and no leading `+`. */
  lemma CanonText(lit: FloatLit)
    requires WellFormed(lit)
    ensures var r := Render(CanonLit(lit));
            '_' !in r && 'E' !in r && r != [] && r[0] != '+'
  {
    var c := CanonLit(lit);
    CanonParts(lit);
    if c.Number? {
      DigitPartsText(c);
    } else {
      SignTextChars(c.sign);
      assert Render(c)[0] == '-' || Render(c)[0] == c.name[0];
    }
  }

  // ---------------------------------------------------------------------
  // Properties of the rule on literal texts

  /** The rule renders the canonical literal of the text it is given. */
  lemma PrettifyFloatSpec(s: string)
    requires ValidFloat(s)
    ensures PrettifyFloat(s) == Render(CanonLit(ParseFloat(s).value))
    ensures ParseFloat(PrettifyFloat(s)) == Some(CanonLit(ParseFloat(s).value))
  {
    var lit := ParseFloat(s).value;
    RenderParse(s);
    PrettifyFloatRender(lit);
    CanonWellFormed(lit);
    ParseRender(CanonLit(lit));
  }

  /**
   * The result is a float literal denoting the same number, with no `_`,
   * no `E` and no leading `+`.
   */
  lemma PrettifyFloatCanonical(s: string)
    requires ValidFloat(s)
    ensures ValidFloat(PrettifyFloat(s))
    ensures Value(PrettifyFloat(s)) == Value(s)
    ensures var r := PrettifyFloat(s); '_' !in r && 'E' !in r && r != [] && r[0] != '+'
  {
    var lit := ParseFloat(s).value;
    PrettifyFloatSpec(s);
    RenderParse(s);
    CanonValue(lit);
    CanonText(lit);
  }

  /** The digit-based zero test agrees with the numeric one (the source's `value == 0.0`). */
  lemma FloatZeroTest(s: string)
    requires ValidFloat(s)
    ensures FloatIsZero(s) <==> Value(s) == Finite(0.0)
  {
    RenderParse(s);
    LitZeroTest(ParseFloat(s).value);
  }

  /** The canonical literal is written `0.0` exactly when the literal is zero. */
  lemma CanonZeroIff(lit: FloatLit)
    requires WellFormed(lit)
    ensures Render(CanonLit(lit)) == "0.0" <==> LitIsZero(lit)
  {
    var zero := Number(NoSign, "0", Some("0"), None);
    assert Render(zero) == "0.0";
    if Render(CanonLit(lit)) == "0.0" {
      assert WellFormed(zero);
      ParseRender(zero);
      CanonWellFormed(lit);
      ParseRender(CanonLit(lit));
      assert CanonLit(lit) == zero;
      CanonValue(lit);
      LitZeroTest(lit);
      LitZeroTest(zero);
    }
  }

  /** Exactly the literals whose value is zero become `0.0` (`-0e23141` too). */
  lemma PrettifyFloatZero(s: string)
    requires ValidFloat(s)
    ensures PrettifyFloat(s) == "0.0" <==> FloatIsZero(s)
  {
    RenderParse(s);
    PrettifyFloatSpec(s);
    CanonZeroIff(ParseFloat(s).value);
  }

  /** Applying the rule twice is applying it once. */
  lemma PrettifyFloatIdempotent(s: string)
    requires ValidFloat(s)
    ensures ValidFloat(PrettifyFloat(s))
    ensures PrettifyFloat(PrettifyFloat(s)) == PrettifyFloat(s)
  {
    var lit := ParseFloat(s).value;
    PrettifyFloatSpec(s);
    RenderParse(s);
    var r := PrettifyFloat(s);
    PrettifyFloatSpec(r);
    CanonIdempotent(lit);
  }

  lemma CanonFraction(lit: FloatLit)
    requires WellFormed(lit) && lit.Number? && lit.exp.None? && !LitIsZero(lit)
    ensures var c := CanonLit(lit);
            && c.Number?
            && c.sign == DropPlusSign(lit.sign)
            && c.whole == Remove(lit.whole, '_')
            && c.exp.None?
            && c.frac == Some(TrimFraction(Remove(lit.frac.value, '_')))
            && c.frac.value != []
            && (c.frac.value == "0" || c.frac.value[|c.frac.value| - 1] != '0')
  {
    RunRemoveFirst(Decimal, lit.frac.value);
    TrimFractionDigits(Remove(lit.frac.value, '_'));
  }

  /**
   * A non-zero literal without exponent keeps its integer digits, and its
   * fraction loses its separators and trailing zeros but keeps at least
   * one digit (`67.890` becomes `67.89`, `5.0` stays `5.0`).
   */
  lemma PrettifyFloatFraction(s: string)
    requires ValidFloat(s)
    requires var lit := ParseFloat(s).value; lit.Number? && lit.exp.None? && lit.frac.Some? && !LitIsZero(lit)
    ensures ValidFloat(PrettifyFloat(s))
    ensures var lit := ParseFloat(s).value;
            var c := ParseFloat(PrettifyFloat(s)).value;
            && c.Number?
            && c.sign == DropPlusSign(lit.sign)
            && c.whole == Remove(lit.whole, '_')
            && c.exp.None?
            && c.frac == Some(TrimFraction(Remove(lit.frac.value, '_')))
            && c.frac.value != []
            && (c.frac.value == "0" || c.frac.value[|c.frac.value| - 1] != '0')
  {
    var lit := ParseFloat(s).value;
    PrettifyFloatSpec(s);
    RenderParse(s);
    CanonFraction(lit);
  }

  lemma CanonExponentShape(x: Exponent)
    requires DigitRun(Decimal, x.digits)
    ensures var e := CanonExponent(x);
            && e.marker == 'e' && e.sign == x.sign
            && DigitsValue(e.digits, 10) == DigitsValue(x.digits, 10)
            && (x.sign == NoSign ==> e.digits == "0" || e.digits[0] != '0')
            && (x.sign != NoSign ==> e.digits == Remove(x.digits, '_'))
  {
    CanonExponentValue(x);
    RunRemoveFirst(Decimal, x.digits);
    var d := Remove(x.digits, '_');
    if x.sign == NoSign && StartsWith(d, "0") {
      IntTextDigits(d);
    }
  }

  /**
   * A non-zero literal with exponent keeps its mantissa digits and the
   * exponent's sign; the marker becomes `e`; an unsigned exponent loses its
   * leading zeros (`3e04` becomes `3e4`), a signed one only its separators
   * (`1e-05` stays `1e-05`); the exponent's value is unchanged.
   */
  lemma PrettifyFloatExponent(s: string)
    requires ValidFloat(s)
    requires var lit := ParseFloat(s).value; lit.Number? && lit.exp.Some? && !LitIsZero(lit)
    ensures ValidFloat(PrettifyFloat(s))
    ensures var lit := ParseFloat(s).value;
            var x := lit.exp.value;
            var c := ParseFloat(PrettifyFloat(s)).value;
            && c.Number?
            && c.whole == Remove(lit.whole, '_')
            && c.frac == (if lit.frac.None? then None else Some(Remove(lit.frac.value, '_')))
            && c.exp.Some? && c.exp.value.marker == 'e' && c.exp.value.sign == x.sign
            && DigitsValue(c.exp.value.digits, 10) == DigitsValue(x.digits, 10)
            && (x.sign == NoSign ==> c.exp.value.digits == "0" || c.exp.value.digits[0] != '0')
            && (x.sign != NoSign ==> c.exp.value.digits == Remove(x.digits, '_'))
  {
    var lit := ParseFloat(s).value;
    PrettifyFloatSpec(s);
    RenderParse(s);
    CanonExponentShape(lit.exp.value);
  }

  // ---------------------------------------------------------------------
  // The rule as written

  /**
   * The source's rule differs from `PrettifyFloat` only on a non-zero
   * exponential literal whose text ends in `0`, where it also strips the
   * exponent's trailing zeros.
   */
  lemma AsWrittenDiffers(s: string)
    requires ValidFloat(s)
    ensures !(('e' in s || 'E' in s) && EndsWith(s, "0")) ==> PrettifyFloatAsWritten(s) == PrettifyFloat(s)
    ensures ('e' in s || 'E' in s) && EndsWith(s, "0") && !FloatIsZero(s) ==>
              PrettifyFloatAsWritten(s) == StripTrailingZeros(PrettifyFloat(s))
  {
  }

  function OneE(digits: string): (r: FloatLit) {
    Number(NoSign, "1", None, Some(Exponent('e', NoSign, digits)))
  }

  lemma OneEText(digits: string)
    requires DigitRun(Decimal, digits)
    ensures WellFormed(OneE(digits)) && Render(OneE(digits)) == "1e" + digits
    ensures ParseFloat("1e" + digits) == Some(OneE(digits))
  {
    assert ValidDecimalMagnitude("1");
    ParseRender(OneE(digits));
  }

  /** A `1e...` literal whose exponent digits start with a non-zero digit is canonical. */
  lemma OneECanonical(digits: string)
    requires AllDigits(Decimal, digits) && digits != [] && digits[0] != '0'
    ensures ValidFloat("1e" + digits) && PrettifyFloat("1e" + digits) == "1e" + digits
    ensures !FloatIsZero("1e" + digits)
  {
    DigitsFormRun(digits);
    OneEText(digits);
    PrettifyFloatRender(OneE(digits));
    RemoveAbsent("1", '_');
    RemoveAbsent(digits, '_');
    assert !IsZeroDigits("1");
    assert CanonLit(OneE(digits)) == OneE(digits);
  }

  lemma OneEValue(digits: string)
    requires DigitRun(Decimal, digits)
    ensures ValidFloat("1e" + digits) && Value("1e" + digits) == Finite(Pow10(DigitsValue(digits, 10)))
  {
    OneEText(digits);
    assert DigitsValue("1", 10) == 1 by {
      assert "1"[..0] == [];
    }
  }

  /**
   * Under the source's rule, `1e` followed by exponent digits that end in
   * `0` loses those zeros: `1e20` becomes `1e2`. The corrected rule keeps
   * the literal as it is.
   */
  lemma AsWrittenStripsExponent(d: string)
    requires AllDigits(Decimal, d) && d != [] && d[0] != '0' && d[|d| - 1] == '0'
    ensures ValidFloat("1e" + d) && PrettifyFloat("1e" + d) == "1e" + d
    ensures PrettifyFloatAsWritten("1e" + d) == "1e" + RStrip(d, '0')
  {
    OneECanonical(d);
    OneEEndsInZero(d);
    AsWrittenOnCanonical("1e" + d);
    StripTrailingZerosOneE(d);
  }

  lemma OneEEndsInZero(d: string)
    requires d != [] && d[|d| - 1] == '0'
    ensures 'e' in "1e" + d && EndsWith("1e" + d, "0")
  {
    var s := "1e" + d;
    assert s[1] == 'e';
    assert s[|s| - 1..] == "0";
  }

  /** On a canonical non-zero exponential literal ending in `0`, the source's rule strips trailing zeros. */
  lemma AsWrittenOnCanonical(s: string)
    requires ValidFloat(s) && !FloatIsZero(s) && PrettifyFloat(s) == s
    requires 'e' in s && EndsWith(s, "0")
    ensures PrettifyFloatAsWritten(s) == StripTrailingZeros(s)
  {
    AsWrittenDiffers(s);
  }

  lemma StripTrailingZerosOneE(d: string)
    requires AllDigits(Decimal, d) && d != [] && d[0] != '0'
    ensures StripTrailingZeros("1e" + d) == "1e" + RStrip(d, '0')
  {
    var z := RStrip(d, '0');
    assert z != [] && z[0] == d[0];
    RStripAppend("1e", d, '0');
    assert !EndsWith("1e" + z, ".") by {
      assert ("1e" + z)[|"1e" + z| - 1] == z[|z| - 1] == d[|z| - 1];
    }
  }

  /**
   * ... and its value changes: the exponent loses its trailing zeros and so
   * gets smaller (`1e20` denotes 10^20, `1e2` denotes 100).
   */
  lemma AsWrittenChangesValue(d: string)
    requires AllDigits(Decimal, d) && d != [] && d[0] != '0' && d[|d| - 1] == '0'
    ensures ValidFloat("1e" + d) && ValidFloat("1e" + RStrip(d, '0'))
    ensures PrettifyFloatAsWritten("1e" + d) == "1e" + RStrip(d, '0')
    ensures Value(PrettifyFloatAsWritten("1e" + d)) != Value("1e" + d)
  {
    AsWrittenStripsExponent(d);
    var z := RStrip(d, '0');
    StripZerosRun(d);
    StripZerosSmaller(d);
    DigitRunOfDigits(d);
    OneEValue(d);
    OneEValue(z);
    Pow10Increasing(DigitsValue(z, 10), DigitsValue(d, 10));
  }

  lemma StripZerosRun(d: string)
    requires AllDigits(Decimal, d) && d != [] && d[0] != '0'
    ensures DigitRun(Decimal, RStrip(d, '0'))
  {
    var z := RStrip(d, '0');
    assert z != [] by {
      assert d[0] != '0';
    }
    assert AllDigits(Decimal, z) by {
      assert z == d[..|z|];
    }
    DigitRunOfDigits(z);
  }

  /** `1e20` is such a literal: it becomes `1e2`. */
  lemma AsWrittenTwenty()
    ensures ValidFloat("1e20") && ValidFloat("1e2")
    ensures PrettifyFloatAsWritten("1e20") == "1e2"
    ensures Value("1e2") != Value("1e20")
  {
    var d := "20";
    assert RStrip(d, '0') == "2" by {
      assert d[..1] == "2";
    }
    assert "1e" + d == "1e20" && "1e" + "2" == "1e2";
    AsWrittenChangesValue(d);
  }

  /** Dropping the trailing zeros of a digit run that starts with a non-zero digit lowers its value. */
  lemma {:induction false} StripZerosSmaller(d: string)
    requires AllDigits(Decimal, d) && d != [] && d[0] != '0' && d[|d| - 1] == '0'
    ensures DigitsValue(RStrip(d, '0'), 10) < DigitsValue(d, 10)
    decreases |d|
  {
    var p := d[..|d| - 1];
    assert p != [] && p[0] == d[0];
    assert AllDigits(Decimal, p);
    assert DigitsValue(d, 10) == DigitsValue(p, 10) * 10;
    assert RStrip(d, '0') == RStrip(p, '0');
    if p[|p| - 1] == '0' {
      StripZerosSmaller(p);
    } else {
      assert RStrip(p, '0') == p;
      assert DigitsValue(p, 10) >= DigitValue(p[|p| - 1]) >= 1;
    }
  }

  lemma {:induction false} Pow10Increasing(m: nat, n: nat)
    requires m < n
    ensures Pow10(m) < Pow10(n)
    decreases n
  {
    if m < n - 1 {
      Pow10Increasing(m, n - 1);
    }
  }

  lemma DigitRunOfDigits(digits: string)
    requires AllDigits(Decimal, digits) && digits != []
    ensures DigitRun(Decimal, digits)
  {
    DigitsFormRun(digits);
  }

  lemma NotValidOneE()
    ensures !ValidFloat("1e")
  {
    assert ParseSign("1e") == (NoSign, "1e");
    assert Span("1e") == "1" by {
      assert "1e"[1..] == "e";
    }
    assert "1e"[1..] == "e";
    assert ParseFraction("e") == (None, "e");
    assert ParseExponent("e") == Some(Some(Exponent('e', NoSign, "")));
  }

  /** Zero exponent digits become the single digit `0`: `1e00` becomes `1e0`. */
  lemma OneEZeroExponent(d: string)
    requires d != [] && forall i :: 0 <= i < |d| ==> d[i] == '0'
    ensures ValidFloat("1e" + d) && PrettifyFloat("1e" + d) == "1e0"
    ensures !FloatIsZero("1e" + d)
  {
    DigitRunOfDigits(d);
    OneEText(d);
    PrettifyFloatRender(OneE(d));
    OneEZeroCanon(d);
    assert Render(OneE("0")) == "1e0";
  }

  lemma OneEZeroCanon(d: string)
    requires d != [] && forall i :: 0 <= i < |d| ==> d[i] == '0'
    ensures CanonLit(OneE(d)) == OneE("0")
  {
    RemoveAbsent("1", '_');
    RemoveAbsent(d, '_');
    assert IntText(d) == "0" by {
      assert LStrip(d, '0') == [];
    }
    assert !IsZeroDigits("1");
  }

  /**
   * Under the source's rule a `1e` literal with zero exponent digits
   * (`1e00`, `1e0`) becomes `1e`, which is not a float literal.
   */
  lemma AsWrittenBreaksLiteral(d: string)
    requires d != [] && forall i :: 0 <= i < |d| ==> d[i] == '0'
    ensures ValidFloat("1e" + d)
    ensures PrettifyFloatAsWritten("1e" + d) == "1e"
    ensures !ValidFloat("1e")
  {
    var s := "1e" + d;
    OneEZeroExponent(d);
    assert s[1] == 'e' && EndsWith(s, "0");
    AsWrittenDiffers(s);
    StripOneEZero();
    NotValidOneE();
  }

  lemma StripOneEZero()
    ensures StripTrailingZeros("1e0") == "1e"
  {
    assert RStrip("1e0", '0') == "1e" by {
      assert "1e0"[..2] == "1e";
    }
  }
}
