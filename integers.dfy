/**
 * TOML v1.0.0 integer literals (section "Integer") and the formatter's
 * integer rule `PrettyTomlDocument._prettify_integer`.
 *
 * A literal is decimal with an optional sign, or `0b`/`0o`/`0x` followed by
 * digits of that base; `_` may stand between two digits. The rule is stated
 * as a function on the literal text and is proved to produce a canonical
 * literal that denotes the same number.
 */
module TomlInteger {
  import opened Text

  datatype Radix = Binary | Octal | Decimal | Hex

  function Base(r: Radix): (b: nat) {
    match r
    case Binary => 2
    case Octal => 8
    case Decimal => 10
    case Hex => 16
  }

  predicate IsDigitIn(r: Radix, c: char) {
    match r
    case Binary => c == '0' || c == '1'
    case Octal => '0' <= c <= '7'
    case Decimal => '0' <= c <= '9'
    case Hex => '0' <= c <= '9' || 'a' <= c <= 'f' || 'A' <= c <= 'F'
  }

  function DigitValue(c: char): (r: nat) {
    if '0' <= c <= '9' then c as int - '0' as int
    else if 'a' <= c <= 'f' then c as int - 'a' as int + 10
    else if 'A' <= c <= 'F' then c as int - 'A' as int + 10
    else 0
  }

  /** Digits of radix `r` in which every `_` stands between two digits. */
  predicate DigitRun(r: Radix, s: string) {
    && |s| > 0
    && IsDigitIn(r, s[0])
    && IsDigitIn(r, s[|s| - 1])
    && DigitsOrSeparators(r, s)
    && NoDoubleSeparator(s)
  }

  /** No `__` anywhere in `s`. */
  predicate NoDoubleSeparator(s: string)
    decreases |s|
  {
    |s| < 2 || (!(s[0] == '_' && s[1] == '_') && NoDoubleSeparator(s[1..]))
  }

  /** Every character is a digit of radix `r` or a separator. */
  predicate DigitsOrSeparators(r: Radix, s: string) {
    forall i :: 0 <= i < |s| ==> IsDigitIn(r, s[i]) || s[i] == '_'
  }

  predicate AllDigits(r: Radix, s: string) {
    forall i :: 0 <= i < |s| ==> IsDigitIn(r, s[i])
  }

  /** Every digit is zero: the digit-based replacement of the source's `value == 0`. */
  predicate IsZeroDigits(s: string) {
    forall i :: 0 <= i < |s| ==> s[i] == '0' || s[i] == '_'
  }

  /** The radix announced by the literal's prefix (the source's `is_binary`, `is_octal`, `is_hexadecimal`). */
  function RadixOf(s: string): (r: Radix) {
    if StartsWith(s, "0b") then Binary
    else if StartsWith(s, "0o") then Octal
    else if StartsWith(s, "0x") then Hex
    else Decimal
  }

  /** The literal without its sign. */
  function Unsigned(s: string): (r: string) {
    if |s| > 0 && (s[0] == '+' || s[0] == '-') then s[1..] else s
  }

  /** The digits (with separators) of the literal, after the prefix or the sign. */
  function DigitPart(s: string): (r: string) {
    if RadixOf(s) != Decimal then s[2..] else Unsigned(s)
  }

  /** A decimal magnitude: `0`, or digits not starting with `0`. */
  predicate ValidDecimalMagnitude(u: string) {
    u == "0" || (DigitRun(Decimal, u) && u[0] != '0')
  }

  /** The TOML v1.0.0 grammar of integer literals. */
  predicate ValidInteger(s: string) {
    if RadixOf(s) != Decimal then DigitRun(RadixOf(s), s[2..])
    else ValidDecimalMagnitude(Unsigned(s))
  }

  /** The number written by the digits `s` in base `b`; separators are skipped. */
  function DigitsValue(s: string, b: nat): (r: nat)
    decreases |s|
  {
    if s == [] then 0
    else if s[|s| - 1] == '_' then DigitsValue(s[..|s| - 1], b)
    else DigitsValue(s[..|s| - 1], b) * b + DigitValue(s[|s| - 1])
  }

  /** The number a valid integer literal denotes. */
  function IntegerValue(s: string): (r: int)
    requires ValidInteger(s)
  {
    var v: int := DigitsValue(DigitPart(s), Base(RadixOf(s)));
    if s[0] == '-' then -v else v
  }

  predicate IntegerIsZero(s: string) {
    IsZeroDigits(DigitPart(s))
  }

  /**
   * `_prettify_integer`: remove separators, drop a leading `+`, uppercase
   * hexadecimal digits, strip leading zeros after a `0b`/`0o`/`0x` prefix,
   * and write every zero as `0`. The prefix tests look at the text before
   * any of these steps.
   */
  function PrettifyInteger(s: string): (r: string)
    requires ValidInteger(s)
  {
    var isZero := IntegerIsZero(s);
    var isBinary := StartsWith(s, "0b");
    var isOctal := StartsWith(s, "0o");
    var isHexadecimal := StartsWith(s, "0x");
    RemoveStartsWithPrefix(s);
    var s1 := Remove(s, '_');
    var s2 := DropPlus(s1);
    var s3 := if isHexadecimal then UpperAfterPrefix(s2) else s2;
    var s4 := if isBinary || isOctal || isHexadecimal then StripZerosAfterPrefix(s3) else s3;
    if isZero then "0" else s4
  }

  /** `s[1:]` when `s` starts with `+` */
  function DropPlus(s: string): (r: string)
    ensures r == s || (s != [] && s[0] == '+' && r == s[1..])
  {
    if StartsWith(s, "+") then s[1..] else s
  }

  /** `"0x{}".format(s[2:].upper())` */
  function UpperAfterPrefix(s: string): (r: string)
    requires |s| >= 2
    ensures |r| == |s|
  {
    "0x" + Upper(s[2..])
  }

  /** `"{}{}".format(s[:2], s[2:].lstrip("0"))` when `s[2] == "0"` */
  function StripZerosAfterPrefix(s: string): (r: string)
    requires |s| > 2
  {
    if s[2] == '0' then s[..2] + LStrip(s[2..], '0') else s
  }

  /** After separator removal a prefixed literal keeps its prefix and at least one digit. */
  lemma RemoveStartsWithPrefix(s: string)
    requires ValidInteger(s)
    ensures RadixOf(s) != Decimal ==>
              |Remove(s, '_')| > 2 && Remove(s, '_') == s[..2] + Remove(s[2..], '_')
  {
    if RadixOf(s) != Decimal {
      assert s == s[..2] + s[2..];
      RemoveAppend(s[..2], s[2..], '_');
      RemoveAbsent(s[..2], '_');
      RunRemoveFirst(RadixOf(s), s[2..]);
    }
  }

  /** The canonical integer literals: the formatter's fixed points. */
  predicate CanonicalDigits(r: Radix, f: string) {
    && |f| > 0
    && f[0] != '0'
    && AllDigits(r, f)
    && NoLowercase(f)
  }

  predicate CanonicalInteger(s: string) {
    || s == "0"
    || (RadixOf(s) != Decimal && CanonicalDigits(RadixOf(s), s[2..]))
    || (RadixOf(s) == Decimal && CanonicalDigits(Decimal, if |s| > 0 && s[0] == '-' then s[1..] else s))
  }

  // ---------------------------------------------------------------------
  // Facts about digit strings

  lemma {:induction false} NoSeparatorNoDouble(s: string)
    requires '_' !in s
    ensures NoDoubleSeparator(s)
    decreases |s|
  {
    if |s| >= 2 {
      assert s[1..][0] == s[1];
      NoSeparatorNoDouble(s[1..]);
    }
  }

  lemma RunIsDigitsOrSeparators(r: Radix, s: string)
    requires DigitRun(r, s)
    ensures DigitsOrSeparators(r, s)
  {
  }

  /** Removing separators from a digit run keeps its first character and leaves only digits. */
  lemma RunRemoveFirst(r: Radix, s: string)
    requires DigitRun(r, s)
    ensures |Remove(s, '_')| > 0 && Remove(s, '_')[0] == s[0]
    ensures AllDigits(r, Remove(s, '_'))
  {
    RemoveDigits(r, s);
  }

  lemma {:induction false} RemoveDigits(r: Radix, s: string)
    requires DigitsOrSeparators(r, s)
    ensures AllDigits(r, Remove(s, '_'))
  {
    if s != [] {
      RemoveDigits(r, s[1..]);
    }
  }

  lemma {:induction false} DigitsValueSnoc(s: string, c: char, b: nat)
    ensures DigitsValue(s + [c], b) == if c == '_' then DigitsValue(s, b) else DigitsValue(s, b) * b + DigitValue(c)
  {
    assert (s + [c])[..|s|] == s;
  }

  lemma {:induction false} DigitsValueRemove(s: string, b: nat)
    ensures DigitsValue(Remove(s, '_'), b) == DigitsValue(s, b)
    decreases |s|
  {
    if s != [] {
      var init, c := s[..|s| - 1], s[|s| - 1];
      assert s == init + [c];
      RemoveAppend(init, [c], '_');
      DigitsValueRemove(init, b);
      if c != '_' {
        assert Remove([c], '_') == [c];
        DigitsValueSnoc(Remove(init, '_'), c, b);
      } else {
        assert Remove([c], '_') == [];
        assert Remove(init, '_') + [] == Remove(init, '_');
      }
    }
  }

  lemma {:induction false} DigitsValueUpper(s: string, b: nat)
    ensures DigitsValue(Upper(s), b) == DigitsValue(s, b)
    decreases |s|
  {
    if s != [] {
      var n := |s|;
      assert Upper(s)[..n - 1] == Upper(s[..n - 1]);
      DigitsValueUpper(s[..n - 1], b);
    }
  }

  lemma {:induction false} DigitsValueLeadingZero(s: string, b: nat)
    ensures DigitsValue(['0'] + s, b) == DigitsValue(s, b)
    decreases |s|
  {
    if s != [] {
      var n := |s|;
      assert (['0'] + s)[..n] == ['0'] + s[..n - 1];
      DigitsValueLeadingZero(s[..n - 1], b);
    } else {
      assert (['0'] + s)[..0] == [];
    }
  }

  lemma {:induction false} DigitsValueLStrip(s: string, b: nat)
    ensures DigitsValue(LStrip(s, '0'), b) == DigitsValue(s, b)
  {
    if s != [] && s[0] == '0' {
      assert s == ['0'] + s[1..];
      DigitsValueLeadingZero(s[1..], b);
      DigitsValueLStrip(s[1..], b);
    }
  }

  lemma MulMonotone(x: nat, b: nat)
    requires b >= 1
    ensures x * b >= x
  {
  }

  /** For digits of radix `r`, "every digit is zero" is "the value is zero". */
  lemma {:induction false} ZeroDigitsIffZeroValue(r: Radix, s: string)
    requires DigitsOrSeparators(r, s)
    ensures IsZeroDigits(s) <==> DigitsValue(s, Base(r)) == 0
    decreases |s|
  {
    if s != [] {
      var n := |s|;
      var init := s[..n - 1];
      assert DigitsOrSeparators(r, init);
      ZeroDigitsIffZeroValue(r, init);
      MulMonotone(DigitsValue(init, Base(r)), Base(r));
      if IsZeroDigits(s) {
        assert IsZeroDigits(init);
      }
      if IsZeroDigits(init) && (s[n - 1] == '0' || s[n - 1] == '_') {
        assert IsZeroDigits(s);
      }
    }
  }

  /** Uppercasing keeps digits digits. */
  lemma UpperDigits(r: Radix, s: string)
    requires AllDigits(r, s)
    ensures AllDigits(r, Upper(s))
  {
  }

  /** A non-zero digit string keeps a non-zero first digit after `lstrip("0")`. */
  lemma LStripNonZero(r: Radix, e: string)
    requires AllDigits(r, e) && !IsZeroDigits(e)
    ensures |LStrip(e, '0')| > 0 && LStrip(e, '0')[0] != '0' && AllDigits(r, LStrip(e, '0'))
  {
    var f := LStrip(e, '0');
    assert f != [] by {
      assert forall i :: 0 <= i < |e| - |f| ==> e[i] == '0';
    }
  }

  // ---------------------------------------------------------------------
  // Properties of the rule

  /** The decimal case of the rule: sign and separators only; the prefix steps do nothing. */
  lemma DecimalShape(s: string)
    requires ValidInteger(s) && RadixOf(s) == Decimal
    ensures !IntegerIsZero(s) ==>
              PrettifyInteger(s) == (if s[0] == '-' then "-" else "") + Remove(Unsigned(s), '_')
    ensures |Unsigned(s)| > 0 && DigitsOrSeparators(Decimal, Unsigned(s))
  {
    var u := Unsigned(s);
    var sign := if s[0] == '+' || s[0] == '-' then [s[0]] else [];
    assert s == sign + u;
    RemoveAppend(sign, u, '_');
    RemoveAbsent(sign, '_');
    if u != "0" {
      RunRemoveFirst(Decimal, u);
    }
    assert Remove(u, '_') != [] && '0' <= Remove(u, '_')[0] <= '9';
  }

  /** The digits after the prefix once separators are removed and, for `0x`, uppercased. */
  function PrefixedDigits(s: string): (r: string)
    requires |s| >= 2
  {
    if RadixOf(s) == Hex then Upper(Remove(s[2..], '_')) else Remove(s[2..], '_')
  }

  lemma PrefixedDigitsFacts(s: string)
    requires ValidInteger(s) && RadixOf(s) != Decimal
    ensures AllDigits(RadixOf(s), PrefixedDigits(s))
    ensures DigitsValue(PrefixedDigits(s), Base(RadixOf(s))) == DigitsValue(s[2..], Base(RadixOf(s)))
  {
    var r := RadixOf(s);
    var d := s[2..];
    RunRemoveFirst(r, d);
    DigitsValueRemove(d, Base(r));
    DigitsValueUpper(Remove(d, '_'), Base(r));
    UpperDigits(r, Remove(d, '_'));
  }

  /** The prefixed case of the rule: the prefix followed by the stripped digits. */
  lemma PrefixedShape(s: string)
    requires ValidInteger(s) && RadixOf(s) != Decimal
    ensures !IntegerIsZero(s) ==> PrettifyInteger(s) == s[..2] + LStrip(PrefixedDigits(s), '0')
  {
    var r := RadixOf(s);
    var d := s[2..];
    var e := PrefixedDigits(s);
    RemoveStartsWithPrefix(s);
    var s1 := Remove(s, '_');
    assert s1[..2] == s[..2] && s1[2..] == Remove(d, '_');
    assert DropPlus(s1) == s1 by {
      assert s1[0] == '0';
    }
    var s3 := if r == Hex then UpperAfterPrefix(s1) else s1;
    assert s3[..2] == s[..2] && s3[2..] == e;
    assert |s3| > 2;
    assert StripZerosAfterPrefix(s3) == s[..2] + LStrip(e, '0') by {
      if s3[2] != '0' {
        assert s3 == s3[..2] + s3[2..];
      }
    }
    assert StartsWith(s, "0b") || StartsWith(s, "0o") || StartsWith(s, "0x");
    assert StartsWith(s, "0x") <==> r == Hex;
  }

  /**
   * The result is a canonical literal denoting the same number: no `_`,
   * no leading `+`, no leading zero after a prefix, hexadecimal digits in
   * upper case, and zero written `0`.
   */
  lemma PrettifyIntegerCanonical(s: string)
    requires ValidInteger(s)
    ensures CanonicalInteger(PrettifyInteger(s))
    ensures ValidInteger(PrettifyInteger(s))
    ensures IntegerValue(PrettifyInteger(s)) == IntegerValue(s)
  {
    if IntegerIsZero(s) {
      ZeroCase(s);
    } else if RadixOf(s) != Decimal {
      PrefixedCase(s);
    } else {
      DecimalCase(s);
    }
  }

  lemma ZeroCase(s: string)
    requires ValidInteger(s) && IntegerIsZero(s)
    ensures PrettifyInteger(s) == "0" && CanonicalInteger("0") && ValidInteger("0")
    ensures IntegerValue("0") == 0 == IntegerValue(s)
  {
    IntegerZeroTest(s);
    CanonicalZero();
  }

  lemma CanonicalZero()
    ensures CanonicalInteger("0") && ValidInteger("0") && IntegerValue("0") == 0
    ensures PrettifyInteger("0") == "0"
  {
    assert RadixOf("0") == Decimal && Unsigned("0") == "0";
    assert "0"[..0] == [];
    assert DigitsValue("0", 10) == 0;
    assert IntegerIsZero("0");
  }

  lemma PrefixedCase(s: string)
    requires ValidInteger(s) && !IntegerIsZero(s) && RadixOf(s) != Decimal
    ensures CanonicalInteger(PrettifyInteger(s))
    ensures ValidInteger(PrettifyInteger(s))
    ensures IntegerValue(PrettifyInteger(s)) == IntegerValue(s)
  {
    var rad := RadixOf(s);
    var e := PrefixedDigits(s);
    var f := LStrip(e, '0');
    var r := s[..2] + f;
    assert PrettifyInteger(s) == r by {
      PrefixedShape(s);
    }
    PrefixedCanonicalDigits(s);
    assert r[..2] == s[..2] && r[2..] == f;
    assert RadixOf(r) == rad;
    CanonicalPrefixedValid(r);
    assert DigitPart(r) == f;
  }

  lemma PrefixedCanonicalDigits(s: string)
    requires ValidInteger(s) && !IntegerIsZero(s) && RadixOf(s) != Decimal
    ensures var rad := RadixOf(s);
            var f := LStrip(PrefixedDigits(s), '0');
            CanonicalDigits(rad, f) && DigitsValue(f, Base(rad)) == DigitsValue(s[2..], Base(rad))
  {
    var rad := RadixOf(s);
    var e := PrefixedDigits(s);
    var f := LStrip(e, '0');
    PrefixedDigitsFacts(s);
    assert !IsZeroDigits(e) by {
      RunIsDigitsOrSeparators(rad, s[2..]);
      ZeroDigitsIffZeroValue(rad, s[2..]);
      ZeroDigitsIffZeroValue(rad, e);
    }
    LStripNonZero(rad, e);
    DigitsValueLStrip(e, Base(rad));
    if rad == Hex {
      UpperNoLowercase(Remove(s[2..], '_'));
      LStripNoLowercase(e, '0');
    } else {
      NonHexNoLowercase(rad, f);
    }
  }

  lemma NonHexNoLowercase(r: Radix, f: string)
    requires r != Hex && AllDigits(r, f)
    ensures NoLowercase(f)
  {
  }

  lemma DecimalCase(s: string)
    requires ValidInteger(s) && !IntegerIsZero(s) && RadixOf(s) == Decimal
    ensures CanonicalInteger(PrettifyInteger(s))
    ensures ValidInteger(PrettifyInteger(s))
    ensures IntegerValue(PrettifyInteger(s)) == IntegerValue(s)
  {
    DecimalShape(s);
    DecimalResult(s);
  }

  lemma DecimalResult(s: string)
    requires ValidInteger(s) && !IntegerIsZero(s) && RadixOf(s) == Decimal
    ensures var r := (if s[0] == '-' then "-" else "") + Remove(Unsigned(s), '_');
            CanonicalInteger(r) && ValidInteger(r) && IntegerValue(r) == IntegerValue(s)
  {
    var u := Unsigned(s);
    var f := Remove(u, '_');
    var r := (if s[0] == '-' then "-" else "") + f;
    DecimalDigits(s);
    SignedDecimal(s[0] == '-', f);
  }

  lemma DecimalDigits(s: string)
    requires ValidInteger(s) && !IntegerIsZero(s) && RadixOf(s) == Decimal
    ensures CanonicalDigits(Decimal, Remove(Unsigned(s), '_'))
    ensures DigitsValue(Remove(Unsigned(s), '_'), 10) == DigitsValue(Unsigned(s), 10)
  {
    var u := Unsigned(s);
    DecimalShape(s);
    assert u != "0";
    RunRemoveFirst(Decimal, u);
    DigitsValueRemove(u, 10);
  }

  /** Canonical decimal digits with an optional `-` form a canonical decimal literal. */
  lemma SignedDecimal(minus: bool, f: string)
    requires CanonicalDigits(Decimal, f)
    ensures var r := (if minus then "-" else "") + f;
            RadixOf(r) == Decimal && Unsigned(r) == f && ValidInteger(r)
  {
    var r := (if minus then "-" else "") + f;
    assert RadixOf(r) == Decimal by {
      assert r[0] == '-' || r[0] == f[0];
    }
    assert (if |r| > 0 && r[0] == '-' then r[1..] else r) == f;
    CanonicalDecimalValid(r);
  }

  lemma CanonicalPrefixedValid(r: string)
    requires RadixOf(r) != Decimal && CanonicalDigits(RadixOf(r), r[2..])
    ensures ValidInteger(r)
  {
    NoSeparatorNoDouble(r[2..]);
  }

  lemma CanonicalDecimalValid(r: string)
    requires RadixOf(r) == Decimal && CanonicalDigits(Decimal, if |r| > 0 && r[0] == '-' then r[1..] else r)
    ensures ValidInteger(r)
  {
    var f := if |r| > 0 && r[0] == '-' then r[1..] else r;
    assert Unsigned(r) == f;
    NoSeparatorNoDouble(f);
  }

  /** A canonical literal is valid and the rule leaves it as it is. */
  lemma CanonicalFixpoint(r: string)
    requires CanonicalInteger(r)
    ensures ValidInteger(r)
    ensures PrettifyInteger(r) == r
  {
    if r == "0" {
      CanonicalZero();
    } else if RadixOf(r) != Decimal {
      CanonicalPrefixedFixpoint(r);
    } else {
      CanonicalDecimalFixpoint(r);
    }
  }

  lemma CanonicalPrefixedFixpoint(r: string)
    requires RadixOf(r) != Decimal && CanonicalDigits(RadixOf(r), r[2..])
    ensures ValidInteger(r)
    ensures PrettifyInteger(r) == r
  {
    CanonicalPrefixedValid(r);
    var f := r[2..];
    assert r == r[..2] + f;
    RemoveAbsent(r, '_');
    assert DropPlus(r) == r by {
      assert r[0] == '0';
    }
    assert !IsZeroDigits(f) by {
      assert f[0] != '0' && f[0] != '_';
    }
    UpperOfUpper(f);
    assert RadixOf(r) == Hex ==> UpperAfterPrefix(r) == r;
    assert StripZerosAfterPrefix(r) == r;
  }

  lemma CanonicalDecimalFixpoint(r: string)
    requires RadixOf(r) == Decimal && CanonicalDigits(Decimal, if |r| > 0 && r[0] == '-' then r[1..] else r)
    ensures ValidInteger(r)
    ensures PrettifyInteger(r) == r
  {
    CanonicalDecimalValid(r);
    var f := if |r| > 0 && r[0] == '-' then r[1..] else r;
    assert Unsigned(r) == f;
    assert '_' !in r;
    RemoveAbsent(r, '_');
    assert DropPlus(r) == r by {
      assert r[0] == '-' || r[0] == f[0];
    }
    assert !IsZeroDigits(f) by {
      assert f[0] != '0' && f[0] != '_';
    }
  }

  /** Applying the rule twice is applying it once. */
  lemma PrettifyIntegerIdempotent(s: string)
    requires ValidInteger(s)
    ensures ValidInteger(PrettifyInteger(s))
    ensures PrettifyInteger(PrettifyInteger(s)) == PrettifyInteger(s)
  {
    PrettifyIntegerCanonical(s);
    CanonicalFixpoint(PrettifyInteger(s));
  }

  /** The digit-based zero test agrees with the numeric one (the source's `value == 0`). */
  lemma IntegerZeroTest(s: string)
    requires ValidInteger(s)
    ensures IntegerIsZero(s) <==> IntegerValue(s) == 0
  {
    if RadixOf(s) != Decimal {
      RunIsDigitsOrSeparators(RadixOf(s), s[2..]);
      ZeroDigitsIffZeroValue(RadixOf(s), s[2..]);
    } else {
      DecimalShape(s);
      ZeroDigitsIffZeroValue(Decimal, Unsigned(s));
    }
  }

  /** Exactly the literals whose value is zero become `0`. */
  lemma PrettifyIntegerZero(s: string)
    requires ValidInteger(s)
    ensures PrettifyInteger(s) == "0" <==> IntegerIsZero(s)
  {
    PrettifyIntegerCanonical(s);
    IntegerZeroTest(s);
    var r := PrettifyInteger(s);
    if r == "0" {
      CanonicalZero();
    }
  }

  /** A non-zero decimal loses only its separators and a leading `+` (`-3` stays `-3`). */
  lemma PrettifyIntegerDecimal(s: string)
    requires ValidInteger(s) && RadixOf(s) == Decimal && !IntegerIsZero(s)
    ensures PrettifyInteger(s) == Remove(if s[0] == '+' then s[1..] else s, '_')
  {
    DecimalShape(s);
    var u := Unsigned(s);
    if s[0] == '-' {
      assert s == "-" + u;
      RemoveAppend("-", u, '_');
      assert Remove("-", '_') == "-";
    } else if s[0] != '+' {
      assert u == s;
    }
  }

  /**
   * A non-zero `0b`/`0o`/`0x` literal keeps its prefix, its first digit
   * after the prefix is not `0`, and a hexadecimal literal has no
   * lower-case digit (`0xab_c` becomes `0xABC`, `0b01` becomes `0b1`).
   */
  lemma PrettifyIntegerPrefixed(s: string)
    requires ValidInteger(s) && RadixOf(s) != Decimal && !IntegerIsZero(s)
    ensures var r := PrettifyInteger(s);
            && |r| > 2 && r[..2] == s[..2] && r[2] != '0'
            && (RadixOf(s) == Hex ==> forall i :: 2 <= i < |r| ==> !('a' <= r[i] <= 'z'))
  {
    PrettifyIntegerCanonical(s);
    var r := PrettifyInteger(s);
    PrefixedShape(s);
    PrefixedDigitsFacts(s);
    assert r[..2] == s[..2];
    assert RadixOf(r) == RadixOf(s);
    assert CanonicalDigits(RadixOf(r), r[2..]);
  }

  /** A canonical literal has no `_` and no leading `+`. */
  lemma CanonicalText(r: string)
    requires CanonicalInteger(r)
    ensures '_' !in r && r != [] && r[0] != '+'
  {
    if r != "0" {
      var k := if RadixOf(r) != Decimal then 2 else if |r| > 0 && r[0] == '-' then 1 else 0;
      var f := r[k..];
      assert CanonicalDigits(RadixOf(r), f);
      AllDigitsNoSeparator(RadixOf(r), f);
      assert r == r[..k] + f;
      assert '_' !in r[..k] by {
        if k == 2 {
          assert r[0] == '0' && r[1] != '_';
        }
      }
    }
  }

  lemma AllDigitsNoSeparator(rad: Radix, f: string)
    requires AllDigits(rad, f)
    ensures '_' !in f
  {
  }

  /** The result has no `_` and no leading `+` (`+2` becomes `2`, `4_5` becomes `45`). */
  lemma PrettifyIntegerClean(s: string)
    requires ValidInteger(s)
    ensures var r := PrettifyInteger(s); '_' !in r && r != [] && r[0] != '+'
  {
    PrettifyIntegerCanonical(s);
    CanonicalText(PrettifyInteger(s));
  }
}
