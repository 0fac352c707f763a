/**
 * The few Python `str` operations the formatter uses, over `seq<char>`.
 * `IsSpace` is Python's whole white-space class, since `strip` is applied
 * to comments and key names, which may hold any character. `upper` and
 * `lower` are stated on ASCII letters only: the formatter applies them to
 * integer and float literals, which are ASCII.
 */
module Text {

  /**
   * Python's `str.isspace`: the ASCII controls `\t` to `\r` and `\x1c` to
   * `\x1f`, the space, and the Unicode white space U+0085, U+00A0,
   * U+1680, U+2000 to U+200A, U+2028, U+2029, U+202F, U+205F and U+3000.
   */
  predicate IsSpace(c: char) {
    || ('\t' <= c <= '\r')
    || ('\U{1C}' <= c <= ' ')
    || c == '\U{85}' || c == '\U{A0}' || c == '\U{1680}'
    || ('\U{2000}' <= c <= '\U{200A}')
    || c == '\U{2028}' || c == '\U{2029}' || c == '\U{202F}' || c == '\U{205F}' || c == '\U{3000}'
  }

  /** `s.replace(c, "")` */
  function Remove(s: string, c: char): (r: string)
    ensures c !in r
    ensures |r| <= |s|
    ensures forall x :: x in r ==> x in s
  {
    if s == [] then [] else (if s[0] == c then [] else [s[0]]) + Remove(s[1..], c)
  }

  lemma {:induction false} RemoveAppend(a: string, b: string, c: char)
    ensures Remove(a + b, c) == Remove(a, c) + Remove(b, c)
  {
    if a == [] {
      assert a + b == b;
    } else {
      var h := if a[0] == c then [] else [a[0]];
      assert (a + b)[0] == a[0] && (a + b)[1..] == a[1..] + b;
      RemoveAppend(a[1..], b, c);
      assert Remove(a + b, c) == h + (Remove(a[1..], c) + Remove(b, c));
      assert Remove(a, c) == h + Remove(a[1..], c);
    }
  }

  /** Removing a character that does not occur changes nothing. */
  lemma {:induction false} RemoveAbsent(s: string, c: char)
    requires c !in s
    ensures Remove(s, c) == s
  {
    if s != [] {
      RemoveAbsent(s[1..], c);
    }
  }

  /** `s.startswith(p)` */
  predicate StartsWith(s: string, p: string) {
    |p| <= |s| && s[..|p|] == p
  }

  /** `s.endswith(p)` */
  predicate EndsWith(s: string, p: string) {
    |p| <= |s| && s[|s| - |p|..] == p
  }

  /** `p in s` for a string `p` */
  predicate Contains(s: string, p: string)
    decreases |s|
  {
    StartsWith(s, p) || (s != [] && Contains(s[1..], p))
  }

  /** `s.lstrip(c)` for a single character `c` */
  function LStrip(s: string, c: char): (r: string)
    ensures |r| <= |s| && r == s[|s| - |r|..]
    ensures r == [] || r[0] != c
    ensures forall i :: 0 <= i < |s| - |r| ==> s[i] == c
  {
    if s != [] && s[0] == c then LStrip(s[1..], c) else s
  }

  /** `s.rstrip(c)` for a single character `c` */
  function RStrip(s: string, c: char): (r: string)
    ensures |r| <= |s| && r == s[..|r|]
    ensures r == [] || r[|r| - 1] != c
    ensures forall i :: |r| <= i < |s| ==> s[i] == c
  {
    if s != [] && s[|s| - 1] == c then RStrip(s[..|s| - 1], c) else s
  }

  /** `s.lstrip()` */
  function LStripSpace(s: string): (r: string)
    ensures |r| <= |s| && r == s[|s| - |r|..]
    ensures r == [] || !IsSpace(r[0])
  {
    if s != [] && IsSpace(s[0]) then LStripSpace(s[1..]) else s
  }

  /** `s.rstrip()` */
  function RStripSpace(s: string): (r: string)
    ensures |r| <= |s| && r == s[..|r|]
    ensures r == [] || !IsSpace(r[|r| - 1])
  {
    if s != [] && IsSpace(s[|s| - 1]) then RStripSpace(s[..|s| - 1]) else s
  }

  /** `s.strip()` */
  function Strip(s: string): (r: string) {
    RStripSpace(LStripSpace(s))
  }

  /** A string that is its own `strip()`: no white space at either end. */
  predicate Stripped(s: string) {
    s == [] || (!IsSpace(s[0]) && !IsSpace(s[|s| - 1]))
  }

  lemma {:induction false} LStripSpaceOfStripped(s: string)
    requires s == [] || !IsSpace(s[0])
    ensures LStripSpace(s) == s
  {
  }

  lemma {:induction false} RStripSpaceOfStripped(s: string)
    requires s == [] || !IsSpace(s[|s| - 1])
    ensures RStripSpace(s) == s
  {
  }

  /** `strip()` leaves no white space at either end, and a stripped string is its own strip. */
  lemma {:induction false} StripProperties(s: string)
    ensures Stripped(Strip(s))
    ensures Stripped(s) ==> Strip(s) == s
  {
    var l := LStripSpace(s);
    var r := RStripSpace(l);
    if r != [] {
      assert r[0] == l[0];
    }
    if Stripped(s) {
      LStripSpaceOfStripped(s);
      RStripSpaceOfStripped(s);
    }
  }

  /** Leading white space does not change the result of `strip()`. */
  lemma {:induction false} StripLeadingSpace(c: char, s: string)
    requires IsSpace(c)
    ensures Strip([c] + s) == Strip(s)
  {
    assert ([c] + s)[1..] == s;
  }

  function ToUpper(c: char): (r: char) {
    if 'a' <= c <= 'z' then (c as int - 'a' as int + 'A' as int) as char else c
  }

  function ToLower(c: char): (r: char) {
    if 'A' <= c <= 'Z' then (c as int - 'A' as int + 'a' as int) as char else c
  }

  /** `s.upper()` */
  function Upper(s: string): (r: string)
    ensures |r| == |s|
    ensures forall i :: 0 <= i < |s| ==> r[i] == ToUpper(s[i])
  {
    if s == [] then [] else [ToUpper(s[0])] + Upper(s[1..])
  }

  /** `s.lower()` */
  function Lower(s: string): (r: string)
    ensures |r| == |s|
    ensures forall i :: 0 <= i < |s| ==> r[i] == ToLower(s[i])
  {
    if s == [] then [] else [ToLower(s[0])] + Lower(s[1..])
  }

  predicate NoLowercase(s: string) {
    forall i :: 0 <= i < |s| ==> !('a' <= s[i] <= 'z')
  }

  lemma UpperNoLowercase(s: string)
    ensures NoLowercase(Upper(s))
  {
  }

  lemma UpperOfUpper(s: string)
    requires NoLowercase(s)
    ensures Upper(s) == s
  {
  }

  lemma LStripNoLowercase(s: string, c: char)
    requires NoLowercase(s)
    ensures NoLowercase(LStrip(s, c))
  {
    var r := LStrip(s, c);
    assert forall i :: 0 <= i < |r| ==> r[i] == s[|s| - |r| + i];
  }

  predicate NoUppercase(s: string) {
    forall i :: 0 <= i < |s| ==> !('A' <= s[i] <= 'Z')
  }

  lemma LowerOfNoUppercase(s: string)
    requires NoUppercase(s)
    ensures Lower(s) == s
  {
  }

  lemma LowerAppend(a: string, b: string)
    ensures Lower(a + b) == Lower(a) + Lower(b)
  {
    assert forall i :: 0 <= i < |a + b| ==> Lower(a + b)[i] == (Lower(a) + Lower(b))[i] by {
      forall i | 0 <= i < |a + b|
        ensures Lower(a + b)[i] == (Lower(a) + Lower(b))[i]
      {
        if i < |a| {
          assert (a + b)[i] == a[i];
        } else {
          assert (a + b)[i] == b[i - |a|];
        }
      }
    }
  }

  /** `rstrip` of a concatenation whose right part does not vanish strips only the right part. */
  lemma {:induction false} RStripAppend(a: string, b: string, c: char)
    requires RStrip(b, c) != []
    ensures RStrip(a + b, c) == a + RStrip(b, c)
    decreases |b|
  {
    var n := |b|;
    if b[n - 1] == c {
      assert (a + b)[..|a + b| - 1] == a + b[..n - 1];
      RStripAppend(a, b[..n - 1], c);
    }
  }

  /** `rstrip` of a concatenation whose right part vanishes is `rstrip` of the left part. */
  lemma {:induction false} RStripAppendVanishing(a: string, b: string, c: char)
    requires RStrip(b, c) == []
    ensures RStrip(a + b, c) == RStrip(a, c)
    decreases |b|
  {
    if b == [] {
      assert a + b == a;
    } else {
      var n := |b|;
      assert (a + b)[..|a + b| - 1] == a + b[..n - 1];
      RStripAppendVanishing(a, b[..n - 1], c);
    }
  }

  /** The index of the first `c` in `s`, or `|s|` if there is none. */
  function IndexOf(s: string, c: char): (i: nat)
    ensures i <= |s|
    ensures i < |s| ==> s[i] == c
    ensures forall j :: 0 <= j < i ==> s[j] != c
  {
    if s == [] then 0 else if s[0] == c then 0 else 1 + IndexOf(s[1..], c)
  }

  /** A prefix without the first character of `p` does not change whether `p` occurs. */
  lemma {:induction false} ContainsSkip(a: string, b: string, p: string)
    requires p != [] && p[0] !in a
    ensures Contains(a + b, p) == Contains(b, p)
  {
    if a != [] {
      assert (a + b)[1..] == a[1..] + b;
      ContainsSkip(a[1..], b, p);
    } else {
      assert a + b == b;
    }
  }

  /** `p` does not occur where its first character does not. */
  lemma {:induction false} NotContains(b: string, p: string)
    requires p != [] && p[0] !in b
    ensures !Contains(b, p)
  {
    if b != [] {
      NotContains(b[1..], p);
    }
  }

  /** `" " * n` */
  function Spaces(n: nat): (r: string)
    ensures |r| == n
    ensures forall i :: 0 <= i < n ==> r[i] == ' '
  {
    if n == 0 then [] else [' '] + Spaces(n - 1)
  }

  /** `rstrip()` keeps a first character that is not white space. */
  lemma {:induction false} RStripSpaceKeepsFirst(s: string)
    requires s != [] && !IsSpace(s[0])
    ensures RStripSpace(s) != [] && RStripSpace(s)[0] == s[0]
  {
    if |s| > 1 && IsSpace(s[|s| - 1]) {
      RStripSpaceKeepsFirst(s[..|s| - 1]);
    }
  }

  /** `strip()` keeps a first character that is not white space. */
  lemma StripKeepsFirst(s: string)
    requires s != [] && !IsSpace(s[0])
    ensures Strip(s) != [] && Strip(s)[0] == s[0]
    ensures StartsWith(Strip(s), [s[0]])
  {
    LStripSpaceOfStripped(s);
    RStripSpaceKeepsFirst(s);
  }

  /** `lstrip(c)` of one `c` before a string that does not start with `c` removes just that `c`. */
  lemma LStripPast(y: string, c: char)
    requires y == [] || y[0] != c
    ensures LStrip([c] + y, c) == y
  {
    assert ([c] + y)[1..] == y;
  }

  /** Starting with a one-character string is having that first character. */
  lemma StartsWithChar(s: string, c: char)
    ensures StartsWith(s, [c]) <==> s != [] && s[0] == c
  {
    if s != [] && s[0] == c {
      assert s[..1] == [c];
    }
  }
}
