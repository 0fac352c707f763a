/**
 * The document tree the formatter walks, and its trivia rules.
 *
 * The tree is tomlkit's: a container holds an ordered body of entries,
 * each an optional key and an optional item; an item is one of ten kinds.
 * Every item except white space carries trivia: the indentation before
 * it, the white space before its comment, the comment, and the trail
 * after it. Integer and float items hold their literal text, which is a
 * valid literal by its type.
 *
 * The rules `_prettify_indentation`, `_prettify_inline_comment`,
 * `_prettify_comment` and `_prettify_trail` rewrite trivia fields of one
 * item and leave white space alone. They call tomlkit's `Item.indent` and
 * `Item.comment`, which are not part of this model: `ApiIndent` and
 * `ApiComment` state what they are assumed to do.
 */
module TomlItems {
  import opened Options
  import opened Text
  import opened TomlInteger
  import opened TomlFloat
  import opened TomlKey

  type IntegerLiteral = s: string | ValidInteger(s) witness "0"

  type FloatLiteral = s: string | ValidFloat(s) witness (assert "inf"[0] == 'i'; "inf")

  datatype Trivia = Trivia(indent: string, commentWs: string, comment: string, trail: string)

  datatype Item =
    | AoT(occurrences: seq<Container>, trivia: Trivia)
    | Array(elements: seq<Item>, multiline: bool, trivia: Trivia)
    | Bool(truth: bool, trivia: Trivia)
    | Comment(trivia: Trivia)
    | InlineTable(inner: Container, trivia: Trivia)
    | Integer(intLiteral: IntegerLiteral, trivia: Trivia)
    | Float(floatLiteral: FloatLiteral, trivia: Trivia)
    | String(text: string, trivia: Trivia)
    | Table(inner: Container, trivia: Trivia)
    | Whitespace(text: string)

  /** One `(key, value)` pair of a container's body; either part may be absent. */
  datatype Entry = Entry(key: Option<Key>, value: Option<Item>)

  datatype Container = Container(body: seq<Entry>)

  /** The same item with other trivia. */
  function WithTrivia(it: Item, t: Trivia): (r: Item)
    requires !it.Whitespace?
    ensures !r.Whitespace? && r.trivia == t
  {
    it.(trivia := t)
  }

  // ---------------------------------------------------------------------
  // tomlkit calls, as assumed

  /** `Item.indent(n)`: the indentation becomes `n` spaces. */
  function ApiIndent(t: Trivia, n: nat): (r: Trivia) {
    t.(indent := Spaces(n))
  }

  /**
   * `Item.comment(c)`: the comment becomes `c`, prefixed with `# ` unless
   * `c` stripped starts with `#`, and one space goes before it.
   */
  function ApiComment(t: Trivia, c: string): (r: Trivia) {
    t.(commentWs := " ", comment := if StartsWith(Strip(c), "#") then c else "# " + c)
  }

  /** The trivia of the item that `tomlkit.parse("key = " + literal)["key"]` returns. */
  const ParsedTrivia: Trivia := Trivia("", "", "", "")

  // ---------------------------------------------------------------------
  // The trivia rules

  /** `_prettify_indentation`: indent every item but white space to `level`. */
  function PrettifyIndentation(it: Item, level: nat): (r: Item) {
    if it.Whitespace? then it else WithTrivia(it, ApiIndent(it.trivia, level))
  }

  /** `value.trivia.comment.lstrip("#").strip()` */
  function CommentBody(c: string): (r: string) {
    Strip(LStrip(c, '#'))
  }

  /** The trivia `_prettify_inline_comment` gives, as written. */
  function InlineCommentTriviaAsWritten(t: Trivia): (r: Trivia) {
    ApiComment(t, CommentBody(t.comment)).(commentWs := "  ")
  }

  /**
   * The trivia `_prettify_inline_comment` gives, corrected: the comment is
   * set to `# ` and the body, so that it starts with `# ` even when the
   * body itself starts with `#`; two spaces go before it.
   */
  function InlineCommentTrivia(t: Trivia): (r: Trivia) {
    t.(commentWs := "  ", comment := "# " + CommentBody(t.comment))
  }

  /**
   * `_prettify_inline_comment` as written: a present comment is passed to
   * `Item.comment` as its bare body.
   */
  function PrettifyInlineCommentAsWritten(it: Item): (r: Item) {
    if it.Whitespace? || it.trivia.comment == [] then it
    else WithTrivia(it, InlineCommentTriviaAsWritten(it.trivia))
  }

  /** `_prettify_inline_comment`, corrected. */
  function PrettifyInlineComment(it: Item): (r: Item) {
    if it.Whitespace? || it.trivia.comment == [] then it
    else WithTrivia(it, InlineCommentTrivia(it.trivia))
  }

  /** `_prettify_comment`: a standalone comment is not indented. */
  function PrettifyComment(it: Item): (r: Item)
    requires it.Comment?
  {
    WithTrivia(it, ApiIndent(it.trivia, 0))
  }

  /** `_prettify_trail`: every item but white space ends with a newline. */
  function PrettifyTrail(it: Item): (r: Item) {
    if it.Whitespace? then it else WithTrivia(it, it.trivia.(trail := "\n"))
  }

  // ---------------------------------------------------------------------
  // Properties of the comment rule

  /** `# ` in front of a stripped body is undone by taking the body again. */
  lemma CommentBodyOfPrefixed(b: string)
    requires Stripped(b)
    ensures CommentBody("# " + b) == b
    ensures StartsWith(Strip("# " + b), "#")
  {
    var y := " " + b;
    var x := ['#'] + y;
    assert x == "# " + b;
    assert x[0] == '#' && !IsSpace(x[0]);
    LStripPast(y, '#');
    assert LStrip(x, '#') == y;
    StripLeadingSpace(' ', b);
    StripProperties(b);
    StripKeepsFirst(x);
    assert [x[0]] == "#";
  }

  /**
   * The new comment is `# ` followed by the body, the body having lost its
   * leading `#`s and its surrounding white space; two spaces go before
   * it; the indentation and the trail are kept; and taking the body of the
   * new comment gives the same body back.
   */
  lemma InlineCommentTriviaShape(t: Trivia)
    ensures var r := InlineCommentTrivia(t);
            && r.comment == "# " + CommentBody(t.comment)
            && StartsWith(r.comment, "# ")
            && r.commentWs == "  " && r.indent == t.indent && r.trail == t.trail
            && CommentBody(r.comment) == CommentBody(t.comment)
  {
    var b := CommentBody(t.comment);
    StripProperties(LStrip(t.comment, '#'));
    CommentBodyOfPrefixed(b);
    assert ("# " + b)[..2] == "# ";
  }

  /** Applying the corrected comment rule twice is applying it once. */
  lemma InlineCommentIdempotent(it: Item)
    ensures PrettifyInlineComment(PrettifyInlineComment(it)) == PrettifyInlineComment(it)
  {
    if !it.Whitespace? && it.trivia.comment != [] {
      var t := InlineCommentTrivia(it.trivia);
      InlineCommentTriviaShape(it.trivia);
      assert t.comment != [];
      assert InlineCommentTrivia(t) == t;
      var r := PrettifyInlineComment(it);
      assert r == WithTrivia(it, t);
      assert PrettifyInlineComment(r) == WithTrivia(r, t);
      assert WithTrivia(r, t) == r;
    }
  }

  /**
   * The rule as written and the corrected one agree unless the body of
   * the comment starts with `#`.
   */
  lemma InlineCommentAsWrittenAgrees(it: Item)
    requires !it.Whitespace? ==> !StartsWith(CommentBody(it.trivia.comment), "#")
    ensures PrettifyInlineCommentAsWritten(it) == PrettifyInlineComment(it)
  {
    if !it.Whitespace? && it.trivia.comment != [] {
      InlineCommentTriviaAgrees(it.trivia);
    }
  }

  lemma InlineCommentTriviaAgrees(t: Trivia)
    requires !StartsWith(CommentBody(t.comment), "#")
    ensures InlineCommentTriviaAsWritten(t) == InlineCommentTrivia(t)
  {
    var b := CommentBody(t.comment);
    StripProperties(LStrip(t.comment, '#'));
    StartsWithChar(b, '#');
    ApiCommentOfStripped(t, b);
    assert ApiComment(t, b).comment == "# " + b;
  }

  /**
   * As written, `# #x` (for any character `x` that is neither white space
   * nor `#`) becomes `#x`, which does not start with `# `, and a second
   * pass turns it into `# x`: the rule is not idempotent.
   */
  lemma InlineCommentAsWrittenUnstable(it: Item, x: char)
    requires !IsSpace(x) && x != '#'
    requires !it.Whitespace? && it.trivia.comment == ['#', ' ', '#', x]
    ensures var once := PrettifyInlineCommentAsWritten(it);
            var twice := PrettifyInlineCommentAsWritten(once);
            && !once.Whitespace? && once.trivia.comment == ['#', x]
            && !StartsWith(once.trivia.comment, "# ")
            && !twice.Whitespace? && twice.trivia.comment == ['#', ' ', x]
  {
    HashBodyAsWritten(it.trivia, x);
    var t1 := InlineCommentTriviaAsWritten(it.trivia);
    assert t1.comment == ['#', x];
    var once := WithTrivia(it, t1);
    assert PrettifyInlineCommentAsWritten(it) == once;
    PlainBodyAsWritten(t1, x);
    var t2 := InlineCommentTriviaAsWritten(t1);
    assert t2.comment == ['#', ' ', x];
    assert PrettifyInlineCommentAsWritten(once) == WithTrivia(once, t2);
    assert ['#', x][1] != ' ';
  }

  lemma HashBodyAsWritten(t: Trivia, x: char)
    requires !IsSpace(x) && x != '#'
    ensures ApiComment(t, CommentBody(['#', ' ', '#', x])).comment == ['#', x]
  {
    var b := ['#', x];
    assert CommentBody(['#', ' ', '#', x]) == b by {
      assert ['#', ' ', '#', x] == ['#'] + [' ', '#', x];
      LStripPast([' ', '#', x], '#');
      assert [' ', '#', x] == [' '] + b;
      StripLeadingSpace(' ', b);
      StripProperties(b);
    }
    ApiCommentOfStripped(t, b);
  }

  lemma PlainBodyAsWritten(t: Trivia, x: char)
    requires !IsSpace(x) && x != '#'
    ensures ApiComment(t, CommentBody(['#', x])).comment == ['#', ' ', x]
  {
    var b := [x];
    assert Stripped(b);
    assert LStrip(['#', x], '#') == b by {
      assert ['#', x] == ['#'] + b;
      LStripPast(b, '#');
    }
    StripProperties(b);
    ApiCommentOfStripped(t, b);
    assert "# " + b == ['#', ' ', x];
  }

  /** Non-ASCII white space is stripped from a comment too: `#\u00a0x` has body `x`. */
  lemma NoBreakSpaceComment()
    ensures CommentBody(['#', '\U{A0}', 'x']) == "x"
  {
    var y := ['\U{A0}', 'x'];
    assert ['#', '\U{A0}', 'x'] == ['#'] + y;
    LStripPast(y, '#');
    assert y == ['\U{A0}'] + "x";
    StripLeadingSpace('\U{A0}', "x");
    assert Stripped("x");
    StripProperties("x");
  }

  /** What `Item.comment` does with a text that has no white space at either end. */
  lemma ApiCommentOfStripped(t: Trivia, c: string)
    requires Stripped(c)
    ensures ApiComment(t, c).comment == if c != [] && c[0] == '#' then c else "# " + c
  {
    StripProperties(c);
    StartsWithChar(c, '#');
  }
}
