/**
 * What `PrettyTomlDocument` does to a document tree, stated as functions
 * on values: `_prettify_value`, `_prettify_array`, `_prettify_aot`,
 * `_prettify_container`, `_prettify_table`, `_prettify_inline_table`, and
 * the rebuilding of integer and float items. The methods of the class
 * `PrettyTomlDocument` are proved to compute these functions; the lemmas
 * here state what the result is.
 */
module TomlNormalize {
  import opened Options
  import opened Text
  import opened TomlInteger
  import opened TomlFloat
  import opened TomlKey
  import opened TomlItems

  /**
   * `_prettify_integer`: the rewritten literal, in the item that parsing
   * `key = <literal>` gives, swapped into place.
   */
  function PrettifyIntegerItem(s: IntegerLiteral): (r: Item) {
    PrettifyIntegerCanonical(s);
    Integer(PrettifyInteger(s), ParsedTrivia)
  }

  /** `_prettify_float`, in the same way. */
  function PrettifyFloatItem(s: FloatLiteral): (r: Item) {
    PrettifyFloatCanonical(s);
    Float(PrettifyFloat(s), ParsedTrivia)
  }

  /** An array entry that `_prettify_array` drops: white space that strips to nothing. */
  predicate IsBlank(v: Item) {
    v.Whitespace? && Strip(v.text) == []
  }

  /**
   * `_prettify_value`: indentation 0, the inline comment rule, the rule of
   * the item's kind, then the trail.
   */
  function NormalizeValue(it: Item): (r: Item)
    decreases it, 1
  {
    var a := PrettifyInlineComment(PrettifyIndentation(it, 0));
    PrettifyTrail(if a.Whitespace? then a else Dispatch(it, a.trivia))
  }

  /**
   * The rule of the item's kind, applied to `it` carrying the trivia `t`
   * that the first two rules produced. Booleans and strings have no rule
   * of their own; white space has none either.
   */
  function Dispatch(it: Item, t: Trivia): (r: Item)
    decreases it, 0
  {
    match it
    case AoT(occurrences, _) => AoT(NormalizeOccurrences(occurrences), t)
    case Array(elements, _, _) => Array(NormalizeElements(elements), false, t)
    case Bool(truth, _) => Bool(truth, t)
    case Comment(_) => PrettifyComment(Comment(t))
    case InlineTable(inner, _) => InlineTable(NormalizeContainer(inner), t)
    case Integer(s, _) => PrettifyIntegerItem(s)
    case Float(s, _) => PrettifyFloatItem(s)
    case String(text, _) => String(text, t)
    case Table(inner, _) => Table(NormalizeContainer(inner), t)
    case Whitespace(_) => it
  }

  /** The list `_prettify_array` builds: blanks dropped, other white space `, `, values normalised. */
  function NormalizeElements(es: seq<Item>): (r: seq<Item>) {
    if es == [] then [] else NormalizeElement(es[0]) + NormalizeElements(es[1..])
  }

  /** What one entry of the array's list becomes: nothing, `, `, or the normalised value. */
  function NormalizeElement(x: Item): (r: seq<Item>)
    decreases x, 2
  {
    if IsBlank(x) then []
    else if x.Whitespace? then [Whitespace(", ")]
    else [NormalizeValue(x)]
  }

  /** `_prettify_aot`: every occurrence's container, in order. */
  function NormalizeOccurrences(occ: seq<Container>): (r: seq<Container>) {
    if occ == [] then [] else [NormalizeContainer(occ[0])] + NormalizeOccurrences(occ[1..])
  }

  /** `_prettify_container` */
  function NormalizeContainer(c: Container): (r: Container) {
    Container(NormalizeBody(c.body))
  }

  function NormalizeBody(body: seq<Entry>): (r: seq<Entry>) {
    if body == [] then [] else [NormalizeEntry(body[0])] + NormalizeBody(body[1..])
  }

  /** One step of `_prettify_container`: the key if present, then the value if present. */
  function NormalizeEntry(e: Entry): (r: Entry) {
    Entry(if e.key.Some? then Some(PrettifyKey(e.key.value)) else None,
          if e.value.Some? then Some(NormalizeValue(e.value.value)) else None)
  }

  // ---------------------------------------------------------------------
  // The trivia an item ends up with

  /**
   * The trivia of a normalised item other than an integer or a float:
   * no indentation, a present comment as `# ` and its body with two
   * spaces before it, an absent comment left absent, and a newline trail.
   */
  function CanonTrivia(t: Trivia): (r: Trivia) {
    if t.comment == [] then Trivia("", t.commentWs, [], "\n")
    else Trivia("", "  ", "# " + CommentBody(t.comment), "\n")
  }

  /** The trivia of a normalised integer or float: that of the reparsed item, with a newline trail. */
  const ScalarTrivia: Trivia := Trivia("", "", "", "\n")

  lemma CanonTriviaIdempotent(t: Trivia)
    ensures CanonTrivia(CanonTrivia(t)) == CanonTrivia(t)
  {
    if t.comment != [] {
      StripProperties(LStrip(t.comment, '#'));
      CommentBodyOfPrefixed(CommentBody(t.comment));
    }
  }

  /** The four trivia rules applied in the order of `_prettify_value` give `CanonTrivia`. */
  lemma TriviaRules(it: Item)
    requires !it.Whitespace?
    ensures PrettifyTrail(PrettifyInlineComment(PrettifyIndentation(it, 0))).trivia == CanonTrivia(it.trivia)
  {
    var a := PrettifyIndentation(it, 0);
    InlineCommentTriviaShape(a.trivia);
  }

  /**
   * With the comment rule as written, the trivia rules give the same
   * trivia unless the body of the comment itself starts with `#`.
   */
  lemma TriviaRulesAsWritten(it: Item)
    requires !it.Whitespace? && !StartsWith(CommentBody(it.trivia.comment), "#")
    ensures PrettifyTrail(PrettifyInlineCommentAsWritten(PrettifyIndentation(it, 0))).trivia == CanonTrivia(it.trivia)
  {
    InlineCommentAsWrittenAgrees(PrettifyIndentation(it, 0));
    TriviaRules(it);
  }

  /**
   * What `_prettify_value` makes of each kind of item: white space is
   * untouched; an integer or a float holds the rewritten literal with
   * the trivia of a fresh item; every other item keeps its payload, gets
   * `CanonTrivia`, and has its children normalised (an array also becomes
   * single-line).
   */
  lemma NormalizeValueCases(it: Item)
    ensures var r := NormalizeValue(it);
            && (it.Whitespace? ==> r == it)
            && (it.Integer? ==> r.Integer? && r.intLiteral == PrettifyInteger(it.intLiteral) && r.trivia == ScalarTrivia)
            && (it.Float? ==> r.Float? && r.floatLiteral == PrettifyFloat(it.floatLiteral) && r.trivia == ScalarTrivia)
            && (it.Bool? ==> r == Bool(it.truth, CanonTrivia(it.trivia)))
            && (it.String? ==> r == String(it.text, CanonTrivia(it.trivia)))
            && (it.Comment? ==> r == Comment(CanonTrivia(it.trivia)))
            && (it.Table? ==> r == Table(NormalizeContainer(it.inner), CanonTrivia(it.trivia)))
            && (it.InlineTable? ==> r == InlineTable(NormalizeContainer(it.inner), CanonTrivia(it.trivia)))
            && (it.Array? ==> r == Array(NormalizeElements(it.elements), false, CanonTrivia(it.trivia)))
            && (it.AoT? ==> r == AoT(NormalizeOccurrences(it.occurrences), CanonTrivia(it.trivia)))
  {
    if it.Integer? {
      IntegerCase(it);
    } else if it.Float? {
      FloatCase(it);
    } else if !it.Whitespace? {
      CompoundCase(it);
    }
  }

  lemma IntegerCase(it: Item)
    requires it.Integer?
    ensures var r := NormalizeValue(it);
            r.Integer? && r.intLiteral == PrettifyInteger(it.intLiteral) && r.trivia == ScalarTrivia
  {
  }

  lemma FloatCase(it: Item)
    requires it.Float?
    ensures var r := NormalizeValue(it);
            r.Float? && r.floatLiteral == PrettifyFloat(it.floatLiteral) && r.trivia == ScalarTrivia
  {
  }

  /**
   * A float item gets the literal the float rule as written gives, unless
   * the literal has an exponent and ends in `0`.
   */
  lemma FloatCaseAsWritten(it: Item)
    requires it.Float?
    requires !(('e' in it.floatLiteral || 'E' in it.floatLiteral) && EndsWith(it.floatLiteral, "0"))
    ensures var r := NormalizeValue(it);
            r.Float? && r.floatLiteral == PrettifyFloatAsWritten(it.floatLiteral)
  {
    FloatCase(it);
    AsWrittenDiffers(it.floatLiteral);
  }

  /** Every kind but white space, integer and float: the payload rule, then `CanonTrivia`. */
  lemma CompoundCase(it: Item)
    requires !it.Whitespace? && !it.Integer? && !it.Float?
    ensures var r := NormalizeValue(it);
            && !r.Whitespace? && r.trivia == CanonTrivia(it.trivia)
            && r == Dispatch(it, r.trivia)
  {
    var a := PrettifyInlineComment(PrettifyIndentation(it, 0));
    assert NormalizeValue(it) == PrettifyTrail(Dispatch(it, a.trivia));
    DispatchKeepsTrivia(it, a.trivia);
    TriviaRules(it);
  }

  lemma DispatchKeepsTrivia(it: Item, t: Trivia)
    requires !it.Whitespace? && !it.Integer? && !it.Float?
    requires t.indent == []
    ensures var b := Dispatch(it, t);
            !b.Whitespace? && b.trivia == t && PrettifyTrail(b) == Dispatch(it, t.(trail := "\n"))
  {
    match it {
      case Comment(_) =>
        assert ApiIndent(t, 0) == t;
        assert ApiIndent(t.(trail := "\n"), 0) == t.(trail := "\n");
      case AoT(_, _) =>
      case Array(_, _, _) =>
      case Bool(_, _) =>
      case InlineTable(_, _) =>
      case String(_, _) =>
      case Table(_, _) =>
    }
  }

  /**
   * After `_prettify_value` an item other than white space has no
   * indentation and a newline trail, and is of the same kind; white
   * space is untouched. An item other than an integer or a float with a
   * comment has that comment as `# ` and its body, two spaces before it;
   * one without a comment still has none.
   */
  lemma NormalizeValueLayout(it: Item)
    ensures var r := NormalizeValue(it);
            && (it.Whitespace? <==> r.Whitespace?)
            && (it.Whitespace? ==> r == it)
            && (!it.Whitespace? ==> r.trivia.indent == [] && r.trivia.trail == "\n")
            && (!it.Whitespace? && !it.Integer? && !it.Float? ==>
                  (it.trivia.comment == [] ==> r.trivia.comment == [])
                  && (it.trivia.comment != [] ==>
                        r.trivia.commentWs == "  " && r.trivia.comment == "# " + CommentBody(it.trivia.comment)))
  {
    NormalizeValueCases(it);
  }

  // ---------------------------------------------------------------------
  // Arrays

  lemma {:induction false} NormalizeElementsAppend(a: seq<Item>, b: seq<Item>)
    ensures NormalizeElements(a + b) == NormalizeElements(a) + NormalizeElements(b)
  {
    if a == [] {
      assert a + b == b;
    } else {
      assert (a + b)[0] == a[0] && (a + b)[1..] == a[1..] + b;
      NormalizeElementsAppend(a[1..], b);
    }
  }

  /** The values of an array, that is its entries other than white space, in order. */
  function Values(es: seq<Item>): (vs: seq<Item>)
    ensures forall i :: 0 <= i < |vs| ==> !vs[i].Whitespace?
  {
    if es == [] then [] else (if es[0].Whitespace? then [] else [es[0]]) + Values(es[1..])
  }

  /** `NormalizeValue` applied to each item. */
  function NormalizeEach(vs: seq<Item>): (r: seq<Item>)
    ensures |r| == |vs|
  {
    if vs == [] then [] else [NormalizeValue(vs[0])] + NormalizeEach(vs[1..])
  }

  lemma {:induction false} NormalizeEachAt(vs: seq<Item>, i: nat)
    requires i < |vs|
    ensures NormalizeEach(vs)[i] == NormalizeValue(vs[i])
  {
    if i > 0 {
      NormalizeEachAt(vs[1..], i - 1);
    }
  }

  lemma CommaNotBlank()
    ensures !IsBlank(Whitespace(", "))
  {
    assert ", "[0] == ',';
    StripKeepsFirst(", ");
  }

  /** An entry of a single-line array: a value, or the separator `, `. */
  predicate SingleLineEntry(x: Item) {
    x.Whitespace? ==> x == Whitespace(", ")
  }

  /** One entry of the list: at most one item, white space only as `, `, and the value normalised. */
  lemma NormalizeElementFacts(x: Item)
    ensures var h := NormalizeElement(x);
            && |h| <= 1
            && (forall i :: 0 <= i < |h| ==> SingleLineEntry(h[i]) && !IsBlank(h[i]))
            && Values(h) == (if x.Whitespace? then [] else [NormalizeValue(x)])
  {
    CommaNotBlank();
    NormalizeValueLayout(x);
    var h := NormalizeElement(x);
    if h != [] {
      assert h[1..] == [];
    }
  }

  lemma {:induction false} NormalizeElementsSnoc(a: seq<Item>, x: Item)
    ensures NormalizeElements(a + [x]) == NormalizeElements(a) + NormalizeElement(x)
  {
    NormalizeElementsAppend(a, [x]);
    assert [x][1..] == [];
  }

  /**
   * `_prettify_array` drops the blank entries, turns every other white
   * space entry into `, `, and normalises the values, keeping their number
   * and order.
   */
  lemma NormalizeElementsShape(es: seq<Item>)
    ensures var r := NormalizeElements(es);
            && |r| <= |es|
            && AllSingleLine(r)
            && Values(r) == NormalizeEach(Values(es))
  {
    NormalizeElementsEntries(es);
    NormalizeElementsValues(es);
  }

  /** Every entry is a value or the separator `, `, and none is blank. */
  predicate AllSingleLine(r: seq<Item>) {
    forall i :: 0 <= i < |r| ==> SingleLineEntry(r[i]) && !IsBlank(r[i])
  }

  lemma AllSingleLineAppend(a: seq<Item>, b: seq<Item>)
    requires AllSingleLine(a) && AllSingleLine(b)
    ensures AllSingleLine(a + b)
  {
    forall i | 0 <= i < |a + b|
      ensures SingleLineEntry((a + b)[i]) && !IsBlank((a + b)[i])
    {
      if i >= |a| {
        assert (a + b)[i] == b[i - |a|];
      }
    }
  }

  lemma {:induction false} NormalizeElementsEntries(es: seq<Item>)
    ensures var r := NormalizeElements(es);
            |r| <= |es| && AllSingleLine(r)
  {
    if es != [] {
      var h := NormalizeElement(es[0]);
      var rest := NormalizeElements(es[1..]);
      NormalizeElementsEntries(es[1..]);
      NormalizeElementFacts(es[0]);
      assert AllSingleLine(h);
      AllSingleLineAppend(h, rest);
      assert NormalizeElements(es) == h + rest;
    }
  }

  lemma {:induction false} NormalizeElementsValues(es: seq<Item>)
    ensures Values(NormalizeElements(es)) == NormalizeEach(Values(es))
  {
    if es != [] {
      var x := es[0];
      var h := NormalizeElement(x);
      var rest := NormalizeElements(es[1..]);
      NormalizeElementsValues(es[1..]);
      NormalizeElementFacts(x);
      assert NormalizeElements(es) == h + rest;
      ValuesAppend(h, rest);
      assert Values(es) == (if x.Whitespace? then [] else [x]) + Values(es[1..]);
      if !x.Whitespace? {
        assert ([x] + Values(es[1..]))[1..] == Values(es[1..]);
      } else {
        assert [] + Values(es[1..]) == Values(es[1..]);
      }
    }
  }

  lemma {:induction false} ValuesAppend(a: seq<Item>, b: seq<Item>)
    ensures Values(a + b) == Values(a) + Values(b)
  {
    if a == [] {
      assert a + b == b;
    } else {
      assert (a + b)[0] == a[0] && (a + b)[1..] == a[1..] + b;
      ValuesAppend(a[1..], b);
    }
  }

  // ---------------------------------------------------------------------
  // The container walk

  /** `_prettify_container` visits every entry in order and keeps the body's length and positions. */
  lemma {:induction false} NormalizeBodyPositions(body: seq<Entry>)
    ensures |NormalizeBody(body)| == |body|
    ensures forall i :: 0 <= i < |body| ==> NormalizeBody(body)[i] == NormalizeEntry(body[i])
  {
    if body != [] {
      NormalizeBodyPositions(body[1..]);
    }
  }

  /** `_prettify_aot` normalises every occurrence and keeps their number and order. */
  lemma {:induction false} NormalizeOccurrencesPositions(occ: seq<Container>)
    ensures |NormalizeOccurrences(occ)| == |occ|
    ensures forall i :: 0 <= i < |occ| ==> NormalizeOccurrences(occ)[i] == NormalizeContainer(occ[i])
  {
    if occ != [] {
      NormalizeOccurrencesPositions(occ[1..]);
    }
  }

  /**
   * After `_prettify_container` every entry keeps its place; a key stays
   * present or absent and is the rewritten key; a value stays present or
   * absent, and every value other than white space has no indentation
   * and a newline trail.
   */
  lemma NormalizeContainerLayout(c: Container)
    ensures var r := NormalizeContainer(c);
            && |r.body| == |c.body|
            && (forall i :: 0 <= i < |c.body| ==>
                  && r.body[i].key.Some? == c.body[i].key.Some?
                  && (c.body[i].key.Some? ==> r.body[i].key.value == PrettifyKey(c.body[i].key.value))
                  && r.body[i].value.Some? == c.body[i].value.Some?)
            && (forall i :: 0 <= i < |r.body| && r.body[i].value.Some? && !r.body[i].value.value.Whitespace? ==>
                  r.body[i].value.value.trivia.indent == [] && r.body[i].value.value.trivia.trail == "\n")
  {
    NormalizeBodyPositions(c.body);
    forall i | 0 <= i < |c.body| && c.body[i].value.Some?
      ensures var v := NormalizeValue(c.body[i].value.value);
              !v.Whitespace? ==> v.trivia.indent == [] && v.trivia.trail == "\n"
    {
      NormalizeValueLayout(c.body[i].value.value);
    }
  }

  // ---------------------------------------------------------------------
  // Idempotence

  /** Normalising a normalised item changes nothing. */
  lemma NormalizeValueIdempotent(it: Item)
    ensures NormalizeValue(NormalizeValue(it)) == NormalizeValue(it)
  {
    var r := NormalizeValue(it);
    NormalizeValueCases(it);
    NormalizeValueCases(r);
    match it {
      case Whitespace(_) =>
      case Integer(s, _) =>
        PrettifyIntegerIdempotent(s);
      case Float(s, _) =>
        PrettifyFloatIdempotent(s);
      case Bool(_, t) =>
        CanonTriviaIdempotent(t);
      case String(_, t) =>
        CanonTriviaIdempotent(t);
      case Comment(t) =>
        CanonTriviaIdempotent(t);
      case Table(c, t) =>
        CanonTriviaIdempotent(t);
        NormalizeContainerIdempotent(c);
      case InlineTable(c, t) =>
        CanonTriviaIdempotent(t);
        NormalizeContainerIdempotent(c);
      case Array(es, _, t) =>
        CanonTriviaIdempotent(t);
        NormalizeElementsIdempotent(es);
      case AoT(occ, t) =>
        CanonTriviaIdempotent(t);
        NormalizeOccurrencesIdempotent(occ);
    }
  }

  lemma NormalizeElementsIdempotent(es: seq<Item>)
    ensures NormalizeElements(NormalizeElements(es)) == NormalizeElements(es)
  {
    if es != [] {
      var x := es[0];
      var h := NormalizeElement(x);
      var rest := NormalizeElements(es[1..]);
      assert NormalizeElements(es) == h + rest;
      NormalizeElementsAppend(h, rest);
      NormalizeElementsIdempotent(es[1..]);
      if h != [] {
        assert NormalizeElements(h) == h by {
          assert h[1..] == [];
          if x.Whitespace? {
            CommaNotBlank();
          } else {
            NormalizeValueLayout(x);
            NormalizeValueIdempotent(x);
          }
        }
      }
    }
  }

  lemma NormalizeOccurrencesIdempotent(occ: seq<Container>)
    ensures NormalizeOccurrences(NormalizeOccurrences(occ)) == NormalizeOccurrences(occ)
  {
    if occ != [] {
      NormalizeContainerIdempotent(occ[0]);
      NormalizeOccurrencesIdempotent(occ[1..]);
    }
  }

  /** Normalising a normalised container changes nothing. */
  lemma NormalizeContainerIdempotent(c: Container)
    ensures NormalizeContainer(NormalizeContainer(c)) == NormalizeContainer(c)
  {
    NormalizeBodyIdempotent(c.body);
  }

  lemma NormalizeBodyIdempotent(body: seq<Entry>)
    ensures NormalizeBody(NormalizeBody(body)) == NormalizeBody(body)
  {
    if body != [] {
      NormalizeEntryIdempotent(body[0]);
      NormalizeBodyIdempotent(body[1..]);
    }
  }

  lemma NormalizeEntryIdempotent(e: Entry)
    ensures NormalizeEntry(NormalizeEntry(e)) == NormalizeEntry(e)
  {
    if e.key.Some? {
      PrettifyKeyIdempotent(e.key.value);
    }
    if e.value.Some? {
      NormalizeValueIdempotent(e.value.value);
    }
  }
}
