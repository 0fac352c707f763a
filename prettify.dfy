/**
 * The class `PrettyTomlDocument`. Its methods walk the document tree in
 * the order of the source: a container's body one entry at a time, an
 * array's list one entry at a time, an array of tables one occurrence at
 * a time. Where the source changes a child in place, the method stores
 * the rewritten child back into the same slot of the sequence it walks.
 * Each method is proved to compute the matching function of
 * `TomlNormalize`, whose properties are proved there.
 */
module PrettyToml {
  import opened Options
  import opened TomlKey
  import opened TomlItems
  import opened TomlNormalize

  class PrettyTomlDocument {
    /** The parsed document, which `Prettify` rewrites. */
    var rootContainer: Container

    /** `__init__`, given the container `tomlkit.parse` produced from the text. */
    constructor (parsed: Container)
      ensures rootContainer == parsed
    {
      rootContainer := parsed;
    }

    /** `_prettify_value` */
    method PrettifyValue(value: Item) returns (r: Item)
      ensures r == NormalizeValue(value)
      decreases value, 1
    {
      var a := PrettifyInlineComment(PrettifyIndentation(value, 0));
      if a.Whitespace? {
        return a;
      }
      var b: Item;
      match value {
        case AoT(occurrences, _) =>
          var o := PrettifyAoT(occurrences);
          b := AoT(o, a.trivia);
        case Array(elements, _, _) =>
          var e := PrettifyArray(elements);
          b := Array(e, false, a.trivia);
        case Bool(truth, _) =>
          b := Bool(truth, a.trivia);
        case Comment(_) =>
          b := PrettifyComment(Comment(a.trivia));
        case InlineTable(inner, _) =>
          var c := PrettifyContainer(inner);
          b := InlineTable(c, a.trivia);
        case Integer(s, _) =>
          b := PrettifyIntegerItem(s);
        case Float(s, _) =>
          b := PrettifyFloatItem(s);
        case String(text, _) =>
          b := String(text, a.trivia);
        case Table(inner, _) =>
          var c := PrettifyContainer(inner);
          b := Table(c, a.trivia);
        case Whitespace(_) =>
          b := value;
      }
      r := PrettifyTrail(b);
    }

    /**
     * `_prettify_array`: the new list of entries, built entry by entry;
     * the caller also clears the multi-line flag.
     */
    method PrettifyArray(elements: seq<Item>) returns (r: seq<Item>)
      ensures r == NormalizeElements(elements)
      decreases elements, 0
    {
      r := [];
      var i := 0;
      while i < |elements|
        invariant 0 <= i <= |elements|
        invariant r == NormalizeElements(elements[..i])
      {
        var v := elements[i];
        var entry: seq<Item>;
        if IsBlank(v) {
          entry := [];
        } else if v.Whitespace? {
          entry := [Whitespace(", ")];
        } else {
          var w := PrettifyValue(v);
          entry := [w];
        }
        assert elements[..i + 1] == elements[..i] + [v];
        NormalizeElementsSnoc(elements[..i], v);
        r := r + entry;
        i := i + 1;
      }
      assert elements[..i] == elements;
    }

    /** `_prettify_aot`: every occurrence's container, rewritten in its slot. */
    method PrettifyAoT(occurrences: seq<Container>) returns (r: seq<Container>)
      ensures r == NormalizeOccurrences(occurrences)
      decreases occurrences, 0
    {
      r := occurrences;
      ghost var target := NormalizeOccurrences(occurrences);
      NormalizeOccurrencesPositions(occurrences);
      var i := 0;
      while i < |r|
        invariant 0 <= i <= |r| == |occurrences| == |target|
        invariant forall j :: 0 <= j < i ==> r[j] == target[j]
        invariant forall j :: i <= j < |r| ==> r[j] == occurrences[j]
      {
        var c := PrettifyContainer(r[i]);
        r := r[i := c];
        i := i + 1;
      }
      assert r == target;
    }

    /**
     * `_prettify_container`: for every entry of the body, in order, the key
     * if present and the value if present, each rewritten in its slot.
     */
    method PrettifyContainer(container: Container) returns (r: Container)
      ensures r == NormalizeContainer(container)
      decreases container, 2
    {
      var body := container.body;
      ghost var target := NormalizeBody(container.body);
      NormalizeBodyPositions(container.body);
      var i := 0;
      while i < |body|
        invariant 0 <= i <= |body| == |container.body| == |target|
        invariant forall j :: 0 <= j < i ==> body[j] == target[j]
        invariant forall j :: i <= j < |body| ==> body[j] == container.body[j]
      {
        var e := PrettifyEntry(container, i);
        body := body[i := e];
        i := i + 1;
      }
      assert body == target;
      r := Container(body);
    }

    /** One step of `_prettify_container`: the key and the value of the `i`-th entry. */
    method PrettifyEntry(container: Container, i: nat) returns (e: Entry)
      requires i < |container.body|
      ensures i < |NormalizeBody(container.body)| && e == NormalizeBody(container.body)[i]
      decreases container, 1
    {
      NormalizeBodyPositions(container.body);
      var entry := container.body[i];
      assert entry in container.body;
      var key := entry.key;
      var value := entry.value;
      if key.Some? {
        key := Some(PrettifyKey(key.value));
      }
      if value.Some? {
        var v := PrettifyValue(value.value);
        value := Some(v);
      }
      e := Entry(key, value);
    }

    /** `prettify`: the root container, rewritten. */
    method Prettify()
      modifies this
      ensures rootContainer == NormalizeContainer(old(rootContainer))
    {
      rootContainer := PrettifyContainer(rootContainer);
    }

    /**
     * `dumps`: prettify, then the text of the root container; `render`
     * stands for tomlkit's `as_string`.
     */
    method Dumps(render: Container -> string) returns (s: string)
      modifies this
      ensures rootContainer == NormalizeContainer(old(rootContainer))
      ensures s == render(rootContainer)
    {
      Prettify();
      s := render(rootContainer);
    }
  }
}
