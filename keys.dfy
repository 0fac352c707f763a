/**
 * Keys of a TOML document (section "Keys" of TOML v1.0.0) and the
 * formatter's key rule `PrettyTomlDocument._prettify_key`.
 *
 * A key is bare (`key`), basic (`"key"`) or literal (`'key'`). The rule
 * strips the key's name and builds a fresh key from it through tomlkit's
 * `api.key`, which is not part of this model: `ApiKey` states what it is
 * assumed to do, namely choose a bare key exactly when the name is made
 * of `A-Za-z0-9_-` only, a basic key otherwise, and use the default
 * separator ` = `.
 */
module TomlKey {
  import opened Text

  datatype KeyStyle = Bare | Basic | Literal

  /** A key as the document holds it: its name, how it is quoted, and the separator after it. */
  datatype Key = Key(name: string, style: KeyStyle, sep: string)

  /** The characters of a bare key. */
  predicate IsBareChar(c: char) {
    ('A' <= c <= 'Z') || ('a' <= c <= 'z') || ('0' <= c <= '9') || c == '_' || c == '-'
  }

  /** A name that may be written as a bare key. */
  predicate IsBareName(s: string) {
    s != [] && forall i :: 0 <= i < |s| ==> IsBareChar(s[i])
  }

  /** The separator tomlkit puts between a new key and its value. */
  const DefaultSep: string := " = "

  /** tomlkit's `api.key` as assumed here: bare when possible, double-quoted otherwise. */
  function ApiKey(name: string): (r: Key) {
    Key(name, if IsBareName(name) then Bare else Basic, DefaultSep)
  }

  /** `_prettify_key`: `api.key(value.key.strip())` swapped into the key. */
  function PrettifyKey(k: Key): (r: Key) {
    ApiKey(Strip(k.name))
  }

  /** A key as it is written in the document (escapes inside quoted keys are not modelled). */
  function KeyText(k: Key): (r: string) {
    match k.style
    case Bare => k.name
    case Basic => "\"" + k.name + "\""
    case Literal => "'" + k.name + "'"
  }

  /**
   * The new key is named by the stripped name, has no white space at
   * either end, is bare exactly when that name is a bare-key name and is
   * double-quoted otherwise, and uses the default separator.
   */
  lemma PrettifyKeyShape(k: Key)
    ensures var r := PrettifyKey(k);
            && r.name == Strip(k.name)
            && Stripped(r.name)
            && (r.style == Bare <==> IsBareName(Strip(k.name)))
            && (r.style != Bare ==> r.style == Basic)
            && r.sep == DefaultSep
  {
    StripProperties(k.name);
  }

  /** Applying the rule twice is applying it once. */
  lemma PrettifyKeyIdempotent(k: Key)
    ensures PrettifyKey(PrettifyKey(k)) == PrettifyKey(k)
  {
    StripProperties(k.name);
  }

  /** A bare-key name has no white space at either end. */
  lemma BareNameStripped(n: string)
    requires IsBareName(n)
    ensures Strip(n) == n
  {
    assert Stripped(n) by {
      assert IsBareChar(n[0]) && IsBareChar(n[|n| - 1]);
    }
    StripProperties(n);
  }

  /** A key that is already a bare, stripped name with the default separator is left as it is. */
  lemma PrettifyKeyFixpoint(k: Key)
    requires k.style == Bare && IsBareName(k.name) && k.sep == DefaultSep
    ensures PrettifyKey(k) == k
  {
    BareNameStripped(k.name);
  }

  lemma KeyIsBareName()
    ensures IsBareName("key")
  {
    var n := "key";
    assert n[0] == 'k' && n[1] == 'e' && n[2] == 'y';
  }

  /** A quoted key whose name is an ideographic space and `a` is written bare, as `a`. */
  lemma IdeographicSpaceKey()
    ensures PrettifyKey(Key(['\U{3000}', 'a'], Basic, " = ")) == Key("a", Bare, DefaultSep)
  {
    assert ['\U{3000}', 'a'] == ['\U{3000}'] + "a";
    StripLeadingSpace('\U{3000}', "a");
    assert IsBareName("a");
    BareNameStripped("a");
  }

  /** `'key'` is written `key`. */
  lemma LiteralBareKey()
    ensures KeyText(PrettifyKey(Key("key", Literal, "="))) == "key"
  {
    KeyIsBareName();
    BareNameStripped("key");
  }

  /** `'key with space'` is written `"key with space"`. */
  lemma LiteralQuotedKey()
    ensures KeyText(PrettifyKey(Key("key with space", Literal, " = "))) == "\"key with space\""
  {
    KeyWithSpaceShape();
    QuotedName("key with space", Literal, " = ", 3);
  }

  lemma KeyWithSpaceShape()
    ensures Stripped("key with space") && !IsBareChar("key with space"[3])
    ensures "\"" + "key with space" + "\"" == "\"key with space\""
  {
    var n := "key with space";
    assert n[0] == 'k' && n[|n| - 1] == 'e' && n[3] == ' ';
  }

  /**
   * A key whose name has no white space at either end and holds a character
   * a bare key cannot hold is written double-quoted, whatever its style and
   * separator were.
   */
  lemma QuotedName(n: string, st: KeyStyle, sep: string, i: nat)
    requires Stripped(n) && i < |n| && !IsBareChar(n[i])
    ensures PrettifyKey(Key(n, st, sep)) == Key(n, Basic, DefaultSep)
    ensures KeyText(PrettifyKey(Key(n, st, sep))) == "\"" + n + "\""
  {
    StripProperties(n);
  }
}
