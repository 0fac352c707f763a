# A verified model of `pretty_format_toml`

`pretty_format_toml` is a pre-commit hook that rewrites TOML files into one
canonical text. The class `PrettyTomlDocument` parses the file with tomlkit
into a lossless document tree and walks that tree once. The walk rewrites
every key, every item's trivia (indentation, inline comment, trail) and every
integer and float literal, and it makes arrays single-line. The tree is then
written back out. The hook exits with status 1 if any file is invalid or not
already in that canonical form; with `--autofix` it also rewrites those files.

The model has these modules:

- `Text` (`text.dfy`): the Python string operations the rules use (`strip`,
  `lstrip`, `rstrip`, `replace(c, "")`, `upper`, `lower`, `startswith`,
  `endswith`, `in`).
- `TomlInteger` (`integers.dfy`): the TOML v1.0.0 integer grammar (section
  "Integer"), the number a literal denotes, and `_prettify_integer`.
- `TomlFloat` (`floats.dfy`): the TOML v1.0.0 float grammar (section "Float"),
  a parser into a literal structure, the number a literal denotes (as a real),
  the canonical literal, and `_prettify_float`, both as written and corrected.
- `TomlKey` (`keys.dfy`): keys (section "Keys" of TOML v1.0.0) and
  `_prettify_key`.
- `TomlItems` (`items.dfy`): the document tree (containers, entries, the ten
  item kinds, trivia) and the four trivia rules.
- `TomlNormalize` (`normalize.dfy`): what the walk does to a tree, as
  functions on values, with the lemmas about the result: layout, separators,
  order and positions kept, and idempotence.
- `PrettyToml` (`prettify.dfy`): the class `PrettyTomlDocument`. Its methods
  walk the tree with loops, store each rewritten child back into its slot, and
  are proved to compute the `TomlNormalize` functions.
- `TomlStatus` (`status.dfy`): the per-file check and the exit-status loop of
  `pretty_format_toml`.

tomlkit is not part of this model. Some tomlkit calls are stated as small
functions with the behaviour the formatter relies on:

- `api.key(name)`: a bare key when the name is non-empty and made of
  `A-Za-z0-9_-` only, a double-quoted key otherwise, with separator ` = `.
- `Item.indent(n)`: the indentation becomes `n` spaces.
- `Item.comment(c)`: the comment becomes `c` when `c` stripped starts with
  `#`, `# ` followed by `c` otherwise, and one space goes before it.
- `tomlkit.parse("key = <literal>")["key"]`: an item holding that literal,
  with empty trivia.

`tomlkit.parse` on a whole file and `as_string` are parameters: `parse` gives
`None` for a `ParseError`, and `render` turns a tree into text.

The source path in every row below is relative to the repository root.

## Model

| member | source | states |
|---|---|---|
| TomlInteger.PrettifyIntegerCanonical | language_formatters_pre_commit_hooks/pretty_format_toml.py:156-186 | For every valid integer literal, the result is a valid literal that denotes the same number and is canonical: `0`, or a prefix or sign followed by digits with no leading zero and no lower-case letter. |
| TomlInteger.PrettifyIntegerClean | language_formatters_pre_commit_hooks/pretty_format_toml.py:165-170 | The result is non-empty and has no `_` and no leading `+`. |
| TomlInteger.IntegerZeroTest | language_formatters_pre_commit_hooks/pretty_format_toml.py:160 | The digit-based zero test holds exactly when the literal's value is 0. |
| TomlInteger.PrettifyIntegerZero | language_formatters_pre_commit_hooks/pretty_format_toml.py:160-181 | The result is `0` if and only if the literal is zero (`+0`, `-0`, `0b0`, `0o00`, `0x00`). |
| TomlInteger.PrettifyIntegerDecimal | language_formatters_pre_commit_hooks/pretty_format_toml.py:165-170 | A non-zero decimal loses its separators and a leading `+` and nothing else, so `-3` stays `-3`. |
| TomlInteger.PrettifyIntegerPrefixed | language_formatters_pre_commit_hooks/pretty_format_toml.py:161-178 | A non-zero `0b`/`0o`/`0x` literal keeps its prefix and has no `0` right after it. A hexadecimal literal has no lower-case digit. |
| TomlInteger.PrettifyIntegerIdempotent | language_formatters_pre_commit_hooks/pretty_format_toml.py:156-186 | Applying the integer rule twice gives the same as applying it once. |
| TomlFloat.PrettifyFloatSpec | language_formatters_pre_commit_hooks/pretty_format_toml.py:188-225 | The string steps of the corrected rule produce exactly the text of the canonical literal, and that text parses back to the canonical literal. |
| TomlFloat.PrettifyFloatCanonical | language_formatters_pre_commit_hooks/pretty_format_toml.py:188-225 | Under the corrected rule, every valid float literal becomes a valid literal with the same value. It has no `_`, no `E` and no leading `+`. |
| TomlFloat.FloatZeroTest | language_formatters_pre_commit_hooks/pretty_format_toml.py:192 | The digit-based zero test holds exactly when the literal's value is 0. |
| TomlFloat.PrettifyFloatZero | language_formatters_pre_commit_hooks/pretty_format_toml.py:219-220 | The result is `0.0` if and only if the literal is zero (`+0.00`, `-0e23141`). |
| TomlFloat.PrettifyFloatFraction | language_formatters_pre_commit_hooks/pretty_format_toml.py:194-217 | A non-zero literal with no exponent keeps its integer digits and its sign other than `+`. Its fraction loses separators and trailing zeros but keeps at least one digit (`67.890` to `67.89`, `5.0` stays). |
| TomlFloat.PrettifyFloatExponent | language_formatters_pre_commit_hooks/pretty_format_toml.py:203-210 | Under the corrected rule, a non-zero exponential literal keeps its mantissa digits and the marker becomes `e`. The exponent keeps its sign and value. An unsigned exponent loses its leading zeros (`3e04` to `3e4`); a signed one loses only its separators (`1e-05` stays). |
| TomlFloat.PrettifyFloatIdempotent | language_formatters_pre_commit_hooks/pretty_format_toml.py:188-225 | Applying the corrected float rule twice gives the same as applying it once. |
| TomlFloat.OneECanonical | language_formatters_pre_commit_hooks/pretty_format_toml.py:203-210 | A `1e` literal whose exponent digits start with a non-zero digit is left unchanged by the corrected rule. |
| TomlFloat.OneEZeroExponent | language_formatters_pre_commit_hooks/pretty_format_toml.py:207-210 | Under the corrected rule, `1e` followed by zeros only becomes `1e0`. |
| TomlFloat.AsWrittenDiffers | language_formatters_pre_commit_hooks/pretty_format_toml.py:193-217 | The rule as written agrees with the corrected one except on a non-zero exponential literal ending in `0`. There it also strips the trailing zeros of the corrected result. |
| TomlFloat.AsWrittenOnCanonical | language_formatters_pre_commit_hooks/pretty_format_toml.py:212-214 | On a canonical, non-zero exponential literal ending in `0`, the rule as written applies the trailing-zero step. |
| TomlFloat.AsWrittenStripsExponent | language_formatters_pre_commit_hooks/pretty_format_toml.py:212-214 | As written, `1e` followed by digits ending in `0` loses those zeros (`1e20` to `1e2`). The corrected rule keeps the literal unchanged. |
| TomlFloat.AsWrittenChangesValue | language_formatters_pre_commit_hooks/pretty_format_toml.py:212-214 | As written, `1e` followed by digits that start with a non-zero digit and end in `0` becomes `1e` followed by the digits with those zeros stripped. That is a valid literal with a different value. |
| TomlFloat.AsWrittenTwenty | language_formatters_pre_commit_hooks/pretty_format_toml.py:212-214 | As written, `1e20` becomes `1e2`, which denotes a different number. |
| TomlFloat.AsWrittenBreaksLiteral | language_formatters_pre_commit_hooks/pretty_format_toml.py:207-217 | As written, `1e00` (or `1e0`) becomes `1e`, which is not a float literal. |
| TomlKey.PrettifyKeyShape | language_formatters_pre_commit_hooks/pretty_format_toml.py:122-128 | The new key has the stripped name, is bare exactly when that name is a bare-key name, is double-quoted otherwise, and uses ` = `. |
| TomlKey.PrettifyKeyIdempotent | language_formatters_pre_commit_hooks/pretty_format_toml.py:128 | Applying the key rule twice gives the same as applying it once. |
| TomlKey.PrettifyKeyFixpoint | language_formatters_pre_commit_hooks/pretty_format_toml.py:128 | A bare key with default separator and a bare-key name is unchanged. |
| TomlKey.LiteralBareKey | tests/pretty_format_toml_test.py:114 | `'key'` is written `key`. |
| TomlKey.QuotedName | language_formatters_pre_commit_hooks/pretty_format_toml.py:122-128 | A key of any style and separator whose name has no white space at either end and holds a character a bare key cannot is rewritten as a double-quoted key with the same name and ` = `. |
| TomlKey.LiteralQuotedKey | tests/pretty_format_toml_test.py:117 | `'key with space'` is written `"key with space"`. |
| TomlKey.IdeographicSpaceKey | language_formatters_pre_commit_hooks/pretty_format_toml.py:128 | A quoted key whose name is U+3000 followed by `a` is stripped to `a` and becomes bare. |
| TomlItems.InlineCommentTriviaShape | language_formatters_pre_commit_hooks/pretty_format_toml.py:142-154 | The new comment is `# ` followed by the old comment with its leading `#`s and surrounding white space removed. Two spaces go before it. Indentation and trail are kept, and taking the body again gives the same body. |
| TomlItems.InlineCommentIdempotent | language_formatters_pre_commit_hooks/pretty_format_toml.py:142-154 | Applying the corrected inline-comment rule twice gives the same as applying it once. |
| TomlItems.InlineCommentAsWrittenAgrees | language_formatters_pre_commit_hooks/pretty_format_toml.py:150-152 | The rule as written and the corrected rule agree whenever the comment body does not itself start with `#`. |
| TomlItems.InlineCommentAsWrittenUnstable | language_formatters_pre_commit_hooks/pretty_format_toml.py:150-152 | As written, `# #x` becomes `#x`, which does not start with `# `, and a second pass gives `# x`. |
| TomlItems.NoBreakSpaceComment | language_formatters_pre_commit_hooks/pretty_format_toml.py:151 | Stripping the body removes non-ASCII white space too: `#\u00a0x` has body `x`. |
| TomlNormalize.TriviaRules | language_formatters_pre_commit_hooks/pretty_format_toml.py:83-112 | Under the corrected comment rule, indentation 0, then the inline-comment rule, then the trail rule give the canonical trivia: no indent, a newline trail, and a present comment as `# ` + body with two spaces before it. |
| TomlNormalize.TriviaRulesAsWritten | language_formatters_pre_commit_hooks/pretty_format_toml.py:142-154 | With the comment rule as written, the trivia rules give the same canonical trivia whenever the comment's body does not itself start with `#`. |
| TomlNormalize.CanonTriviaIdempotent | language_formatters_pre_commit_hooks/pretty_format_toml.py:130-154 | The canonical trivia (corrected comment rule) of canonical trivia is itself. |
| TomlNormalize.NormalizeValueCases | language_formatters_pre_commit_hooks/pretty_format_toml.py:83-112 | Under the corrected float and comment rules, the result for each of the ten item kinds. White space is untouched. An integer or float gets the rewritten literal with fresh trivia. Every other kind keeps its payload and gets canonical trivia. Tables and inline tables (lines 138-140, 231-233), arrays of tables, and arrays (which also become single-line) have their children normalised. |
| TomlNormalize.IntegerCase | language_formatters_pre_commit_hooks/pretty_format_toml.py:98-99 | An integer item becomes an integer holding the rewritten literal, with the trivia of a fresh item and a newline trail. |
| TomlNormalize.FloatCase | language_formatters_pre_commit_hooks/pretty_format_toml.py:100-101 | A float item becomes a float holding the literal of the corrected float rule, with the trivia of a fresh item and a newline trail. |
| TomlNormalize.FloatCaseAsWritten | language_formatters_pre_commit_hooks/pretty_format_toml.py:100-101 | A float item holds the literal the float rule as written gives, unless the literal has an exponent and ends in `0`. |
| TomlNormalize.CompoundCase | language_formatters_pre_commit_hooks/pretty_format_toml.py:83-112 | Every other kind except white space gets the canonical trivia (corrected comment rule) of its old trivia, and its kind's rule. |
| TomlNormalize.NormalizeValueLayout | language_formatters_pre_commit_hooks/pretty_format_toml.py:130-154 | An item is white space after exactly when before, and white space is untouched. Any other item has no indentation and a newline trail. An item other than an integer or a float keeps having no comment when it had none. Under the corrected comment rule, such an item with a comment has `# ` + body with two spaces before it. |
| TomlNormalize.NormalizeElementsShape | language_formatters_pre_commit_hooks/pretty_format_toml.py:56-68 | The array's new list is no longer than the old one. Every entry is a value or the separator `, `, and none is blank white space. Its values are the old values, each normalised, in the same number and order. |
| TomlNormalize.NormalizeElementFacts | language_formatters_pre_commit_hooks/pretty_format_toml.py:63-66 | One entry becomes nothing (blank white space), `, ` (other white space) or its normalised value. |
| TomlNormalize.NormalizeElementsAppend | language_formatters_pre_commit_hooks/pretty_format_toml.py:63-67 | The array rule works entry by entry: on a concatenation it is the concatenation of the results. |
| TomlNormalize.NormalizeBodyPositions | language_formatters_pre_commit_hooks/pretty_format_toml.py:114-120 | The container walk keeps the body's length, and entry `i` of the result is entry `i` of the input, normalised. |
| TomlNormalize.NormalizeOccurrencesPositions | language_formatters_pre_commit_hooks/pretty_format_toml.py:70-73 | An array of tables keeps its number of occurrences, and occurrence `i` is the old occurrence `i`, normalised. |
| TomlNormalize.NormalizeContainerLayout | language_formatters_pre_commit_hooks/pretty_format_toml.py:114-120 | After the walk every entry keeps its place. A key stays present or absent and is the rewritten key. A value stays present or absent, and every value that is not white space has no indent and a newline trail. |
| TomlNormalize.NormalizeValueIdempotent | language_formatters_pre_commit_hooks/pretty_format_toml.py:83-112 | Under the corrected rules, normalising an already normalised item changes nothing. |
| TomlNormalize.NormalizeElementsIdempotent | language_formatters_pre_commit_hooks/pretty_format_toml.py:56-68 | Under the corrected rules, normalising an already normalised array list changes nothing. |
| TomlNormalize.NormalizeOccurrencesIdempotent | language_formatters_pre_commit_hooks/pretty_format_toml.py:70-73 | Under the corrected rules, normalising an already normalised list of occurrences changes nothing. |
| TomlNormalize.NormalizeContainerIdempotent | language_formatters_pre_commit_hooks/pretty_format_toml.py:114-120 | Under the corrected rules, normalising an already normalised container changes nothing. |
| TomlNormalize.NormalizeBodyIdempotent | language_formatters_pre_commit_hooks/pretty_format_toml.py:114-120 | Under the corrected rules, normalising an already normalised body changes nothing. |
| TomlNormalize.NormalizeEntryIdempotent | language_formatters_pre_commit_hooks/pretty_format_toml.py:116-120 | Under the corrected rules, normalising an already normalised entry changes nothing. |
| PrettyToml.PrettyTomlDocument.constructor | language_formatters_pre_commit_hooks/pretty_format_toml.py:48-54 | The document's root container is the parsed tree. |
| PrettyToml.PrettyTomlDocument.PrettifyValue | language_formatters_pre_commit_hooks/pretty_format_toml.py:83-112 | The item the method returns is the normalised item, under the corrected float and comment rules. |
| PrettyToml.PrettyTomlDocument.PrettifyArray | language_formatters_pre_commit_hooks/pretty_format_toml.py:56-68 | The list built entry by entry is the normalised list. |
| PrettyToml.PrettyTomlDocument.PrettifyAoT | language_formatters_pre_commit_hooks/pretty_format_toml.py:70-73 | After overwriting each occurrence in its slot, the occurrences are the normalised occurrences. |
| PrettyToml.PrettyTomlDocument.PrettifyContainer | language_formatters_pre_commit_hooks/pretty_format_toml.py:114-120 | After overwriting each entry of the body in its slot, the container is the normalised container. |
| PrettyToml.PrettyTomlDocument.PrettifyEntry | language_formatters_pre_commit_hooks/pretty_format_toml.py:116-120 | The rewritten entry `i` is entry `i` of the normalised body. |
| PrettyToml.PrettyTomlDocument.Prettify | language_formatters_pre_commit_hooks/pretty_format_toml.py:241-243 | The root container becomes the normalised old root container. |
| PrettyToml.PrettyTomlDocument.Dumps | language_formatters_pre_commit_hooks/pretty_format_toml.py:245-248 | The root container is prettified, and the text returned is the rendering of the new root. |
| TomlStatus.CheckOne | language_formatters_pre_commit_hooks/pretty_format_toml.py:269-287 | Parsing, building the document and dumping it give that outcome. |
| TomlStatus.AnyChangedAdd | language_formatters_pre_commit_hooks/pretty_format_toml.py:274-287 | After one more file, some checked file is invalid or changed exactly when one was before or the new file is. |
| TomlStatus.FixesAdd | language_formatters_pre_commit_hooks/pretty_format_toml.py:282-285 | After one more file, the files to rewrite gain that file's new text exactly when it changed. |
| TomlStatus.ReportedStep | language_formatters_pre_commit_hooks/pretty_format_toml.py:265-287 | One loop iteration keeps the status and the rewritten files in line with the files checked so far. |
| TomlStatus.PrettyFormatToml | language_formatters_pre_commit_hooks/pretty_format_toml.py:263-289 | The status is 0 or 1. It is 1 exactly when some named file is invalid or not canonical; an invalid file does not stop the loop. With autofix, the files written are exactly the changed ones, each with its prettified text; without it, none. |
| TomlStatus.CanonicalFileSame | language_formatters_pre_commit_hooks/pretty_format_toml.py:277-279 | Under the corrected rules, a file that holds the rendering of a normalised tree, and parses back to that tree, is reported unchanged. |
| TomlStatus.FixedFileSame | language_formatters_pre_commit_hooks/pretty_format_toml.py:277-287 | Under the corrected rules, a file that is reported changed, and whose new text parses back to the tree it was rendered from, is reported unchanged on the next check: a second run after an autofix finds nothing to do for it. |

## Left out

- TriviaRules: states the corrected comment rule. As written, a comment whose body starts with `#` (`# #x`) becomes `#x`, and then `# x` on the next pass (see Findings). TriviaRulesAsWritten gives the agreement in every other case.
- CanonTriviaIdempotent: holds for the corrected comment rule only. As written, the trivia of `# #x` changes again on a second pass.
- CompoundCase: the canonical trivia it assigns uses the corrected comment rule, so `# #x` stays `# #x` instead of becoming `#x`.
- NormalizeValueLayout: its comment clause is the corrected rule. As written, a body that starts with `#` is not prefixed with `# `.
- FloatCase: uses the corrected float rule. As written, `1e20` becomes `1e2`, and `1e00` becomes `1e`, whose reparse at line 224 raises `ParseError`. That exception is not caught (line 277 is outside the `try`), so the hook stops. FloatCaseAsWritten gives the agreement in every other case.
- NormalizeValueCases: its float and comment cases are the corrected rules, so it differs from the source on `1e20`, `1e00` and `# #x`.
- NormalizeValueIdempotent: holds for the corrected walk. The source's walk is not idempotent on an item with the comment `# #x`.
- NormalizeElementsIdempotent: the same gap as NormalizeValueIdempotent, through the array's values.
- NormalizeOccurrencesIdempotent: the same gap as NormalizeValueIdempotent, through the occurrences.
- NormalizeContainerIdempotent: the same gap as NormalizeValueIdempotent, through the container's values.
- NormalizeBodyIdempotent: the same gap as NormalizeValueIdempotent, through the body's values.
- NormalizeEntryIdempotent: the same gap as NormalizeValueIdempotent, through the entry's value.
- PrettifyValue: computes the walk under the corrected float and comment rules, not `_prettify_value` as written, on `1e20`, `1e00` and `# #x`.
- PrettifyArray: the same gap as PrettifyValue, for the values inside the array.
- PrettifyAoT: the same gap as PrettifyValue, for the values inside the occurrences.
- PrettifyContainer: the same gap as PrettifyValue, for the values inside the container.
- PrettifyEntry: the same gap as PrettifyValue, for the entry's value.
- Prettify: the same gap as PrettifyValue, for the whole document.
- Dumps: the same gap as PrettifyValue, for the whole document.
- CheckOne: the outcome follows the corrected rules. A file holding `k = 1e20` has outcome Same here; the source reports it changed and writes `k = 1e2`. On `k = 1e00` the source stops with an uncaught `ParseError`.
- PrettyFormatToml: status and rewritten files follow the corrected rules, with the differences named for CheckOne. A run that the source ends with an exception on `1e00` is not modelled.
- CanonicalFileSame: holds for the corrected rules. As written, a file with the comment `# #x` is rewritten to `#x` and then again to `# x`, so its second run reports status 1.
- FixedFileSame: the same gap as CanonicalFileSame.
- tomlkit is not part of this model. `tomlkit.parse` and `as_string` are parameters (`parse`, `render`). `api.key`, `Item.indent`, `Item.comment` and the reparse in lines 185 and 224 are the assumed functions described above.
- Because the reparsed integer or float has empty trivia, the model says that an inline comment on an integer or float is dropped by the swap in lines 186 and 225. That follows the assumed tomlkit behaviour, not a checked one.
- `__swap_objects_inplace` (lines 36-46) is modelled as overwriting the child's slot in its parent's sequence. Object identity and aliasing are not modelled: if one object were reachable from two places, the model would rewrite each place on its own.
- Reading and writing files, encodings, `argparse` and printing (lines 251-293) are left out. The file contents are a map from names to texts, and autofix returns the texts it would write.
- The iteration order of `set(args.filenames)` is left open. The loop takes the files in any order, and its contract does not depend on that order.
- PrettifyFloat: the zero test is made on the digits, and values are reals. A literal that underflows to `0.0` in IEEE binary64 (such as `1e-400`) is zero for the source's `value == 0.0` but not for this model. IEEE rounding is not modelled.
- TomlStatus.CheckFile: only `ParseError` from the first parse is modelled. Other exceptions are left out: a missing file, and the `ParseError` that the reparse of the as-written float rule raises on `1e` (which `PrettifyFloatAsWritten` exhibits).
- `KeyText` writes a basic key between double quotes without escaping; escapes inside quoted keys are not modelled.
- Dotted-key expansion into a table header is left out; tomlkit does it when it parses.
- `_prettify_bool` and `_prettify_string` (lines 75-77, 227-229) do nothing. In the model, booleans and strings only get the common trivia rules. Table-key sorting (line 108) is a TODO in the source and does nothing.
- `pretty_format_ini.py` and the helpers exercised by `tests/utils_test.py` are not part of this model.

## Findings

| source | as written | input that shows it | evidently intended | confidence | as-written member | corrected member |
|---|---|---|---|---|---|---|
| language_formatters_pre_commit_hooks/pretty_format_toml.py:194-217 | The trailing-zero step runs when the original text ends in `0`, including exponential literals, and `rstrip`s the whole text, exponent included. | `1e20` becomes `1e2`, a different number. `1e00` becomes `1e0` and then `1e`, which is not a float and makes the reparse fail. | Strip trailing zeros of the fraction only, on literals without an exponent. | high; not executed | TomlFloat.PrettifyFloatAsWritten (exhibited by TomlFloat.AsWrittenStripsExponent, TomlFloat.AsWrittenChangesValue, TomlFloat.AsWrittenTwenty, TomlFloat.AsWrittenBreaksLiteral) | TomlFloat.PrettifyFloat (proved by TomlFloat.PrettifyFloatCanonical, TomlFloat.PrettifyFloatIdempotent, TomlFloat.OneECanonical) |
| language_formatters_pre_commit_hooks/pretty_format_toml.py:150-152 | The stripped comment body goes to `Item.comment`, which adds `# ` only when the text does not already start with `#`. | The comment `# #x` becomes `#x`, which does not start with `# ` as line 150 promises. A second run makes it `# x`, so the output is not stable. | The comment is `# ` followed by the body. | medium, since it depends on tomlkit's `Item.comment`; not executed | TomlItems.PrettifyInlineCommentAsWritten (exhibited by TomlItems.InlineCommentAsWrittenUnstable) | TomlItems.PrettifyInlineComment (proved by TomlItems.InlineCommentTriviaShape, TomlItems.InlineCommentIdempotent) |
