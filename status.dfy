/**
 * The exit status of `pretty_format_toml`: every distinct file named on
 * the command line is checked, and the status is 1 when any of them is
 * not a valid TOML document or is not in canonical form.
 *
 * Reading and writing files and printing are not part of this model: a
 * file is given by its text, `parse` stands for `tomlkit.parse` (`None`
 * for a `ParseError`) and `render` for tomlkit's `as_string`. With
 * `autofix`, the method returns the new text of each file it would write.
 */
module TomlStatus {
  import opened Options
  import opened TomlItems
  import opened TomlNormalize
  import opened PrettyToml

  datatype Outcome = Invalid | Same | Different(pretty: string)

  /** What checking one file's text gives. */
  function CheckFile(text: string, parse: string -> Option<Container>, render: Container -> string): (r: Outcome)
  {
    match parse(text)
    case None => Invalid
    case Some(c) =>
      var pretty := render(NormalizeContainer(c));
      if pretty == text then Same else Different(pretty)
  }

  /** The files among `done` that autofix rewrites, with their new text. */
  function Fixes(done: set<string>, contents: map<string, string>,
                 parse: string -> Option<Container>, render: Container -> string): (r: map<string, string>)
    requires done <= contents.Keys
  {
    map f | f in done && CheckFile(contents[f], parse, render).Different? :: CheckFile(contents[f], parse, render).pretty
  }

  /** Some file among `done` is invalid or not in canonical form. */
  predicate AnyChanged(done: set<string>, contents: map<string, string>,
                       parse: string -> Option<Container>, render: Container -> string)
    requires done <= contents.Keys
  {
    exists f :: f in done && CheckFile(contents[f], parse, render) != Same
  }

  lemma AnyChangedAdd(done: set<string>, f: string, contents: map<string, string>,
                      parse: string -> Option<Container>, render: Container -> string)
    requires done <= contents.Keys && f in contents
    ensures AnyChanged(done + {f}, contents, parse, render) <==>
            AnyChanged(done, contents, parse, render) || CheckFile(contents[f], parse, render) != Same
  {
  }

  lemma FixesAdd(done: set<string>, f: string, contents: map<string, string>,
                 parse: string -> Option<Container>, render: Container -> string)
    requires done <= contents.Keys && f in contents && f !in done
    ensures var o := CheckFile(contents[f], parse, render);
            Fixes(done + {f}, contents, parse, render)
            == if o.Different? then Fixes(done, contents, parse, render)[f := o.pretty]
               else Fixes(done, contents, parse, render)
  {
  }

  /**
   * One iteration of the loop of `pretty_format_toml`: parse the text,
   * then build the document and dump it. Only a valid file whose text
   * differs from its dump is written.
   */
  method CheckOne(text: string, parse: string -> Option<Container>, render: Container -> string)
    returns (outcome: Outcome)
    ensures outcome == CheckFile(text, parse, render)
  {
    var parsed := parse(text);
    if parsed.None? {
      return Invalid;
    }
    var doc := new PrettyTomlDocument(parsed.value);
    var pretty := doc.Dumps(render);
    if text != pretty {
      outcome := Different(pretty);
    } else {
      outcome := Same;
    }
  }

  /** What the loop has reported after checking the files in `done`. */
  predicate Reported(done: set<string>, status: int, written: map<string, string>, autofix: bool,
                     contents: map<string, string>,
                     parse: string -> Option<Container>, render: Container -> string)
    requires done <= contents.Keys
  {
    && (status == 0 || status == 1)
    && (status == 1 <==> AnyChanged(done, contents, parse, render))
    && written == if autofix then Fixes(done, contents, parse, render) else map[]
  }

  /** Checking one more file extends what is reported by that file's outcome. */
  lemma ReportedStep(done: set<string>, f: string, status: int, written: map<string, string>, autofix: bool,
                     contents: map<string, string>,
                     parse: string -> Option<Container>, render: Container -> string)
    requires done <= contents.Keys && f in contents && f !in done
    requires Reported(done, status, written, autofix, contents, parse, render)
    ensures var o := CheckFile(contents[f], parse, render);
            Reported(done + {f}, if o == Same then status else 1,
                     if autofix && o.Different? then written[f := o.pretty] else written,
                     autofix, contents, parse, render)
  {
    FixesAdd(done, f, contents, parse, render);
    AnyChangedAdd(done, f, contents, parse, render);
  }

  /**
   * The status loop of `pretty_format_toml`, over the set of file names
   * in any order; an invalid file does not stop the loop.
   */
  method PrettyFormatToml(filenames: seq<string>, contents: map<string, string>, autofix: bool,
                          parse: string -> Option<Container>, render: Container -> string)
    returns (status: int, written: map<string, string>)
    requires forall f :: f in filenames ==> f in contents
    ensures status == 0 || status == 1
    ensures status == 1 <==> AnyChanged((set f | f in filenames), contents, parse, render)
    ensures written == if autofix then Fixes((set f | f in filenames), contents, parse, render) else map[]
  {
    var all := set f | f in filenames;
    var todo := all;
    ghost var done: set<string> := {};
    status := 0;
    written := map[];
    assert Fixes(done, contents, parse, render) == map[];
    while todo != {}
      invariant todo !! done && todo + done == all
      invariant done <= contents.Keys && todo <= contents.Keys
      invariant Reported(done, status, written, autofix, contents, parse, render)
      decreases |todo|
    {
      var f :| f in todo;
      var outcome := CheckOne(contents[f], parse, render);
      ReportedStep(done, f, status, written, autofix, contents, parse, render);
      if outcome.Different? && autofix {
        written := written[f := outcome.pretty];
      }
      if outcome != Same {
        status := 1;
      }
      assert (todo - {f}) + (done + {f}) == todo + done;
      todo := todo - {f};
      done := done + {f};
    }
    assert done == all;
  }

  /**
   * A file whose text is what the formatter renders for some document,
   * and which parses back to that document, is reported unchanged: the
   * second run after an autofix finds nothing to do.
   */
  lemma CanonicalFileSame(c: Container, parse: string -> Option<Container>, render: Container -> string)
    requires parse(render(NormalizeContainer(c))) == Some(NormalizeContainer(c))
    ensures CheckFile(render(NormalizeContainer(c)), parse, render) == Same
  {
    NormalizeContainerIdempotent(c);
  }

  /**
   * A file that is rewritten, and whose new text parses back to the tree
   * it was rendered from, is reported unchanged when it is checked again.
   */
  lemma FixedFileSame(text: string, parse: string -> Option<Container>, render: Container -> string)
    requires parse(text).Some?
    requires var pretty := render(NormalizeContainer(parse(text).value));
             pretty != text && parse(pretty) == Some(NormalizeContainer(parse(text).value))
    ensures CheckFile(text, parse, render).Different?
    ensures CheckFile(CheckFile(text, parse, render).pretty, parse, render) == Same
  {
    CanonicalFileSame(parse(text).value, parse, render);
  }
}
