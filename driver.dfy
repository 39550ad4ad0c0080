/** The body of `main` after the palette has been decoded: discover every template, then render
    and write them one after the other. Writing a file is recorded as a (path, text) pair. */
module Driver {
  import opened Outcomes
  import opened Scheme
  import opened Substitution
  import opened Templates

  /** One file written: its path and its new text. */
  datatype Written = Written(path: string, text: string)

  /** The files written by a run, in order, and the failure that aborted it, if any. */
  datatype Outcome = Outcome(written: seq<Written>, failure: Option<Failure>)

  /** The rendering step of the loop: the replace chain on the template's text, for the
      template's colour type. */
  function RenderFile(scheme: ColorScheme): TemplateFile -> Result<string>
  {
    (file: TemplateFile) => Render(file.content, scheme, file.colorType)
  }

  /** The write loop over `files`: each template rendered in turn by `render` and written under
      its output path, until the first template that cannot be rendered aborts the run. */
  function WriteOutcome(files: seq<TemplateFile>, render: TemplateFile -> Result<string>): Outcome
    decreases |files|
  {
    if files == [] then Outcome([], None)
    else
      match render(files[0])
      case Err(e) => Outcome([], Some(e))
      case Ok(text) => After([Written(files[0].path, text)], WriteOutcome(files[1..], render))
  }

  /** The outcome `o` preceded by the writes already done. */
  function After(done: seq<Written>, o: Outcome): Outcome
  {
    Outcome(done + o.written, o.failure)
  }

  /** The loop writes a prefix of the templates, each with its rendered text, and stops only at
      a template whose rendering fails, with that failure; without a failure it writes them all. */
  lemma {:induction false} WriteOutcomeCharacterised(files: seq<TemplateFile>, render: TemplateFile -> Result<string>)
    ensures var o := WriteOutcome(files, render);
            |o.written| <= |files| &&
            (forall i :: 0 <= i < |o.written| ==>
               render(files[i]).Ok? && o.written[i] == Written(files[i].path, render(files[i]).value)) &&
            (o.failure.None? <==> |o.written| == |files|) &&
            (o.failure.Some? ==> render(files[|o.written|]) == Err(o.failure.value))
    decreases |files|
  {
    if files != [] {
      WriteOutcomeCharacterised(files[1..], render);
      var o := WriteOutcome(files, render);
      var rest := WriteOutcome(files[1..], render);
      if render(files[0]).Ok? {
        assert |o.written| == 1 + |rest.written|;
        forall i | 1 <= i < |o.written|
          ensures o.written[i] == rest.written[i - 1] && files[i] == files[1..][i - 1]
        {
        }
        if o.failure.Some? {
          assert files[|o.written|] == files[1..][|rest.written|];
        }
      }
    }
  }

  /** Rendering a template fails exactly for an `rrggbbaa` template under a palette with a
      colour that lacks its `#`. */
  lemma RenderFileOk(scheme: ColorScheme)
    ensures forall f :: RenderFile(scheme)(f).Ok? <==> f.colorType == Hex || AllHashed(scheme)
  {
    forall f ensures RenderFile(scheme)(f).Ok? <==> f.colorType == Hex || AllHashed(scheme) {
      RenderFailsOnlyWithoutHash(f.content, scheme, f.colorType);
    }
  }

  /** Since rendering fails only for `rrggbbaa` templates under a palette with a colour lacking
      its `#`, such a palette stops the run at the first `rrggbbaa` template: every template
      before it, all `hex`, is written. */
  lemma StopsAtFirstRrggbbaa(scheme: ColorScheme, files: seq<TemplateFile>)
    requires !AllHashed(scheme)
    ensures var o := WriteOutcome(files, RenderFile(scheme));
            |o.written| <= |files| &&
            (forall i :: 0 <= i < |o.written| ==> files[i].colorType == Hex) &&
            (o.failure.Some? <==> exists i :: 0 <= i < |files| && files[i].colorType == Rrggbbaa) &&
            (o.failure.Some? ==> |o.written| < |files| && files[|o.written|].colorType == Rrggbbaa)
  {
    RenderFileOk(scheme);
    StopsAtFirstFailing(scheme, files, RenderFile(scheme));
  }

  /** The same for any step that fails exactly where the replace chain does. */
  lemma StopsAtFirstFailing(scheme: ColorScheme, files: seq<TemplateFile>, render: TemplateFile -> Result<string>)
    requires !AllHashed(scheme)
    requires forall f :: render(f).Ok? <==> f.colorType == Hex || AllHashed(scheme)
    ensures var o := WriteOutcome(files, render);
            |o.written| <= |files| &&
            (forall i :: 0 <= i < |o.written| ==> files[i].colorType == Hex) &&
            (o.failure.Some? <==> exists i :: 0 <= i < |files| && files[i].colorType == Rrggbbaa) &&
            (o.failure.Some? ==> |o.written| < |files| && files[|o.written|].colorType == Rrggbbaa)
  {
    WriteOutcomeCharacterised(files, render);
  }

  /** Under a palette whose colours all carry their `#` (or with `hex` templates only) every
      template is written, in order, with its rendered text. */
  lemma WritesEveryTemplate(scheme: ColorScheme, files: seq<TemplateFile>)
    requires AllHashed(scheme) || forall i :: 0 <= i < |files| ==> files[i].colorType == Hex
    ensures var o := WriteOutcome(files, RenderFile(scheme));
            o.failure.None? && |o.written| == |files| &&
            forall i :: 0 <= i < |files| ==>
              o.written[i].path == files[i].path && RenderFile(scheme)(files[i]) == Ok(o.written[i].text)
  {
    RenderFileOk(scheme);
    WritesEveryRendered(scheme, files, RenderFile(scheme));
  }

  /** The same for any step that fails exactly where the replace chain does. */
  lemma WritesEveryRendered(scheme: ColorScheme, files: seq<TemplateFile>, render: TemplateFile -> Result<string>)
    requires AllHashed(scheme) || forall i :: 0 <= i < |files| ==> files[i].colorType == Hex
    requires forall f :: render(f).Ok? <==> f.colorType == Hex || AllHashed(scheme)
    ensures var o := WriteOutcome(files, render);
            o.failure.None? && |o.written| == |files| &&
            forall i :: 0 <= i < |files| ==>
              o.written[i].path == files[i].path && render(files[i]) == Ok(o.written[i].text)
  {
    WriteOutcomeCharacterised(files, render);
  }

  /** The `for file in files` loop of `main`, for any rendering step: render each template in
      turn and write it, and stop at the first failure. */
  method WriteEach(files: seq<TemplateFile>, render: TemplateFile -> Result<string>)
    returns (written: seq<Written>, failure: Option<Failure>)
    ensures Outcome(written, failure) == WriteOutcome(files, render)
  {
    written := [];
    failure := None;
    var i := 0;
    assert files[i..] == files;
    while i < |files|
      invariant 0 <= i <= |files|
      invariant WriteOutcome(files, render) == After(written, WriteOutcome(files[i..], render))
    {
      var file := files[i];
      assert files[i..][0] == file && files[i..][1..] == files[i + 1..];
      match render(file) {
        case Err(e) =>
          assert WriteOutcome(files[i..], render) == Outcome([], Some(e));
          assert written + [] == written;
          return written, Some(e);
        case Ok(text) =>
          var rest := WriteOutcome(files[i + 1..], render);
          assert written + ([Written(file.path, text)] + rest.written)
              == (written + [Written(file.path, text)]) + rest.written;
          written := written + [Written(file.path, text)];
      }
      i := i + 1;
    }
    assert files[i..] == [] && written + [] == written;
  }

  /** The loop of `main`, its step being the replace chain under the decoded palette. */
  method WriteTemplates(scheme: ColorScheme, files: seq<TemplateFile>) returns (written: seq<Written>, failure: Option<Failure>)
    ensures Outcome(written, failure) == WriteOutcome(files, RenderFile(scheme))
  {
    written, failure := WriteEach(files, RenderFile(scheme));
  }

  /** A whole run on a decoded palette and the walked files: discovery first, then the writes. */
  function RunOutcome(input: ColorSchemeInput, entries: seq<Entry>): Outcome
  {
    match Discovered(entries)
    case Err(e) => Outcome([], Some(e))
    case Ok(files) => WriteOutcome(files, RenderFile(ParseInput(input)))
  }

  /** `main` from the decoded palette on. */
  method Run(input: ColorSchemeInput, entries: seq<Entry>) returns (written: seq<Written>, failure: Option<Failure>)
    ensures Outcome(written, failure) == RunOutcome(input, entries)
  {
    var scheme := ParseInput(input);
    var files := TemplateFiles(entries);
    match files {
      case Err(e) =>
        written, failure := [], Some(e);
      case Ok(templates) =>
        written, failure := WriteTemplates(scheme, templates);
    }
  }

  /** One template whose name cannot be parsed anywhere among the walked files means that no
      file at all is written, and the run fails with a naming error. */
  lemma BadNameWritesNothing(input: ColorSchemeInput, entries: seq<Entry>, k: nat)
    requires k < |entries| && IsCandidate(entries[k].path) && ParseTemplateName(entries[k].path).Err?
    ensures RunOutcome(input, entries).written == []
    ensures RunOutcome(input, entries).failure.Some?
    ensures RunOutcome(input, entries).failure.value.MissingColorType? ||
            RunOutcome(input, entries).failure.value.UnstrippableSuffix?
  {
    DiscoveryAllOrNothing(entries);
    DiscoveredError(entries);
  }

  /** The failure of discovery is the failure of some candidate's name. */
  lemma {:induction false} DiscoveredError(entries: seq<Entry>)
    requires Discovered(entries).Err?
    ensures exists i :: 0 <= i < |entries| && IsCandidate(entries[i].path) &&
                        ParseTemplateName(entries[i].path).Err? &&
                        Discovered(entries).error == ParseTemplateName(entries[i].path).error
  {
    if !IsCandidate(entries[0].path) || ParseTemplateName(entries[0].path).Ok? {
      DiscoveredError(entries[1..]);
      var i :| 0 <= i < |entries[1..]| && IsCandidate(entries[1..][i].path) &&
               ParseTemplateName(entries[1..][i].path).Err? &&
               Discovered(entries[1..]).error == ParseTemplateName(entries[1..][i].path).error;
      assert entries[i + 1] == entries[1..][i];
    }
  }

  /** When every name parses and the palette can encode every template, each candidate among
      the walked files is written, in walk order, under its name without `.<tag>.cscheme`, with
      its text rendered for the colour type named by its tag. */
  lemma RunWritesEveryCandidate(input: ColorSchemeInput, entries: seq<Entry>)
    requires Discovered(entries).Ok? && AllHashed(ParseInput(input))
    ensures var o := RunOutcome(input, entries);
            var cands := Candidates(entries);
            var files := Discovered(entries).value;
            o.failure.None? && |o.written| == |cands| == |files| &&
            forall j :: 0 <= j < |cands| ==>
              cands[j].path == o.written[j].path + "." + TagOf(files[j].colorType) + Extension &&
              cands[j].content == files[j].content &&
              RenderFile(ParseInput(input))(files[j]) == Ok(o.written[j].text)
  {
    var scheme := ParseInput(input);
    var files := Discovered(entries).value;
    assert RunOutcome(input, entries) == WriteOutcome(files, RenderFile(scheme));
    DiscoveredFiles(entries);
    WritesEveryTemplate(scheme, files);
  }
}
