/** Template discovery: which walked files are templates, where each one's output goes and
    which colour type it asks for (`template_files`). */
module Templates {
  import opened Outcomes
  import opened Text
  import opened Scheme

  /** A regular file reached by the directory walk: its path and the text it holds. */
  datatype Entry = Entry(path: string, content: string)

  /** `ColorSchemeFile`: the output path, the template text and its colour type. */
  datatype TemplateFile = TemplateFile(path: string, content: string, colorType: ColorType)

  /** What a template's file name says: where to write, and in which colour type. */
  datatype TemplateName = TemplateName(output: string, colorType: ColorType)

  const Extension: string := ".cscheme"

  /** A walked file is a template when its whole path ends with `.cscheme`. */
  predicate IsCandidate(path: string)
  {
    EndsWith(path, Extension)
  }

  /** The path of a candidate without its `.cscheme`. */
  function Stem(path: string): string
    requires IsCandidate(path)
  {
    path[..|path| - |Extension|]
  }

  /** The inner suffix that names a colour type. */
  function TagOf(ct: ColorType): string
  {
    match ct
    case Hex => "hex"
    case Rrggbbaa => "rrggbbaa"
  }

  /** The lookup of an inner suffix: `hex` and `rrggbbaa` are the only known tags. */
  function ColorTypeOfTag(tag: string): (r: Option<ColorType>)
    ensures r.Some? <==> tag == "hex" || tag == "rrggbbaa"
    ensures r.Some? ==> TagOf(r.value) == tag
  {
    if tag == "hex" then Some(Hex)
    else if tag == "rrggbbaa" then Some(Rrggbbaa)
    else None
  }

  /** A candidate path splits on `.` into the parts of its stem and the final `cscheme`. */
  lemma CandidateSplit(path: string)
    requires IsCandidate(path)
    ensures Split(path, '.') == Split(Stem(path), '.') + ["cscheme"]
  {
    var stem := Stem(path);
    assert path == stem + ['.'] + "cscheme" by {
      assert path == stem + path[|stem|..];
    }
    SplitAround(stem, "cscheme", '.');
    SplitWithoutSeparator("cscheme", '.');
  }

  /** The closure that `template_files` maps over the candidates: the tag is the part before
      the last of the `.`-separated parts of the whole path; an unknown tag aborts, and so does
      a failure to strip `.cscheme` and then `.<tag>` from the path. */
  function ParseTemplateName(path: string): (r: Result<TemplateName>)
    requires IsCandidate(path)
    ensures r.Ok? ==> path == r.value.output + "." + TagOf(r.value.colorType) + Extension
    ensures r.Err? ==> r.error == MissingColorType(path) || r.error == UnstrippableSuffix(path)
  {
    CandidateSplit(path);
    var split := Split(path, '.');
    var tag := split[|split| - 2];
    match ColorTypeOfTag(tag)
    case None => Err(MissingColorType(path))
    case Some(ct) =>
      match StripSuffix(path, Extension)
      case None => Err(UnstrippableSuffix(path))
      case Some(stem) =>
        match StripSuffix(stem, "." + tag)
        case None => Err(UnstrippableSuffix(path))
        case Some(output) => Ok(TemplateName(output, ct))
  }

  /** The outcome of the name parser for every candidate: the tag is the text after the last
      `.` of the stem (the whole stem, directories included, when it has no `.`). */
  lemma ParseTemplateNameCases(path: string)
    requires IsCandidate(path)
    ensures var stem := Stem(path);
            var tag := LastSegment(stem, '.');
            ParseTemplateName(path) ==
              if ColorTypeOfTag(tag).None? then Err(MissingColorType(path))
              else if '.' !in stem then Err(UnstrippableSuffix(path))
              else Ok(TemplateName(stem[..|stem| - |tag| - 1], ColorTypeOfTag(tag).value))
  {
    var stem := Stem(path);
    var tag := LastSegment(stem, '.');
    CandidateTag(path);
    assert StripSuffix(path, Extension) == Some(stem);
    StripTag(stem);
  }

  /** The tag the parser picks is the text after the last `.` of the stem. */
  lemma CandidateTag(path: string)
    requires IsCandidate(path)
    ensures var split := Split(path, '.');
            |split| >= 2 && split[|split| - 2] == LastSegment(Stem(path), '.')
  {
    var stem := Stem(path);
    var parts, split := Split(stem, '.'), Split(path, '.');
    assert split == parts + ["cscheme"] by {
      CandidateSplit(path);
    }
    assert parts[|parts| - 1] == LastSegment(stem, '.') by {
      SplitLast(stem, '.');
    }
    SecondLastOfAppend(parts, "cscheme");
  }

  /** `.<tag>` can be stripped from a stem exactly when the stem holds a `.`. */
  lemma StripTag(stem: string)
    ensures var tag := LastSegment(stem, '.');
            StripSuffix(stem, "." + tag) == if '.' in stem then Some(stem[..|stem| - |tag| - 1]) else None
  {
    if '.' in stem {
      StripTagSucceeds(stem);
    } else {
      var tag := LastSegment(stem, '.');
      assert |"." + tag| > |stem|;
    }
  }

  lemma StripTagSucceeds(stem: string)
    requires '.' in stem
    ensures EndsWith(stem, "." + LastSegment(stem, '.'))
  {
    var tag := LastSegment(stem, '.');
    LastSegmentShape(stem, '.');
    var k := |stem| - |tag| - 1;
    assert stem[k] == '.' && stem[k + 1..] == tag;
    assert stem[k..] == [stem[k]] + stem[k + 1..];
  }

  /** Naming round trip: `<base>.<tag>.cscheme` yields the output path `<base>` and the colour
      type of the tag, and (with the converse in `ParseTemplateName`'s contract) nothing else
      yields them. */
  lemma {:induction false} NamingRoundTrip(base: string, ct: ColorType)
    ensures IsCandidate(base + "." + TagOf(ct) + Extension)
    ensures ParseTemplateName(base + "." + TagOf(ct) + Extension) == Ok(TemplateName(base, ct))
  {
    var tag := TagOf(ct);
    var stem := base + ['.'] + tag;
    var path := base + "." + tag + Extension;
    assert path == stem + Extension;
    CandidatePath(stem);
    assert LastSegment(stem, '.') == tag by {
      LastSegmentAfterSeparator(base, tag, '.');
    }
    assert '.' in stem && stem[..|stem| - |tag| - 1] == base by {
      assert |stem| - |tag| - 1 == |base|;
      assert stem[..|base|] == base && stem[|base|] == '.';
    }
    ParseTemplateNameCases(path);
  }

  /** Appending `.cscheme` makes a candidate whose stem is the text appended to. */
  lemma CandidatePath(stem: string)
    ensures IsCandidate(stem + Extension) && Stem(stem + Extension) == stem
  {
    var path := stem + Extension;
    assert path[|path| - |Extension|..] == Extension;
  }

  lemma LastSegmentAfterSeparator(base: string, tag: string, sep: char)
    requires sep !in tag
    ensures LastSegment(base + [sep] + tag, sep) == tag
  {
    SplitAround(base, tag, sep);
    SplitWithoutSeparator(tag, sep);
    SplitLast(base + [sep] + tag, sep);
  }

  /** Stripping the two suffixes fails only for a path that is nothing but a known tag and
      `.cscheme`, that is, one whose only `.` is the one before `cscheme`. */
  lemma StripFailsOnlyForBareTag(path: string)
    requires IsCandidate(path)
    ensures ParseTemplateName(path) == Err(UnstrippableSuffix(path))
            <==> path == "hex.cscheme" || path == "rrggbbaa.cscheme"
  {
    ParseTemplateNameCases(path);
    var stem := Stem(path);
    if '.' !in stem && ColorTypeOfTag(LastSegment(stem, '.')).Some? {
      BareTagPath(path);
    } else if path == "hex.cscheme" || path == "rrggbbaa.cscheme" {
      BareTagUnstrippable(path);
    }
  }

  lemma BareTagPath(path: string)
    requires IsCandidate(path) && '.' !in Stem(path) && ColorTypeOfTag(LastSegment(Stem(path), '.')).Some?
    ensures path == "hex.cscheme" || path == "rrggbbaa.cscheme"
  {
    var stem := Stem(path);
    LastSegmentShape(stem, '.');
    assert LastSegment(stem, '.') == stem;
    assert path == stem + Extension by {
      assert path == stem + path[|stem|..];
    }
  }

  lemma BareTagUnstrippable(path: string)
    requires path == "hex.cscheme" || path == "rrggbbaa.cscheme"
    ensures IsCandidate(path) && ParseTemplateName(path) == Err(UnstrippableSuffix(path))
  {
    assert path[|path| - |Extension|..] == Extension;
    var stem := Stem(path);
    assert stem == "hex" || stem == "rrggbbaa";
    assert '.' !in stem;
    LastSegmentShape(stem, '.');
    assert LastSegment(stem, '.') == stem;
    ParseTemplateNameCases(path);
  }

  /** A template outside the naming convention aborts even though it sits in a directory:
      the tag taken is `dir/theme`. */
  lemma DirectoryIsNoTag()
    ensures IsCandidate("dir/theme.cscheme")
    ensures ParseTemplateName("dir/theme.cscheme") == Err(MissingColorType("dir/theme.cscheme"))
  {
    var path := "dir/theme.cscheme";
    assert path[|path| - |Extension|..] == Extension;
    assert Stem(path) == "dir/theme";
    SplitWithoutSeparator("dir/theme", '.');
    SplitLast("dir/theme", '.');
    ParseTemplateNameCases(path);
  }

  /** The walked files that are templates, in walk order. */
  function Candidates(entries: seq<Entry>): (r: seq<Entry>)
    ensures |r| <= |entries|
    ensures forall e :: e in r <==> e in entries && IsCandidate(e.path)
  {
    if entries == [] then []
    else
      assert entries == [entries[0]] + entries[1..];
      if IsCandidate(entries[0].path) then [entries[0]] + Candidates(entries[1..])
      else Candidates(entries[1..])
  }

  /** The filter keeps walk order: the candidates of two runs of walked files, one after the
      other, are the candidates of the first run followed by those of the second. */
  lemma {:induction false} CandidatesAppend(a: seq<Entry>, b: seq<Entry>)
    ensures Candidates(a + b) == Candidates(a) + Candidates(b)
  {
    if a != [] {
      assert (a + b)[0] == a[0] && (a + b)[1..] == a[1..] + b;
      CandidatesAppend(a[1..], b);
    } else {
      assert a + b == b;
    }
  }

  /** What `template_files` returns: every candidate parsed, in walk order, or the failure of
      the first candidate whose name cannot be parsed (nothing is written before it). */
  function Discovered(entries: seq<Entry>): Result<seq<TemplateFile>>
  {
    if entries == [] then Ok([])
    else if !IsCandidate(entries[0].path) then Discovered(entries[1..])
    else
      match ParseTemplateName(entries[0].path)
      case Err(e) => Err(e)
      case Ok(name) => Prepend([TemplateFile(name.output, entries[0].content, name.colorType)], Discovered(entries[1..]))
  }

  function Prepend(files: seq<TemplateFile>, r: Result<seq<TemplateFile>>): Result<seq<TemplateFile>>
  {
    match r
    case Ok(rest) => Ok(files + rest)
    case Err(e) => Err(e)
  }

  /** `template_files` over the walked files: the iterator pipeline and its `collect`. */
  method TemplateFiles(entries: seq<Entry>) returns (r: Result<seq<TemplateFile>>)
    ensures r == Discovered(entries)
  {
    var files: seq<TemplateFile> := [];
    var i := 0;
    assert entries[i..] == entries;
    match Discovered(entries) {
      case Ok(all) => assert files + all == all;
      case Err(_) =>
    }
    while i < |entries|
      invariant 0 <= i <= |entries|
      invariant Discovered(entries) == Prepend(files, Discovered(entries[i..]))
    {
      var entry := entries[i];
      assert entries[i..][0] == entry && entries[i..][1..] == entries[i + 1..];
      if IsCandidate(entry.path) {
        var name := ParseTemplateName(entry.path);
        if name.Err? {
          assert Discovered(entries[i..]) == Err(name.error);
          return Err(name.error);
        }
        var file := TemplateFile(name.value.output, entry.content, name.value.colorType);
        match Discovered(entries[i + 1..]) {
          case Ok(rest) => assert files + ([file] + rest) == (files + [file]) + rest;
          case Err(_) =>
        }
        files := files + [file];
      }
      i := i + 1;
    }
    assert entries[i..] == [] && files + [] == files;
    r := Ok(files);
  }

  /** All or nothing: discovery fails exactly when some candidate's name cannot be parsed. */
  lemma {:induction false} DiscoveryAllOrNothing(entries: seq<Entry>)
    ensures Discovered(entries).Err? <==>
      exists i :: 0 <= i < |entries| && IsCandidate(entries[i].path) && ParseTemplateName(entries[i].path).Err?
  {
    if entries != [] {
      DiscoveryAllOrNothing(entries[1..]);
      if Discovered(entries[1..]).Err? {
        var i :| 0 <= i < |entries[1..]| && IsCandidate(entries[1..][i].path) && ParseTemplateName(entries[1..][i].path).Err?;
        assert entries[i + 1] == entries[1..][i];
      }
      if exists i :: 0 <= i < |entries| && IsCandidate(entries[i].path) && ParseTemplateName(entries[i].path).Err? {
        var i :| 0 <= i < |entries| && IsCandidate(entries[i].path) && ParseTemplateName(entries[i].path).Err?;
        if i > 0 {
          assert entries[1..][i - 1] == entries[i];
        }
      }
    }
  }

  /** Discovery reports the failure of the first candidate whose name cannot be parsed. */
  lemma {:induction false} FirstNamingFailure(entries: seq<Entry>, k: nat)
    requires k < |entries| && IsCandidate(entries[k].path) && ParseTemplateName(entries[k].path).Err?
    requires forall i :: 0 <= i < k && IsCandidate(entries[i].path) ==> ParseTemplateName(entries[i].path).Ok?
    ensures Discovered(entries) == Err(ParseTemplateName(entries[k].path).error)
  {
    if k > 0 {
      assert forall i :: 0 <= i < k - 1 ==> entries[1..][i] == entries[i + 1];
      FirstNamingFailure(entries[1..], k - 1);
    }
  }

  /** Each candidate is the template at the same position, named after the template's output
      path with `.<tag>.cscheme` appended, and holding the template's text. */
  predicate NamedAfter(cands: seq<Entry>, files: seq<TemplateFile>)
  {
    |files| == |cands| &&
    forall j :: 0 <= j < |files| ==>
      cands[j].path == files[j].path + "." + TagOf(files[j].colorType) + Extension &&
      cands[j].content == files[j].content
  }

  /** On success there is one template per candidate, in walk order, with the candidate's text;
      each candidate's path is the template's output path with `.<tag>.cscheme` appended. */
  lemma {:induction false} DiscoveredFiles(entries: seq<Entry>)
    requires Discovered(entries).Ok?
    ensures NamedAfter(Candidates(entries), Discovered(entries).value)
  {
    if entries != [] {
      DiscoveredFiles(entries[1..]);
      if IsCandidate(entries[0].path) {
        var e := entries[0];
        var name := ParseTemplateName(e.path).value;
        var file := TemplateFile(name.output, e.content, name.colorType);
        assert Discovered(entries).value == [file] + Discovered(entries[1..]).value;
        assert Candidates(entries) == [e] + Candidates(entries[1..]);
        NamedAfterCons(e, file, Candidates(entries[1..]), Discovered(entries[1..]).value);
      }
    }
  }

  lemma NamedAfterCons(e: Entry, file: TemplateFile, cands: seq<Entry>, files: seq<TemplateFile>)
    requires NamedAfter(cands, files)
    requires e.path == file.path + "." + TagOf(file.colorType) + Extension && e.content == file.content
    ensures NamedAfter([e] + cands, [file] + files)
  {
    var cs, fs := [e] + cands, [file] + files;
    forall j | 1 <= j < |fs| ensures fs[j] == files[j - 1] && cs[j] == cands[j - 1] {
    }
  }
}
