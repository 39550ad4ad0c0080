# Colour-scheme templating, modelled in Dafny

The tool walks a directory for template files named `<name>.<tag>.cscheme`. The tag is
`hex` or `rrggbbaa`. For each template it replaces every placeholder (`$font-family`, `$black`,
… `$brown`) with the matching entry of a palette document, encoded for the template's colour
type. It then writes the result to `<name>`.

The model covers the whole of `src/main.rs` except its I/O, the `clap` argument parsing and the
`serde_json` decoding of the palette:

- `outcomes.dfy` (`Outcomes`) holds `Option`, `Result` and `Failure`. Each `panic!`/`unwrap` of the
  core becomes an `Err` naming its cause:
  - `MissingColorType`: an unknown tag;
  - `UnstrippableSuffix`: a `strip_suffix` that fails;
  - `MissingHashPrefix`: a colour without `#` in an `rrggbbaa` template.
- `text.dfy` (`Text`) models the parts of Rust's `str` that the code uses. These are
  `strip_prefix`, `strip_suffix`, `split` on one character (with its inverse `Join`) and `replace`.
  `replace` matches non-overlapping occurrences left to right and never searches replaced text
  again.
- `tokens.dfy` (`Tokens`) holds the 17 `ColorToken`s, their spellings (`to_scheme_token`) and
  the facts about the spelling table.
- `scheme.dfy` (`Scheme`) holds the decoded palette (`ColorSchemeInput`), its conversion
  (`parse`), colour types and the encoder `to_color_code`.
- `substitution.dfy` (`Substitution`) models the chain of 17 `.replace` calls in `main`. Each
  colour's code is computed when its step is reached. Its main theorem reads a template as
  pieces: plain text and token spellings. It proves that rendering replaces every spelling by
  that token's value and keeps the rest. This holds when every `$` of the template begins a
  token, no palette value contains `$`, and the template is `hex` or every colour has its `#`
  (otherwise rendering fails). `RenderRescansReplacedText` shows why the first
  condition is needed: text produced by one step is searched again by later steps.
- `templates.dfy` (`Templates`) models the name parser inside `template_files`: split the whole
  path on `.`, take the second-to-last part as the tag, then strip `.cscheme` and `.<tag>`.
  Discovery over the walked files is all-or-nothing. `TemplateFiles` is the iterator pipeline
  written as a loop.
- `driver.dfy` (`Driver`) models the `for file in files` loop of `main` as a method, `WriteEach`.
  It is proved against a recursive specification, `WriteOutcome`. `Run` models the whole run
  from the decoded palette on. A write is recorded as a (path, text) pair.

Behaviour of the code worth noting:

- A `hex` colour is output exactly as written, `#` included. It is not stripped of its `#`.
- No digit is upper-cased.
- A palette colour without `#` is not rejected when the palette is read. It fails only when an
  `rrggbbaa` template is rendered.
- There is no built-in palette and no floating-point colour. The palette file is mandatory.
- There is no "unsupported encoding" error, because the colour type has only two values.
- A failure to strip the suffixes aborts the run, just as an unknown tag does.

## Model

| member | source | states |
|---|---|---|
| Tokens.Name | src/main.rs:119-139 | every token name has at least three characters and no `$` |
| Tokens.ToSchemeToken | src/main.rs:119-139 | every spelling starts with the sigil `$`, contains no other `$`, and has at least four characters |
| Tokens.AllTokensComplete | src/main.rs:155-222 | the chain's order lists each of the 17 tokens exactly once |
| Tokens.NamesPrefixFree | src/main.rs:119-139 | no token name is a prefix of a different one |
| Tokens.SpellingsPrefixFree | src/main.rs:119-139 | no spelling is a prefix of a different spelling |
| Tokens.SpellingsDistinct | src/main.rs:119-139 | two spellings are equal exactly when the tokens are |
| Tokens.NoOtherSpellingAtFront | src/main.rs:119-139 | text that begins with one spelling does not begin with any other spelling |
| Tokens.SpellingsNotNested | src/main.rs:119-139 | no spelling occurs at any position inside a different spelling |
| Tokens.AtMostOneSpellingAtFront | src/main.rs:119-139 | no text begins with two different spellings |
| Tokens.FindToken | src/main.rs:119-139 | the token found is in the list and its spelling begins the text; when none is found, no listed spelling begins it |
| Tokens.SpelledAtFront | src/main.rs:119-139 | the token found is the unique one whose spelling begins the text; none is found exactly when no spelling begins it |
| Scheme.ParseInput | src/main.rs:75-95 | the font family is kept as text, and every colour entry becomes the colour of the token with the same name, unchanged |
| Scheme.ToColorCode | src/main.rs:228-233 | `hex` returns the colour verbatim and never fails; `rrggbbaa` succeeds exactly when the colour starts with `#`, and then drops the `#` and appends `ff`, so the result is one character longer; otherwise it fails naming the colour |
| Scheme.RrggbbaaCode | src/main.rs:231 | `#` followed by digits encodes as the digits followed by `ff` |
| Text.StripPrefix | src/main.rs:231 | succeeds exactly when the prefix begins the text, and the prefix followed by the result is the text |
| Text.StripSuffix | src/main.rs:255-258 | succeeds exactly when the text ends with the suffix, and the result followed by the suffix is the text |
| Text.Split | src/main.rs:245 | a split always yields at least one part |
| Text.SplitPartsFree | src/main.rs:245 | no part of a split contains the separator |
| Text.JoinSplit | src/main.rs:245 | the parts of a split, joined with the separator, give back the text |
| Text.SplitJoin | src/main.rs:245 | splitting joined parts that contain no separator gives back the parts |
| Text.SplitAround | src/main.rs:245 | splitting `a.b` gives the parts of `a` followed by the parts of `b` |
| Text.SplitWithoutSeparator | src/main.rs:245 | text without a separator splits into itself alone |
| Text.LastSegment | src/main.rs:246 | the text after the last separator is the whole text exactly when the text contains no separator |
| Text.LastSegmentShape | src/main.rs:246 | the last segment is a separator-free suffix, preceded by a separator when it is shorter than the text |
| Text.SplitLast | src/main.rs:245-246 | the last part of a split is the text after the last separator |
| Text.ReplaceAll | src/main.rs:155-222 | `str::replace`: non-overlapping occurrences found left to right, replaced text never searched again; `Substitution.ReplaceResolves` characterises one step on a reading of the text as pieces |
| Text.ReplaceAllSkips | src/main.rs:155-222 | `replace` copies text that lacks the pattern's first character through unchanged, and carries on after it |
| Text.ReplaceAllUntouched | src/main.rs:155-222 | `replace` leaves text unchanged when the text lacks the pattern's first character |
| Text.ReplaceAllSkipsWord | src/main.rs:155-222 | a word that does not begin an occurrence, and in which the pattern's first character does not recur, is copied through whole |
| Text.ReplaceAllStep | src/main.rs:155-222 | where no occurrence begins, `replace` keeps the first character and moves on by one |
| Text.ReplaceAllAtFront | src/main.rs:155-222 | an occurrence at the front is replaced, and the search resumes after it, not inside the replacement |
| Substitution.CodeFor | src/main.rs:156-161 | a token's value exists exactly for the font family, for a `hex` template, or for a colour with `#`; a failure names that colour |
| Substitution.Render | src/main.rs:153-222 | the chain of 17 `.replace` calls in the order of `main`; `RenderFailsOnlyWithoutHash` states when it fails and `RenderReplacesEachToken` what it produces |
| Substitution.RenderWith | src/main.rs:153-222 | the chain succeeds exactly when every step's code can be computed, and a failure is the failure of one of those steps |
| Substitution.RenderFailsOnlyWithoutHash | src/main.rs:159-222 | rendering fails exactly for an `rrggbbaa` template under a palette with a colour lacking `#`, whatever the text, and the failure names such a colour |
| Substitution.AllCodesOk | src/main.rs:159-222 | every token has a code exactly when the template is `hex` or every colour has its `#` |
| Substitution.RenderWithKeepsPlainText | src/main.rs:153-222 | any part of the chain that succeeds leaves text without `$` unchanged |
| Substitution.RenderKeepsPlainText | src/main.rs:153-222 | a template without `$` renders to itself whenever rendering can succeed |
| Substitution.CodeWithoutDollar | src/main.rs:228-233 | a palette without `$` yields codes without `$` |
| Substitution.ReplaceResolves | src/main.rs:155-158 | one `.replace` step on the text of pieces whose plain text has no `$` substitutes exactly that token's placeholders and nothing else, whatever the replacement holds |
| Substitution.RenderWithResolves | src/main.rs:153-222 | when the pieces' plain text has no `$`, no palette value contains `$`, and every token has a code, the chain over a list of tokens substitutes exactly the placeholders of those tokens |
| Substitution.RenderPieces | src/main.rs:153-222 | when the pieces' plain text has no `$`, no palette value contains `$`, and the template is `hex` or every colour has its `#`, rendering the pieces gives every placeholder replaced by its value and the plain text kept |
| Substitution.TokenizeFlattens | src/main.rs:153-222 | reading a text as pieces loses nothing: the pieces spell the text again |
| Substitution.TokenizePlain | src/main.rs:153-222 | when every `$` begins a token, no plain piece of the reading contains `$` |
| Substitution.RenderReplacesEachToken | src/main.rs:153-222 | when every `$` of the template begins a token, no palette value contains `$`, and the template is `hex` or every colour has its `#`, the rendered text is the template with every token spelling replaced by its value |
| Substitution.RenderLeavesNoToken | src/main.rs:153-222 | when every `$` of the template begins a token, no palette value contains `$`, and the template is `hex` or every colour has its `#`, rendering succeeds and leaves no `$`, so no placeholder is left |
| Substitution.RenderBlueExample | src/main.rs:211-214 | under a palette whose colours all have `#` (otherwise the code panics) and whose values have no `$`, `color: $blue;` with blue `#445566` in an `rrggbbaa` template renders as `color: 445566ff;` |
| Substitution.RenderRescansReplacedText | src/main.rs:191-206 | with red written `een`, the text `$gr$red` in a `hex` template renders as the code of green, because a replaced value is searched again by later steps |
| Templates.ColorTypeOfTag | src/main.rs:248-252 | only `hex` and `rrggbbaa` are known tags, and each maps to the colour type named by that tag |
| Templates.CandidateSplit | src/main.rs:245 | a candidate's path splits into the parts of its stem followed by `cscheme` |
| Templates.ParseTemplateName | src/main.rs:244-265 | on success, the path is the output path followed by `.`, the tag of the colour type and `.cscheme`; otherwise the failure is an unknown tag or an unstrippable suffix for that path |
| Templates.ParseTemplateNameCases | src/main.rs:245-258 | the parser's result for every candidate: an unknown tag fails; a stem without `.` cannot be stripped; otherwise the output is the stem without `.<tag>` |
| Templates.CandidateTag | src/main.rs:245-246 | the tag taken is the text after the last `.` of the stem, directories included |
| Templates.StripTag | src/main.rs:255-258 | `.<tag>` can be stripped from the stem exactly when the stem contains a `.` |
| Templates.NamingRoundTrip | src/main.rs:245-258 | `<base>.<tag>.cscheme` is a candidate and parses to output path `<base>` with the tag's colour type |
| Templates.StripFailsOnlyForBareTag | src/main.rs:255-258 | the suffixes fail to strip exactly for the paths `hex.cscheme` and `rrggbbaa.cscheme` |
| Templates.BareTagUnstrippable | src/main.rs:255-258 | `hex.cscheme` and `rrggbbaa.cscheme` are candidates whose suffixes cannot be stripped |
| Templates.DirectoryIsNoTag | src/main.rs:245-251 | `dir/theme.cscheme` takes `dir/theme` as its tag and fails with a missing colour type |
| Templates.IsCandidate | src/main.rs:236-241 | a walked file is a template exactly when its whole path, directories included, ends with `.cscheme`; `CandidatePath` shows every `<stem>.cscheme` qualifies |
| Templates.Candidates | src/main.rs:238-241 | an entry is kept exactly when it is a walked file whose path ends with `.cscheme`, and no more entries are kept than were walked |
| Templates.CandidatesAppend | src/main.rs:238-241 | the filter keeps walk order: the candidates of one run of walked files followed by another are the first run's candidates followed by the second's |
| Templates.Discovered | src/main.rs:235-267 | the value of `template_files`: every candidate parsed in walk order, or the first naming failure; `DiscoveryAllOrNothing` and `DiscoveredFiles` state what it holds |
| Templates.FirstNamingFailure | src/main.rs:244-266 | when every earlier candidate's name parses, discovery fails with the failure of the first candidate whose name does not |
| Templates.TemplateFiles | src/main.rs:235-267 | the pipeline returns every candidate parsed in walk order, or the first naming failure |
| Templates.DiscoveryAllOrNothing | src/main.rs:244-266 | discovery fails exactly when some candidate's name cannot be parsed |
| Templates.DiscoveredFiles | src/main.rs:244-266 | on success there is one template per candidate, in order, with the candidate's text, and each candidate's path is that template's output path followed by `.<tag>.cscheme` |
| Driver.WriteOutcome | src/main.rs:152-225 | the reference definition of the write loop; `WriteOutcomeCharacterised` states the written prefix, the rendered texts and the stop at the first failure |
| Driver.WriteOutcomeCharacterised | src/main.rs:152-225 | the loop writes a prefix of the templates, each with its rendered text; it stops only at a template whose rendering fails, with that failure; without a failure it writes them all |
| Driver.RenderFileOk | src/main.rs:153-222 | rendering a template fails exactly for an `rrggbbaa` template under a palette with a colour lacking `#` |
| Driver.StopsAtFirstRrggbbaa | src/main.rs:152-225 | under such a palette the run fails exactly when some template is `rrggbbaa`; every template written before it is `hex`, and it stops at the first `rrggbbaa` template |
| Driver.WritesEveryTemplate | src/main.rs:152-225 | when every colour has its `#`, or every template is `hex`, each template is written in order under its path with its rendered text |
| Driver.WriteEach | src/main.rs:152-225 | the loop's writes and failure are those of the specification `WriteOutcome` |
| Driver.WriteTemplates | src/main.rs:152-225 | the loop under the decoded palette, with the replace chain as its step |
| Driver.RunOutcome | src/main.rs:150-225 | the reference definition of a run: a discovery failure writes nothing, otherwise the write loop under the decoded palette; `BadNameWritesNothing` and `RunWritesEveryCandidate` state its consequences |
| Driver.Run | src/main.rs:150-225 | a whole run is discovery followed by the loop, and nothing is written when discovery fails |
| Driver.BadNameWritesNothing | src/main.rs:150-152 | one candidate with an unparsable name anywhere means no file is written, and the run fails with a naming error |
| Driver.DiscoveredError | src/main.rs:244-266 | a failed discovery reports the failure of some candidate's name |
| Driver.RunWritesEveryCandidate | src/main.rs:150-225 | when every name parses and every colour has its `#`, each candidate is written in walk order, under its path without `.<tag>.cscheme`, with its rendered text |

## Left out

- Command-line parsing (`clap`, src/main.rs:8-16 and 143): this is plumbing. The palette path and the root directory never reach the core.
- Reading the palette file and decoding its JSON (src/main.rs:145-148): this is file I/O and a foreign library. The model starts from the decoded `ColorSchemeInput` record. A missing key or a malformed document is not modelled.
- Reading templates (src/main.rs:254) and their read errors: each walked file arrives with its text, as an `Entry`.
- Writing output files (src/main.rs:224): a write is recorded as a `Written(path, text)` pair, and write errors are not modelled. Overwriting files and the effect of two templates with the same output path are not modelled.
- The directory walk (`WalkDir`, src/main.rs:238-241): skipped unreadable entries, the `is_file` test and non-UTF-8 paths (`to_str().unwrap()`) are left out. Discovery takes the walked regular files, in walk order, as a sequence.
- The regular expression `\.cscheme$` (src/main.rs:236) is modelled as a suffix test. With Rust's regex semantics, `$` anchors at the end of the text.
- Text.ReplaceAll: requires a non-empty pattern. Rust's `replace` with an empty pattern inserts the replacement before, between and after the characters (`"ab"` becomes `"xaxbx"` with replacement `x`). The chain only uses token spellings, which are never empty.
- Strings are sequences of characters. Rust's byte-oriented UTF-8 indexing is not modelled, because every pattern in the core is ASCII.
- The payloads of `Failure` (the template path in `MissingColorType` and `UnstrippableSuffix`, the colour in `MissingHashPrefix`) are the model's own. The program's panics carry only the text "Missing color type" or the generic message of `Option::unwrap`.
- A panic aborts the process. The model returns the panic's cause as an `Err`, and the files written before it stay in `written`.
- Substitution.RenderReplacesEachToken: holds under three conditions: every `$` of the template begins a token, no palette value contains `$`, and the template is `hex` or every colour has its `#`. The third excludes only the inputs on which the code panics (`Substitution.RenderFailsOnlyWithoutHash`). `Substitution.RenderRescansReplacedText` shows that the code does something else when the first condition fails. The second is needed for the same reason: a font family written `$black` is replaced again by the black step. Without the conditions the model still gives the exact output through `RenderWith`.
