/** The substitution engine: the chain of `.replace` calls in `main` that turns a template's
    text into the rendered text, one token after the other. */
module Substitution {
  import opened Outcomes
  import opened Text
  import opened Tokens
  import opened Scheme

  /** The text that stands in for a token in a template of colour type `ct`: the raw font
      family, or the colour's code. */
  function CodeFor(scheme: ColorScheme, t: ColorToken, ct: ColorType): (r: Result<string>)
    ensures r.Ok? <==> t.FontFamily? || ct == Hex || HasHash(ColorOf(scheme, t))
    ensures r.Err? ==> !t.FontFamily? && r.error == MissingHashPrefix(ColorOf(scheme, t).code)
  {
    if t.FontFamily? then Ok(scheme.fontFamily) else ToColorCode(ColorOf(scheme, t), ct)
  }

  /** The replace chain over `tokens`, in order: each token's code is computed when its step
      is reached, and the first code that cannot be computed aborts the whole rendering. */
  function RenderWith(content: string, scheme: ColorScheme, ct: ColorType, tokens: seq<ColorToken>): (r: Result<string>)
    ensures r.Ok? <==> forall i :: 0 <= i < |tokens| ==> CodeFor(scheme, tokens[i], ct).Ok?
    ensures r.Err? ==> exists i :: 0 <= i < |tokens| && CodeFor(scheme, tokens[i], ct) == Err(r.error)
    decreases |tokens|
  {
    if tokens == [] then Ok(content)
    else
      match CodeFor(scheme, tokens[0], ct)
      case Err(e) => Err(e)
      case Ok(code) =>
        var r := RenderWith(ReplaceAll(content, ToSchemeToken(tokens[0]), code), scheme, ct, tokens[1..]);
        assert forall i :: 1 <= i < |tokens| ==> tokens[i] == tokens[1..][i - 1];
        r
  }

  /** The rendered text of one template: the chain over all 17 tokens in the order of `main`. */
  function Render(content: string, scheme: ColorScheme, ct: ColorType): Result<string>
  {
    RenderWith(content, scheme, ct, AllTokens)
  }

  /** Rendering fails exactly for an `rrggbbaa` template under a scheme with a colour that
      lacks its `#`, whatever the template's text, and the failure names such a colour. */
  lemma RenderFailsOnlyWithoutHash(content: string, scheme: ColorScheme, ct: ColorType)
    ensures Render(content, scheme, ct).Ok? <==> ct == Hex || AllHashed(scheme)
    ensures Render(content, scheme, ct).Err? ==>
      ct == Rrggbbaa &&
      exists t: ColorToken :: !t.FontFamily? && !HasHash(ColorOf(scheme, t)) &&
        Render(content, scheme, ct).error == MissingHashPrefix(ColorOf(scheme, t).code)
  {
    AllCodesOk(scheme, ct);
    var r := Render(content, scheme, ct);
    if r.Err? {
      var i :| 0 <= i < |AllTokens| && CodeFor(scheme, AllTokens[i], ct) == Err(r.error);
      var t := AllTokens[i];
      assert !t.FontFamily? && !HasHash(ColorOf(scheme, t));
    }
  }

  /** Every token has a code exactly when the template wants hex or every colour has its `#`. */
  lemma AllCodesOk(scheme: ColorScheme, ct: ColorType)
    ensures (forall i :: 0 <= i < |AllTokens| ==> CodeFor(scheme, AllTokens[i], ct).Ok?)
            <==> ct == Hex || AllHashed(scheme)
  {
    if forall i :: 0 <= i < |AllTokens| ==> CodeFor(scheme, AllTokens[i], ct).Ok? {
      forall t: ColorToken | !t.FontFamily? && ct == Rrggbbaa ensures HasHash(ColorOf(scheme, t)) {
        assert CodeFor(scheme, AllTokens[Position(t)], ct).Ok?;
      }
    }
  }

  /** The chain leaves text without `$` unchanged: no token spelling can occur in it. */
  lemma {:induction false} RenderWithKeepsPlainText(content: string, scheme: ColorScheme, ct: ColorType, tokens: seq<ColorToken>)
    requires '$' !in content
    ensures RenderWith(content, scheme, ct, tokens).Ok? ==> RenderWith(content, scheme, ct, tokens).value == content
    decreases |tokens|
  {
    if tokens != [] {
      match CodeFor(scheme, tokens[0], ct)
      case Err(_) =>
      case Ok(code) =>
        ReplaceAllUntouched(content, ToSchemeToken(tokens[0]), code);
        RenderWithKeepsPlainText(content, scheme, ct, tokens[1..]);
    }
  }

  lemma RenderKeepsPlainText(content: string, scheme: ColorScheme, ct: ColorType)
    requires '$' !in content
    requires ct == Hex || AllHashed(scheme)
    ensures Render(content, scheme, ct) == Ok(content)
  {
    RenderFailsOnlyWithoutHash(content, scheme, ct);
    RenderWithKeepsPlainText(content, scheme, ct, AllTokens);
  }

  // A template's text seen as a sequence of pieces: plain text, and token spellings.

  datatype Piece = Literal(text: string) | Placeholder(token: ColorToken)

  function PieceText(p: Piece): string
  {
    match p
    case Literal(s) => s
    case Placeholder(t) => ToSchemeToken(t)
  }

  /** The text that a sequence of pieces spells. */
  function Flatten(ps: seq<Piece>): string
  {
    if ps == [] then [] else PieceText(ps[0]) + Flatten(ps[1..])
  }

  /** The plain-text pieces hold no `$`, so every `$` of the text begins a placeholder. */
  predicate PlainLiterals(ps: seq<Piece>)
  {
    forall i :: 0 <= i < |ps| && ps[i].Literal? ==> '$' !in ps[i].text
  }

  /** The intended rendering: every placeholder replaced by its value, the plain text kept. */
  function Expand(ps: seq<Piece>, values: ColorToken -> string): string
  {
    if ps == [] then []
    else
      (match ps[0]
       case Literal(s) => s
       case Placeholder(t) => values(t)) + Expand(ps[1..], values)
  }

  /** The pieces after the tokens in `done` have been substituted. */
  function Resolve(ps: seq<Piece>, done: set<ColorToken>, values: ColorToken -> string): (r: seq<Piece>)
    ensures |r| == |ps|
  {
    if ps == [] then []
    else
      var p := ps[0];
      [if p.Placeholder? && p.token in done then Literal(values(p.token)) else p] + Resolve(ps[1..], done, values)
  }

  /** The value each token receives under a scheme and a colour type (empty if it has none). */
  function Values(scheme: ColorScheme, ct: ColorType): ColorToken -> string
  {
    t => match CodeFor(scheme, t, ct) case Ok(v) => v case Err(_) => []
  }

  /** No value of the scheme holds the sigil `$`. */
  predicate NoDollar(scheme: ColorScheme)
  {
    '$' !in scheme.fontFamily && forall t: ColorToken :: !t.FontFamily? ==> '$' !in ColorOf(scheme, t).code
  }

  lemma CodeWithoutDollar(scheme: ColorScheme, t: ColorToken, ct: ColorType)
    requires NoDollar(scheme) && CodeFor(scheme, t, ct).Ok?
    ensures '$' !in CodeFor(scheme, t, ct).value && Values(scheme, ct)(t) == CodeFor(scheme, t, ct).value
  {
    if !t.FontFamily? && ct == Rrggbbaa {
      var c := ColorOf(scheme, t).code;
      var r := CodeFor(scheme, t, ct).value;
      assert r == r[..|r| - 2] + r[|r| - 2..];
      assert r[..|r| - 2] == c[1..];
    }
  }

  /** A spelling other than the one replaced is copied through whole. */
  lemma OtherPlaceholderKept(u: ColorToken, t: ColorToken, rest: string, v: string)
    requires u != t
    ensures ReplaceAll(ToSchemeToken(u) + rest, ToSchemeToken(t), v)
            == ToSchemeToken(u) + ReplaceAll(rest, ToSchemeToken(t), v)
  {
    NoOtherSpellingAtFront(t, u, rest);
    ReplaceAllSkipsWord(ToSchemeToken(u), rest, ToSchemeToken(t), v);
  }

  /** One step of the chain substitutes exactly the placeholders of its token. */
  lemma {:induction false} ReplaceResolves(ps: seq<Piece>, t: ColorToken, values: ColorToken -> string)
    requires PlainLiterals(ps)
    ensures ReplaceAll(Flatten(ps), ToSchemeToken(t), values(t)) == Flatten(Resolve(ps, {t}, values))
    decreases |ps|
  {
    var pat, v := ToSchemeToken(t), values(t);
    if ps == [] {
      assert ReplaceAll([], pat, v) == [];
    } else {
      var rest := ps[1..];
      assert PlainLiterals(rest) by {
        assert forall i :: 0 <= i < |rest| ==> rest[i] == ps[i + 1];
      }
      ReplaceResolves(rest, t, values);
      match ps[0]
      case Literal(s) =>
        ReplaceAllSkips(s, Flatten(rest), pat, v);
      case Placeholder(u) =>
        if u == t {
          ReplaceAllAtFront(Flatten(rest), pat, v);
        } else {
          OtherPlaceholderKept(u, t, Flatten(rest), v);
        }
    }
  }

  lemma {:induction false} ResolveTwice(ps: seq<Piece>, done: set<ColorToken>, t: ColorToken, values: ColorToken -> string)
    ensures Resolve(Resolve(ps, done, values), {t}, values) == Resolve(ps, done + {t}, values)
    decreases |ps|
  {
    if ps != [] {
      ResolveTwice(ps[1..], done, t, values);
      assert Resolve(ps, done, values)[1..] == Resolve(ps[1..], done, values);
    }
  }

  lemma {:induction false} ResolveKeepsPlain(ps: seq<Piece>, done: set<ColorToken>, values: ColorToken -> string)
    requires PlainLiterals(ps)
    requires forall u :: u in done ==> '$' !in values(u)
    ensures PlainLiterals(Resolve(ps, done, values))
    decreases |ps|
  {
    if ps != [] {
      var rest := ps[1..];
      assert PlainLiterals(rest) by {
        assert forall i :: 0 <= i < |rest| ==> rest[i] == ps[i + 1];
      }
      ResolveKeepsPlain(rest, done, values);
      var r := Resolve(ps, done, values);
      assert r[1..] == Resolve(rest, done, values);
      assert forall i :: 1 <= i < |r| ==> r[i] == r[1..][i - 1];
    }
  }

  lemma {:induction false} ResolveNothing(ps: seq<Piece>, values: ColorToken -> string)
    ensures Resolve(ps, {}, values) == ps
    decreases |ps|
  {
    if ps != [] {
      ResolveNothing(ps[1..], values);
    }
  }

  lemma {:induction false} ResolveEverything(ps: seq<Piece>, done: set<ColorToken>, values: ColorToken -> string)
    requires forall u :: u in done
    ensures Flatten(Resolve(ps, done, values)) == Expand(ps, values)
    decreases |ps|
  {
    if ps != [] {
      ResolveEverything(ps[1..], done, values);
    }
  }

  function Elements(tokens: seq<ColorToken>): set<ColorToken>
  {
    set t | t in tokens
  }

  lemma ElementsCons(done: set<ColorToken>, tokens: seq<ColorToken>)
    requires tokens != []
    ensures done + {tokens[0]} + Elements(tokens[1..]) == done + Elements(tokens)
  {
    assert tokens == [tokens[0]] + tokens[1..];
  }

  /** No value holds a `$` when the scheme holds none (a token without a code has none). */
  lemma ValuesWithoutDollar(scheme: ColorScheme, ct: ColorType)
    requires NoDollar(scheme)
    ensures forall u :: '$' !in Values(scheme, ct)(u)
  {
    forall u ensures '$' !in Values(scheme, ct)(u) {
      if CodeFor(scheme, u, ct).Ok? {
        CodeWithoutDollar(scheme, u, ct);
      }
    }
  }

  /** One step of the chain, for a token that has a code: replace its spelling by its value. */
  lemma RenderWithStep(content: string, scheme: ColorScheme, ct: ColorType, tokens: seq<ColorToken>)
    requires tokens != [] && CodeFor(scheme, tokens[0], ct).Ok?
    ensures RenderWith(content, scheme, ct, tokens)
            == RenderWith(ReplaceAll(content, ToSchemeToken(tokens[0]), Values(scheme, ct)(tokens[0])), scheme, ct, tokens[1..])
  {
  }

  /** The chain over `tokens` substitutes the placeholders of those tokens and no others. */
  lemma {:induction false} RenderWithResolves(ps: seq<Piece>, scheme: ColorScheme, ct: ColorType,
                                              tokens: seq<ColorToken>, done: set<ColorToken>)
    requires PlainLiterals(ps) && NoDollar(scheme)
    requires forall u :: CodeFor(scheme, u, ct).Ok?
    ensures var values := Values(scheme, ct);
            RenderWith(Flatten(Resolve(ps, done, values)), scheme, ct, tokens)
            == Ok(Flatten(Resolve(ps, done + Elements(tokens), values)))
    decreases |tokens|
  {
    var values := Values(scheme, ct);
    if tokens == [] {
      assert done + Elements(tokens) == done;
    } else {
      var t := tokens[0];
      var qs := Resolve(ps, done, values);
      RenderWithStep(Flatten(qs), scheme, ct, tokens);
      ValuesWithoutDollar(scheme, ct);
      ResolveKeepsPlain(ps, done, values);
      ReplaceResolves(qs, t, values);
      ResolveTwice(ps, done, t, values);
      RenderWithResolves(ps, scheme, ct, tokens[1..], done + {t});
      ElementsCons(done, tokens);
    }
  }

  /** Every token has a code when the template wants hex or every colour has its `#`. */
  lemma EveryCodeOk(scheme: ColorScheme, ct: ColorType)
    requires ct == Hex || AllHashed(scheme)
    ensures forall u :: CodeFor(scheme, u, ct).Ok?
  {
  }

  lemma AllTokensElements()
    ensures forall u :: u in {} + Elements(AllTokens)
  {
    forall u ensures u in {} + Elements(AllTokens) {
      assert AllTokens[Position(u)] == u;
    }
  }

  /** Rendering pieces whose plain text holds no `$`, under a scheme whose values hold no `$`,
      gives the pieces with every placeholder replaced by its value: `color: $blue;` becomes
      `color: ` then the code of blue then `;`. */
  lemma RenderPieces(ps: seq<Piece>, scheme: ColorScheme, ct: ColorType)
    requires PlainLiterals(ps) && NoDollar(scheme)
    requires ct == Hex || AllHashed(scheme)
    ensures Render(Flatten(ps), scheme, ct) == Ok(Expand(ps, Values(scheme, ct)))
  {
    var values := Values(scheme, ct);
    ResolveNothing(ps, values);
    EveryCodeOk(scheme, ct);
    RenderWithResolves(ps, scheme, ct, AllTokens, {});
    AllTokensElements();
    ResolveEverything(ps, {} + Elements(AllTokens), values);
  }

  // From a template's text to its pieces.

  /** Every `$` of the text begins the spelling of a token. */
  predicate EveryDollarStartsToken(s: string)
  {
    forall i :: 0 <= i < |s| && s[i] == '$' ==> exists t :: ToSchemeToken(t) <= s[i..]
  }

  /** The text read left to right as plain characters and token spellings. */
  function Tokenize(s: string): seq<Piece>
    decreases |s|
  {
    if s == [] then []
    else
      match SpelledAtFront(s)
      case Some(t) => [Placeholder(t)] + Tokenize(s[|ToSchemeToken(t)|..])
      case None => [Literal([s[0]])] + Tokenize(s[1..])
  }

  /** The reading loses nothing: its pieces spell the text again. */
  lemma {:induction false} TokenizeFlattens(s: string)
    ensures Flatten(Tokenize(s)) == s
    decreases |s|
  {
    if s != [] {
      match SpelledAtFront(s)
      case Some(t) =>
        var n := |ToSchemeToken(t)|;
        TokenizeFlattens(s[n..]);
        FlattenCons(Placeholder(t), Tokenize(s[n..]));
        assert s == ToSchemeToken(t) + s[n..];
      case None =>
        TokenizeFlattens(s[1..]);
        FlattenCons(Literal([s[0]]), Tokenize(s[1..]));
        assert s == [s[0]] + s[1..];
    }
  }

  lemma FlattenCons(p: Piece, rest: seq<Piece>)
    ensures Flatten([p] + rest) == PieceText(p) + Flatten(rest)
  {
    assert ([p] + rest)[1..] == rest;
  }

  lemma PlainLiteralsCons(p: Piece, rest: seq<Piece>)
    requires PlainLiterals(rest) && (p.Literal? ==> '$' !in p.text)
    ensures PlainLiterals([p] + rest)
  {
    var ps := [p] + rest;
    assert forall i :: 1 <= i < |ps| ==> ps[i] == rest[i - 1];
  }

  lemma EveryDollarStartsTokenAfter(s: string, k: nat)
    requires EveryDollarStartsToken(s) && k <= |s|
    ensures EveryDollarStartsToken(s[k..])
  {
    forall i | 0 <= i < |s[k..]| && s[k..][i] == '$' ensures exists t :: ToSchemeToken(t) <= s[k..][i..] {
      assert s[k..][i..] == s[k + i..];
      assert s[k + i] == '$';
    }
  }

  /** When every `$` begins a token, the plain-text pieces of the reading hold no `$`. */
  lemma {:induction false} TokenizePlain(s: string)
    requires EveryDollarStartsToken(s)
    ensures PlainLiterals(Tokenize(s))
    decreases |s|
  {
    if s != [] {
      match SpelledAtFront(s)
      case Some(t) =>
        var n := |ToSchemeToken(t)|;
        EveryDollarStartsTokenAfter(s, n);
        TokenizePlain(s[n..]);
        PlainLiteralsCons(Placeholder(t), Tokenize(s[n..]));
      case None =>
        assert s[0] != '$' by {
          assert s[0..] == s;
        }
        EveryDollarStartsTokenAfter(s, 1);
        TokenizePlain(s[1..]);
        PlainLiteralsCons(Literal([s[0]]), Tokenize(s[1..]));
    }
  }

  /** Rendering replaces each token occurrence by its value: when every `$` of the template
      begins a token and no value of the scheme holds a `$`, the rendered text is the
      template's reading with each token spelling replaced by that token's value. */
  lemma RenderReplacesEachToken(content: string, scheme: ColorScheme, ct: ColorType)
    requires EveryDollarStartsToken(content) && NoDollar(scheme)
    requires ct == Hex || AllHashed(scheme)
    ensures Flatten(Tokenize(content)) == content
    ensures Render(content, scheme, ct) == Ok(Expand(Tokenize(content), Values(scheme, ct)))
  {
    TokenizeFlattens(content);
    TokenizePlain(content);
    RenderPieces(Tokenize(content), scheme, ct);
  }

  lemma {:induction false} ExpandWithoutDollar(ps: seq<Piece>, values: ColorToken -> string)
    requires PlainLiterals(ps)
    requires forall u :: '$' !in values(u)
    ensures '$' !in Expand(ps, values)
    decreases |ps|
  {
    if ps != [] {
      var rest := ps[1..];
      assert PlainLiterals(rest) by {
        assert forall i :: 0 <= i < |rest| ==> rest[i] == ps[i + 1];
      }
      ExpandWithoutDollar(rest, values);
      assert ps[0].Literal? ==> '$' !in ps[0].text;
    }
  }

  /** Under the same conditions nothing that looks like a token survives: the rendered text
      holds no `$`, so no token spelling either. */
  lemma RenderLeavesNoToken(content: string, scheme: ColorScheme, ct: ColorType)
    requires EveryDollarStartsToken(content) && NoDollar(scheme)
    requires ct == Hex || AllHashed(scheme)
    ensures Render(content, scheme, ct).Ok? && '$' !in Render(content, scheme, ct).value
  {
    RenderReplacesEachToken(content, scheme, ct);
    TokenizePlain(content);
    ValuesWithoutDollar(scheme, ct);
    ExpandWithoutDollar(Tokenize(content), Values(scheme, ct));
  }

  /** A worked instance: in an `rrggbbaa` template, `color: $blue;` under a scheme whose
      blue is `#445566` renders as `color: 445566ff;`. */
  lemma RenderBlueExample(scheme: ColorScheme)
    requires scheme.blue == Color("#445566")
    requires NoDollar(scheme) && AllHashed(scheme)
    ensures Render("color: $blue;", scheme, Rrggbbaa) == Ok("color: 445566ff;")
  {
    var ps := BluePieces();
    BlueCode(scheme);
    CodeWithoutDollar(scheme, Blue, Rrggbbaa);
    RenderPieces(ps, scheme, Rrggbbaa);
    BlueExpand(Values(scheme, Rrggbbaa));
  }

  function BluePieces(): (ps: seq<Piece>)
    ensures PlainLiterals(ps) && Flatten(ps) == "color: $blue;"
  {
    var ps := [Literal("color: "), Placeholder(Blue), Literal(";")];
    assert Flatten(ps[2..]) == ";";
    assert Flatten(ps[1..]) == "$blue" + ";";
    ps
  }

  lemma BlueCode(scheme: ColorScheme)
    requires scheme.blue == Color("#445566")
    ensures CodeFor(scheme, Blue, Rrggbbaa) == Ok("445566ff")
  {
    RrggbbaaCode("445566");
    assert "#" + "445566" == "#445566";
    assert "445566" + "ff" == "445566ff";
    assert ColorOf(scheme, Blue) == scheme.blue;
  }

  lemma BlueExpand(values: ColorToken -> string)
    requires values(Blue) == "445566ff"
    ensures Expand(BluePieces(), values) == "color: 445566ff;"
  {
    var ps := BluePieces();
    assert Expand(ps[2..], values) == ";";
    assert Expand(ps[1..], values) == values(Blue) + Expand(ps[2..], values);
  }

  // Why the reading above needs every `$` to begin a token: text produced by one step is
  // searched again by the later steps.

  /** Steps whose replacement leaves the text as it is can be skipped. */
  lemma {:induction false} RenderWithSkips(content: string, scheme: ColorScheme, ct: ColorType,
                                           tokens: seq<ColorToken>, k: nat)
    requires k <= |tokens|
    requires forall i :: 0 <= i < k ==>
               CodeFor(scheme, tokens[i], ct).Ok? &&
               ReplaceAll(content, ToSchemeToken(tokens[i]), CodeFor(scheme, tokens[i], ct).value) == content
    ensures RenderWith(content, scheme, ct, tokens) == RenderWith(content, scheme, ct, tokens[k..])
    decreases k
  {
    if k > 0 {
      RenderWithStep(content, scheme, ct, tokens);
      RenderWithSkips(content, scheme, ct, tokens[1..], k - 1);
      assert tokens[1..][k - 1..] == tokens[k..];
    }
  }

  /** No spelling but `$red` begins the text `$gr$red`, and none is found inside it. */
  lemma StrayKept(t: ColorToken, v: string)
    requires t != Red
    ensures ReplaceAll("$gr$red", ToSchemeToken(t), v) == "$gr$red"
  {
    var w, y := "$gr", "$red";
    assert y == ToSchemeToken(Red) && '$' !in w[1..] && w + y == "$gr$red";
    StrayBeforeSpellingKept(t, Red, w, v);
  }

  /** A stray `$` and two more characters before a spelling: no other spelling begins there. */
  lemma StrayBeforeSpellingKept(t: ColorToken, u: ColorToken, w: string, v: string)
    requires t != u && |w| == 3 && w[0] == '$' && '$' !in w[1..]
    ensures ReplaceAll(w + ToSchemeToken(u), ToSchemeToken(t), v) == w + ToSchemeToken(u)
  {
    var sp, y := ToSchemeToken(t), ToSchemeToken(u);
    assert !(sp <= w + y) by {
      assert sp[3] in sp[1..];
      assert (w + y)[3] == y[0] == '$';
    }
    assert sp[0] !in w[1..];
    ReplaceAllSkipsWord(w, y, sp, v);
    assert y + [] == y;
    OtherPlaceholderKept(u, t, [], v);
    assert ReplaceAll([], sp, v) == [];
  }

  /** The red step turns `$gr$red` into `$green` when red is written `een`. */
  lemma RedCompletesGreen()
    ensures ReplaceAll("$gr$red", ToSchemeToken(Red), "een") == "$green"
  {
    var w, y := "$gr", "$red";
    assert y == ToSchemeToken(Red) && '$' !in w[1..] && w + y == "$gr$red" && w[1] != y[1];
    StrayBeforeSpellingReplaced(Red, w, "een");
    assert w + "een" == "$green";
  }

  /** The spelling after the stray text is replaced, and the stray text is kept. */
  lemma StrayBeforeSpellingReplaced(u: ColorToken, w: string, v: string)
    requires |w| >= 2 && w[0] == '$' && '$' !in w[1..] && w[1] != ToSchemeToken(u)[1]
    ensures ReplaceAll(w + ToSchemeToken(u), ToSchemeToken(u), v) == w + v
  {
    var y := ToSchemeToken(u);
    assert (w + y)[1] == w[1];
    ReplaceAllSkipsWord(w, y, y, v);
    assert y + [] == y;
    ReplaceAllAtFront([], y, v);
    assert ReplaceAll([], y, v) == [] && v + [] == v;
  }

  lemma GreenKept(t: ColorToken, v: string)
    requires t != Green
    ensures ReplaceAll("$green", ToSchemeToken(t), v) == "$green"
  {
    assert ToSchemeToken(Green) + [] == "$green";
    OtherPlaceholderKept(Green, t, [], v);
  }

  /** A stray `$gr` followed by `$red`, with red written `een`, renders in a `hex` template as
      the code of green: the value of red and the stray text together spell `$green`, which the
      later green step replaces. */
  lemma RenderRescansReplacedText(scheme: ColorScheme)
    requires scheme.red == Color("een") && NoDollar(scheme)
    ensures Render("$gr$red", scheme, Hex) == Ok(scheme.green.code)
  {
    RescanSkipsBeforeRed(scheme);
    AllTokensFromRed();
    RescanFromRed(scheme, AllTokens[9..]);
  }

  /** The nine steps before red, from the font family to white, leave `$gr$red` as it is. */
  lemma RescanSkipsBeforeRed(scheme: ColorScheme)
    ensures Render("$gr$red", scheme, Hex) == RenderWith("$gr$red", scheme, Hex, AllTokens[9..])
  {
    var s := "$gr$red";
    AllTokensComplete();
    assert AllTokens[Position(Red)] == Red;
    forall i | 0 <= i < 9
      ensures CodeFor(scheme, AllTokens[i], Hex).Ok? &&
              ReplaceAll(s, ToSchemeToken(AllTokens[i]), CodeFor(scheme, AllTokens[i], Hex).value) == s
    {
      assert AllTokens[i] != AllTokens[9];
      StrayKept(AllTokens[i], CodeFor(scheme, AllTokens[i], Hex).value);
    }
    RenderWithSkips(s, scheme, Hex, AllTokens, 9);
  }

  lemma AllTokensFromRed()
    ensures var tail := AllTokens[9..];
            |tail| >= 4 && tail[0] == Red && tail[1] != Green && tail[2] != Green && tail[3] == Green
  {
    assert AllTokens[Position(Red)] == Red && AllTokens[Position(Orange)] == Orange;
    assert AllTokens[Position(Yellow)] == Yellow && AllTokens[Position(Green)] == Green;
  }

  lemma RescanFromRed(scheme: ColorScheme, tokens: seq<ColorToken>)
    requires scheme.red == Color("een") && NoDollar(scheme)
    requires |tokens| >= 4 && tokens[0] == Red && tokens[1] != Green && tokens[2] != Green && tokens[3] == Green
    ensures RenderWith("$gr$red", scheme, Hex, tokens) == Ok(scheme.green.code)
  {
    RenderWithStep("$gr$red", scheme, Hex, tokens);
    assert Values(scheme, Hex)(Red) == "een";
    RedCompletesGreen();
    RescanKeepsGreen(scheme, tokens[1..]);
    RescanFromGreen(scheme, tokens[1..][2..]);
  }

  /** Two steps for tokens other than green leave `$green` as it is. */
  lemma RescanKeepsGreen(scheme: ColorScheme, tokens: seq<ColorToken>)
    requires |tokens| >= 2 && tokens[0] != Green && tokens[1] != Green
    ensures RenderWith("$green", scheme, Hex, tokens) == RenderWith("$green", scheme, Hex, tokens[2..])
  {
    forall i | 0 <= i < 2
      ensures CodeFor(scheme, tokens[i], Hex).Ok? &&
              ReplaceAll("$green", ToSchemeToken(tokens[i]), CodeFor(scheme, tokens[i], Hex).value) == "$green"
    {
      GreenKept(tokens[i], CodeFor(scheme, tokens[i], Hex).value);
    }
    RenderWithSkips("$green", scheme, Hex, tokens, 2);
  }

  lemma RescanFromGreen(scheme: ColorScheme, tokens: seq<ColorToken>)
    requires NoDollar(scheme)
    requires tokens != [] && tokens[0] == Green
    ensures RenderWith("$green", scheme, Hex, tokens) == Ok(scheme.green.code)
  {
    var code := scheme.green.code;
    RenderWithStep("$green", scheme, Hex, tokens);
    assert Values(scheme, Hex)(Green) == code;
    assert ToSchemeToken(Green) + [] == "$green";
    ReplaceAllAtFront([], "$green", code);
    assert code + [] == code;
    var rest := tokens[1..];
    assert '$' !in code by {
      assert ColorOf(scheme, Green).code == code;
    }
    forall i | 0 <= i < |rest|
      ensures CodeFor(scheme, rest[i], Hex).Ok? &&
              ReplaceAll(code, ToSchemeToken(rest[i]), CodeFor(scheme, rest[i], Hex).value) == code
    {
      ReplaceAllUntouched(code, ToSchemeToken(rest[i]), CodeFor(scheme, rest[i], Hex).value);
    }
    RenderWithSkips(code, scheme, Hex, rest, |rest|);
  }
}
