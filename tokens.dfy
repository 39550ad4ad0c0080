/** The closed vocabulary of placeholders that templates may contain. */
module Tokens {
  import opened Outcomes

  datatype ColorToken =
    | FontFamily
    | Black | LightBlack | DarkGray | Gray | FaintGray | LightGray | DarkWhite | White
    | Red | Orange | Yellow | Green | Cyan | Blue | Purple | Brown

  /** The kebab-case name of a token: its key in the scheme document and, after the sigil,
      its spelling in a template. */
  function Name(t: ColorToken): (n: string)
    ensures |n| >= 3 && '$' !in n
  {
    match t
    case FontFamily => "font-family"
    case Black => "black"
    case LightBlack => "light-black"
    case DarkGray => "dark-gray"
    case Gray => "gray"
    case FaintGray => "faint-gray"
    case LightGray => "light-gray"
    case DarkWhite => "dark-white"
    case White => "white"
    case Red => "red"
    case Orange => "orange"
    case Yellow => "yellow"
    case Green => "green"
    case Cyan => "cyan"
    case Blue => "blue"
    case Purple => "purple"
    case Brown => "brown"
  }

  /** `to_scheme_token`: the spelling of a token inside a template, the sigil `$` followed by
      the token's name; the sigil occurs nowhere else in it. */
  function ToSchemeToken(t: ColorToken): (s: string)
    ensures |s| >= 4 && s[0] == '$' && '$' !in s[1..]
  {
    var s := "$" + Name(t);
    assert s[1..] == Name(t);
    s
  }

  /** Every token, in the order in which the renderer substitutes them. */
  const AllTokens: seq<ColorToken> :=
    [FontFamily, Black, LightBlack, DarkGray, Gray, FaintGray, LightGray, DarkWhite, White,
     Red, Orange, Yellow, Green, Cyan, Blue, Purple, Brown]

  /** The position of a token in `AllTokens`. */
  function Position(t: ColorToken): (i: nat)
    ensures i < |AllTokens| && AllTokens[i] == t
  {
    match t
    case FontFamily => 0
    case Black => 1
    case LightBlack => 2
    case DarkGray => 3
    case Gray => 4
    case FaintGray => 5
    case LightGray => 6
    case DarkWhite => 7
    case White => 8
    case Red => 9
    case Orange => 10
    case Yellow => 11
    case Green => 12
    case Cyan => 13
    case Blue => 14
    case Purple => 15
    case Brown => 16
  }

  /** `AllTokens` lists each of the 17 tokens exactly once. */
  lemma AllTokensComplete()
    ensures |AllTokens| == 17
    ensures forall t :: t in AllTokens
    ensures forall i, j :: 0 <= i < j < |AllTokens| ==> AllTokens[i] != AllTokens[j]
  {
    forall t ensures t in AllTokens {
      var _ := Position(t);
    }
  }

  /** No name is a prefix of another one. */
  lemma NamesPrefixFree(t: ColorToken, u: ColorToken)
    requires t != u
    ensures !(Name(t) <= Name(u))
  {
    var p, q := Name(t), Name(u);
    if |p| <= |q| {
      // every two names differ within the first seven characters
      var i :| 0 <= i < |p| && p[i] != q[i];
    }
  }

  /** No spelling is a prefix of another one, so in particular all spellings are distinct. */
  lemma SpellingsPrefixFree(t: ColorToken, u: ColorToken)
    requires t != u
    ensures !(ToSchemeToken(t) <= ToSchemeToken(u))
  {
    NamesPrefixFree(t, u);
    var p, q := ToSchemeToken(t), ToSchemeToken(u);
    if |p| <= |q| {
      var i :| 0 <= i < |Name(t)| && Name(t)[i] != Name(u)[i];
      assert p[i + 1] != q[i + 1];
    }
  }

  lemma SpellingsDistinct(t: ColorToken, u: ColorToken)
    ensures ToSchemeToken(t) == ToSchemeToken(u) <==> t == u
  {
    if t != u {
      SpellingsPrefixFree(t, u);
    }
  }

  /** Hence a spelling never starts inside text that begins with a different spelling. */
  lemma NoOtherSpellingAtFront(t: ColorToken, u: ColorToken, rest: string)
    requires t != u
    ensures !(ToSchemeToken(t) <= ToSchemeToken(u) + rest)
  {
    var p, q := ToSchemeToken(t), ToSchemeToken(u);
    if |p| <= |q| {
      SpellingsPrefixFree(t, u);
      assert (q + rest)[..|p|] == q[..|p|];
    } else {
      SpellingsPrefixFree(u, t);
      assert (q + rest)[..|q|] == q;
    }
  }

  /** And no spelling occurs anywhere inside a different one. */
  lemma SpellingsNotNested(t: ColorToken, u: ColorToken, i: nat)
    requires t != u && i + |ToSchemeToken(t)| <= |ToSchemeToken(u)|
    ensures ToSchemeToken(u)[i..i + |ToSchemeToken(t)|] != ToSchemeToken(t)
  {
    var p, q := ToSchemeToken(t), ToSchemeToken(u);
    if i == 0 {
      SpellingsPrefixFree(t, u);
    } else {
      assert q[i] in q[1..];
      assert q[i..i + |p|][0] == q[i] != p[0];
    }
  }

  /** At most one spelling begins any given text. */
  lemma AtMostOneSpellingAtFront(t: ColorToken, u: ColorToken, s: string)
    requires t != u
    ensures !(ToSchemeToken(t) <= s && ToSchemeToken(u) <= s)
  {
    var q := ToSchemeToken(u);
    if q <= s {
      assert s == q + s[|q|..];
      NoOtherSpellingAtFront(t, u, s[|q|..]);
    }
  }

  /** A token of `tokens` whose spelling begins `s`, if there is one. */
  function FindToken(s: string, tokens: seq<ColorToken>): (r: Option<ColorToken>)
    ensures r.Some? ==> r.value in tokens && ToSchemeToken(r.value) <= s
    ensures r.None? ==> forall i :: 0 <= i < |tokens| ==> !(ToSchemeToken(tokens[i]) <= s)
  {
    if tokens == [] then None
    else if ToSchemeToken(tokens[0]) <= s then Some(tokens[0])
    else
      var r := FindToken(s, tokens[1..]);
      assert forall i :: 1 <= i < |tokens| ==> tokens[i] == tokens[1..][i - 1];
      r
  }

  /** The token spelled at the front of `s`, if any; there is never more than one. */
  function SpelledAtFront(s: string): (r: Option<ColorToken>)
    ensures r.Some? ==> ToSchemeToken(r.value) <= s
    ensures r.None? <==> forall t :: !(ToSchemeToken(t) <= s)
    ensures forall t :: ToSchemeToken(t) <= s ==> r == Some(t)
  {
    var r := FindToken(s, AllTokens);
    forall t | ToSchemeToken(t) <= s ensures r == Some(t) {
      assert AllTokens[Position(t)] == t;
      if r.Some? && r.value != t {
        AtMostOneSpellingAtFront(t, r.value, s);
      }
    }
    r
  }
}
