/** The string operations of Rust's `str` that the tool relies on:
    `strip_prefix`, `strip_suffix`, `split` on a one-character separator and `replace`. */
module Text {
  import opened Outcomes

  predicate EndsWith(s: string, suffix: string)
  {
    |suffix| <= |s| && s[|s| - |suffix|..] == suffix
  }

  /** `str::strip_prefix`: the rest of `s` after `prefix`, when `s` starts with it. */
  function StripPrefix(s: string, prefix: string): (r: Option<string>)
    ensures r.Some? <==> prefix <= s
    ensures r.Some? ==> prefix + r.value == s
  {
    if prefix <= s then
      assert s == s[..|prefix|] + s[|prefix|..];
      Some(s[|prefix|..])
    else None
  }

  /** `str::strip_suffix`: the part of `s` before `suffix`, when `s` ends with it. */
  function StripSuffix(s: string, suffix: string): (r: Option<string>)
    ensures r.Some? <==> EndsWith(s, suffix)
    ensures r.Some? ==> r.value + suffix == s
  {
    if EndsWith(s, suffix) then
      assert s == s[..|s| - |suffix|] + s[|s| - |suffix|..];
      Some(s[..|s| - |suffix|])
    else None
  }

  /** The inverse of `Split`: the parts glued back with the separator between them. */
  function Join(parts: seq<string>, sep: char): string
    requires |parts| >= 1
  {
    if |parts| == 1 then parts[0] else parts[0] + [sep] + Join(parts[1..], sep)
  }

  /** `str::split` with a one-character pattern: every maximal run of characters between
      separators, empty runs included, so there is always one more part than separators. */
  function Split(s: string, sep: char): (parts: seq<string>)
    ensures |parts| >= 1
    decreases |s|
  {
    if s == [] then [[]]
    else
      var rest := Split(s[1..], sep);
      if s[0] == sep then [[]] + rest else [[s[0]] + rest[0]] + rest[1..]
  }

  /** No part of a split holds the separator. */
  lemma {:induction false} SplitPartsFree(s: string, sep: char)
    ensures forall i :: 0 <= i < |Split(s, sep)| ==> sep !in Split(s, sep)[i]
    decreases |s|
  {
    if s != [] {
      SplitPartsFree(s[1..], sep);
      var rest, parts := Split(s[1..], sep), Split(s, sep);
      if s[0] != sep {
        assert forall i :: 1 <= i < |parts| ==> parts[i] == rest[i];
      }
    }
  }

  /** The round trip: the parts of a split, glued back with the separator, give the text. */
  lemma {:induction false} JoinSplit(s: string, sep: char)
    ensures Join(Split(s, sep), sep) == s
    decreases |s|
  {
    if s != [] {
      var rest := Split(s[1..], sep);
      JoinSplit(s[1..], sep);
      if s[0] == sep {
        JoinAfterEmpty(rest, sep);
      } else {
        JoinCons(s[0], rest, sep);
      }
      assert s == [s[0]] + s[1..];
    }
  }

  lemma JoinAfterEmpty(rest: seq<string>, sep: char)
    requires |rest| >= 1
    ensures Join([[]] + rest, sep) == [sep] + Join(rest, sep)
  {
    var parts := [[]] + rest;
    assert parts[0] == [] && parts[1..] == rest;
  }

  lemma JoinCons(c: char, rest: seq<string>, sep: char)
    requires |rest| >= 1
    ensures Join([[c] + rest[0]] + rest[1..], sep) == [c] + Join(rest, sep)
  {
    var parts := [[c] + rest[0]] + rest[1..];
    assert parts[0] == [c] + rest[0] && parts[1..] == rest[1..];
  }

  /** The part of `s` after its last separator: `s` itself when it holds no separator. */
  function LastSegment(s: string, sep: char): (t: string)
    ensures |t| <= |s|
    ensures |t| == |s| <==> sep !in s
    decreases |s|
  {
    if s == [] then []
    else if s[|s| - 1] == sep then []
    else
      var init := s[..|s| - 1];
      assert sep !in s <==> sep !in init by {
        assert s == init + [s[|s| - 1]];
      }
      LastSegment(init, sep) + [s[|s| - 1]]
  }

  /** The last segment is a separator-free suffix, preceded by a separator when shorter than
      the text. */
  lemma {:induction false} LastSegmentShape(s: string, sep: char)
    ensures var t := LastSegment(s, sep);
            t == s[|s| - |t|..] && sep !in t && (|t| < |s| ==> s[|s| - |t| - 1] == sep)
    decreases |s|
  {
    if s != [] && s[|s| - 1] != sep {
      var init := s[..|s| - 1];
      LastSegmentShape(init, sep);
      var u := LastSegment(init, sep);
      assert s == init + [s[|s| - 1]];
      assert s[|s| - |u| - 1..] == init[|init| - |u|..] + [s[|s| - 1]];
    }
  }

  lemma {:induction false} SplitWithoutSeparator(s: string, sep: char)
    requires sep !in s
    ensures Split(s, sep) == [s]
    decreases |s|
  {
    if s != [] {
      SplitWithoutSeparator(s[1..], sep);
      assert s == [s[0]] + s[1..];
    }
  }

  /** Splitting distributes over a separator: the parts of `a` then the parts of `b`. */
  lemma {:induction false} SplitAround(a: string, b: string, sep: char)
    ensures Split(a + [sep] + b, sep) == Split(a, sep) + Split(b, sep)
    decreases |a|
  {
    var s := a + [sep] + b;
    if a == [] {
      assert s[0] == sep && s[1..] == b;
    } else {
      assert s[0] == a[0] && s[1..] == a[1..] + [sep] + b;
      SplitAround(a[1..], b, sep);
      var x, y := Split(a[1..], sep), Split(b, sep);
      if a[0] != sep {
        assert (x + y)[0] == x[0] && (x + y)[1..] == x[1..] + y;
      }
    }
  }

  /** The round trip the other way: splitting joined parts that hold no separator gives them back. */
  lemma {:induction false} SplitJoin(parts: seq<string>, sep: char)
    requires |parts| >= 1
    requires forall i :: 0 <= i < |parts| ==> sep !in parts[i]
    ensures Split(Join(parts, sep), sep) == parts
    decreases |parts|
  {
    SplitWithoutSeparator(parts[0], sep);
    if |parts| > 1 {
      SplitJoin(parts[1..], sep);
      SplitAround(parts[0], Join(parts[1..], sep), sep);
    }
  }

  /** The last part of a split is the text after the last separator. */
  lemma SplitLast(s: string, sep: char)
    ensures Split(s, sep)[|Split(s, sep)| - 1] == LastSegment(s, sep)
  {
    var t := LastSegment(s, sep);
    LastSegmentShape(s, sep);
    if |t| == |s| {
      SplitWithoutSeparator(s, sep);
    } else {
      var a := s[..|s| - |t| - 1];
      assert s == a + [sep] + t;
      SplitAround(a, t, sep);
      SplitWithoutSeparator(t, sep);
    }
  }

  /** The next-to-last element after appending one is the former last element. */
  lemma SecondLastOfAppend(parts: seq<string>, b: string)
    requires |parts| >= 1
    ensures (parts + [b])[|parts + [b]| - 2] == parts[|parts| - 1]
  {
  }

  /** `str::replace`: every non-overlapping occurrence of `pat`, found left to right, is replaced
      by `rep`; text produced by a replacement is not searched again. */
  function ReplaceAll(s: string, pat: string, rep: string): string
    requires |pat| > 0
    decreases |s|
  {
    if |s| < |pat| then s
    else if s[..|pat|] == pat then rep + ReplaceAll(s[|pat|..], pat, rep)
    else [s[0]] + ReplaceAll(s[1..], pat, rep)
  }

  /** Text without the first character of the pattern is copied through unchanged. */
  lemma {:induction false} ReplaceAllSkips(x: string, y: string, pat: string, rep: string)
    requires |pat| > 0 && pat[0] !in x
    ensures ReplaceAll(x + y, pat, rep) == x + ReplaceAll(y, pat, rep)
    decreases |x|
  {
    if x != [] {
      var s := x + y;
      assert s[1..] == x[1..] + y;
      ReplaceAllSkips(x[1..], y, pat, rep);
      if |s| >= |pat| {
        assert s[..|pat|][0] == x[0] && x[0] != pat[0];
        assert s[..|pat|] != pat;
        assert ReplaceAll(s, pat, rep) == [x[0]] + ReplaceAll(s[1..], pat, rep);
        assert x == [x[0]] + x[1..];
        assert [x[0]] + (x[1..] + ReplaceAll(y, pat, rep)) == x + ReplaceAll(y, pat, rep);
      } else {
        assert ReplaceAll(y, pat, rep) == y;
        assert ReplaceAll(s, pat, rep) == s;
      }
    } else {
      assert x + y == y;
    }
  }

  lemma ReplaceAllUntouched(s: string, pat: string, rep: string)
    requires |pat| > 0 && pat[0] !in s
    ensures ReplaceAll(s, pat, rep) == s
  {
    ReplaceAllSkips(s, [], pat, rep);
    assert s + [] == s;
  }

  /** A word that starts like the pattern but does not begin an occurrence of it is copied
      through whole, when the pattern's first character does not recur in the word. */
  lemma ReplaceAllSkipsWord(w: string, y: string, pat: string, rep: string)
    requires |pat| > 0 && |w| > 0 && pat[0] !in w[1..]
    requires !(pat <= w + y)
    ensures ReplaceAll(w + y, pat, rep) == w + ReplaceAll(y, pat, rep)
  {
    ReplaceAllStepOver(w, y, pat, rep);
    ReplaceAllSkips(w[1..], y, pat, rep);
    ConsAppend(w, ReplaceAll(y, pat, rep));
  }

  lemma ReplaceAllStepOver(w: string, y: string, pat: string, rep: string)
    requires |pat| > 0 && |w| > 0 && !(pat <= w + y)
    ensures ReplaceAll(w + y, pat, rep) == [w[0]] + ReplaceAll(w[1..] + y, pat, rep)
  {
    var s := w + y;
    ReplaceAllStep(s, pat, rep);
    assert s[0] == w[0] && s[1..] == w[1..] + y;
  }

  lemma ConsAppend(w: string, r: string)
    requires |w| > 0
    ensures [w[0]] + (w[1..] + r) == w + r
  {
    assert w == [w[0]] + w[1..];
  }

  /** Where no occurrence begins, the first character is copied and the search moves on. */
  lemma ReplaceAllStep(s: string, pat: string, rep: string)
    requires |pat| > 0 && |s| > 0 && !(pat <= s)
    ensures ReplaceAll(s, pat, rep) == [s[0]] + ReplaceAll(s[1..], pat, rep)
  {
    if |s| < |pat| {
      assert ReplaceAll(s[1..], pat, rep) == s[1..];
      assert s == [s[0]] + s[1..];
    } else {
      assert s[..|pat|] != pat;
    }
  }

  /** An occurrence at the front is replaced, and the search resumes after it. */
  lemma ReplaceAllAtFront(y: string, pat: string, rep: string)
    requires |pat| > 0
    ensures ReplaceAll(pat + y, pat, rep) == rep + ReplaceAll(y, pat, rep)
  {
    var s := pat + y;
    assert s[..|pat|] == pat && s[|pat|..] == y;
  }
}
