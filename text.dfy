/** The handful of `str` operations of the Rust standard library that the
    modelled code relies on, over `string` (a sequence of Unicode scalar
    values, as Rust's `chars()` yields them). Case folding and alphanumeric
    tests are restricted to ASCII. */
module Text {
  import opened Common

  // ---------------------------------------------------------------------
  // Whitespace and trimming
  // ---------------------------------------------------------------------

  /** The Unicode White_Space property, which `char::is_whitespace` tests and
      on which `trim` and `split_whitespace` are built. */
  predicate IsWhitespace(c: char) {
    c == ' ' || ('\t' <= c <= '\r') || c == '\U{85}' || c == '\U{A0}' || c == '\U{1680}'
    || ('\U{2000}' <= c <= '\U{200A}') || c == '\U{2028}' || c == '\U{2029}'
    || c == '\U{202F}' || c == '\U{205F}' || c == '\U{3000}'
  }

  predicate IsBlank(s: string) {
    forall i :: 0 <= i < |s| ==> IsWhitespace(s[i])
  }

  /** `str::trim_start` */
  function TrimStart(s: string): (r: string)
    ensures |r| <= |s| && r == s[|s| - |r|..]
    ensures IsBlank(s[..|s| - |r|])
    ensures r != [] ==> !IsWhitespace(r[0])
  {
    if s != [] && IsWhitespace(s[0]) then
      var r := TrimStart(s[1..]);
      DropHead(s, r);
      r
    else s
  }

  lemma DropHead(s: string, r: string)
    requires s != [] && IsWhitespace(s[0]) && |r| <= |s| - 1
    requires r == s[1..][|s| - 1 - |r|..] && IsBlank(s[1..][..|s| - 1 - |r|])
    ensures r == s[|s| - |r|..] && IsBlank(s[..|s| - |r|])
  {
    assert s[..|s| - |r|] == [s[0]] + s[1..][..|s| - 1 - |r|];
  }

  /** `str::trim_end` */
  function TrimEnd(s: string): (r: string)
    ensures |r| <= |s| && r == s[..|r|]
    ensures IsBlank(s[|r|..])
    ensures r != [] ==> !IsWhitespace(r[|r| - 1])
  {
    if s != [] && IsWhitespace(s[|s| - 1]) then
      var r := TrimEnd(s[..|s| - 1]);
      assert s[|r|..] == s[..|s| - 1][|r|..] + [s[|s| - 1]];
      r
    else s
  }

  /** `str::trim`: the result has no whitespace at either end, and it is empty
      exactly when the input is blank. */
  function Trim(s: string): (r: string)
    ensures |r| <= |s|
    ensures r != [] ==> !IsWhitespace(r[0]) && !IsWhitespace(r[|r| - 1])
    ensures r == [] <==> IsBlank(s)
  {
    var t := TrimStart(s);
    assert t == [] ==> s[..|s| - |t|] == s;
    TrimEnd(t)
  }

  /** `trim` cuts only whitespace: the result is the part of the input
      between a blank prefix and a blank suffix. */
  lemma TrimSlice(s: string)
    ensures exists i, j :: 0 <= i <= j <= |s| && Trim(s) == s[i..j] && IsBlank(s[..i]) && IsBlank(s[j..])
  {
    var t := TrimStart(s);
    var r := TrimEnd(t);
    var i := |s| - |t|;
    assert r == s[i..i + |r|];
    assert s[i + |r|..] == t[|r|..];
  }

  /** Trimming only removes characters. */
  lemma TrimAvoids(s: string, c: char)
    requires c !in s
    ensures c !in Trim(s)
  {
    var t := TrimStart(s);
    var r := TrimEnd(t);
    var i := |s| - |t|;
    assert r == s[i..i + |r|];
    SliceAvoids(s, i, i + |r|, c);
  }

  lemma SliceAvoids(s: string, i: nat, j: nat, c: char)
    requires i <= j <= |s| && c !in s
    ensures c !in s[i..j]
  {
    var t := s[i..j];
    forall k | 0 <= k < |t| ensures t[k] != c {
      assert t[k] == s[i + k];
    }
  }

  /** A string with no whitespace at either end. */
  predicate IsTrimmed(s: string) {
    s != [] ==> !IsWhitespace(s[0]) && !IsWhitespace(s[|s| - 1])
  }

  /** A string without whitespace at either end is its own trim. */
  lemma TrimOfTrimmed(s: string)
    requires s != [] ==> !IsWhitespace(s[0]) && !IsWhitespace(s[|s| - 1])
    ensures Trim(s) == s
  {
    assert TrimStart(s) == s;
  }

  // ---------------------------------------------------------------------
  // Prefixes, suffixes, substrings
  // ---------------------------------------------------------------------

  predicate StartsWith(s: string, p: string) {
    |p| <= |s| && s[..|p|] == p
  }

  predicate EndsWith(s: string, p: string) {
    |p| <= |s| && s[|s| - |p|..] == p
  }

  /** `str::contains` with a string pattern. */
  predicate Contains(s: string, p: string)
    decreases |s|
  {
    StartsWith(s, p) || (s != [] && Contains(s[1..], p))
  }

  /** `str::replace`: every leftmost non-overlapping occurrence of `pat`,
      scanning from the left, is replaced by `rep`. */
  function ReplaceAll(s: string, pat: string, rep: string): (r: string)
    requires pat != []
    ensures forall c :: c in r ==> c in s || c in rep
    decreases |s|
  {
    if |s| < |pat| then s
    else if s[..|pat|] == pat then rep + ReplaceAll(s[|pat|..], pat, rep)
    else [s[0]] + ReplaceAll(s[1..], pat, rep)
  }

  /** Replacing by something no longer than the pattern never lengthens the
      string, and a string that cannot start the pattern stays as it is. */
  lemma {:induction false} ReplaceAllShrinks(s: string, pat: string, rep: string)
    requires pat != []
    ensures |rep| <= |pat| ==> |ReplaceAll(s, pat, rep)| <= |s|
    ensures pat[0] !in s ==> ReplaceAll(s, pat, rep) == s
    decreases |s|
  {
    if |s| >= |pat| && s[..|pat|] == pat {
      ReplaceAllShrinks(s[|pat|..], pat, rep);
    } else if |s| >= |pat| {
      ReplaceAllShrinks(s[1..], pat, rep);
      assert pat[0] !in s ==> pat[0] !in s[1..];
      assert s == [s[0]] + s[1..];
    }
  }

  /** `s` without any occurrence of the character `c`. */
  function Without(s: string, c: char): (r: string)
    ensures c !in r
    ensures forall x :: x in r <==> x in s && x != c
  {
    if s == [] then []
    else if s[0] == c then Without(s[1..], c)
    else [s[0]] + Without(s[1..], c)
  }

  /** Replacing a one-character pattern by nothing removes that character. */
  lemma {:induction false} ReplaceCharIsWithout(s: string, c: char)
    ensures ReplaceAll(s, [c], []) == Without(s, c)
    decreases |s|
  {
    if s != [] {
      ReplaceCharIsWithout(s[1..], c);
      assert s[..1] == [s[0]];
    }
  }

  // ---------------------------------------------------------------------
  // Splitting
  // ---------------------------------------------------------------------

  /** No character of `w` is a separator. */
  predicate Avoids(w: string, sep: char -> bool) {
    forall j :: 0 <= j < |w| ==> !sep(w[j])
  }

  /** The length of the longest prefix of `s` without a separator. */
  function RunLength(s: string, sep: char -> bool): (n: nat)
    ensures n <= |s| && Avoids(s[..n], sep)
    ensures n < |s| ==> sep(s[n])
  {
    if s == [] || sep(s[0]) then 0 else 1 + RunLength(s[1..], sep)
  }

  /** `s` without its leading separators. */
  function SkipSeparators(s: string, sep: char -> bool): (r: string)
    ensures |r| <= |s| && r == s[|s| - |r|..]
    ensures r != [] ==> !sep(r[0])
  {
    if s != [] && sep(s[0]) then SkipSeparators(s[1..], sep) else s
  }

  /** Every token is non-empty and free of separators. */
  predicate WellFormedTokens(r: seq<string>, sep: char -> bool) {
    forall i :: 0 <= i < |r| ==> r[i] != [] && Avoids(r[i], sep)
  }

  /** `s.split(sep).filter(|w| !w.is_empty())`: the maximal runs of
      non-separators, in order. */
  function Tokens(s: string, sep: char -> bool): (r: seq<string>)
    ensures WellFormedTokens(r, sep)
    decreases |s|
  {
    var t := SkipSeparators(s, sep);
    if t == [] then []
    else
      var n := RunLength(t, sep);
      WellFormedCons(t[..n], Tokens(t[n..], sep), sep);
      [t[..n]] + Tokens(t[n..], sep)
  }

  lemma WellFormedCons(w: string, rest: seq<string>, sep: char -> bool)
    requires w != [] && Avoids(w, sep) && WellFormedTokens(rest, sep)
    ensures WellFormedTokens([w] + rest, sep)
  {
    forall i | 0 <= i < |[w] + rest| ensures ([w] + rest)[i] != [] && Avoids(([w] + rest)[i], sep) {
      if i > 0 { assert ([w] + rest)[i] == rest[i - 1]; }
    }
  }

  /** `str::split_whitespace` */
  function SplitWhitespace(s: string): (r: seq<string>)
    ensures WellFormedTokens(r, IsWhitespace)
  {
    Tokens(s, IsWhitespace)
  }

  /** The words joined by one separator character. */
  function Join(ws: seq<string>, c: char): string
  {
    if ws == [] then []
    else if |ws| == 1 then ws[0]
    else ws[0] + [c] + Join(ws[1..], c)
  }

  /** Tokenising words that are joined by a separator gives the words back. */
  lemma {:induction false} TokensOfJoin(ws: seq<string>, c: char, sep: char -> bool)
    requires sep(c)
    requires WellFormedTokens(ws, sep)
    ensures Tokens(Join(ws, c), sep) == ws
    decreases |ws|
  {
    if ws == [] {
    } else if |ws| == 1 {
      TokensOfSingle(ws[0], sep);
    } else {
      WellFormedTail(ws, sep);
      TokensOfJoin(ws[1..], c, sep);
      JoinCons(ws, c);
      TokensOfWordThenSeparator(ws[0], c, Join(ws[1..], c), sep);
      assert [ws[0]] + ws[1..] == ws;
    }
  }

  /** A word, a separator and then anything: the word is the first token. */
  lemma TokensOfWordThenSeparator(w: string, c: char, tail: string, sep: char -> bool)
    requires sep(c) && w != [] && Avoids(w, sep)
    ensures Tokens(w + ([c] + tail), sep) == [w] + Tokens(tail, sep)
  {
    TokensOfWord(w, [c] + tail, sep);
    TokensAfterSeparator(c, tail, sep);
  }

  lemma JoinCons(ws: seq<string>, c: char)
    requires |ws| >= 2
    ensures Join(ws, c) == ws[0] + ([c] + Join(ws[1..], c))
  {
    assert ws[0] + [c] + Join(ws[1..], c) == ws[0] + ([c] + Join(ws[1..], c));
  }

  lemma TokensOfSingle(w: string, sep: char -> bool)
    requires w != [] && Avoids(w, sep)
    ensures Tokens(w, sep) == [w]
  {
    TokensOfWord(w, [], sep);
    assert w + [] == w;
  }

  lemma WellFormedTail(ws: seq<string>, sep: char -> bool)
    requires ws != [] && WellFormedTokens(ws, sep)
    ensures WellFormedTokens(ws[1..], sep)
  {
    forall i | 0 <= i < |ws[1..]| ensures ws[1..][i] != [] && Avoids(ws[1..][i], sep) {
      assert ws[1..][i] == ws[i + 1];
    }
  }

  lemma TokensAfterSeparator(c: char, s: string, sep: char -> bool)
    requires sep(c)
    ensures Tokens([c] + s, sep) == Tokens(s, sep)
  {
    assert ([c] + s)[1..] == s;
    assert SkipSeparators([c] + s, sep) == SkipSeparators(s, sep);
  }

  /** A word followed by a separator (or by nothing) is the first token. */
  lemma {:induction false} TokensOfWord(w: string, rest: string, sep: char -> bool)
    requires w != [] && Avoids(w, sep)
    requires rest != [] ==> sep(rest[0])
    ensures Tokens(w + rest, sep) == [w] + Tokens(rest, sep)
  {
    var s := w + rest;
    assert s[0] == w[0];
    assert SkipSeparators(s, sep) == s;
    RunLengthOfWord(w, rest, sep);
    assert Tokens(s, sep) == [s[..|w|]] + Tokens(s[|w|..], sep);
    assert s[..|w|] == w;
    assert s[|w|..] == rest;
  }

  lemma {:induction false} RunLengthOfWord(w: string, rest: string, sep: char -> bool)
    requires Avoids(w, sep)
    requires rest != [] ==> sep(rest[0])
    ensures RunLength(w + rest, sep) == |w|
    decreases |w|
  {
    if w != [] {
      assert (w + rest)[1..] == w[1..] + rest;
      RunLengthOfWord(w[1..], rest, sep);
    }
  }

  /** Separators after the last token add no token. */
  lemma {:induction false} TokensOfTrailingSeparators(t: string, b: string, sep: char -> bool)
    requires forall i :: 0 <= i < |b| ==> sep(b[i])
    ensures Tokens(t + b, sep) == Tokens(t, sep)
    decreases |t|
  {
    var u := SkipSeparators(t, sep);
    SkipSeparatorsAppend(t, b, sep);
    if u != [] {
      var n := RunLength(u, sep);
      RunLengthAppend(u, b, sep);
      SliceOfAppend(u, b, n);
      TokensOfTrailingSeparators(u[n..], b, sep);
      assert Tokens(t + b, sep) == [u[..n]] + Tokens(u[n..] + b, sep);
    }
  }

  lemma SliceOfAppend(u: string, b: string, n: nat)
    requires n <= |u|
    ensures (u + b)[..n] == u[..n] && (u + b)[n..] == u[n..] + b
  {
  }

  lemma {:induction false} SkipSeparatorsAppend(t: string, b: string, sep: char -> bool)
    requires forall i :: 0 <= i < |b| ==> sep(b[i])
    ensures SkipSeparators(t + b, sep) ==
      (if SkipSeparators(t, sep) == [] then [] else SkipSeparators(t, sep) + b)
    decreases |t| + |b|
  {
    if t == [] {
      if b != [] {
        SkipSeparatorsAppend([], b[1..], sep);
        assert [] + b[1..] == b[1..] && [] + b == b;
      }
    } else if sep(t[0]) {
      assert (t + b)[1..] == t[1..] + b;
      SkipSeparatorsAppend(t[1..], b, sep);
    }
  }

  lemma {:induction false} RunLengthAppend(u: string, b: string, sep: char -> bool)
    requires forall i :: 0 <= i < |b| ==> sep(b[i])
    ensures RunLength(u + b, sep) == RunLength(u, sep)
    decreases |u|
  {
    if u != [] && !sep(u[0]) {
      assert (u + b)[1..] == u[1..] + b;
      RunLengthAppend(u[1..], b, sep);
    }
  }

  /** Trimming does not change the words of a string. */
  lemma TokensOfTrim(s: string)
    ensures SplitWhitespace(Trim(s)) == SplitWhitespace(s)
  {
    var t := TrimStart(s);
    TrimStartSkips(s);
    TokensOfSkipped(s, IsWhitespace);
    TokensOfTrimEnd(t);
  }

  lemma TokensOfTrimEnd(t: string)
    ensures SplitWhitespace(TrimEnd(t)) == SplitWhitespace(t)
  {
    var e := TrimEnd(t);
    var tail := t[|e|..];
    assert t == e + tail;
    TokensOfTrailingSeparators(e, tail, IsWhitespace);
  }

  /** Leading separators add no token. */
  lemma TokensOfSkipped(s: string, sep: char -> bool)
    ensures Tokens(SkipSeparators(s, sep), sep) == Tokens(s, sep)
  {
    var t := SkipSeparators(s, sep);
    assert SkipSeparators(t, sep) == t;
  }

  /** `trim_start` drops exactly the separators that tokenising skips. */
  lemma {:induction false} TrimStartSkips(s: string)
    ensures TrimStart(s) == SkipSeparators(s, IsWhitespace)
  {
    if s != [] && IsWhitespace(s[0]) {
      TrimStartSkips(s[1..]);
    }
  }

  /** The position of the first `c` in `s`. */
  function IndexOf(s: string, c: char): (r: Option<nat>)
    ensures r.Some? ==> r.value < |s| && s[r.value] == c && c !in s[..r.value]
    ensures r.None? <==> c !in s
  {
    if s == [] then None
    else if s[0] == c then Some(0)
    else match IndexOf(s[1..], c)
      case None => None
      case Some(i) => Some(i + 1)
  }

  /** `str::split` on a character, keeping empty pieces. */
  function Split(s: string, c: char): (r: seq<string>)
    ensures |r| >= 1
    ensures forall i :: 0 <= i < |r| ==> c !in r[i]
    decreases |s|
  {
    match IndexOf(s, c)
    case None => [s]
    case Some(i) => [s[..i]] + Split(s[i + 1..], c)
  }

  /** Splitting on a character and joining the pieces with it gives the input back. */
  lemma {:induction false} JoinSplit(s: string, c: char)
    ensures Join(Split(s, c), c) == s
    decreases |s|
  {
    match IndexOf(s, c)
    case None =>
    case Some(i) =>
      var tail := Split(s[i + 1..], c);
      assert Split(s, c) == [s[..i]] + tail;
      assert ([s[..i]] + tail)[1..] == tail;
      JoinSplit(s[i + 1..], c);
      assert s == s[..i] + [c] + s[i + 1..];
  }

  /** `str::split_once` on a character. */
  function SplitOnce(s: string, c: char): (r: Option<(string, string)>)
    ensures r.None? <==> c !in s
    ensures r.Some? ==> r.value.0 + [c] + r.value.1 == s && c !in r.value.0
  {
    match IndexOf(s, c)
    case None => None
    case Some(i) =>
      assert s == s[..i] + [c] + s[i + 1..];
      Some((s[..i], s[i + 1..]))
  }

  /** Cutting `x + [c] + y` at its first `c` gives `x` and `y` back when `x`
      has no `c`. */
  lemma SplitOnceAt(x: string, c: char, y: string)
    requires c !in x
    ensures SplitOnce(x + [c] + y, c) == Some((x, y))
  {
    var s := x + [c] + y;
    assert s[|x|] == c;
    assert forall i :: 0 <= i < |x| ==> s[i] == x[i];
    assert s[..|x|] == x && s[|x| + 1..] == y;
  }

  /** `s.split(c).last()`: the part after the last `c`, or all of `s`. */
  function LastSegment(s: string, c: char): (r: string)
    ensures c !in r && EndsWith(s, r)
    ensures |r| < |s| ==> s[|s| - |r| - 1] == c
    decreases |s|
  {
    match IndexOf(s, c)
    case None => s
    case Some(i) =>
      var t := s[i + 1..];
      var r := LastSegment(t, c);
      SuffixOfSuffix(s, i + 1, r);
      r
  }

  /** A suffix of a suffix of `s` is a suffix of `s`, and the character
      before it is the same in both. */
  lemma SuffixOfSuffix(s: string, k: nat, r: string)
    requires k <= |s| && EndsWith(s[k..], r)
    ensures EndsWith(s, r)
    ensures |r| < |s| - k ==> s[k..][|s| - k - |r| - 1] == s[|s| - |r| - 1]
    ensures |r| == |s| - k && k > 0 ==> s[|s| - |r| - 1] == s[k - 1]
  {
    assert s[k..][|s| - k - |r|..] == s[|s| - |r|..];
  }

  /** `str::trim_matches` with a single character. */
  function TrimMatches(s: string, c: char): (r: string)
    ensures |r| <= |s|
    ensures r != [] ==> r[0] != c && r[|r| - 1] != c
  {
    TrimEndChar(TrimStartChar(s, c), c)
  }

  /** `trim_matches` cuts only `c`: the result is the part of the input
      between a prefix and a suffix made of `c` alone. */
  lemma TrimMatchesSlice(s: string, c: char)
    ensures exists i, j :: (0 <= i <= j <= |s| && TrimMatches(s, c) == s[i..j]
      && (forall k :: 0 <= k < i ==> s[k] == c) && (forall k :: j <= k < |s| ==> s[k] == c))
  {
    var i, j := TrimMatchesBounds(s, c);
  }

  /** The bounds of the part `trim_matches` keeps. */
  lemma TrimMatchesBounds(s: string, c: char) returns (i: nat, j: nat)
    ensures i <= j <= |s| && TrimMatches(s, c) == s[i..j]
    ensures forall k :: 0 <= k < i ==> s[k] == c
    ensures forall k :: j <= k < |s| ==> s[k] == c
  {
    var t := TrimStartChar(s, c);
    var r := TrimEndChar(t, c);
    TrimStartCharCut(s, c);
    TrimEndCharCut(t, c);
    i, j := |s| - |t|, |s| - |t| + |r|;
    assert r == s[i..j];
    assert forall k :: |r| <= k < |t| ==> t[k] == s[i + k];
  }

  /** A string enclosed in `c`, that neither starts nor ends with `c` itself,
      comes out of its enclosure. */
  lemma TrimMatchesEnclosed(x: string, c: char)
    requires x != [] ==> x[0] != c && x[|x| - 1] != c
    ensures TrimMatches([c] + x + [c], c) == x
  {
    var s := [c] + x + [c];
    assert s[1..] == x + [c];
    if x == [] {
      assert [c][1..] == [];
      assert TrimStartChar(s, c) == TrimStartChar([c], c) == [];
    } else {
      var t := x + [c];
      assert t[0] == x[0] && t[|t| - 1] == c;
      assert TrimStartChar(s, c) == TrimStartChar(t, c) == t;
      assert t[..|t| - 1] == x;
      assert TrimEndChar(t, c) == TrimEndChar(x, c) == x;
    }
  }

  /** A string that neither starts nor ends with `c` is its own trim. */
  lemma TrimMatchesNothing(s: string, c: char)
    requires s != [] ==> s[0] != c && s[|s| - 1] != c
    ensures TrimMatches(s, c) == s
  {
    assert TrimStartChar(s, c) == s;
  }

  /** `str::trim_start_matches` with a single character. */
  function TrimStartChar(s: string, c: char): (r: string)
    ensures |r| <= |s| && r == s[|s| - |r|..]
    ensures r != [] ==> r[0] != c
  {
    if s != [] && s[0] == c then TrimStartChar(s[1..], c) else s
  }

  /** What `trim_start_matches` cuts is made of `c` alone. */
  lemma {:induction false} TrimStartCharCut(s: string, c: char)
    ensures forall k :: 0 <= k < |s| - |TrimStartChar(s, c)| ==> s[k] == c
  {
    if s != [] && s[0] == c {
      var r := TrimStartChar(s[1..], c);
      assert TrimStartChar(s, c) == r;
      TrimStartCharCut(s[1..], c);
      forall k | 0 <= k < |s| - |r| ensures s[k] == c {
        if k > 0 { assert s[k] == s[1..][k - 1]; }
      }
    }
  }

  /** `str::trim_end_matches` with a single character. */
  function TrimEndChar(s: string, c: char): (r: string)
    ensures |r| <= |s| && r == s[..|r|]
    ensures r != [] ==> r[|r| - 1] != c
  {
    if s != [] && s[|s| - 1] == c then TrimEndChar(s[..|s| - 1], c) else s
  }

  /** What `trim_end_matches` cuts is made of `c` alone. */
  lemma {:induction false} TrimEndCharCut(s: string, c: char)
    ensures forall k :: |TrimEndChar(s, c)| <= k < |s| ==> s[k] == c
  {
    if s != [] && s[|s| - 1] == c {
      var r := TrimEndChar(s[..|s| - 1], c);
      assert TrimEndChar(s, c) == r;
      TrimEndCharCut(s[..|s| - 1], c);
      forall k | |r| <= k < |s| ensures s[k] == c {
        if k < |s| - 1 { assert s[k] == s[..|s| - 1][k]; }
      }
    }
  }

  // ---------------------------------------------------------------------
  // ASCII case and character classes
  // ---------------------------------------------------------------------

  function LowerChar(c: char): char {
    if 'A' <= c <= 'Z' then (c as int + 32) as char else c
  }

  /** `str::to_lowercase`, restricted to ASCII letters. */
  function Lower(s: string): (r: string)
    ensures |r| == |s|
    ensures forall i :: 0 <= i < |s| ==> r[i] == LowerChar(s[i])
  {
    seq(|s|, i requires 0 <= i < |s| => LowerChar(s[i]))
  }

  predicate IsAlphanumeric(c: char) {
    ('a' <= c <= 'z') || ('A' <= c <= 'Z') || ('0' <= c <= '9')
  }

  predicate IsSeparatorOfWords(c: char) { !IsAlphanumeric(c) }

  // ---------------------------------------------------------------------
  // Decimal numbers
  // ---------------------------------------------------------------------

  predicate IsDigit(c: char) { '0' <= c <= '9' }

  predicate AllDigits(s: string) {
    forall i :: 0 <= i < |s| ==> IsDigit(s[i])
  }

  function DigitChar(d: nat): (c: char)
    requires d < 10
    ensures IsDigit(c)
  {
    ('0' as int + d) as char
  }

  /** Rust's `{}` formatting of an unsigned integer. */
  function Decimal(n: nat): (r: string)
    ensures r != [] && AllDigits(r)
    ensures r[0] == '0' ==> n == 0
  {
    if n < 10 then [DigitChar(n)] else Decimal(n / 10) + [DigitChar(n % 10)]
  }

  /** The value of a string of decimal digits, most significant first. */
  function DigitsValue(s: string): nat
    requires AllDigits(s)
  {
    if s == [] then 0 else DigitsValue(s[..|s| - 1]) * 10 + (s[|s| - 1] as int - '0' as int)
  }

  lemma {:induction false} DecimalValue(n: nat)
    ensures DigitsValue(Decimal(n)) == n
  {
    if n >= 10 {
      DecimalValue(n / 10);
      var r := Decimal(n);
      assert r[..|r| - 1] == Decimal(n / 10);
    }
  }

  /** Rust's `{:02}`: at least two digits, padded with a leading zero. */
  function Pad2(n: nat): (r: string)
    ensures |r| >= 2
  {
    if n < 10 then "0" + Decimal(n) else Decimal(n)
  }

  /** The padded number is all digits and reads back as the number. */
  lemma Pad2Value(n: nat)
    ensures AllDigits(Pad2(n)) && DigitsValue(Pad2(n)) == n
  {
    DecimalValue(n);
    if n < 10 {
      var r := "0" + Decimal(n);
      assert r[..|r| - 1] == "0";
    }
  }

  /** Below 100 the padded number has exactly two digits. */
  lemma Pad2Length(n: nat)
    requires n < 100
    ensures |Pad2(n)| == 2
  {
    if n >= 10 {
      assert Decimal(n) == Decimal(n / 10) + [DigitChar(n % 10)];
    }
  }

  /** Rust's `str::parse::<u8>`: an optional '+', then one or more decimal
      digits whose value is at most 255. Only decimal digits and a leading
      '+' are ever accepted. */
  function ParseU8(s: string): (r: Option<u8>)
    ensures r.Some? ==> s != [] && (s[0] == '+' || IsDigit(s[0]))
    ensures r.Some? ==> forall i :: 0 < i < |s| ==> IsDigit(s[i])
  {
    var digits := if s != [] && s[0] == '+' then s[1..] else s;
    if digits != [] && AllDigits(digits) && DigitsValue(digits) < 0x100 then
      Some(DigitsValue(digits))
    else None
  }

  /** Every `u8`, printed in decimal with or without a '+', parses back. */
  lemma ParseU8Decimal(n: nat)
    requires n < 0x100
    ensures ParseU8(Decimal(n)) == Some(n)
    ensures ParseU8("+" + Decimal(n)) == Some(n)
  {
    DecimalValue(n);
    var d := Decimal(n);
    assert ("+" + d)[1..] == d;
  }
}
