/**
 * The handful of Python `str` operations the exporters rely on, over
 * `string` = `seq<char>` of Unicode scalar values: `isspace`, `strip()`,
 * `split()` with no separator, `splitlines()`, `find`, single-character
 * `replace`, and the `"\n"`-terminated concatenation the renderers build.
 */
module Text {

  /** The characters for which Python's `str.isspace` holds. */
  const SpaceChars: set<char> := {
    '\t', '\n', '\U{b}', '\U{c}', '\r', '\U{1c}', '\U{1d}', '\U{1e}', '\U{1f}', ' ',
    '\U{85}', '\U{a0}', '\U{1680}',
    '\U{2000}', '\U{2001}', '\U{2002}', '\U{2003}', '\U{2004}', '\U{2005}',
    '\U{2006}', '\U{2007}', '\U{2008}', '\U{2009}', '\U{200a}',
    '\U{2028}', '\U{2029}', '\U{202f}', '\U{205f}', '\U{3000}'
  }

  /** Python's `str.isspace` for one character. */
  predicate IsSpace(c: char) {
    c in SpaceChars
  }

  /** The line boundaries at which Python's `str.splitlines` cuts. */
  predicate IsLineBreak(c: char) {
    || c == '\n' || c == '\r' || c == '\U{b}' || c == '\U{c}'
    || c == '\U{1c}' || c == '\U{1d}' || c == '\U{1e}'
    || c == '\U{85}' || c == '\U{2028}' || c == '\U{2029}'
  }

  predicate NoBreak(s: string) {
    forall c :: c in s ==> !IsLineBreak(c)
  }

  predicate NoSpace(s: string) {
    forall c :: c in s ==> !IsSpace(c)
  }

  predicate AllSpace(s: string) {
    forall c :: c in s ==> IsSpace(c)
  }

  /** Every line boundary is whitespace, so a whitespace-free text is one line. */
  lemma NoSpaceNoBreak(s: string)
    requires NoSpace(s)
    ensures NoBreak(s)
  {
  }

  // ---------------------------------------------------------------- strip

  /** Length of the leading run of whitespace. */
  function LeadingSpace(s: string): (n: nat)
    ensures n <= |s|
    ensures forall i :: 0 <= i < n ==> IsSpace(s[i])
    ensures n < |s| ==> !IsSpace(s[n])
  {
    if s == [] || !IsSpace(s[0]) then 0 else 1 + LeadingSpace(s[1..])
  }

  /** Length of the trailing run of whitespace. */
  function TrailingSpace(s: string): (n: nat)
    ensures n <= |s|
    ensures forall i :: |s| - n <= i < |s| ==> IsSpace(s[i])
    ensures n < |s| ==> !IsSpace(s[|s| - 1 - n])
  {
    if s == [] || !IsSpace(s[|s| - 1]) then 0 else 1 + TrailingSpace(s[..|s| - 1])
  }

  /** Length of the leading run of non-whitespace. */
  function LeadingToken(s: string): (n: nat)
    ensures n <= |s|
    ensures forall i :: 0 <= i < n ==> !IsSpace(s[i])
    ensures n < |s| ==> IsSpace(s[n])
    ensures |s| > 0 && !IsSpace(s[0]) ==> n > 0
  {
    if s == [] || IsSpace(s[0]) then 0 else 1 + LeadingToken(s[1..])
  }

  /** Python's `s.strip()`: `s` without its leading and trailing whitespace. */
  function Strip(s: string): (r: string)
    ensures |r| <= |s|
    ensures r == "" || (!IsSpace(r[0]) && !IsSpace(r[|r| - 1]))
    ensures r == "" <==> AllSpace(s)
    ensures LeadingSpace(s) + |r| <= |s|
    ensures r == s[LeadingSpace(s)..LeadingSpace(s) + |r|]
    ensures AllSpace(s[..LeadingSpace(s)]) && AllSpace(s[LeadingSpace(s) + |r|..])
  {
    var i := LeadingSpace(s);
    var t := s[i..];
    var r := t[..|t| - TrailingSpace(t)];
    StripShape(s, i, t, r);
    r
  }

  lemma StripShape(s: string, i: nat, t: string, r: string)
    requires i == LeadingSpace(s) && t == s[i..]
    requires r == t[..|t| - TrailingSpace(t)]
    ensures i + |r| <= |s| && r == s[i..i + |r|]
    ensures r == "" || (!IsSpace(r[0]) && !IsSpace(r[|r| - 1]))
    ensures r == "" <==> AllSpace(s)
    ensures AllSpace(s[..i]) && AllSpace(s[i + |r|..])
  {
    StripSlice(s, i, t, r);
    LeadingSpaces(s, i);
    TrailingSpaces(s, i + |r|);
    if r == "" {
      LeadingSpaces(s, |s|);
    } else {
      assert s[i] in s;
    }
  }

  /** Where the stripped text sits inside `s`, and that only whitespace follows it. */
  lemma StripSlice(s: string, i: nat, t: string, r: string)
    requires i == LeadingSpace(s) && t == s[i..]
    requires r == t[..|t| - TrailingSpace(t)]
    ensures i + |r| <= |s| && r == s[i..i + |r|]
    ensures r == "" || (!IsSpace(r[0]) && !IsSpace(r[|r| - 1]))
    ensures r != "" ==> !IsSpace(s[i])
    ensures forall k :: i + |r| <= k < |s| ==> IsSpace(s[k])
  {
    StripSliceAt(s, i, t, |t| - TrailingSpace(t));
    StripSliceEnds(s, i, t, r);
    StripSliceTail(s, i, t, |r|);
  }

  lemma StripSliceAt(s: string, i: nat, t: string, m: nat)
    requires i <= |s| && t == s[i..] && m <= |t|
    ensures i + m <= |s| && t[..m] == s[i..i + m]
  {
  }

  lemma StripSliceEnds(s: string, i: nat, t: string, r: string)
    requires i == LeadingSpace(s) && t == s[i..]
    requires r == t[..|t| - TrailingSpace(t)]
    ensures r == "" || (!IsSpace(r[0]) && !IsSpace(r[|r| - 1]))
    ensures r != "" ==> !IsSpace(s[i])
  {
    if t != "" {
      var n := TrailingSpace(t);
      assert t[0] == s[i];
      assert n < |t|;
      assert r[0] == t[0] && r[|r| - 1] == t[|t| - 1 - n];
    }
  }

  lemma StripSliceTail(s: string, i: nat, t: string, m: nat)
    requires i <= |s| && t == s[i..] && m <= |t|
    requires forall k :: m <= k < |t| ==> IsSpace(t[k])
    ensures forall k :: i + m <= k < |s| ==> IsSpace(s[k])
  {
    forall k | i + m <= k < |s| ensures IsSpace(s[k]) {
      assert s[k] == t[k - i];
    }
  }

  lemma LeadingSpaces(s: string, b: nat)
    requires b <= |s|
    requires forall k :: 0 <= k < b ==> IsSpace(s[k])
    ensures AllSpace(s[..b])
    ensures b == |s| ==> AllSpace(s)
  {
    SpacesBetween(s, 0, b);
    assert s[..b] == s[0..b];
    assert b == |s| ==> s[..b] == s;
  }

  lemma TrailingSpaces(s: string, a: nat)
    requires a <= |s|
    requires forall k :: a <= k < |s| ==> IsSpace(s[k])
    ensures AllSpace(s[a..])
  {
    SpacesBetween(s, a, |s|);
    assert s[a..] == s[a..|s|];
  }

  lemma SpacesBetween(s: string, a: nat, b: nat)
    requires a <= b <= |s|
    requires forall k :: a <= k < b ==> IsSpace(s[k])
    ensures AllSpace(s[a..b])
  {
    forall c | c in s[a..b] ensures IsSpace(c) {
      var k :| 0 <= k < b - a && s[a..b][k] == c;
      assert s[a + k] == c;
    }
  }

  /** Stripping a text that starts and ends with non-whitespace changes nothing. */
  lemma StripTrimmed(s: string)
    requires s == "" || (!IsSpace(s[0]) && !IsSpace(s[|s| - 1]))
    ensures Strip(s) == s
  {
    if s != "" {
      assert LeadingSpace(s) == 0;
      assert TrailingSpace(s) == 0;
    }
  }

  /** A stripped piece of a one-line text is one line. */
  lemma StripNoBreak(s: string)
    requires NoBreak(s)
    ensures NoBreak(Strip(s))
  {
    var r := Strip(s);
    var i := LeadingSpace(s);
    forall c | c in r ensures !IsLineBreak(c) {
      var k :| 0 <= k < |r| && r[k] == c;
      assert s[i + k] == c;
    }
  }

  /** A slice of a one-line text is one line. */
  lemma SliceNoBreak(s: string, a: nat)
    requires NoBreak(s) && a <= |s|
    ensures NoBreak(s[a..])
  {
    forall c | c in s[a..] ensures !IsLineBreak(c) {
      var k :| 0 <= k < |s[a..]| && s[a..][k] == c;
      assert s[a + k] == c;
    }
  }

  // ---------------------------------------------------------------- split

  /** Python's `s.split()`: the maximal runs of non-whitespace, in order. */
  function SplitWs(s: string): (r: seq<string>)
    ensures forall i :: 0 <= i < |r| ==> r[i] != "" && NoSpace(r[i])
    decreases |s|
  {
    var l := LeadingSpace(s);
    var t := s[l..];
    if t == "" then []
    else
      assert t[0] == s[l];
      var n := LeadingToken(t);
      assert 0 < n && |t[n..]| < |s|;
      assert NoSpace(t[..n]) by {
        forall c | c in t[..n] ensures !IsSpace(c) {
          var k :| 0 <= k < n && t[..n][k] == c;
        }
      }
      [t[..n]] + SplitWs(t[n..])
  }

  /** `s.split()` is empty exactly when `s` is all whitespace. */
  lemma {:induction false} SplitWsEmpty(s: string)
    ensures SplitWs(s) == [] <==> AllSpace(s)
  {
    var l := LeadingSpace(s);
    if l == |s| {
      forall c | c in s ensures IsSpace(c) {
        var k :| 0 <= k < |s| && s[k] == c;
      }
    } else {
      assert s[l] in s;
    }
  }

  /** A non-empty split takes off the first token after the leading whitespace. */
  lemma SplitWsUnfold(s: string)
    requires SplitWs(s) != []
    ensures LeadingSpace(s) < |s|
    ensures var t := s[LeadingSpace(s)..];
      SplitWs(s) == [t[..LeadingToken(t)]] + SplitWs(t[LeadingToken(t)..])
  {
  }

  /** The first token is made of characters of the split text. */
  lemma SplitWsHead(s: string, c: char)
    requires SplitWs(s) != [] && c in SplitWs(s)[0]
    ensures c in s
  {
    SplitWsUnfold(s);
    var l := LeadingSpace(s);
    var t := s[l..];
    var n := LeadingToken(t);
    assert SplitWs(s)[0] == t[..n];
    var k :| 0 <= k < n && t[..n][k] == c;
    assert t[k] == c;
    assert s[l + k] == c;
  }

  lemma SliceChar(s: string, a: nat, b: nat, c: char)
    requires a <= b <= |s| && c in s[a..b]
    ensures c in s
  {
    var k :| 0 <= k < b - a && s[a..b][k] == c;
    assert s[a + k] == c;
  }

  /** A text that starts with non-whitespace has a first token starting with that character. */
  lemma SplitWsFirst(s: string)
    requires |s| > 0 && !IsSpace(s[0])
    ensures |SplitWs(s)| > 0 && SplitWs(s)[0][0] == s[0]
  {
    assert LeadingSpace(s) == 0;
    assert s[0..] == s;
  }

  /** The first token of `a + x` is `a` when `a` has no whitespace and `x` starts with some. */
  lemma {:induction false} LeadingTokenOf(a: string, x: string)
    requires NoSpace(a)
    requires x == "" || IsSpace(x[0])
    ensures LeadingToken(a + x) == |a|
    decreases |a|
  {
    if a != "" {
      assert a[0] in a;
      assert (a + x)[1..] == a[1..] + x;
      LeadingTokenOf(a[1..], x);
    }
  }

  /** A whitespace-free token followed by whitespace (or nothing) is split off first. */
  lemma SplitWsToken(a: string, x: string)
    requires a != "" && NoSpace(a)
    requires x == "" || IsSpace(x[0])
    ensures SplitWs(a + x) == [a] + SplitWs(x)
  {
    var s := a + x;
    assert a[0] in a;
    assert LeadingSpace(s) == 0;
    assert s[0..] == s;
    LeadingTokenOf(a, x);
    assert s[..|a|] == a;
    assert s[|a|..] == x;
  }

  /** Leading whitespace never changes the split. */
  lemma SplitWsSpace(c: char, x: string)
    requires IsSpace(c)
    ensures SplitWs([c] + x) == SplitWs(x)
  {
    var s := [c] + x;
    assert s[1..] == x;
    assert LeadingSpace(s) == 1 + LeadingSpace(x);
    assert s[LeadingSpace(s)..] == x[LeadingSpace(x)..];
  }

  /** Splitting `a + " " + b` gives back the two whitespace-free tokens. */
  lemma SplitTwo(a: string, b: string)
    requires a != "" && NoSpace(a)
    requires b != "" && NoSpace(b)
    ensures SplitWs(a + " " + b) == [a, b]
  {
    assert a + " " + b == a + (" " + b);
    SplitWsToken(a, " " + b);
    assert " " + b == [' '] + b;
    SplitWsSpace(' ', b);
    SplitWsOne(b);
  }

  /** A whitespace-free text is its own only token. */
  lemma SplitWsOne(b: string)
    requires b != "" && NoSpace(b)
    ensures SplitWs(b) == [b]
  {
    assert b + "" == b;
    SplitWsToken(b, "");
    assert SplitWs("") == [];
  }

  /**
   * `gaps[0] + tokens[0] + gaps[1] + ... + tokens[n - 1] + gaps[n]`: the
   * tokens with a run of whitespace around and between them.
   */
  function Interleave(gaps: seq<string>, tokens: seq<string>): string
    requires |gaps| == |tokens| + 1
    decreases |tokens|
  {
    if tokens == [] then gaps[0] else gaps[0] + tokens[0] + Interleave(gaps[1..], tokens[1..])
  }

  /**
   * Non-empty whitespace-free tokens, whitespace gaps, and a non-empty gap
   * between any two tokens; the gaps before the first and after the last
   * token may be empty.
   */
  ghost predicate Separated(gaps: seq<string>, tokens: seq<string>) {
    && |gaps| == |tokens| + 1
    && (forall i :: 0 <= i < |gaps| ==> AllSpace(gaps[i]))
    && (forall i :: 0 < i < |tokens| ==> gaps[i] != "")
    && (forall i :: 0 <= i < |tokens| ==> tokens[i] != "" && NoSpace(tokens[i]))
  }

  /** A whitespace prefix never changes the split. */
  lemma {:induction false} SplitWsSpaces(w: string, x: string)
    requires AllSpace(w)
    ensures SplitWs(w + x) == SplitWs(x)
    decreases |w|
  {
    if w == "" {
      assert w + x == x;
    } else {
      assert w[0] in w;
      assert AllSpace(w[1..]) by {
        forall c | c in w[1..] ensures IsSpace(c) {
          assert c in w;
        }
      }
      assert w + x == [w[0]] + (w[1..] + x);
      SplitWsSpace(w[0], w[1..] + x);
      SplitWsSpaces(w[1..], x);
    }
  }

  /** What follows a token in a separated text is empty or starts with whitespace. */
  lemma InterleaveTail(gaps: seq<string>, tokens: seq<string>)
    requires Separated(gaps, tokens) && tokens != []
    ensures var rest := Interleave(gaps[1..], tokens[1..]);
      rest == "" || IsSpace(rest[0])
  {
    var rest := Interleave(gaps[1..], tokens[1..]);
    if gaps[1] != "" {
      assert gaps[1][0] in gaps[1];
      assert rest[0] == gaps[1][0];
    } else {
      assert |tokens| == 1;
    }
  }

  /** Dropping the first gap and token of a separated text leaves a separated text. */
  lemma SeparatedTail(gaps: seq<string>, tokens: seq<string>)
    requires Separated(gaps, tokens) && tokens != []
    ensures Separated(gaps[1..], tokens[1..])
  {
    assert forall i :: 0 <= i < |gaps[1..]| ==> gaps[1..][i] == gaps[i + 1];
    assert forall i :: 0 <= i < |tokens[1..]| ==> tokens[1..][i] == tokens[i + 1];
  }

  /** Splitting tokens separated by whitespace gives back the tokens. */
  lemma {:induction false} SplitWsInterleave(gaps: seq<string>, tokens: seq<string>)
    requires Separated(gaps, tokens)
    ensures SplitWs(Interleave(gaps, tokens)) == tokens
    decreases |tokens|
  {
    if tokens == [] {
      assert gaps[0] + "" == gaps[0];
      SplitWsSpaces(gaps[0], "");
    } else {
      SeparatedTail(gaps, tokens);
      SplitWsInterleave(gaps[1..], tokens[1..]);
      SplitWsInterleaveStep(gaps, tokens);
    }
  }

  /** One token of a separated text is split off, then the rest as before. */
  lemma SplitWsInterleaveStep(gaps: seq<string>, tokens: seq<string>)
    requires Separated(gaps, tokens) && tokens != []
    requires SplitWs(Interleave(gaps[1..], tokens[1..])) == tokens[1..]
    ensures SplitWs(Interleave(gaps, tokens)) == tokens
  {
    InterleaveTail(gaps, tokens);
    assert AllSpace(gaps[0]) && tokens[0] != "" && NoSpace(tokens[0]);
    SplitWsGapToken(gaps[0], tokens[0], Interleave(gaps[1..], tokens[1..]));
  }

  /** Whitespace, a token, and a rest that is empty or starts with whitespace. */
  lemma SplitWsGapToken(g: string, a: string, rest: string)
    requires AllSpace(g) && a != "" && NoSpace(a)
    requires rest == "" || IsSpace(rest[0])
    ensures SplitWs(g + a + rest) == [a] + SplitWs(rest)
  {
    SplitWsToken(a, rest);
    assert g + a + rest == g + (a + rest);
    SplitWsSpaces(g, a + rest);
  }

  /** A text whose first character is whitespace cannot start with `b`'s. */
  lemma FrontSpace(a: string, b: string)
    requires b != "" && !IsSpace(b[0])
    requires a + b != "" && IsSpace((a + b)[0])
    ensures a != ""
  {
  }

  /** A non-empty run of whitespace in front of a separated text. */
  lemma GapBeforeTokens(g: seq<string>, tokens: seq<string>, u: string)
    requires Separated(g, tokens) && Interleave(g, tokens) == u
    requires tokens != [] && u != "" && IsSpace(u[0])
    ensures g[0] != ""
  {
    var rest := Interleave(g[1..], tokens[1..]);
    assert tokens[0][0] in tokens[0];
    assert u == g[0] + (tokens[0] + rest);
    FrontSpace(g[0], tokens[0] + rest);
  }

  /** The whitespace runs around and between the tokens of `s.split()`. */
  function Gaps(s: string): (gaps: seq<string>)
    ensures Separated(gaps, SplitWs(s))
    ensures Interleave(gaps, SplitWs(s)) == s
    decreases |s|
  {
    var l := LeadingSpace(s);
    LeadingSpaceAll(s);
    if l == |s| then
      assert s[..l] == s;
      SplitWsEmpty(s);
      [s]
    else
      var t := s[l..];
      var n := LeadingToken(t);
      var g := Gaps(t[n..]);
      GapsStep(s, g);
      [s[..l]] + g
  }

  lemma LeadingSpaceAll(s: string)
    ensures AllSpace(s[..LeadingSpace(s)])
  {
    var l := LeadingSpace(s);
    forall c | c in s[..l] ensures IsSpace(c) {
      var k :| 0 <= k < l && s[k] == c;
    }
  }

  /** The gaps of `s` are its leading whitespace, then the gaps after its first token. */
  lemma GapsStep(s: string, g: seq<string>)
    requires LeadingSpace(s) < |s|
    requires var t := s[LeadingSpace(s)..];
      var u := t[LeadingToken(t)..];
      Separated(g, SplitWs(u)) && Interleave(g, SplitWs(u)) == u
    ensures Separated([s[..LeadingSpace(s)]] + g, SplitWs(s))
    ensures Interleave([s[..LeadingSpace(s)]] + g, SplitWs(s)) == s
  {
    var l := LeadingSpace(s);
    var t := s[l..];
    var n := LeadingToken(t);
    SplitWsUnfoldAt(s);
    LeadingSpaceAll(s);
    GapsStepSeparated(s[..l], t, g);
    ThreeParts(s, l, l + n);
    GapsStepInterleave(s[..l], t[..n], t[n..], g, SplitWs(t[n..]));
  }

  /** The split of a text that is not all whitespace, one token at a time. */
  lemma SplitWsUnfoldAt(s: string)
    requires LeadingSpace(s) < |s|
    ensures var t := s[LeadingSpace(s)..];
      SplitWs(s) == [t[..LeadingToken(t)]] + SplitWs(t[LeadingToken(t)..])
  {
    SplitWsEmpty(s);
    assert s[LeadingSpace(s)] in s;
    SplitWsUnfold(s);
  }

  lemma ThreeParts(s: string, i: nat, j: nat)
    requires i <= j <= |s|
    ensures s == s[..i] + s[i..][..j - i] + s[i..][j - i..]
  {
    assert s[i..] == s[i..][..j - i] + s[i..][j - i..];
    assert s == s[..i] + s[i..];
  }

  lemma GapsStepSeparated(w: string, t: string, g: seq<string>)
    requires AllSpace(w) && t != "" && !IsSpace(t[0])
    requires var u := t[LeadingToken(t)..];
      Separated(g, SplitWs(u)) && Interleave(g, SplitWs(u)) == u
    ensures Separated([w] + g, [t[..LeadingToken(t)]] + SplitWs(t[LeadingToken(t)..]))
  {
    var n := LeadingToken(t);
    var u := t[n..];
    TokenNoSpace(t);
    assert SplitWs(u) != [] ==> g[0] != "" by {
      if SplitWs(u) != [] {
        GapBeforeTokens(g, SplitWs(u), u);
      }
    }
    SeparatedCons(w, t[..n], g, SplitWs(u));
  }

  lemma GapsStepInterleave(w: string, a: string, u: string, g: seq<string>, tokens: seq<string>)
    requires |g| == |tokens| + 1 && Interleave(g, tokens) == u
    ensures Interleave([w] + g, [a] + tokens) == w + a + u
  {
    assert ([w] + g)[1..] == g;
    assert ([a] + tokens)[1..] == tokens;
  }

  lemma TokenNoSpace(t: string)
    requires t != "" && !IsSpace(t[0])
    ensures LeadingToken(t) > 0 && NoSpace(t[..LeadingToken(t)])
  {
    var n := LeadingToken(t);
    forall c | c in t[..n] ensures !IsSpace(c) {
      var k :| 0 <= k < n && t[..n][k] == c;
    }
  }

  /** A gap and a token in front of a separated text, with a gap between when more tokens follow. */
  lemma SeparatedCons(w: string, a: string, g: seq<string>, tokens: seq<string>)
    requires AllSpace(w) && a != "" && NoSpace(a)
    requires Separated(g, tokens)
    requires tokens != [] ==> g[0] != ""
    ensures Separated([w] + g, [a] + tokens)
  {
    var gaps := [w] + g;
    var ts := [a] + tokens;
    assert forall i :: 0 < i < |gaps| ==> gaps[i] == g[i - 1];
    assert forall i :: 0 < i < |ts| ==> ts[i] == tokens[i - 1];
  }

  /**
   * `s.split()` is `tokens` exactly when `s` is those tokens separated by
   * whitespace, with optional whitespace before and after.
   */
  lemma SplitWsExactly(s: string, tokens: seq<string>)
    ensures SplitWs(s) == tokens <==> exists gaps :: Separated(gaps, tokens) && Interleave(gaps, tokens) == s
  {
    if SplitWs(s) == tokens {
      var gaps := Gaps(s);
      assert Separated(gaps, tokens) && Interleave(gaps, tokens) == s;
    }
    if exists gaps :: Separated(gaps, tokens) && Interleave(gaps, tokens) == s {
      var gaps :| Separated(gaps, tokens) && Interleave(gaps, tokens) == s;
      SplitWsInterleave(gaps, tokens);
    }
  }

  // ----------------------------------------------------------------- find

  /** Python's `s.find(c)`: the first index holding `c`, or -1. */
  function Find(s: string, c: char): (r: int)
    ensures -1 <= r < |s|
    ensures r == -1 <==> c !in s
    ensures 0 <= r ==> s[r] == c && c !in s[..r]
  {
    if s == [] then -1
    else if s[0] == c then 0
    else
      var k := Find(s[1..], c);
      if k == -1 then -1
      else
        assert s[..k + 1] == [s[0]] + s[1..][..k];
        k + 1
  }

  /** `s[i]` is the first occurrence of `c` in `s`. */
  predicate FirstAt(s: string, c: char, i: int) {
    0 <= i < |s| && s[i] == c && forall k :: 0 <= k < i ==> s[k] != c
  }

  /** `Find` answers exactly the first occurrence. */
  lemma FindFirstAt(s: string, c: char, i: int)
    ensures FirstAt(s, c, i) <==> 0 <= i && Find(s, c) == i
  {
    var r := Find(s, c);
    if 0 <= r {
      forall k | 0 <= k < r ensures s[k] != c {
        assert s[..r][k] == s[k];
      }
    }
    if FirstAt(s, c, i) {
      assert s[i] in s;
    }
  }

  // -------------------------------------------------------------- replace

  /** Python's `s.replace(a, b)` for one-character `a` and `b`. */
  function ReplaceChar(s: string, a: char, b: char): (r: string)
    ensures |r| == |s|
    ensures forall i :: 0 <= i < |s| ==> r[i] == (if s[i] == a then b else s[i])
  {
    if s == [] then [] else [if s[0] == a then b else s[0]] + ReplaceChar(s[1..], a, b)
  }

  // ---------------------------------------------------------------- lines

  /** Index of the first line boundary, or `|s|` when there is none. */
  function FirstBreak(s: string): (n: nat)
    ensures n <= |s|
    ensures forall i :: 0 <= i < n ==> !IsLineBreak(s[i])
    ensures n < |s| ==> IsLineBreak(s[n])
  {
    if s == [] || IsLineBreak(s[0]) then 0 else 1 + FirstBreak(s[1..])
  }

  /**
   * Python's `s.splitlines()`: the lines of `s` without their boundaries,
   * `"\r\n"` counting as one boundary and a final boundary opening no
   * extra empty line.
   */
  function SplitLines(s: string): (r: seq<string>)
    ensures forall i :: 0 <= i < |r| ==> NoBreak(r[i])
    ensures r == [] <==> s == ""
    decreases |s|
  {
    if s == "" then []
    else
      var n := FirstBreak(s);
      assert NoBreak(s[..n]) by {
        forall c | c in s[..n] ensures !IsLineBreak(c) {
          var k :| 0 <= k < n && s[k] == c;
        }
      }
      if n == |s| then
        assert s[..n] == s;
        [s]
      else
        var w := if s[n] == '\r' && n + 1 < |s| && s[n + 1] == '\n' then 2 else 1;
        [s[..n]] + SplitLines(s[n + w..])
  }

  /** The text `line + "\n"` for every line in turn, as the renderers build it. */
  function JoinLines(lines: seq<string>): string {
    if lines == [] then "" else lines[0] + "\n" + JoinLines(lines[1..])
  }

  lemma {:induction false} JoinLinesAppend(a: seq<string>, b: seq<string>)
    ensures JoinLines(a + b) == JoinLines(a) + JoinLines(b)
    decreases |a|
  {
    if a == [] {
      assert a + b == b;
    } else {
      assert (a + b)[1..] == a[1..] + b;
      calc {
        JoinLines(a + b);
        (a + b)[0] + "\n" + JoinLines((a + b)[1..]);
        a[0] + "\n" + JoinLines(a[1..] + b);
        { JoinLinesAppend(a[1..], b); }
        a[0] + "\n" + (JoinLines(a[1..]) + JoinLines(b));
        (a[0] + "\n" + JoinLines(a[1..])) + JoinLines(b);
        JoinLines(a) + JoinLines(b);
      }
    }
  }

  lemma {:induction false} FirstBreakAfter(l: string, x: string)
    requires NoBreak(l)
    requires x != "" && IsLineBreak(x[0])
    ensures FirstBreak(l + x) == |l|
    decreases |l|
  {
    if l != "" {
      assert l[0] in l;
      assert (l + x)[1..] == l[1..] + x;
      FirstBreakAfter(l[1..], x);
    }
  }

  /** A line boundary: `"\r\n"`, or one boundary character. */
  predicate IsBoundary(b: string) {
    b == "\r\n" || (|b| == 1 && IsLineBreak(b[0]))
  }

  /**
   * A line, a boundary, and the rest: `splitlines()` yields the line and
   * then the lines of the rest. A lone `"\r"` must not be followed by
   * `"\n"`, or the two would be one boundary.
   */
  lemma SplitLinesBreak(l: string, b: string, rest: string)
    requires NoBreak(l) && IsBoundary(b)
    requires b == "\r" ==> rest == "" || rest[0] != '\n'
    ensures SplitLines(l + b + rest) == [l] + SplitLines(rest)
  {
    var s := l + b + rest;
    assert s == l + (b + rest);
    FirstBreakAfter(l, b + rest);
    if b == "\r\n" {
      SplitLinesCrLf(l, rest);
    } else {
      SplitLinesOneChar(l, b, rest);
    }
  }

  lemma SplitLinesCrLf(l: string, rest: string)
    requires NoBreak(l) && FirstBreak(l + ("\r\n" + rest)) == |l|
    ensures SplitLines(l + "\r\n" + rest) == [l] + SplitLines(rest)
  {
    var s := l + "\r\n" + rest;
    var n := |l|;
    assert s == l + ("\r\n" + rest);
    assert s[..n] == l;
    assert s[n] == '\r' && s[n + 1] == '\n';
    assert s[n + 2..] == rest;
    assert SplitLines(s) == [s[..n]] + SplitLines(s[n + 2..]);
  }

  lemma SplitLinesOneChar(l: string, b: string, rest: string)
    requires NoBreak(l) && |b| == 1 && IsLineBreak(b[0])
    requires b == "\r" ==> rest == "" || rest[0] != '\n'
    requires FirstBreak(l + (b + rest)) == |l|
    ensures SplitLines(l + b + rest) == [l] + SplitLines(rest)
  {
    var s := l + b + rest;
    var n := |l|;
    assert s == l + (b + rest);
    assert s[..n] == l;
    assert s[n] == b[0];
    assert s[n + 1..] == rest;
    assert !(s[n] == '\r' && n + 1 < |s| && s[n + 1] == '\n');
    assert SplitLines(s) == [s[..n]] + SplitLines(s[n + 1..]);
  }

  /** A last line without a boundary after it is split off alone. */
  lemma {:induction false} SplitLinesLast(l: string)
    requires l != "" && NoBreak(l)
    ensures SplitLines(l) == [l]
  {
    assert l + "" == l;
    FirstBreakAfterAll(l);
  }

  lemma FirstBreakAfterAll(l: string)
    requires NoBreak(l)
    ensures FirstBreak(l) == |l|
  {
    if l != "" {
      assert l[0] in l;
      assert NoBreak(l[1..]) by {
        forall c | c in l[1..] ensures !IsLineBreak(c) {
          assert c in l;
        }
      }
      FirstBreakAfterAll(l[1..]);
    }
  }

  /** One line, its boundary, and the rest. */
  lemma SplitLinesCons(l: string, j: string, rest: string)
    requires NoBreak(l)
    ensures SplitLines(l + "\n" + j + rest) == [l] + SplitLines(j + rest)
  {
    assert IsBoundary("\n");
    SplitLinesBreak(l, "\n", j + rest);
    assert l + "\n" + j + rest == l + "\n" + (j + rest);
  }

  /** One induction step of `SplitJoinedLines`. */
  lemma SplitJoinedStep(h: seq<string>, rest: string)
    requires h != [] && NoBreak(h[0])
    requires SplitLines(JoinLines(h[1..]) + rest) == h[1..] + SplitLines(rest)
    ensures SplitLines(JoinLines(h) + rest) == h + SplitLines(rest)
  {
    JoinLinesCons(h);
    SplitLinesCons(h[0], JoinLines(h[1..]), rest);
    ConsAppend(h, SplitLines(rest));
  }

  lemma JoinLinesCons(h: seq<string>)
    requires h != []
    ensures JoinLines(h) == h[0] + "\n" + JoinLines(h[1..])
  {
  }

  lemma ConsAppend<T>(h: seq<T>, t: seq<T>)
    requires h != []
    ensures h + t == [h[0]] + (h[1..] + t)
  {
  }

  /**
   * Splitting rendered text gives back the rendered one-line lines in
   * order, followed by the lines of whatever comes after them.
   */
  lemma {:induction false} SplitJoinedLines(h: seq<string>, rest: string)
    requires forall i :: 0 <= i < |h| ==> NoBreak(h[i])
    ensures SplitLines(JoinLines(h) + rest) == h + SplitLines(rest)
    decreases |h|
  {
    if h == [] {
      assert JoinLines(h) + rest == rest;
    } else {
      assert forall i :: 0 <= i < |h[1..]| ==> h[1..][i] == h[i + 1];
      SplitJoinedLines(h[1..], rest);
      SplitJoinedStep(h, rest);
    }
  }
}
