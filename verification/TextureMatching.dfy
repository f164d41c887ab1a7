/** The matcher of `Textures` finds what the regular expression describes: leftmost, then greedy. */
module TextureMatching {
  import opened Wrappers
  import opened Textures

  /** `s` has a match of the pattern that starts at `i` and whose last dot is at `j`. */
  ghost predicate Decomposes(p: Pattern, s: string, i: nat, j: nat) {
    i < j < |s| && p.Within(s[i..j]) && p.DotAt(s, j)
  }

  /** The match from `i` with the longest repetition and the first fitting extension ends at `e`. */
  ghost predicate Greedy(p: Pattern, s: string, i: nat, e: nat) {
    exists j: nat :: Decomposes(p, s, i, j)
      && (forall j': nat :: Decomposes(p, s, i, j') ==> j' <= j)
      && e == j + 1 + FirstOf(s[j + 1..], p.extensions)
  }

  /** What lies behind the end of a run has no influence on the extension. */
  lemma {:induction false} FirstOfLocal(p: Pattern, s: string, n: nat, words: seq<string>)
    requires p.ExtensionsIn(words)
    requires n <= |s| && (n < |s| ==> s[n] !in p.alphabet)
    ensures FirstOf(s, words) == FirstOf(s[..n], words)
  {
    if words == [] {
    } else {
      FirstOfLocal(p, s, n, words[1..]);
      assert words[0] in words;
      assert StartsWith(s, words[0]) ==> |words[0]| <= n;
    }
  }

  lemma DotLocal(p: Pattern, s: string, n: nat, j: nat)
    requires p.Valid() && j < n <= |s| && (n < |s| ==> s[n] !in p.alphabet)
    ensures p.DotAt(s, j) <==> p.DotAt(s[..n], j)
    ensures FirstOf(s[j + 1..], p.extensions) == FirstOf(s[..n][j + 1..], p.extensions)
  {
    var m := n - (j + 1);
    FirstOfLocal(p, s[j + 1..], m, p.extensions);
    assert s[j + 1..][..m] == s[..n][j + 1..];
  }

  lemma {:induction false} RunCovers(p: Pattern, s: string, j: nat)
    requires j <= |s| && p.Within(s[..j])
    ensures j <= p.RunLen(s)
  {
    if j == 0 {
    } else {
      assert s[0] == s[..j][0];
      assert s[1..][..j - 1] == s[..j][1..];
      RunCovers(p, s[1..], j - 1);
    }
  }

  /** The dot of a match from 0 lies in the first run. */
  lemma DotInRun(p: Pattern, s: string, j: nat)
    requires p.Valid()
    ensures Decomposes(p, s, 0, j) <==> 1 <= j < p.RunLen(s) && p.DotAt(s[..p.RunLen(s)], j)
  {
    var n := p.RunLen(s);
    p.RunLenSpec(s);
    if Decomposes(p, s, 0, j) {
      assert s[0..j] == s[..j];
      RunCovers(p, s, j);
    }
    if j < n {
      DotLocal(p, s, n, j);
      assert s[0..j] == s[..n][..j];
    }
  }

  lemma MatchHereIsGreedy(p: Pattern, s: string)
    requires p.Valid()
    ensures match p.MatchHere(s)
      case None => forall j: nat :: !Decomposes(p, s, 0, j)
      case Some(e) => Greedy(p, s, 0, e)
  {
    hide p.RunLen, p.LastDot;
    var n := p.RunLen(s);
    p.LastDotSpec(s[..n], n);
    forall j: nat ensures Decomposes(p, s, 0, j) <==> 1 <= j < n && p.DotAt(s[..n], j) {
      DotInRun(p, s, j);
    }
    if p.MatchHere(s).Some? {
      var j := p.LastDot(s[..n], n).value;
      p.RunLenSpec(s);
      DotLocal(p, s, n, j);
      assert Decomposes(p, s, 0, j);
    }
  }

  lemma DecomposesSuffix(p: Pattern, s: string, i: nat, j: nat)
    requires s != ""
    ensures Decomposes(p, s[1..], i, j) <==> Decomposes(p, s, i + 1, j + 1)
  {
    p.DotSuffix(s, 1, j);
    if i < j < |s| - 1 {
      assert s[1..][i..j] == s[i + 1..j + 1];
    }
  }

  lemma GreedySuffix(p: Pattern, s: string, i: nat, e: nat)
    requires s != "" && Greedy(p, s[1..], i, e)
    ensures Greedy(p, s, i + 1, e + 1)
  {
    var k := i + 1;
    var j: nat :| Decomposes(p, s[1..], i, j)
      && (forall j': nat :: Decomposes(p, s[1..], i, j') ==> j' <= j)
      && e == j + 1 + FirstOf(s[1..][j + 1..], p.extensions);
    DecomposesSuffix(p, s, i, j);
    assert s[1..][j + 1..] == s[j + 2..];
    forall j': nat | Decomposes(p, s, k, j') ensures j' <= j + 1 {
      DecomposesSuffix(p, s, i, j' - 1);
    }
  }

  /**
   The first match starts at the leftmost position where the pattern matches, takes the
   longest possible repetition there and then the first extension that fits.
   */
  lemma {:induction false} FindIsLeftmostGreedy(p: Pattern, s: string)
    requires p.Valid()
    ensures match p.Find(s)
      case None => forall i: nat, j: nat :: !Decomposes(p, s, i, j)
      case Some((i, e)) => Greedy(p, s, i, e) && forall i': nat, j: nat :: Decomposes(p, s, i', j) ==> i <= i'
  {
    if s == "" {
    } else {
      MatchHereIsGreedy(p, s);
      if p.MatchHere(s).None? {
        FindIsLeftmostGreedy(p, s[1..]);
        NoMatchHere(p, s);
        if p.Find(s[1..]).Some? {
          var (i, e) := p.Find(s[1..]).value;
          GreedySuffix(p, s, i, e);
        }
      }
    }
  }

  lemma NoMatchHere(p: Pattern, s: string)
    requires s != "" && forall j: nat :: !Decomposes(p, s, 0, j)
    ensures forall i: nat, j: nat :: Decomposes(p, s, i, j) ==> i >= 1 && Decomposes(p, s[1..], i - 1, j - 1)
  {
    forall i: nat, j: nat | Decomposes(p, s, i, j) ensures i >= 1 && Decomposes(p, s[1..], i - 1, j - 1) {
      assert i >= 1;
      DecomposesSuffix(p, s, i - 1, j - 1);
    }
  }

  // -------------------------------------------------------------------------
  // Rewriting loses nothing

  /** The length of the run of alphabet characters that `s` ends with. */
  function SuffixLen(p: Pattern, s: string): (n: nat)
    ensures n <= |s|
  {
    if s == "" || s[|s| - 1] !in p.alphabet then 0 else 1 + SuffixLen(p, s[..|s| - 1])
  }

  /** Reads a rewritten text from its end and drops the prefix in front of each media run. */
  function Unrewrite(p: Pattern, prefix: string, t: string): string
    decreases |t|
  {
    if t == "" then ""
    else
      var n := SuffixLen(p, t);
      if n == 0 then Unrewrite(p, prefix, t[..|t| - 1]) + t[|t| - 1..]
      else UnrewriteRun(p, prefix, t, |t| - n)
  }

  function UnrewriteRun(p: Pattern, prefix: string, t: string, start: nat): string
    requires start < |t|
    decreases |t|, 0
  {
    if !p.HasMedia(t[start..]) then Unrewrite(p, prefix, t[..start]) + t[start..]
    else
      var run := start + SuffixLen(p, prefix);
      if |prefix| <= run < |t| then Unrewrite(p, prefix, t[..run - |prefix|]) + t[run..] else t
  }

  lemma {:induction false} SuffixLenIs(p: Pattern, x: string, y: string)
    requires p.Within(y) && (x != "" ==> x[|x| - 1] !in p.alphabet)
    ensures SuffixLen(p, x + y) == |y|
  {
    if y == "" {
      assert x + y == x;
    } else {
      var y' := y[..|y| - 1];
      assert (x + y)[..|x + y| - 1] == x + y';
      SuffixLenIs(p, x, y');
    }
  }

  lemma {:induction false} SuffixLenSpec(p: Pattern, s: string)
    ensures var n := SuffixLen(p, s);
      p.Within(s[|s| - n..]) && (n < |s| ==> s[|s| - n - 1] !in p.alphabet)
  {
    if s != "" && s[|s| - 1] in p.alphabet {
      var s' := s[..|s| - 1];
      SuffixLenSpec(p, s');
      var n := SuffixLen(p, s');
      assert s[|s| - n - 1..] == s'[|s'| - n..] + [s[|s| - 1]];
      assert n < |s'| ==> s[|s| - n - 2] == s'[|s'| - n - 1];
    }
  }

  /** Two strings meet where a run begins or ends. */
  predicate Boundary(p: Pattern, x: string, y: string) {
    x == "" || y == "" || x[|x| - 1] !in p.alphabet || y[0] !in p.alphabet
  }

  lemma {:induction false} RewriteConcat(p: Pattern, prefix: string, x: string, y: string)
    requires Boundary(p, x, y)
    ensures p.Rewrite(prefix, x + y) == p.Rewrite(prefix, x) + p.Rewrite(prefix, y)
    decreases |x|
  {
    hide p.Rewrite, p.RunLen, p.HasMedia, p.LastDot;
    if x == "" {
      assert x + y == y;
      p.EmptyText(prefix);
    } else if x[0] !in p.alphabet {
      RewriteConcat(p, prefix, x[1..], y);
      assert (x + y)[1..] == x[1..] + y;
      p.RewriteDef(prefix, x);
      p.RewriteDef(prefix, x + y);
    } else {
      var n := p.RunLen(x);
      p.RewriteDef(prefix, x);
      p.RunLenSpec(x);
      var run, rest := x[..n], x[n..];
      assert n == |x| && y != "" ==> x[..n][n - 1] == x[|x| - 1];
      assert x + y == run + (rest + y);
      RewriteConcat(p, prefix, rest, y);
      p.RewriteRun(prefix, run, rest + y);
      Regroup(p.Lead(prefix, run) + run, p.Rewrite(prefix, rest), p.Rewrite(prefix, y));
    }
  }

  lemma Regroup(a: string, b: string, c: string)
    ensures a + (b + c) == (a + b) + c
  {
  }

  lemma RewriteOne(p: Pattern, prefix: string, u: string, c: char)
    requires c !in p.alphabet
    ensures p.Rewrite(prefix, u + [c]) == p.Rewrite(prefix, u) + [c]
  {
    hide p.Rewrite, p.RunLen, p.HasMedia, p.LastDot;
    RewriteConcat(p, prefix, u, [c]);
    p.RewriteDef(prefix, [c]);
    p.EmptyText(prefix);
    assert [c][1..] == "";
  }

  lemma RewriteLast(p: Pattern, prefix: string, u: string, run: string)
    requires p.Within(run) && (u != "" ==> u[|u| - 1] !in p.alphabet)
    ensures p.Rewrite(prefix, u + run) == p.Rewrite(prefix, u) + p.Lead(prefix, run) + run
    ensures u != "" ==> var ru := p.Rewrite(prefix, u); ru != "" && ru[|ru| - 1] == u[|u| - 1]
    ensures u == "" ==> p.Rewrite(prefix, u) == ""
  {
    hide p.Rewrite, p.RunLen, p.HasMedia, p.LastDot;
    RewriteConcat(p, prefix, u, run);
    p.RewriteRun(prefix, run, "");
    p.EmptyText(prefix);
    assert run + "" == run;
    Regroup(p.Rewrite(prefix, u), p.Lead(prefix, run), run);
    if u != "" {
      var init, c := u[..|u| - 1], u[|u| - 1];
      assert u == init + [c];
      RewriteOne(p, prefix, init, c);
    }
  }

  lemma UnrewriteDef(p: Pattern, prefix: string, t: string)
    ensures t == "" ==> Unrewrite(p, prefix, t) == ""
    ensures t != "" && SuffixLen(p, t) == 0 ==>
      Unrewrite(p, prefix, t) == Unrewrite(p, prefix, t[..|t| - 1]) + t[|t| - 1..]
    ensures SuffixLen(p, t) > 0 ==> var start := |t| - SuffixLen(p, t);
      Unrewrite(p, prefix, t) == UnrewriteRun(p, prefix, t, start)
  {
    hide SuffixLen, UnrewriteRun;
  }

  lemma UnrewriteOne(p: Pattern, prefix: string, ru: string, c: char)
    requires c !in p.alphabet
    ensures Unrewrite(p, prefix, ru + [c]) == Unrewrite(p, prefix, ru) + [c]
  {
    hide Unrewrite, SuffixLen;
    var t := ru + [c];
    SuffixLenIs(p, t, "");
    assert t + "" == t;
    UnrewriteDef(p, prefix, t);
    assert t[..|t| - 1] == ru && t[|t| - 1..] == [c];
  }

  /** In front of a quiet run there is nothing to drop. */
  lemma UnrewriteQuiet(p: Pattern, prefix: string, ru: string, run: string)
    requires run != "" && p.Within(run) && !p.HasMedia(run)
    requires ru != "" ==> ru[|ru| - 1] !in p.alphabet
    ensures Unrewrite(p, prefix, ru + run) == Unrewrite(p, prefix, ru) + run
  {
    hide Unrewrite, SuffixLen, p.HasMedia;
    var t := ru + run;
    SuffixLenIs(p, ru, run);
    UnrewriteDef(p, prefix, t);
    assert t[|ru|..] == run && t[..|ru|] == ru;
  }

  /** A media run and the inserted prefix are recognised whatever characters the prefix has. */
  lemma UnrewriteMedia(p: Pattern, prefix: string, ru: string, run: string)
    requires run != "" && p.Within(run) && p.HasMedia(run)
    requires ru != "" ==> ru[|ru| - 1] !in p.alphabet
    ensures Unrewrite(p, prefix, ru + prefix + run) == Unrewrite(p, prefix, ru) + run
  {
    hide Unrewrite, SuffixLen, p.HasMedia;
    var q := SuffixLen(p, prefix);
    SuffixLenSpec(p, prefix);
    var head, tail := prefix[..|prefix| - q], prefix[|prefix| - q..];
    assert prefix == head + tail;
    assert head == "" ==> ru + head == ru;
    assert head != "" ==> (ru + head)[|ru + head| - 1] == head[|head| - 1];
    SuffixLenIs(p, ru + head, tail + run);
    p.MediaBehind(tail, run);
    CutMedia(p, prefix, ru, head, tail, run);
  }

  lemma CutMedia(p: Pattern, prefix: string, ru: string, head: string, tail: string, run: string)
    requires run != "" && prefix == head + tail && |tail| == SuffixLen(p, prefix)
    requires p.HasMedia(tail + run) && SuffixLen(p, (ru + head) + (tail + run)) == |tail + run|
    ensures Unrewrite(p, prefix, ru + prefix + run) == Unrewrite(p, prefix, ru) + run
  {
    var t := ru + prefix + run;
    hide Unrewrite, SuffixLen, p.HasMedia;
    CutFacts(ru, head, tail, run);
    UnrewriteAt(p, prefix, t, |ru| + |head|);
  }

  lemma CutFacts(ru: string, head: string, tail: string, run: string)
    ensures var t := ru + (head + tail) + run;
      && t == (ru + head) + (tail + run)
      && t[|ru| + |head|..] == tail + run
      && t[..|ru|] == ru
      && t[|ru| + |head| + |tail|..] == run
  {
  }

  lemma UnrewriteAt(p: Pattern, prefix: string, t: string, start: nat)
    requires start < |t| && SuffixLen(p, t) == |t| - start && p.HasMedia(t[start..])
    requires |prefix| <= start + SuffixLen(p, prefix) < |t|
    ensures var run := start + SuffixLen(p, prefix);
      Unrewrite(p, prefix, t) == Unrewrite(p, prefix, t[..run - |prefix|]) + t[run..]
  {
    hide SuffixLen, p.HasMedia, Unrewrite;
    UnrewriteDef(p, prefix, t);
  }

  /** Rewriting can be undone, for every prefix; so distinct texts stay distinct. */
  lemma {:induction false} RewriteRoundTrip(p: Pattern, prefix: string, s: string)
    ensures Unrewrite(p, prefix, p.Rewrite(prefix, s)) == s
    decreases |s|
  {
    hide p.Rewrite, p.RunLen, p.HasMedia, p.LastDot, Unrewrite, SuffixLen;
    if s == "" {
      p.EmptyText(prefix);
      UnrewriteDef(p, prefix, "");
    } else {
      var n := SuffixLen(p, s);
      SuffixLenSpec(p, s);
      if n == 0 {
        var u, c := s[..|s| - 1], s[|s| - 1];
        assert s == u + [c];
        RewriteOne(p, prefix, u, c);
        RewriteRoundTrip(p, prefix, u);
        UnrewriteOne(p, prefix, p.Rewrite(prefix, u), c);
      } else {
        var u, run := s[..|s| - n], s[|s| - n..];
        assert s == u + run;
        RewriteLast(p, prefix, u, run);
        RewriteRoundTrip(p, prefix, u);
        var ru := p.Rewrite(prefix, u);
        if p.HasMedia(run) {
          UnrewriteMedia(p, prefix, ru, run);
        } else {
          assert ru + "" + run == ru + run;
          UnrewriteQuiet(p, prefix, ru, run);
        }
      }
    }
  }
}
