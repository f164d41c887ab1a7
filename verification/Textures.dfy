/**
 The replacement of texture names inside a text (formspec.go).

 A pattern is one or more characters of an alphabet, a dot, and one of a list of
 extensions in any letter case. The dot and the extensions are made of alphabet
 characters themselves, so a match never leaves a maximal run of such characters.
 */
module Textures {
  import opened Wrappers

  function Lower(c: char): char {
    if 'A' <= c <= 'Z' then c - 'A' + 'a' else c
  }

  predicate StartsWith(s: string, word: string) {
    |word| <= |s| && forall k :: 0 <= k < |word| ==> Lower(s[k]) == word[k]
  }

  /** The length of the first of the words that `s` starts with, 0 if there is none. */
  function FirstOf(s: string, words: seq<string>): (n: nat)
    ensures n <= |s|
  {
    if words == [] then 0
    else if StartsWith(s, words[0]) then |words[0]|
    else FirstOf(s, words[1..])
  }

  /** Cutting a string behind `n` and cutting the rest again. */
  lemma Slices(s: string, n: nat, i: nat, e: nat)
    requires i <= e <= |s| - n
    ensures s[n..][..i] == s[n..n + i]
    ensures s[n..][i..e] == s[n + i..n + e]
    ensures s[n..][e..] == s[n + e..]
    ensures s[..n + i] == s[..n] + s[n..][..i]
  {
  }

  lemma Assoc(a: string, b: string, c: string, d: string)
    ensures (a + b) + c + d == a + (b + c + d)
  {
  }

  function Prepending(prefix: string): string -> string {
    m => prefix + m
  }

  datatype Pattern = Pattern(alphabet: set<char>, extensions: seq<string>) {

    /** The dot and the extension letters belong to the alphabet, and no extension has a dot. */
    ghost predicate Valid() {
      '.' in alphabet && ExtensionsIn(extensions)
    }

    ghost predicate ExtensionsIn(words: seq<string>) {
      forall w, k, c: char :: w in words && 0 <= k < |w| && Lower(c) == w[k] ==> c in alphabet && c != '.'
    }

    predicate Within(s: string) {
      forall k :: 0 <= k < |s| ==> s[k] in alphabet
    }

    /** A dot at `j` with an extension behind it. */
    predicate DotAt(s: string, j: nat) {
      j < |s| && s[j] == '.' && FirstOf(s[j + 1..], extensions) > 0
    }

    /** The length of the run of alphabet characters that `s` starts with. */
    function RunLen(s: string): (n: nat)
      ensures n <= |s|
    {
      if s == "" || s[0] !in alphabet then 0 else 1 + RunLen(s[1..])
    }

    /** The largest `j` in `1..hi` where a match that starts at 0 can have its dot. */
    function LastDot(run: string, hi: nat): (dot: Option<nat>)
      requires hi <= |run|
      ensures dot.Some? ==> 1 <= dot.value < hi
    {
      if hi <= 1 then None
      else if DotAt(run, hi - 1) then Some(hi - 1)
      else LastDot(run, hi - 1)
    }

    predicate HasMedia(run: string) {
      LastDot(run, |run|).Some?
    }

    /** The end of the match that starts at 0, if there is one: the repetition is greedy. */
    function MatchHere(s: string): (end: Option<nat>)
      ensures end.Some? ==> 0 < end.value <= RunLen(s)
    {
      var run := s[..RunLen(s)];
      match LastDot(run, |run|)
      case None => None
      case Some(j) => Some(j + 1 + FirstOf(run[j + 1..], extensions))
    }

    /** The first match: starting positions are tried from left to right. */
    function Find(s: string): (m: Option<(nat, nat)>)
      ensures m.Some? ==> m.value.0 < m.value.1 <= |s|
    {
      if s == "" then None
      else
        match MatchHere(s)
        case Some(end) => Some((0, end))
        case None => Shifted(1, Find(s[1..]))
    }

    /** `FindAllSubmatchIndex`: the successive matches from position `from` on. */
    function FindAll(s: string, from: nat): seq<(nat, nat)>
      requires from <= |s|
      decreases |s| - from
    {
      match Shifted(from, Find(s[from..]))
      case None => []
      case Some((i, e)) => [(i, e)] + FindAll(s, e)
    }

    static function Shifted(offset: nat, m: Option<(nat, nat)>): Option<(nat, nat)> {
      match m case None => None case Some((i, e)) => Some((offset + i, offset + e))
    }

    /** The prefix goes in front of every maximal run that holds a media name; nothing else changes. */
    function Rewrite(prefix: string, s: string): string
      decreases |s|
    {
      if s == "" then ""
      else if s[0] !in alphabet then [s[0]] + Rewrite(prefix, s[1..])
      else
        var n := RunLen(s);
        Lead(prefix, s[..n]) + s[..n] + Rewrite(prefix, s[n..])
    }

    /** What is inserted in front of a run. */
    function Lead(prefix: string, run: string): string {
      if HasMedia(run) then prefix else ""
    }

    // -----------------------------------------------------------------------
    // Runs

    lemma {:induction false} RunLenSpec(s: string)
      ensures Within(s[..RunLen(s)])
      ensures RunLen(s) < |s| ==> s[RunLen(s)] !in alphabet
    {
      if s != "" && s[0] in alphabet {
        RunLenSpec(s[1..]);
        var n := RunLen(s[1..]);
        assert forall k :: 0 < k < n + 1 ==> s[k] == s[1..][..n][k - 1];
      }
    }

    lemma {:induction false} LastDotSpec(run: string, hi: nat)
      requires hi <= |run|
      ensures match LastDot(run, hi)
        case None => forall j: nat :: 1 <= j < hi ==> !DotAt(run, j)
        case Some(d) => DotAt(run, d) && forall j: nat :: d < j < hi ==> !DotAt(run, j)
    {
      if hi > 1 && !DotAt(run, hi - 1) {
        LastDotSpec(run, hi - 1);
      }
    }

    lemma {:induction false} RunLenIs(s: string, n: nat)
      requires n <= |s| && Within(s[..n]) && (n < |s| ==> s[n] !in alphabet)
      ensures RunLen(s) == n
    {
      if n == 0 {
      } else {
        assert s[0] == s[..n][0];
        assert s[1..][..n - 1] == s[..n][1..];
        RunLenIs(s[1..], n - 1);
      }
    }

    lemma RunLenSlice(s: string, k: nat)
      requires k <= RunLen(s)
      ensures RunLen(s[k..]) == RunLen(s) - k
      ensures s[k..][..RunLen(s) - k] == s[..RunLen(s)][k..]
    {
      hide RunLen;
      RunLenSpec(s);
      assert s[k..][..RunLen(s) - k] == s[..RunLen(s)][k..];
      RunLenIs(s[k..], RunLen(s) - k);
    }

    lemma DotSuffix(s: string, k: nat, j: nat)
      requires k <= |s|
      ensures DotAt(s[k..], j) <==> DotAt(s, k + j)
    {
      if k + j < |s| {
        assert s[k..][j + 1..] == s[k + j + 1..];
      }
    }

    /** The tail of a run behind all its dots holds no media name. */
    lemma QuietTail(run: string, k: nat)
      requires k <= |run|
      requires match LastDot(run, |run|) case None => true case Some(j) => j < k
      ensures !HasMedia(run[k..])
    {
      LastDotSpec(run, |run|);
      LastDotSpec(run[k..], |run[k..]|);
      match LastDot(run[k..], |run[k..]|) {
        case None =>
        case Some(j) => DotSuffix(run, k, j);
      }
    }

    lemma MediaBehind(q: string, run: string)
      requires HasMedia(run)
      ensures HasMedia(q + run)
    {
      var j := LastDot(run, |run|).value;
      LastDotSpec(run, |run|);
      LastDotSpec(q + run, |q + run|);
      assert (q + run)[|q|..] == run;
      DotSuffix(q + run, |q|, j);
    }

    lemma RewriteRun(prefix: string, run: string, rest: string)
      requires Within(run) && (rest != "" ==> rest[0] !in alphabet)
      ensures Rewrite(prefix, run + rest) == Lead(prefix, run) + run + Rewrite(prefix, rest)
    {
      if run == "" {
        assert run + rest == rest;
      } else {
        var s := run + rest;
        assert s[..|run|] == run && s[|run|..] == rest;
        assert s[0] == run[0];
        RunLenIs(s, |run|);
      }
    }

    // -----------------------------------------------------------------------
    // The loop over the matches rewrites by runs

    lemma SkipOne(s: string)
      requires 1 <= RunLen(s) && !HasMedia(s[..RunLen(s)])
      ensures Find(s) == Shifted(1, Find(s[1..]))
      ensures RunLen(s[1..]) == RunLen(s) - 1
      ensures !HasMedia(s[1..][..RunLen(s) - 1])
    {
      hide RunLen, LastDot, Find;
      QuietStart(s);
      RunLenSlice(s, 1);
      QuietTail(s[..RunLen(s)], 1);
    }

    lemma QuietStart(s: string)
      requires s != "" && !HasMedia(s[..RunLen(s)])
      ensures Find(s) == Shifted(1, Find(s[1..]))
    {
      hide RunLen, LastDot;
    }

    /** Inside a run without media names there is nothing to find. */
    lemma {:induction false} SkipQuiet(s: string, n: nat)
      requires n <= RunLen(s) && !HasMedia(s[..RunLen(s)])
      ensures Find(s) == Shifted(n, Find(s[n..]))
      decreases n
    {
      hide RunLen, HasMedia, Find;
      if n == 0 {
        assert s[0..] == s;
      } else {
        SkipOne(s);
        SkipQuiet(s[1..], n - 1);
        assert s[1..][n - 1..] == s[n..];
      }
    }

    /** The part of a run behind its match is copied as it is. */
    lemma RewriteTail(prefix: string, s: string, e: nat)
      requires MatchHere(s) == Some(e)
      ensures e <= RunLen(s)
      ensures Rewrite(prefix, s[e..]) == s[e..RunLen(s)] + Rewrite(prefix, s[RunLen(s)..])
    {
      hide Rewrite;
      var n := RunLen(s);
      var tail := s[..n][e..];
      RunLenSpec(s);
      QuietTail(s[..n], e);
      assert s[e..] == tail + s[n..] && tail == s[e..n];
      RewriteRun(prefix, tail, s[n..]);
    }

    /** The result, given the first match. */
    function Around(prefix: string, s: string, m: Option<(nat, nat)>): string
      requires m.Some? ==> m.value.0 <= m.value.1 <= |s|
    {
      match m
      case None => s
      case Some((i, e)) => s[..i] + (prefix + s[i..e]) + Rewrite(prefix, s[e..])
    }

    lemma AroundShift(prefix: string, s: string, n: nat, m: Option<(nat, nat)>)
      requires n <= |s| && (m.Some? ==> m.value.0 <= m.value.1 <= |s| - n)
      ensures Around(prefix, s, Shifted(n, m)) == s[..n] + Around(prefix, s[n..], m)
    {
      hide Rewrite;
      match m {
        case None => assert s == s[..n] + s[n..];
        case Some((i, e)) =>
          Slices(s, n, i, e);
          Assoc(s[..n], s[n..][..i], prefix + s[n..][i..e], Rewrite(prefix, s[n..][e..]));
      }
    }

    lemma RewriteDef(prefix: string, s: string)
      requires s != ""
      ensures s[0] !in alphabet ==> Rewrite(prefix, s) == [s[0]] + Rewrite(prefix, s[1..]) && RunLen(s) == 0
      ensures s[0] in alphabet ==> var n := RunLen(s);
        n > 0 && Rewrite(prefix, s) == Lead(prefix, s[..n]) + s[..n] + Rewrite(prefix, s[n..])
    {
    }

    lemma FindDef(s: string)
      requires s != ""
      ensures RunLen(s) == 0 ==> Find(s) == Shifted(1, Find(s[1..]))
      ensures RunLen(s) > 0 && HasMedia(s[..RunLen(s)]) ==>
        MatchHere(s).Some? && Find(s) == Some((0, MatchHere(s).value))
    {
    }

    /** Rewriting by runs is rewriting around the first match and going on behind it. */
    lemma {:induction false} RewriteFirst(prefix: string, s: string)
      ensures Rewrite(prefix, s) == Around(prefix, s, Find(s))
      decreases |s|
    {
      hide Rewrite, Find, RunLen, HasMedia, MatchHere;
      if s != "" {
        RewriteDef(prefix, s);
        FindDef(s);
        var n := RunLen(s);
        if s[0] !in alphabet {
          RewriteFirst(prefix, s[1..]);
          AroundShift(prefix, s, 1, Find(s[1..]));
        } else if HasMedia(s[..n]) {
          FirstInRun(prefix, s);
        } else {
          SkipQuiet(s, n);
          RewriteFirst(prefix, s[n..]);
          AroundShift(prefix, s, n, Find(s[n..]));
        }
      } else {
        EmptyText(prefix);
      }
    }

    lemma EmptyText(prefix: string)
      ensures Rewrite(prefix, "") == "" && Find("").None?
    {
    }

    lemma FirstInRun(prefix: string, s: string)
      requires s != "" && s[0] in alphabet && HasMedia(s[..RunLen(s)])
      ensures Rewrite(prefix, s) == Around(prefix, s, Find(s))
    {
      hide Rewrite, Find, RunLen, MatchHere;
      RewriteDef(prefix, s);
      FindDef(s);
      var n, e := RunLen(s), MatchHere(s).value;
      RewriteTail(prefix, s, e);
      assert s[..n] == s[0..e] + s[e..n] && s[..0] == "";
      Assoc(prefix, s[0..e], s[e..n], Rewrite(prefix, s[n..]));
    }

    /** Each match replaced, from left to right; what lies between the matches is copied. */
    function Replaced(repl: string -> string, s: string): string
      decreases |s|
    {
      var m := Find(s);
      if m.None? then s
      else s[..m.value.0] + repl(s[m.value.0..m.value.1]) + Replaced(repl, s[m.value.1..])
    }

    lemma ReplacedDef(repl: string -> string, s: string)
      ensures Find(s).None? ==> Replaced(repl, s) == s
      ensures Find(s).Some? ==> var m := Find(s).value;
        Replaced(repl, s) == s[..m.0] + repl(s[m.0..m.1]) + Replaced(repl, s[m.1..])
    {
      hide Find;
    }

    /** Prefixing every match is prefixing every run that holds a media name. */
    lemma {:induction false} PrependedIsRewritten(prefix: string, s: string)
      ensures Replaced(Prepending(prefix), s) == Rewrite(prefix, s)
      decreases |s|
    {
      hide Find, Rewrite, Replaced;
      ReplacedDef(Prepending(prefix), s);
      RewriteFirst(prefix, s);
      if Find(s).Some? {
        PrependedIsRewritten(prefix, s[Find(s).value.1..]);
      }
    }

    /** The loop of the source, for any replacement; the pattern's only group is the whole match. */
    method ReplaceAllStringSubmatchFunc(str: string, repl: string -> string) returns (result: string)
      ensures result == Replaced(repl, str)
    {
      result := "";
      var lastIndex := 0;
      var matches := FindAll(str, 0);
      assert str[0..] == str;
      for k := 0 to |matches|
        invariant lastIndex <= |str|
        invariant matches[k..] == FindAll(str, lastIndex)
        invariant result + Replaced(repl, str[lastIndex..]) == Replaced(repl, str)
      {
        hide Replaced, Find;
        var (start, end) := matches[k];
        ReplacedStep(repl, str, lastIndex);
        Assoc(result, str[lastIndex..start], repl(str[start..end]), Replaced(repl, str[end..]));
        result := result + str[lastIndex..start] + repl(str[start..end]);
        lastIndex := end;
      }
      ReplacedDef(repl, str[lastIndex..]);
      result := result + str[lastIndex..];
    }

    lemma FindAllDef(s: string, from: nat)
      requires from <= |s|
      ensures match Find(s[from..])
        case None => FindAll(s, from) == []
        case Some((i, e)) => FindAll(s, from) == [(from + i, from + e)] + FindAll(s, from + e)
    {
      hide Find;
    }

    lemma {:induction false} FindAt(s: string)
      requires Find(s).Some?
      ensures var (i, e) := Find(s).value; MatchHere(s[i..]) == Some(e - i)
    {
      if MatchHere(s).Some? {
        assert s[0..] == s;
      } else {
        FindAt(s[1..]);
        var (i, e) := Find(s[1..]).value;
        assert s[1..][i..] == s[1 + i..];
      }
    }

    /** Behind a match, the remainder of its run holds no media name. */
    lemma QuietBehind(s: string)
      requires Find(s).Some?
      ensures var (i, e) := Find(s).value;
        Within(s[i..e]) && !HasMedia(s[e..][..RunLen(s[e..])])
    {
      hide RunLen, Find;
      var (i, e) := Find(s).value;
      FindAt(s);
      var t, k := s[i..], e - i;
      assert t[k..] == s[e..] && t[..k] == s[i..e];
      RunLenSpec(t);
      assert t[..k] == t[..RunLen(t)][..k];
      RunLenSlice(t, k);
      QuietTail(t[..RunLen(t)], k);
    }

    /** From a run without media names the next match is separated by a foreign character. */
    lemma FoundBehindRun(t: string)
      requires Find(t).Some? && !HasMedia(t[..RunLen(t)])
      ensures RunLen(t) < Find(t).value.0 && t[RunLen(t)] !in alphabet
    {
      hide RunLen, Find, HasMedia;
      var n := RunLen(t);
      SkipQuiet(t, n);
      RunLenSpec(t);
      var rest := t[n..];
      if rest == "" {
        EmptyText("");
      } else {
        assert rest[0] !in alphabet;
        RewriteDef("", rest);
        FindDef(rest);
      }
    }

    /** A foreign character lies between two positions. */
    predicate Apart(s: string, a: nat, b: nat) {
      exists x :: a <= x < b && x < |s| && s[x] !in alphabet
    }

    /** Every match lies within a maximal run, and no run has two. */
    lemma {:induction false} OncePerRun(s: string, from: nat)
      requires from <= |s|
      ensures var m := FindAll(s, from);
        && (forall k :: 0 <= k < |m| ==> from <= m[k].0 < m[k].1 <= |s| && Within(s[m[k].0..m[k].1]))
        && (forall k :: 0 <= k < |m| - 1 ==> Apart(s, m[k].1, m[k + 1].0))
      decreases |s| - from
    {
      hide RunLen, Find, HasMedia, FindAll;
      FindAllDef(s, from);
      var t := s[from..];
      if Find(t).Some? {
        var (i, e) := Find(t).value;
        QuietBehind(t);
        OncePerRun(s, from + e);
        FindAllDef(s, from + e);
        Slices(s, from, i, e);
        var u, m, rest := t[e..], FindAll(s, from), FindAll(s, from + e);
        assert m == [(from + i, from + e)] + rest;
        forall k | 0 <= k < |m| - 1 ensures Apart(s, m[k].1, m[k + 1].0) {
          if k == 0 {
            FoundBehindRun(u);
            assert s[from + e + RunLen(u)] == u[RunLen(u)];
          } else {
            assert m[k] == rest[k - 1] && m[k + 1] == rest[k - 1 + 1];
          }
        }
      }
    }

    lemma ReplacedStep(repl: string -> string, s: string, from: nat)
      requires from <= |s| && FindAll(s, from) != []
      ensures var m := FindAll(s, from)[0];
        && from <= m.0 < m.1 <= |s|
        && FindAll(s, from)[1..] == FindAll(s, m.1)
        && Replaced(repl, s[from..]) == s[from..m.0] + repl(s[m.0..m.1]) + Replaced(repl, s[m.1..])
    {
      hide Replaced, Find;
      FindAllDef(s, from);
      ReplacedDef(repl, s[from..]);
      var (i, e) := Find(s[from..]).value;
      Slices(s, from, i, e);
    }
  }
}
