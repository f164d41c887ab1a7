/** How the proxy renames content so that servers with equal names do not clash (content.go). */
module Names {
  import opened Wrappers
  import opened Textures
  import opened TextureMatching

  const ALPHABET: set<char> := set c: char |
    'a' <= c <= 'z' || 'A' <= c <= 'Z' || '0' <= c <= '9' || c == '-' || c == '_' || c == '.'

  const EXTENSIONS: seq<string> := ["png", "jpg", "jpeg", "tga", "obj", "b3d", "x", "gltf", "glb"]

  const TEXTURE_NAME := Pattern(ALPHABET, EXTENSIONS)

  const DEFAULT_TEXTURES := ["", "sun.png", "moon.png"]
  const DEFAULT_NAMES := ["", "air", "unknown", "ignore"]

  /** The names that every server shares; they are never rewritten. */
  predicate Default(s: string, isTexture: bool) {
    s in if isTexture then DEFAULT_TEXTURES else DEFAULT_NAMES
  }

  function Prefix(pool: string): string {
    pool + "_"
  }

  function Prepended(pool: string, s: string): string {
    if Default(s, false) then s else Prefix(pool) + s
  }

  function TexturePrepended(pool: string, s: string): string {
    if Default(s, true) then s else TEXTURE_NAME.Rewrite(Prefix(pool), s)
  }

  method IsDefaultNode(s: string, isTexture: bool) returns (r: bool)
    ensures r == Default(s, isTexture)
  {
    var list := if isTexture then DEFAULT_TEXTURES else DEFAULT_NAMES;
    for i := 0 to |list|
      invariant s !in list[..i]
    {
      if s == list[i] {
        return true;
      }
    }
    r := false;
  }

  /** The source overwrites the string it is given. */
  method PrependRaw(prep: string, s: string, isTexture: bool) returns (s': string)
    ensures s' == if isTexture then TexturePrepended(prep, s) else Prepended(prep, s)
  {
    s' := s;
    var default := IsDefaultNode(s, isTexture);
    if !default {
      if isTexture {
        TEXTURE_NAME.PrependedIsRewritten(prep + "_", s);
        s' := TEXTURE_NAME.ReplaceAllStringSubmatchFunc(s, Prepending(prep + "_"));
      } else {
        s' := prep + "_" + s;
      }
    }
  }

  lemma TexturePatternValid()
    ensures TEXTURE_NAME.Valid()
  {
    forall w, k, c: char | w in EXTENSIONS && 0 <= k < |w| && Lower(c) == w[k]
      ensures c in ALPHABET && c != '.'
    {
      assert 'a' <= w[k] <= 'z' || '0' <= w[k] <= '9';
    }
  }

  /** So a texture name is found as the expression describes: leftmost, then greedy. */
  lemma TextureFound(s: string)
    ensures match TEXTURE_NAME.Find(s)
      case None => forall i: nat, j: nat :: !Decomposes(TEXTURE_NAME, s, i, j)
      case Some((i, e)) =>
        Greedy(TEXTURE_NAME, s, i, e) && forall i': nat, j: nat :: Decomposes(TEXTURE_NAME, s, i', j) ==> i <= i'
  {
    TexturePatternValid();
    FindIsLeftmostGreedy(TEXTURE_NAME, s);
  }

  // -------------------------------------------------------------------------
  // Item, node and media names

  lemma DefaultHasNoUnderscore(s: string, isTexture: bool, k: nat)
    requires Default(s, isTexture) && k < |s|
    ensures s[k] != '_'
  {
  }

  /** Within one pool, different names stay different and only the default names stay as they are. */
  lemma PrependInjective(pool: string, a: string, b: string)
    ensures Prepended(pool, a) == Prepended(pool, b) <==> a == b
    ensures Prepended(pool, a) == a <==> Default(a, false)
  {
    var n := |pool|;
    if Default(a, false) && !Default(b, false) && a == Prefix(pool) + b {
      DefaultHasNoUnderscore(a, false, n);
    }
    if Default(b, false) && !Default(a, false) && b == Prefix(pool) + a {
      DefaultHasNoUnderscore(b, false, n);
    }
    assert (Prefix(pool) + a)[n + 1..] == a && (Prefix(pool) + b)[n + 1..] == b;
  }

  /** The names of two pools meet exactly when one prefix begins with the other. */
  lemma PoolsMeetExactly(p: string, q: string)
    ensures (Prefix(p) <= Prefix(q) || Prefix(q) <= Prefix(p)) <==>
            exists a, b :: !Default(a, false) && !Default(b, false) && Prepended(p, a) == Prepended(q, b)
  {
    if Prefix(p) <= Prefix(q) {
      PrefixesMeet(p, q);
    } else if Prefix(q) <= Prefix(p) {
      PrefixesMeet(q, p);
    }
    if a, b :| !Default(a, false) && !Default(b, false) && Prepended(p, a) == Prepended(q, b) {
      var s := Prefix(p) + a;
      assert s == Prefix(q) + b;
      assert Prefix(p) == s[..|Prefix(p)|] && Prefix(q) == s[..|Prefix(q)|];
    }
  }

  lemma PrefixesMeet(p: string, q: string)
    requires Prefix(p) <= Prefix(q)
    ensures exists a, b :: !Default(a, false) && !Default(b, false) && Prepended(p, a) == Prepended(q, b)
  {
    var b := "_";
    var a := Prefix(q)[|Prefix(p)|..] + b;
    assert a[|a| - 1] == '_';
    assert Prefix(q) == Prefix(p) + Prefix(q)[|Prefix(p)|..];
    assert Prepended(p, a) == Prepended(q, b);
  }

  // -------------------------------------------------------------------------
  // Texture references

  /** A text of which nothing is rewritten, or which gained an underscore. */
  lemma {:induction false} RewriteUnderscore(pool: string, s: string)
    ensures TEXTURE_NAME.Rewrite(Prefix(pool), s) == s || '_' in TEXTURE_NAME.Rewrite(Prefix(pool), s)
    decreases |s|
  {
    if s == "" {
    } else {
      if s[0] !in ALPHABET {
        RewriteUnderscore(pool, s[1..]);
      } else {
        var n := TEXTURE_NAME.RunLen(s);
        RewriteUnderscore(pool, s[n..]);
        if TEXTURE_NAME.HasMedia(s[..n]) {
          assert Prefix(pool)[|pool|] == '_';
          assert TEXTURE_NAME.Rewrite(Prefix(pool), s)[|pool|] == '_';
        } else {
          assert s == "" + s[..n] + s[n..];
        }
      }
    }
  }

  /** Different texture references stay different, the exempted names included, for every pool name. */
  lemma TextureInjective(pool: string, a: string, b: string)
    ensures TexturePrepended(pool, a) == TexturePrepended(pool, b) <==> a == b
  {
    if Default(a, true) {
      RewritesToDefault(pool, b, a);
    } else if Default(b, true) {
      RewritesToDefault(pool, a, b);
    } else {
      RewriteRoundTrip(TEXTURE_NAME, Prefix(pool), a);
      RewriteRoundTrip(TEXTURE_NAME, Prefix(pool), b);
    }
  }

  lemma RewritesToDefault(pool: string, s: string, d: string)
    requires Default(d, true)
    ensures TexturePrepended(pool, s) == d ==> s == d
  {
    RewriteUnderscore(pool, s);
    assert '_' !in d;
  }

  /** The number of runs that hold a media name. */
  function MediaRuns(p: Pattern, s: string): nat
    decreases |s|
  {
    if s == "" then 0
    else if s[0] !in p.alphabet then MediaRuns(p, s[1..])
    else (if p.HasMedia(s[..p.RunLen(s)]) then 1 else 0) + MediaRuns(p, s[p.RunLen(s)..])
  }

  predicate LeadingMedia(p: Pattern, s: string) {
    s != "" && s[0] in p.alphabet && p.HasMedia(s[..p.RunLen(s)])
  }

  lemma MediaRunsDef(p: Pattern, s: string)
    requires s != ""
    ensures s[0] !in p.alphabet ==> MediaRuns(p, s) == MediaRuns(p, s[1..])
    ensures s[0] in p.alphabet ==>
      MediaRuns(p, s) == (if p.HasMedia(s[..p.RunLen(s)]) then 1 else 0) + MediaRuns(p, s[p.RunLen(s)..])
  {
  }

  lemma {:induction false} RewriteLength(p: Pattern, prefix: string, s: string)
    ensures |p.Rewrite(prefix, s)| == |s| + MediaRuns(p, s) * |prefix|
    decreases |s|
  {
    if s == "" {
    } else {
      hide p.Rewrite, MediaRuns, p.HasMedia;
      p.RewriteDef(prefix, s);
      MediaRunsDef(p, s);
      if s[0] !in p.alphabet {
        RewriteLength(p, prefix, s[1..]);
      } else {
        var rest := s[p.RunLen(s)..];
        RewriteLength(p, prefix, rest);
        OnceMore(MediaRuns(p, rest), |prefix|);
      }
    }
  }

  lemma OnceMore(times: nat, n: nat)
    ensures (1 + times) * n == n + times * n
  {
  }

  /** The only insertion, if there is one, is made at `k`, where a run begins. */
  ghost predicate InsertedAt(p: Pattern, prefix: string, s: string, k: nat) {
    && k <= |s|
    && (MediaRuns(p, s) == 0 ==> p.Rewrite(prefix, s) == s)
    && (MediaRuns(p, s) == 1 ==>
          && p.Rewrite(prefix, s) == s[..k] + prefix + s[k..]
          && (k == 0 <==> LeadingMedia(p, s))
          && (k > 0 ==> s[k - 1] !in p.alphabet))
  }

  /** The first piece of a text that is not led by a media name, cut off. */
  lemma InsertedBehind(p: Pattern, prefix: string, s: string, n: nat, k: nat)
    requires s != "" && n == (if s[0] in p.alphabet then p.RunLen(s) else 1)
    requires !LeadingMedia(p, s) && InsertedAt(p, prefix, s[n..], k)
    ensures InsertedAt(p, prefix, s, n + k)
  {
    hide p.Rewrite, MediaRuns, p.HasMedia, p.RunLen;
    p.RewriteDef(prefix, s);
    MediaRunsDef(p, s);
    InsertShift(s, n, prefix, k);
    RunEndsOutside(p, s);
    assert k > 0 ==> s[n..][k - 1] == s[n + k - 1];
  }

  lemma {:induction false} OneInsertion(p: Pattern, prefix: string, s: string) returns (k: nat)
    requires MediaRuns(p, s) <= 1
    ensures InsertedAt(p, prefix, s, k)
    decreases |s|
  {
    k := 0;
    if s == "" {
    } else {
      hide p.Rewrite, p.HasMedia, p.RunLen, MediaRuns;
      p.RewriteDef(prefix, s);
      MediaRunsDef(p, s);
      var n := if s[0] in p.alphabet then p.RunLen(s) else 1;
      k := OneInsertion(p, prefix, s[n..]);
      if LeadingMedia(p, s) {
        k := 0;
        InsertHere(s, n, prefix);
      } else {
        InsertedBehind(p, prefix, s, n, k);
        k := n + k;
      }
    }
  }

  lemma InsertHere(s: string, n: nat, prefix: string)
    requires n <= |s|
    ensures prefix + s[..n] + s[n..] == s[..0] + prefix + s[0..]
  {
  }

  lemma InsertShift(s: string, n: nat, prefix: string, k: nat)
    requires n + k <= |s|
    ensures s[..n] + (s[n..][..k] + prefix + s[n..][k..]) == s[..n + k] + prefix + s[n + k..]
    ensures s[..n] + s[n..] == s
    ensures n == 1 ==> s[..n] == [s[0]]
  {
  }

  /** Behind a run, no media name leads. */
  lemma RunEndsOutside(p: Pattern, s: string)
    requires s != ""
    ensures s[0] in p.alphabet ==> !LeadingMedia(p, s[p.RunLen(s)..])
  {
    p.RunLenSpec(s);
  }

  /**
   A texture reference to a file is rewritten to the name that the file itself is given
   exactly for the default names without a file and for the names whose only media run
   starts the name; `sun.png` and `moon.png` are the exceptions.
   */
  lemma AgreementExactly(pool: string, file: string)
    ensures TexturePrepended(pool, file) == Prepended(pool, file) <==>
      Default(file, false) || (!Default(file, true) && MediaRuns(TEXTURE_NAME, file) == 1
                               && LeadingMedia(TEXTURE_NAME, file))
  {
    if Default(file, true) {
      DefaultTexturesAgree(pool, file);
    } else if Default(file, false) {
      DotlessIsQuiet(TEXTURE_NAME, file);
      var k := OneInsertion(TEXTURE_NAME, Prefix(pool), file);
    } else {
      PrefixedExactly(TEXTURE_NAME, Prefix(pool), file);
    }
  }

  /** Rewriting prefixes the whole text exactly when its only media run leads. */
  lemma PrefixedExactly(p: Pattern, prefix: string, s: string)
    requires prefix != "" && prefix[|prefix| - 1] in p.alphabet
    ensures p.Rewrite(prefix, s) == prefix + s <==> MediaRuns(p, s) == 1 && LeadingMedia(p, s)
  {
    var runs := MediaRuns(p, s);
    if runs == 1 {
      var k := OneInsertion(p, prefix, s);
      InsertionInFront(p, prefix, s, k);
    } else {
      OtherLength(p, prefix, s);
    }
  }

  lemma OtherLength(p: Pattern, prefix: string, s: string)
    requires MediaRuns(p, s) != 1 && prefix != ""
    ensures |p.Rewrite(prefix, s)| != |prefix| + |s|
  {
    RewriteLength(p, prefix, s);
    NotOnce(MediaRuns(p, s), |prefix|);
  }

  lemma NotOnce(times: nat, n: nat)
    requires times != 1 && n > 0
    ensures times * n != n
  {
    if times > 1 {
      assert times * n == n + (times - 1) * n;
    }
  }

  lemma DefaultTexturesAgree(pool: string, file: string)
    requires Default(file, true)
    ensures TexturePrepended(pool, file) == Prepended(pool, file) <==> Default(file, false)
  {
    PrependInjective(pool, file, file);
  }

  /** Inserting elsewhere than in front shows behind a character outside the alphabet. */
  lemma InsertionInFront(p: Pattern, prefix: string, s: string, k: nat)
    requires k <= |s| && prefix != "" && prefix[|prefix| - 1] in p.alphabet
    requires k > 0 ==> s[k - 1] !in p.alphabet
    ensures s[..k] + prefix + s[k..] == prefix + s <==> k == 0
  {
    if k > 0 {
      var at := k + |prefix| - 1;
      assert (s[..k] + prefix + s[k..])[at] == prefix[|prefix| - 1];
      assert (prefix + s)[at] == s[k - 1];
    }
  }

  lemma {:induction false} DotlessIsQuiet(p: Pattern, s: string)
    requires '.' !in s
    ensures MediaRuns(p, s) == 0
    decreases |s|
  {
    if s == "" {
    } else {
      if s[0] !in p.alphabet {
        DotlessIsQuiet(p, s[1..]);
      } else {
        var n := p.RunLen(s);
        p.LastDotSpec(s[..n], n);
        DotlessIsQuiet(p, s[n..]);
      }
    }
  }

  /** A file name that is one whole match is found under its rewritten name. */
  lemma MediaFileAgreement(pool: string, file: string)
    requires TEXTURE_NAME.Within(file) && TEXTURE_NAME.HasMedia(file) && !Default(file, true)
    ensures TexturePrepended(pool, file) == Prepended(pool, file) == Prefix(pool) + file
  {
    var p, j := TEXTURE_NAME, TEXTURE_NAME.LastDot(file, |file|).value;
    p.LastDotSpec(file, |file|);
    assert file[j] == '.';
    assert file[0] in p.alphabet;
    p.RunLenIs(file, |file|);
    assert file[..|file|] == file && file[|file|..] == "";
    AgreementExactly(pool, file);
  }
}
