/** The texture expression and the shared names, spelled out (formspec.go; content.go). */
module TextureNames {
  import opened Wrappers
  import opened Textures
  import opened TextureMatching
  import opened Names

  /** A letter, a digit, a hyphen, an underscore or a dot. */
  predicate NameChar(c: char) {
    || 'a' <= c <= 'z' || 'A' <= c <= 'Z' || '0' <= c <= '9' || c == '-' || c == '_' || c == '.'
  }

  /** The same word in any letter case. */
  predicate SameWord(s: string, word: string) {
    && |s| == |word|
    && forall k :: 0 <= k < |s| ==> s[k] == word[k] || ('a' <= word[k] <= 'z' && s[k] == word[k] - 'a' + 'A')
  }

  predicate IsExtension(s: string) {
    || SameWord(s, "png") || SameWord(s, "jpg") || SameWord(s, "jpeg") || SameWord(s, "tga") || SameWord(s, "obj")
    || SameWord(s, "b3d") || SameWord(s, "x") || SameWord(s, "gltf") || SameWord(s, "glb")
  }

  lemma ClassIs(c: char)
    ensures c in ALPHABET <==> NameChar(c)
  {
  }

  lemma {:induction false} FirstOfFound(s: string, words: seq<string>, w: string)
    requires w in words && StartsWith(s, w) && forall v :: v in words ==> v != ""
    ensures FirstOf(s, words) > 0
  {
    assert words[0] in words;
    if !StartsWith(s, words[0]) {
      assert words == [words[0]] + words[1..];
      forall v | v in words[1..] ensures v != "" {
        assert v in words;
      }
      FirstOfFound(s, words[1..], w);
    }
  }

  lemma SameStarts(s: string, word: string)
    requires SameWord(s, word) && forall k :: 0 <= k < |word| ==> 'a' <= word[k] <= 'z' || '0' <= word[k] <= '9'
    ensures StartsWith(s, word)
  {
  }

  /** The place of an extension in the list. */
  function Place(s: string): (i: nat)
    requires IsExtension(s)
    ensures i < 9
  {
    if SameWord(s, "png") then 0 else if SameWord(s, "jpg") then 1 else if SameWord(s, "jpeg") then 2
    else if SameWord(s, "tga") then 3 else if SameWord(s, "obj") then 4 else if SameWord(s, "b3d") then 5
    else if SameWord(s, "x") then 6 else if SameWord(s, "gltf") then 7 else 8
  }

  lemma ExtensionsAre(w: string)
    ensures w in EXTENSIONS <==>
      || w == "png" || w == "jpg" || w == "jpeg" || w == "tga" || w == "obj"
      || w == "b3d" || w == "x" || w == "gltf" || w == "glb"
    ensures |EXTENSIONS| == 9
  {
    assert EXTENSIONS[0] == "png" && EXTENSIONS[1] == "jpg" && EXTENSIONS[2] == "jpeg";
    assert EXTENSIONS[3] == "tga" && EXTENSIONS[4] == "obj" && EXTENSIONS[5] == "b3d";
    assert EXTENSIONS[6] == "x" && EXTENSIONS[7] == "gltf" && EXTENSIONS[8] == "glb";
  }

  lemma LowerWord(w: string)
    requires w in EXTENSIONS
    ensures w != "" && forall k :: 0 <= k < |w| ==> 'a' <= w[k] <= 'z' || '0' <= w[k] <= '9'
  {
  }

  lemma PlaceIs(s: string)
    requires IsExtension(s)
    ensures |EXTENSIONS| == 9 && SameWord(s, EXTENSIONS[Place(s)])
  {
    hide SameWord;
  }

  lemma ExtensionFound(s: string)
    requires IsExtension(s)
    ensures FirstOf(s, EXTENSIONS) > 0
  {
    hide IsExtension, FirstOf, SameWord, StartsWith;
    PlaceIs(s);
    var w := EXTENSIONS[Place(s)];
    LowerWord(w);
    SameStarts(s, w);
    forall v | v in EXTENSIONS ensures v != "" {
      LowerWord(v);
    }
    FirstOfFound(s, EXTENSIONS, w);
  }

  /**
   A texture name with any of the nine extensions, in any letter case, gets the pool's prefix; only the
   sun and the moon, spelled in lower case, do not.
   */
  lemma TexturePrefixed(pool: string, s: string, ext: string)
    requires s != "" && (forall k :: 0 <= k < |s| ==> NameChar(s[k])) && IsExtension(ext)
    ensures var file := s + "." + ext;
      TexturePrepended(pool, file) ==
      if file == "sun.png" || file == "moon.png" then file else pool + "_" + file
  {
    hide IsExtension, FirstOf, NameChar, Default;
    var file := s + "." + ext;
    DefaultsAre(file);
    if file != "sun.png" && file != "moon.png" {
      NamesWithin(s, ext);
      ExtensionFound(ext);
      assert file[|s| + 1..] == ext;
      assert TEXTURE_NAME.DotAt(file, |s|);
      HasDot(file, |s|);
      MediaFileAgreement(pool, file);
      assert Prefix(pool) + file == pool + "_" + file;
    } else {
      assert Default(file, true);
    }
  }

  lemma HasDot(file: string, j: nat)
    requires TEXTURE_NAME.DotAt(file, j) && j >= 1
    ensures TEXTURE_NAME.HasMedia(file)
  {
    TEXTURE_NAME.LastDotSpec(file, |file|);
  }

  lemma NamesWithin(s: string, ext: string)
    requires (forall k :: 0 <= k < |s| ==> NameChar(s[k])) && IsExtension(ext)
    ensures TEXTURE_NAME.Within(s + "." + ext)
  {
    hide IsExtension;
    var file := s + "." + ext;
    ExtensionChars(ext);
    forall k | 0 <= k < |file| ensures file[k] in ALPHABET {
      assert NameChar(file[k]);
      ClassIs(file[k]);
    }
  }

  lemma ExtensionChars(ext: string)
    requires IsExtension(ext)
    ensures forall k :: 0 <= k < |ext| ==> NameChar(ext[k])
  {
  }

  /** A dot with one of the nine extensions behind it. */
  ghost predicate ExtensionAt(t: string, j: nat, n: nat) {
    j + 1 + n <= |t| && t[j] == '.' && IsExtension(t[j + 1..j + 1 + n])
  }

  lemma {:induction false} FirstOfIs(s: string, words: seq<string>)
    requires FirstOf(s, words) > 0
    ensures exists w :: w in words && StartsWith(s, w) && FirstOf(s, words) == |w|
  {
    if StartsWith(s, words[0]) {
      assert words[0] in words;
    } else {
      FirstOfIs(s, words[1..]);
      var w :| w in words[1..] && StartsWith(s, w) && FirstOf(s, words[1..]) == |w|;
      assert w in words;
    }
  }

  lemma StartsSame(s: string, word: string)
    requires StartsWith(s, word) && forall k :: 0 <= k < |word| ==> 'a' <= word[k] <= 'z' || '0' <= word[k] <= '9'
    ensures |word| <= |s| && SameWord(s[..|word|], word)
  {
  }

  lemma FoundIsExtension(s: string, words: seq<string>) returns (n: nat)
    requires FirstOf(s, words) > 0 && forall w :: w in words ==> w in EXTENSIONS
    ensures n <= |s| && IsExtension(s[..n])
  {
    hide FirstOf, StartsWith, IsExtension;
    FirstOfIs(s, words);
    var w :| w in words && StartsWith(s, w) && FirstOf(s, words) == |w|;
    LowerWord(w);
    StartsSame(s, w);
    IsExtensionWord(s[..|w|], w);
    n := |w|;
  }

  lemma DotIsExtension(t: string, j: nat)
    requires TEXTURE_NAME.DotAt(t, j)
    ensures exists n: nat :: ExtensionAt(t, j, n)
  {
    hide FirstOf, IsExtension;
    var rest := t[j + 1..];
    var n := FoundIsExtension(rest, EXTENSIONS);
    assert rest[..n] == t[j + 1..j + 1 + n];
    assert ExtensionAt(t, j, n);
  }

  lemma IsExtensionWord(s: string, w: string)
    requires w in EXTENSIONS && SameWord(s, w)
    ensures IsExtension(s)
  {
    hide SameWord;
    ExtensionsAre(w);
  }

  lemma {:induction false} NoMediaRuns(t: string, whole: string, at: nat)
    requires at <= |whole| && t == whole[at..]
    requires forall j: nat, n: nat :: !ExtensionAt(whole, j, n)
    ensures MediaRuns(TEXTURE_NAME, t) == 0
    decreases |t|
  {
    hide TEXTURE_NAME.HasMedia, MediaRuns, IsExtension;
    if t == "" {
      EmptyRuns();
    } else {
      MediaRunsDef(TEXTURE_NAME, t);
      if t[0] !in ALPHABET {
        NoMediaRuns(t[1..], whole, at + 1);
      } else {
        var n := TEXTURE_NAME.RunLen(t);
        QuietRun(t[..n], whole, at);
        NoMediaRuns(t[n..], whole, at + n);
      }
    }
  }

  lemma EmptyRuns()
    ensures MediaRuns(TEXTURE_NAME, "") == 0
  {
  }

  lemma SubSlice(s: string, at: nat, n: nat, a: nat, b: nat)
    requires a <= b <= n && at + n <= |s|
    ensures s[at..at + n][a..b] == s[at + a..at + b]
  {
    var l, r := s[at..at + n][a..b], s[at + a..at + b];
    assert |l| == |r| == b - a;
    forall k | 0 <= k < |l| ensures l[k] == r[k] {
      assert l[k] == s[at..at + n][a + k] == s[at + a + k];
    }
  }

  lemma ExtensionIn(whole: string, at: nat, len: nat, j: nat, n: nat)
    requires at + len <= |whole| && ExtensionAt(whole[at..at + len], j, n)
    ensures ExtensionAt(whole, at + j, n)
  {
    hide IsExtension;
    SubSlice(whole, at, len, j + 1, j + 1 + n);
    assert whole[at + j] == whole[at..at + len][j];
  }

  lemma QuietRun(run: string, whole: string, at: nat)
    requires at + |run| <= |whole| && run == whole[at..at + |run|]
    requires forall j: nat, n: nat :: !ExtensionAt(whole, j, n)
    ensures !TEXTURE_NAME.HasMedia(run)
  {
    hide IsExtension;
    TEXTURE_NAME.LastDotSpec(run, |run|);
    if TEXTURE_NAME.HasMedia(run) {
      var j := TEXTURE_NAME.LastDot(run, |run|).value;
      DotIsExtension(run, j);
      var n: nat :| ExtensionAt(run, j, n);
      ExtensionIn(whole, at, |run|, j, n);
    }
  }

  /** A text without any of the nine extensions is left as it is. */
  lemma NoExtensionUnchanged(pool: string, t: string)
    requires forall j: nat, n: nat :: !ExtensionAt(t, j, n)
    ensures TexturePrepended(pool, t) == t
  {
    assert t[0..] == t;
    NoMediaRuns(t, t, 0);
    var k := OneInsertion(TEXTURE_NAME, Prefix(pool), t);
  }

  /** Any other character ends a name: what lies on its two sides is rewritten independently. */
  lemma OtherCharSeparates(pool: string, a: string, c: char, b: string)
    requires !NameChar(c)
    ensures TEXTURE_NAME.Rewrite(pool + "_", a + [c] + b) ==
      TEXTURE_NAME.Rewrite(pool + "_", a) + [c] + TEXTURE_NAME.Rewrite(pool + "_", b)
  {
    hide TEXTURE_NAME.Rewrite;
    ClassIs(c);
    RewriteOne(TEXTURE_NAME, pool + "_", a, c);
    RewriteConcat(TEXTURE_NAME, pool + "_", a + [c], b);
  }

  /** The shared names. */
  lemma DefaultsAre(s: string)
    ensures Default(s, true) <==> s == "" || s == "sun.png" || s == "moon.png"
    ensures Default(s, false) <==> s == "" || s == "air" || s == "unknown" || s == "ignore"
  {
  }

  /** Every other item, node, mesh or sound name gets the pool's prefix. */
  lemma NamePrefixed(pool: string, s: string)
    ensures Prepended(pool, s) ==
      if s == "" || s == "air" || s == "unknown" || s == "ignore" then s else pool + "_" + s
  {
  }
}
