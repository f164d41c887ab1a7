/** Escaping of formspec text for plugins (plugin_formspec.go). */
module FormspecEscaping {
  import opened Text

  /** One of the six replacements. */
  function Pass(s: string, c: char): string {
    ReplaceAll(s, c, ['\\', c])
  }

  /** Six successive replacements over the whole string, the backslash first. */
  function FormspecEscape(s: string): string {
    Pass(Pass(Pass(Pass(Pass(Pass(s, '\\'), '['), ']'), ';'), ','), '$')
  }

  predicate Special(c: char) {
    c == '\\' || c == '[' || c == ']' || c == ';' || c == ',' || c == '$'
  }

  /** One pass that puts a backslash before each special character. */
  function EscapeOnce(s: string): string {
    if s == "" then ""
    else (if Special(s[0]) then ['\\', s[0]] else [s[0]]) + EscapeOnce(s[1..])
  }

  /** One pass that drops each escaping backslash. */
  function Unescape(t: string): string {
    if t == "" then ""
    else if t[0] == '\\' && |t| > 1 then [t[1]] + Unescape(t[2..])
    else [t[0]] + Unescape(t[1..])
  }

  /** Every special character is escaped and every backslash escapes a special character. */
  predicate Guarded(t: string) {
    if t == "" then true
    else if t[0] == '\\' then |t| > 1 && Special(t[1]) && Guarded(t[2..])
    else !Special(t[0]) && Guarded(t[1..])
  }

  lemma EscapeConcat(s: string, t: string)
    ensures FormspecEscape(s + t) == FormspecEscape(s) + FormspecEscape(t)
  {
    PassConcat(s, t, '\\');
    var s1, t1 := Pass(s, '\\'), Pass(t, '\\');
    PassConcat(s1, t1, '[');
    var s2, t2 := Pass(s1, '['), Pass(t1, '[');
    PassConcat(s2, t2, ']');
    var s3, t3 := Pass(s2, ']'), Pass(t2, ']');
    PassConcat(s3, t3, ';');
    var s4, t4 := Pass(s3, ';'), Pass(t3, ';');
    PassConcat(s4, t4, ',');
    PassConcat(Pass(s4, ','), Pass(t4, ','), '$');
  }

  lemma PassConcat(s: string, t: string, c: char)
    ensures Pass(s + t, c) == Pass(s, c) + Pass(t, c)
  {
    ReplaceAllConcat(s, t, c, ['\\', c]);
  }

  lemma PassChar(c: char, d: char)
    ensures Pass([c], d) == if c == d then ['\\', c] else [c]
    ensures d != '\\' && d != c ==> Pass(['\\', c], d) == ['\\', c]
  {
    assert ReplaceAll([c][1..], d, ['\\', d]) == "";
    assert ['\\', c][1..] == [c];
  }

  lemma EscapeChar(c: char)
    ensures FormspecEscape([c]) == if Special(c) then ['\\', c] else [c]
  {
    PassChar(c, '\\');
    PassChar(c, '[');
    PassChar(c, ']');
    PassChar(c, ';');
    PassChar(c, ',');
    PassChar(c, '$');
  }

  /** The six passes amount to the single pass: no pass touches what an earlier one inserted. */
  lemma {:induction false} SixPassesAreOne(s: string)
    ensures FormspecEscape(s) == EscapeOnce(s)
  {
    if s == "" {
    } else {
      assert s == [s[0]] + s[1..];
      EscapeConcat([s[0]], s[1..]);
      EscapeChar(s[0]);
      SixPassesAreOne(s[1..]);
    }
  }

  lemma {:induction false} OncePassInverts(s: string)
    ensures Unescape(EscapeOnce(s)) == s && Guarded(EscapeOnce(s))
  {
    if s == "" {
    } else {
      OncePassInverts(s[1..]);
      var e := EscapeOnce(s);
      assert e[if Special(s[0]) then 2 else 1..] == EscapeOnce(s[1..]);
      assert s == [s[0]] + s[1..];
    }
  }

  lemma {:induction false} GuardedReescapes(t: string)
    requires Guarded(t)
    ensures EscapeOnce(Unescape(t)) == t
  {
    if t == "" {
    } else {
      if t[0] == '\\' {
        GuardedReescapes(t[2..]);
        assert Unescape(t)[1..] == Unescape(t[2..]);
        assert t == [t[0], t[1]] + t[2..];
      } else {
        GuardedReescapes(t[1..]);
        assert Unescape(t)[1..] == Unescape(t[1..]);
        assert t == [t[0]] + t[1..];
      }
    }
  }

  /** The characters that are escaped, and how. */
  lemma CharactersEscaped(c: char)
    ensures FormspecEscape([c]) ==
      if c in ['\\', '[', ']', ';', ',', '$'] then ['\\', c] else [c]
  {
    EscapeChar(c);
  }

  /** Unescaping inverts escaping; so escaping loses nothing. */
  lemma EscapeRoundTrip(s: string)
    ensures Unescape(FormspecEscape(s)) == s
  {
    SixPassesAreOne(s);
    OncePassInverts(s);
  }

  /** The escaped texts are exactly the guarded ones: no special character is left bare. */
  lemma EscapedExactly(t: string)
    ensures Guarded(t) <==> exists s :: FormspecEscape(s) == t
  {
    if Guarded(t) {
      GuardedReescapes(t);
      SixPassesAreOne(Unescape(t));
      assert FormspecEscape(Unescape(t)) == t;
    }
    if s :| FormspecEscape(s) == t {
      SixPassesAreOne(s);
      OncePassInverts(s);
    }
  }
}
