/** String operations of Go's `strings` package that the proxy's text formats rely on. */
module Text {

  /** No character of `s` equals `c`. */
  predicate Free(s: string, c: char) {
    forall k :: 0 <= k < |s| ==> s[k] != c
  }

  /** The length of the longest prefix of `s` that does not contain `c`. */
  function Before(s: string, c: char): (n: nat)
    ensures n <= |s| && Free(s[..n], c)
    ensures n < |s| ==> s[n] == c
  {
    if s == "" || s[0] == c then 0
    else
      var n := Before(s[1..], c);
      assert forall k :: 0 < k < n + 1 ==> s[k] == s[1..][k - 1];
      n + 1
  }

  /** `strings.Split` with a one-character separator: never empty, and the parts are separator-free. */
  function Split(s: string, c: char): (parts: seq<string>)
    ensures |parts| >= 1
    ensures forall p :: p in parts ==> Free(p, c)
    decreases |s|
  {
    var n := Before(s, c);
    if n == |s| then [s] else [s[..n]] + Split(s[n + 1..], c)
  }

  /** Where a separator-free piece ends, the search stops. */
  lemma {:induction false} BeforeJoined(a: string, c: char, b: string)
    requires Free(a, c)
    ensures Before(a + [c] + b, c) == |a|
    ensures Before(a, c) == |a|
  {
    if a == "" {
      assert (a + [c] + b)[0] == c;
    } else {
      assert Free(a[1..], c) by {
        forall k | 0 <= k < |a[1..]| ensures a[1..][k] != c { assert a[1..][k] == a[k + 1]; }
      }
      BeforeJoined(a[1..], c, b);
      assert (a + [c] + b)[0] == a[0];
      assert (a + [c] + b)[1..] == a[1..] + [c] + b;
    }
  }

  /** Splitting a joined pair gives back the first piece and the split of the remainder. */
  lemma SplitJoined(a: string, c: char, b: string)
    requires Free(a, c)
    ensures Split(a + [c] + b, c) == [a] + Split(b, c)
    ensures Split(a, c) == [a]
  {
    BeforeJoined(a, c, b);
    var s := a + [c] + b;
    assert s[..|a|] == a && s[|a| + 1..] == b;
  }

  /** `strings.ReplaceAll` of one character by a string. */
  function ReplaceAll(s: string, c: char, with: string): string {
    if s == "" then "" else (if s[0] == c then with else [s[0]]) + ReplaceAll(s[1..], c, with)
  }

  /** Replacing distributes over concatenation, so it can be studied one character at a time. */
  lemma {:induction false} ReplaceAllConcat(s: string, t: string, c: char, with: string)
    ensures ReplaceAll(s + t, c, with) == ReplaceAll(s, c, with) + ReplaceAll(t, c, with)
  {
    if s == "" {
      assert s + t == t;
    } else {
      ReplaceAllConcat(s[1..], t, c, with);
      assert (s + t)[1..] == s[1..] + t;
    }
  }
}
