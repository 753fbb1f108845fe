/** Optional values, texts as the C library compares and ends them, and texts within texts. */
module Text {

  datatype Option<+T> = None | Some(value: T)

  function ToSeq<T>(option: Option<T>): seq<T> {
    if option.Some? then [option.value] else []
  }

  /** What `tolower` does to a character in the C locale. */
  function Lower(c: char): char {
    if 'A' <= c <= 'Z' then (c as int + 32) as char else c
  }

  function Fold(s: string): string {
    seq(|s|, i requires 0 <= i < |s| => Lower(s[i]))
  }

  /** `strcasecmp(a, b) == 0`. */
  predicate SameText(a: string, b: string) {
    Fold(a) == Fold(b)
  }

  /** The same character, or a capital letter and the same letter 32 above it. */
  predicate SameLetter(a: char, b: char) {
    a == b || ('A' <= a <= 'Z' && b as int == a as int + 32) || ('A' <= b <= 'Z' && a as int == b as int + 32)
  }

  predicate SameSpelling(a: string, b: string) {
    |a| == |b| && forall i :: 0 <= i < |a| ==> SameLetter(a[i], b[i])
  }

  /** `strcasecmp` tells no capital letter from its lower-case one, and everything else apart. */
  lemma {:induction false} SameTextIff(a: string, b: string)
    ensures SameText(a, b) <==> SameSpelling(a, b)
  {
    assert |Fold(a)| == |a| && |Fold(b)| == |b|;
    if |a| == |b| {
      forall i | 0 <= i < |a|
        ensures Fold(a)[i] == Fold(b)[i] <==> SameLetter(a[i], b[i])
      {
        assert Fold(a)[i] == Lower(a[i]) && Fold(b)[i] == Lower(b[i]);
      }
    }
  }

  /** A C string: the characters before the terminator. */
  type CString = s: string | '\0' !in s

  /** The string a buffer holds: up to its first terminator. */
  function UpToNul(s: string): (r: string)
    ensures r <= s && '\0' !in r && (r == s <==> '\0' !in s) && (|r| < |s| ==> s[|r|] == '\0')
  {
    if s == "" || s[0] == '\0' then "" else [s[0]] + UpToNul(s[1..])
  }

  /** `t` stands at position `p` of `s`. */
  predicate Stands(s: string, p: nat, t: string) {
    p + |t| <= |s| && forall k :: 0 <= k < |t| ==> s[p + k] == t[k]
  }

  lemma StandsConcat(s: string, p: nat, t: string, u: string)
    requires Stands(s, p, t + u)
    ensures Stands(s, p, t) && Stands(s, p + |t|, u)
  {
    forall k | 0 <= k < |t|
      ensures s[p + k] == t[k]
    {
      assert s[p + k] == (t + u)[k];
    }
    forall k | 0 <= k < |u|
      ensures s[p + |t| + k] == u[k]
    {
      assert s[p + (|t| + k)] == (t + u)[|t| + k];
    }
  }

  lemma EmptyFirst<T>(s: seq<T>)
    ensures [] + s == s
  {
  }

  lemma Reassociate<T>(a: seq<T>, b: seq<T>, c: seq<T>)
    ensures (a + b) + c == a + (b + c)
  {
  }
}
