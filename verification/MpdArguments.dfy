/** Arguments of MPD commands: what is sent between double quotes, and how it is read there. */
module MpdArguments {
  predicate Special(c: char) {
    c == '"' || c == '\\'
  }

  function Sanitized(arg: string): (r: string)
    ensures |r| <= 2 * |arg|
  {
    if arg == "" then "" else Quoted(arg[0]) + Sanitized(arg[1..])
  }

  /** A quoted argument from position `p` on: its text and the position of the closing quote, if there is one. */
  function ReadQuoted(s: string, p: nat): (r: (string, nat))
    requires p <= |s|
    ensures p <= r.1 <= |s|
    decreases |s| - p
  {
    if p == |s| || s[p] == '"' then ("", p)
    else
      var q := if s[p] == '\\' && p + 1 < |s| then p + 1 else p;
      var rest := ReadQuoted(s, q + 1);
      ([s[q]] + rest.0, rest.1)
  }

  function Quoted(c: char): string {
    if Special(c) then ['\\', c] else [c]
  }

  lemma Unfolds(arg: string, c: nat, done: string)
    requires c < |arg|
    ensures done + Sanitized(arg[c..]) == done + Quoted(arg[c]) + Sanitized(arg[c + 1..])
  {
    assert arg[c..][0] == arg[c] && arg[c..][1..] == arg[c + 1..];
  }

  /** `mpd_sanitizeArg`: the copy with its terminator fits twice the length and one. */
  method SanitizeArg(arg: string) returns (ret: array<char>)
    ensures fresh(ret) && ret.Length == 2 * |arg| + 1
    ensures var n := |Sanitized(arg)|; ret[..n] == Sanitized(arg) && ret[n] == '\0'
  {
    hide Sanitized;
    ret := new char[2 * |arg| + 1];
    var c, rc := 0, 0;
    assert ret[..rc] == "" && arg[c..] == arg;
    while c < |arg|
      invariant c <= |arg| && rc <= 2 * c
      invariant Sanitized(arg) == ret[..rc] + Sanitized(arg[c..])
    {
      ghost var done := ret[..rc];
      Unfolds(arg, c, done);
      if Special(arg[c]) {
        ret[rc] := '\\';
        rc := rc + 1;
      }
      ret[rc] := arg[c];
      rc := rc + 1;
      assert ret[..rc] == done + Quoted(arg[c]);
      c := c + 1;
    }
    NothingSanitized(arg[c..]);
    ret[rc] := '\0';
  }

  lemma NothingSanitized(arg: string)
    requires arg == ""
    ensures Sanitized(arg) == ""
  {
  }

  lemma ReadsFirst(s: string, p: nat, c: char)
    requires p + |Quoted(c)| <= |s| && s[p..p + |Quoted(c)|] == Quoted(c)
    ensures
      var rest := ReadQuoted(s, p + |Quoted(c)|);
      ReadQuoted(s, p) == ([c] + rest.0, rest.1)
  {
    assert s[p] == s[p..p + |Quoted(c)|][0];
    assert Special(c) ==> s[p + 1] == s[p..p + 2][1];
  }

  /**
    Whatever the argument holds, the quote behind its sanitised form is the first one that
    closes it, and what is read up to there is the argument.
   */
  lemma {:induction false} ArgumentRoundTrip(before: string, arg: string, after: string)
    ensures ReadQuoted(before + Sanitized(arg) + "\"" + after, |before|) == (arg, |before| + |Sanitized(arg)|)
    decreases |arg|
  {
    hide ReadQuoted, Quoted;
    var s, p := before + Sanitized(arg) + "\"" + after, |before|;
    if arg == "" {
      assert s[p] == '"';
      NothingQuoted(s, p);
      NothingSanitized(arg);
    } else {
      var first, rest := Quoted(arg[0]), Sanitized(arg[1..]);
      assert Sanitized(arg) == first + rest;
      assert s == before + first + rest + "\"" + after;
      assert s[p..p + |first|] == first;
      ReadsFirst(s, p, arg[0]);
      ArgumentRoundTrip(before + first, arg[1..], after);
      assert [arg[0]] + arg[1..] == arg && |before + first| == p + |first|;
    }
  }

  lemma NothingQuoted(s: string, p: nat)
    requires p < |s| && s[p] == '"'
    ensures ReadQuoted(s, p) == ("", p)
  {
  }

  /** Two arguments are never sent as the same text. */
  lemma SanitizedInjective(a: string, b: string)
    requires Sanitized(a) == Sanitized(b)
    ensures a == b
  {
    hide Sanitized, ReadQuoted;
    ArgumentRoundTrip("", a, "");
    ArgumentRoundTrip("", b, "");
  }
}
