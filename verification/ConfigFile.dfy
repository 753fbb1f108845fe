/** The block-structured configuration file: what each line does. */
module ConfigFile {
  import opened Text
  import opened KeySequence
  import opened Entries
  import opened Escapes

  // ---- pieces of a line --------------------------------------------------------------------

  predicate IsBlank(c: char) {
    c == ' ' || c == '\t'
  }

  function SkipBlanks(s: string, p: nat): (q: nat)
    requires p <= |s|
    ensures p <= q <= |s| && (q < |s| ==> !IsBlank(s[q]))
    decreases |s| - p
  {
    if p < |s| && IsBlank(s[p]) then SkipBlanks(s, p + 1) else p
  }

  function TokenEnd(s: string, p: nat): (q: nat)
    requires p <= |s|
    ensures p <= q <= |s| && (q < |s| ==> IsBlank(s[q])) && (p < |s| && !IsBlank(s[p]) ==> p < q)
    decreases |s| - p
  {
    if p < |s| && !IsBlank(s[p]) then TokenEnd(s, p + 1) else p
  }

  /** The words that repeated `strtok(s, " \t")` finds. */
  function Tokens(s: string, p: nat): (r: seq<string>)
    requires p <= |s|
    ensures forall i :: 0 <= i < |r| ==> r[i] != ""
    decreases |s| - p
  {
    var q := SkipBlanks(s, p);
    if q == |s| then [] else [s[q..TokenEnd(s, q)]] + Tokens(s, TokenEnd(s, q))
  }

  /** `strchr(s, '=')`, or the length of the text. */
  function FirstEquals(s: string): (k: nat)
    ensures k <= |s| && (forall i :: 0 <= i < k ==> s[i] != '=') && (k < |s| ==> s[k] == '=')
  {
    if s == "" || s[0] == '=' then 0 else 1 + FirstEquals(s[1..])
  }

  function TrimLeft(s: string): string {
    if s != "" && IsBlank(s[0]) then TrimLeft(s[1..]) else s
  }

  function TrimRight(s: string): string {
    if s != "" && IsBlank(s[|s| - 1]) then TrimRight(s[..|s| - 1]) else s
  }

  function Trimmed(s: string): string {
    TrimRight(TrimLeft(s))
  }

  /** `lirc_trim` */
  method Trim(s: string) returns (t: string)
    ensures t == Trimmed(s) && exists a: nat, b: nat :: Bare(s, a, b) && t == s[a..b]
  {
    t := s;
    while t != "" && IsBlank(t[0])
      invariant TrimLeft(t) == TrimLeft(s)
      decreases |t|
    {
      t := t[1..];
    }
    ghost var left := t;
    var len := |t|;
    while len > 0
      invariant len == |t| && TrimRight(t) == TrimRight(left)
      decreases len
    {
      len := len - 1;
      if IsBlank(t[len]) {
        t := t[..len];
      } else {
        assert TrimRight(t) == t;
        break;
      }
    }
    assert TrimRight(t) == t;
    var a, b := TrimmedIsBare(s);
  }

  lemma {:induction false} LeftBlanks(s: string) returns (a: nat)
    ensures a <= |s| && TrimLeft(s) == s[a..]
    ensures (forall i :: 0 <= i < a ==> IsBlank(s[i])) && (a < |s| ==> !IsBlank(s[a]))
    decreases |s|
  {
    a := 0;
    if s != "" && IsBlank(s[0]) {
      var n := LeftBlanks(s[1..]);
      a := n + 1;
      assert s[1..][n..] == s[a..];
      assert forall i :: 1 <= i < a ==> s[i] == s[1..][i - 1];
    }
  }

  lemma {:induction false} RightBlanks(s: string) returns (b: nat)
    ensures b <= |s| && TrimRight(s) == s[..b]
    ensures (forall i :: b <= i < |s| ==> IsBlank(s[i])) && (b > 0 ==> !IsBlank(s[b - 1]))
    decreases |s|
  {
    b := |s|;
    if s != "" && IsBlank(s[|s| - 1]) {
      b := RightBlanks(s[..|s| - 1]);
      assert s[..|s| - 1][..b] == s[..b];
    }
  }

  /** Outside of `s[a..b]` there are only blanks, and it neither begins nor ends with one. */
  predicate Bare(s: string, a: nat, b: nat) {
    && a <= b <= |s| && (forall i :: 0 <= i < a ==> IsBlank(s[i])) && (forall i :: b <= i < |s| ==> IsBlank(s[i]))
    && (a < b ==> !IsBlank(s[a]) && !IsBlank(s[b - 1]))
  }

  /** Trimming takes off all the blanks at both ends and nothing else. */
  lemma {:induction false} TrimmedIsBare(s: string) returns (a: nat, b: nat)
    ensures Bare(s, a, b) && Trimmed(s) == s[a..b]
  {
    hide IsBlank;
    a := LeftBlanks(s);
    var left := s[a..];
    var n := RightBlanks(left);
    b := a + n;
    assert left[..n] == s[a..b];
    assert forall i :: b <= i < |s| ==> s[i] == left[i - a];
    assert n > 0 ==> left[n - 1] == s[b - 1] && left[0] == s[a];
  }

  lemma TrimmedPart(s: string)
    ensures forall c :: c !in s ==> c !in Trimmed(s)
  {
    hide Trimmed;
    var a, b := TrimmedIsBare(s);
  }

  // ---- what a line does --------------------------------------------------------------------

  const BLANK_ENTRY := EntryState(None, [], 0, 0, [], None, {}, None, 0, 0)

  /** How numbers and flag words are read, and whether the later revision's `delay` is known. */
  datatype Words = Words(number: string -> nat, flags: string -> set<Flag>, revised: bool)

  /** The state of the reader between two lines. */
  datatype Reading = Reading(mode: Option<string>, remote: Name, open: Option<EntryState>, entries: seq<EntryState>)

  const BEGINNING := Reading(None, All, None, [])

  function NameOf(value: string): Name {
    if SameText("*", value) then All else Named(value)
  }

  /** `key = value`; None is an error. */
  function Field(words: Words, st: Reading, key: string, value: string): Option<Reading> {
    if key != "" && key[0] == '#' then Some(st)
    else if st.open.None? then None
    else
      var e := st.open.value;
      if SameText(key, "prog") then Some(st.(open := Some(e.(prog := Some(value)))))
      else if SameText(key, "remote") then Some(st.(remote := NameOf(value)))
      else if SameText(key, "button") then Some(st.(open := Some(WithCode(e, Code(st.remote, NameOf(value))))))
      else if words.revised && SameText(key, "delay") then Some(st.(open := Some(e.(repeatDelay := words.number(value)))))
      else if SameText(key, "repeat") then Some(st.(open := Some(e.(repeat := words.number(value)))))
      else if SameText(key, "config") then Some(st.(open := Some(WithConfig(e, UpToNul(Decode(value, 0))))))
      else if SameText(key, "mode") then Some(st.(open := Some(e.(changeMode := Some(value)))))
      else if SameText(key, "flags") then Some(st.(open := Some(e.(flags := words.flags(value)))))
      else Some(st)
  }

  /** `lirc_mode`: `begin`, `begin m`, `end`, `end m`; None is an error. */
  function ModeLine(words: Words, st: Reading, token: string, token2: Option<string>): Option<Reading> {
    if SameText(token, "begin") then
      if token2.None? then
        if st.open.None? then Some(st.(open := Some(BLANK_ENTRY))) else None
      else if st.open.None? && st.mode.None? then Some(st.(mode := token2))
      else None
    else if SameText(token, "end") then
      if token2.None? then
        if st.open.Some? then
          Some(st.(open := None, entries := st.entries + [Finished(st.open.value, st.mode, words.revised)]))
        else None
      else if st.mode.Some? && st.open.None? && SameText(st.mode.value, token2.value) then Some(st.(mode := None))
      else None
    else Some(st)
  }

  function LineRead(words: Words, st: Reading, line: string): Option<Reading> {
    var eq := FirstEquals(line);
    if eq == |line| then
      var tokens := Tokens(line, 0);
      if tokens == [] || tokens[0][0] == '#' || |tokens| > 2 then Some(st)
      else
        var r := ModeLine(words, st, tokens[0], if |tokens| == 2 then Some(tokens[1]) else None);
        if r.Some? then Some(r.value.(remote := All)) else None
    else Field(words, st, Trimmed(line[..eq]), Trimmed(line[eq + 1..]))
  }

  function ReadLines(words: Words, st: Reading, lines: seq<string>): Option<Reading>
    decreases |lines|
  {
    if lines == [] then Some(st)
    else
      var r := LineRead(words, st, lines[0]);
      if r.None? then None else ReadLines(words, r.value, lines[1..])
  }

  /** The entries of a file; an entry left open at the end is finished, an open mode is dropped. */
  function ReadAll(words: Words, lines: seq<string>): Option<seq<EntryState>> {
    var r := ReadLines(words, BEGINNING, lines);
    if r.None? then None else Some(AtEnd(words, r.value))
  }

  function AtEnd(words: Words, st: Reading): seq<EntryState> {
    if st.open.Some? then st.entries + [Finished(st.open.value, st.mode, words.revised)] else st.entries
  }
}
