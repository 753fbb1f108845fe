/** What every line of a configuration file does, however it is written: ignored lines, refused files, letters and blanks. */
module ConfigLineLaws {
  import opened Text
  import opened KeySequence
  import opened Entries
  import opened Escapes
  import opened ConfigFile
  import opened ConfigLaws

  // ---- words on a line -------------------------------------------------------------------------

  predicate Blanks(s: string) {
    forall i :: 0 <= i < |s| ==> s[i] == ' ' || s[i] == '\t'
  }

  predicate Solid(s: string) {
    forall i :: 0 <= i < |s| ==> s[i] != ' ' && s[i] != '\t'
  }

  lemma {:induction false} SkipsBlanks(s: string, p: nat, q: nat)
    requires p <= q <= |s| && Blanks(s[p..q]) && (q < |s| ==> s[q] != ' ' && s[q] != '\t')
    ensures SkipBlanks(s, p) == q
    decreases q - p
  {
    if p < q {
      assert s[p] == s[p..q][0];
      assert s[p..q][1..] == s[p + 1..q];
      SkipsBlanks(s, p + 1, q);
    }
  }

  lemma {:induction false} EndsToken(s: string, p: nat, e: nat)
    requires p <= e <= |s| && Solid(s[p..e]) && (e < |s| ==> s[e] == ' ' || s[e] == '\t')
    ensures TokenEnd(s, p) == e
    decreases e - p
  {
    if p < e {
      assert s[p] == s[p..e][0];
      assert s[p..e][1..] == s[p + 1..e];
      EndsToken(s, p + 1, e);
    }
  }

  /** A word behind blanks, before the end of the line or a blank, is the next word of the line. */
  lemma {:induction false} NextWord(before: string, gap: string, word: string, rest: string)
    requires Blanks(gap) && word != "" && Solid(word) && (rest == "" || rest[0] == ' ' || rest[0] == '\t')
    ensures
      var s := before + gap + word + rest;
      Tokens(s, |before|) == [word] + Tokens(s, |before| + |gap| + |word|)
  {
    var s := before + gap + word + rest;
    var p, q, e := |before|, |before| + |gap|, |before| + |gap| + |word|;
    assert s[p..q] == gap && s[q..e] == word && s[q] == word[0];
    assert e < |s| ==> s[e] == rest[0];
    SkipsBlanks(s, p, q);
    EndsToken(s, q, e);
    TokenFirst(s, p, q, e);
  }

  /** Behind the last word there are only blanks. */
  lemma {:induction false} NoMoreWords(before: string, blanks: string)
    requires Blanks(blanks)
    ensures Tokens(before + blanks, |before|) == []
  {
    var s := before + blanks;
    assert s[|before|..] == blanks && s[|before|..|s|] == blanks;
    SkipsBlanks(s, |before|, |s|);
  }

  /** Words with the blanks before each, and the blanks behind the last. */
  function Spaced(words: seq<(string, string)>, last: string): string {
    if words == [] then last else words[0].0 + words[0].1 + Spaced(words[1..], last)
  }

  /** Blanks stand between the words; only before the first there may be none. */
  predicate WellSpaced(words: seq<(string, string)>, last: string) {
    && Blanks(last)
    && (forall i :: 0 <= i < |words| ==> Blanks(words[i].0) && words[i].1 != "" && Solid(words[i].1))
    && (forall i :: 1 <= i < |words| ==> words[i].0 != "")
  }

  function WordsOf(words: seq<(string, string)>): (r: seq<string>)
    ensures |r| == |words| && forall i :: 0 <= i < |words| ==> r[i] == words[i].1
  {
    if words == [] then [] else [words[0].1] + WordsOf(words[1..])
  }

  lemma SpacedStart(words: seq<(string, string)>, last: string)
    requires Blanks(last) && (words != [] ==> Blanks(words[0].0) && words[0].0 != "")
    ensures var s := Spaced(words, last); s == "" || s[0] == ' ' || s[0] == '\t'
  {
  }

  lemma SpacedTail(words: seq<(string, string)>, last: string)
    requires WellSpaced(words, last) && words != []
    ensures WellSpaced(words[1..], last) && Blanks(words[0].0) && words[0].1 != "" && Solid(words[0].1)
    ensures var s := Spaced(words[1..], last); s == "" || s[0] == ' ' || s[0] == '\t'
  {
    hide Blanks, Solid;
    assert forall i :: 0 <= i < |words| - 1 ==> words[1..][i] == words[i + 1];
    assert Blanks(last);
    SpacedStart(words[1..], last);
  }

  lemma {:induction false} SpacedFrom(before: string, words: seq<(string, string)>, last: string)
    requires WellSpaced(words, last)
    ensures Tokens(before + Spaced(words, last), |before|) == WordsOf(words)
    decreases |words|
  {
    hide Tokens, Solid, Blanks, WellSpaced;
    if words == [] {
      assert Blanks(last) by { hide *; LastBlanks(words, last); }
      NoMoreWords(before, last);
    } else {
      var (gap, word) := words[0];
      var rest := Spaced(words[1..], last);
      SpacedTail(words, last);
      assert Spaced(words, last) == gap + word + rest;
      hide Spaced;
      NextWord(before, gap, word, rest);
      Reassociate(before, gap, word);
      Reassociate(before, gap + word, rest);
      SpacedFrom(before + (gap + word), words[1..], last);
    }
  }

  lemma LastBlanks(words: seq<(string, string)>, last: string)
    requires WellSpaced(words, last)
    ensures Blanks(last)
  {
  }

  /** The words of a line are the same however they are spaced. */
  lemma {:induction false} LineWords(words: seq<(string, string)>, last: string)
    requires WellSpaced(words, last)
    ensures Tokens(Spaced(words, last), 0) == WordsOf(words)
  {
    SpacedFrom("", words, last);
    EmptyFirst(Spaced(words, last));
  }

  // ---- lines that change nothing -----------------------------------------------------------------

  lemma {:induction false} NoEquals(s: string)
    ensures FirstEquals(s) == |s| <==> '=' !in s
  {
    var k := FirstEquals(s);
    if k < |s| {
      assert s[k] == '=';
    }
  }

  /** The first character that is no blank is a hash sign. */
  predicate Comment(line: string) {
    exists n :: 0 <= n < |line| && Blanks(line[..n]) && line[n] == '#'
  }

  /** A line of blanks, a comment, or at least three words without an equals sign. */
  ghost predicate Neutral(line: string) {
    || Blanks(line) || Comment(line)
    || ('=' !in line && exists words, last :: |words| > 2 && WellSpaced(words, last) && line == Spaced(words, last))
  }

  lemma BlankLine(words: Words, st: Reading, line: string)
    requires Blanks(line)
    ensures LineRead(words, st, line) == Some(st)
  {
    hide Field, ModeLine, Tokens;
    assert '=' !in line;
    NoEquals(line);
    NoMoreWords("", line);
    EmptyFirst(line);
  }

  lemma ManyWords(words: Words, st: Reading, line: string)
    requires '=' !in line && |Tokens(line, 0)| > 2
    ensures LineRead(words, st, line) == Some(st)
  {
    hide Field, ModeLine, Tokens;
    NoEquals(line);
  }

  lemma {:induction false} LeftTrimmed(s: string, n: nat)
    requires n < |s| && Blanks(s[..n]) && s[n] != ' ' && s[n] != '\t'
    ensures TrimLeft(s) == s[n..]
    decreases n
  {
    if n > 0 {
      assert s[0] == s[..n][0];
      assert s[..n][1..] == s[1..][..n - 1];
      LeftTrimmed(s[1..], n - 1);
    }
  }

  lemma {:induction false} RightKeepsFirst(s: string)
    requires s != "" && s[0] != ' ' && s[0] != '\t'
    ensures TrimRight(s) != "" && TrimRight(s)[0] == s[0]
    decreases |s|
  {
    if IsBlank(s[|s| - 1]) {
      RightKeepsFirst(s[..|s| - 1]);
    }
  }

  lemma {:induction false} CommentLine(words: Words, st: Reading, line: string)
    requires Comment(line)
    ensures LineRead(words, st, line) == Some(st)
  {
    hide ModeLine, Tokens, Trimmed, Field;
    var n :| 0 <= n < |line| && Blanks(line[..n]) && line[n] == '#';
    var eq := FirstEquals(line);
    if eq == |line| {
      CommentToken(line, n);
    } else {
      assert n < eq by { CommentBeforeEquals(line, n); }
      var key := line[..eq];
      assert key[..n] == line[..n] && key[n] == '#';
      HashKey(key, n);
      HashField(words, st, Trimmed(key), Trimmed(line[eq + 1..]));
    }
  }

  lemma CommentBeforeEquals(line: string, n: nat)
    requires n < |line| && Blanks(line[..n]) && line[n] == '#' && FirstEquals(line) < |line|
    ensures n < FirstEquals(line)
  {
    var eq := FirstEquals(line);
    assert line[eq] == '=';
    assert forall i :: 0 <= i < n ==> line[i] == line[..n][i];
  }

  lemma CommentToken(line: string, n: nat)
    requires n < |line| && Blanks(line[..n]) && line[n] == '#'
    ensures Tokens(line, 0) != [] && Tokens(line, 0)[0] != "" && Tokens(line, 0)[0][0] == '#'
  {
    assert line[0..n] == line[..n];
    SkipsBlanks(line, 0, n);
  }

  lemma HashKey(key: string, n: nat)
    requires n < |key| && Blanks(key[..n]) && key[n] == '#'
    ensures Trimmed(key) != "" && Trimmed(key)[0] == '#'
  {
    LeftTrimmed(key, n);
    RightKeepsFirst(key[n..]);
  }

  lemma HashField(words: Words, st: Reading, key: string, value: string)
    requires key != "" && key[0] == '#'
    ensures Field(words, st, key, value) == Some(st)
  {
  }

  lemma {:induction false} NeutralLine(words: Words, st: Reading, line: string)
    requires Neutral(line)
    ensures LineRead(words, st, line) == Some(st)
  {
    hide LineRead, Tokens, Comment;
    if Blanks(line) {
      BlankLine(words, st, line);
    } else if Comment(line) {
      CommentLine(words, st, line);
    } else {
      var spaced, last :| |spaced| > 2 && WellSpaced(spaced, last) && line == Spaced(spaced, last);
      LineWords(spaced, last);
      ManyWords(words, st, line);
    }
  }

  lemma {:induction false} InsertedFrom(words: Words, st: Reading, before: seq<string>, line: string, after: seq<string>)
    requires Neutral(line)
    ensures ReadLines(words, st, before + [line] + after) == ReadLines(words, st, before + after)
    decreases |before|
  {
    hide LineRead, Neutral;
    if before == [] {
      EmptyFirst([line]);
      EmptyFirst(after);
      NeutralLine(words, st, line);
      assert ([line] + after)[1..] == after;
    } else {
      assert before + [line] + after == [before[0]] + (before[1..] + [line] + after);
      assert before + after == [before[0]] + (before[1..] + after);
      ReadFirst(words, st, before[0], before[1..] + [line] + after);
      ReadFirst(words, st, before[0], before[1..] + after);
      var r := LineRead(words, st, before[0]);
      if r.Some? {
        hide ReadLines;
        InsertedFrom(words, r.value, before[1..], line, after);
      }
    }
  }

  /** Blank lines, comments and lines of too many words may stand anywhere: the entries read are the same. */
  lemma {:induction false} NeutralLinesIgnored(words: Words, before: seq<string>, line: string, after: seq<string>)
    requires Neutral(line)
    ensures ReadAll(words, before + [line] + after) == ReadAll(words, before + after)
  {
    hide ReadLines, Neutral;
    InsertedFrom(words, BEGINNING, before, line, after);
  }

  // ---- files that are refused ----------------------------------------------------------------------

  /** What a line does to the nesting of blocks. */
  datatype Kind = Opens | OpensMode(mode: string) | Closes | ClosesMode(mode: string) | Sets | Idle

  function KindOf(line: string): Kind {
    if Comment(line) then Idle
    else if '=' in line then Sets
    else
      var words := Tokens(line, 0);
      if |words| == 1 && SameSpelling(words[0], "begin") then Opens
      else if |words| == 1 && SameSpelling(words[0], "end") then Closes
      else if |words| == 2 && SameSpelling(words[0], "begin") then OpensMode(words[1])
      else if |words| == 2 && SameSpelling(words[0], "end") then ClosesMode(words[1])
      else Idle
  }

  /** May this line come when an entry is open or not, in this mode? */
  predicate Allowed(kind: Kind, open: bool, mode: Option<string>) {
    match kind
    case Opens => !open
    case OpensMode(_) => !open && mode.None?
    case Closes => open
    case ClosesMode(m) => !open && mode.Some? && SameSpelling(mode.value, m)
    case Sets => open
    case Idle => true
  }

  function OpenAfter(kind: Kind, open: bool): bool {
    if kind.Opens? then true else if kind.Closes? then false else open
  }

  function ModeAfter(kind: Kind, mode: Option<string>): Option<string> {
    if kind.OpensMode? then Some(kind.mode) else if kind.ClosesMode? then None else mode
  }

  /** Every line comes where it may. */
  predicate Nested(lines: seq<string>, open: bool, mode: Option<string>)
    decreases |lines|
  {
    lines == [] ||
    var kind := KindOf(lines[0]);
    Allowed(kind, open, mode) && Nested(lines[1..], OpenAfter(kind, open), ModeAfter(kind, mode))
  }

  lemma WordLine(words: Words, st: Reading, line: string)
    requires !Comment(line) && '=' !in line
    ensures
      var tokens := Tokens(line, 0);
      LineRead(words, st, line) ==
        if tokens == [] || |tokens| > 2 then Some(st)
        else
          var r := ModeLine(words, st, tokens[0], if |tokens| == 2 then Some(tokens[1]) else None);
          if r.Some? then Some(r.value.(remote := All)) else None
  {
    hide ModeLine, Field, Tokens, Comment;
    NoEquals(line);
    if Tokens(line, 0) != [] {
      assert Tokens(line, 0)[0][0] != '#' by { NoHash(line); }
    }
  }

  lemma NoHash(line: string)
    requires !Comment(line) && Tokens(line, 0) != []
    ensures Tokens(line, 0)[0][0] != '#'
  {
    var q := SkipBlanks(line, 0);
    assert Blanks(line[..q]) by { Skipped(line, 0); }
    assert Tokens(line, 0)[0][0] == line[q];
  }

  lemma {:induction false} Skipped(s: string, p: nat)
    requires p <= |s| && Blanks(s[..p])
    ensures Blanks(s[..SkipBlanks(s, p)])
    decreases |s| - p
  {
    if p < |s| && IsBlank(s[p]) {
      assert s[..p + 1] == s[..p] + [s[p]];
      Skipped(s, p + 1);
    }
  }

  lemma SetLine(words: Words, st: Reading, line: string)
    requires !Comment(line) && '=' in line
    ensures
      var eq := FirstEquals(line);
      && eq < |line| && LineRead(words, st, line) == Field(words, st, Trimmed(line[..eq]), Trimmed(line[eq + 1..]))
      && (Trimmed(line[..eq]) == "" || Trimmed(line[..eq])[0] != '#')
  {
    hide Field, Comment;
    NoEquals(line);
    var eq := FirstEquals(line);
    if Trimmed(line[..eq]) != "" && Trimmed(line[..eq])[0] == '#' {
      HashKeyComments(line, eq);
    }
  }

  lemma HashKeyComments(line: string, eq: nat)
    requires eq <= |line| && Trimmed(line[..eq]) != "" && Trimmed(line[..eq])[0] == '#'
    ensures Comment(line)
  {
    hide Trimmed, Comment;
    var key := line[..eq];
    var a, b := TrimmedIsBare(key);
    assert key[a] == '#' && a < eq;
    assert line[..a] == key[..a] && line[a] == '#';
    HashComments(line, a);
  }

  lemma HashComments(line: string, n: nat)
    requires n < |line| && Blanks(line[..n]) && line[n] == '#'
    ensures Comment(line)
  {
  }

  lemma FieldAllowed(words: Words, st: Reading, key: string, value: string)
    requires key == "" || key[0] != '#'
    ensures
      var r := Field(words, st, key, value);
      (r.Some? <==> st.open.Some?) && (r.Some? ==> r.value.open.Some? && r.value.mode == st.mode)
  {
    hide SameText, NameOf, Decode, UpToNul;
  }

  lemma ModeAllowed(words: Words, st: Reading, token: string, token2: Option<string>)
    ensures
      var kind := if SameSpelling(token, "begin") then (if token2.None? then Opens else OpensMode(token2.value))
                  else if SameSpelling(token, "end") then (if token2.None? then Closes else ClosesMode(token2.value))
                  else Idle;
      var r := ModeLine(words, st, token, token2);
      && (r.Some? <==> Allowed(kind, st.open.Some?, st.mode))
      && (r.Some? ==> r.value.open.Some? == OpenAfter(kind, st.open.Some?) && r.value.mode == ModeAfter(kind, st.mode))
  {
    hide SameText, SameSpelling;
    SameTextIff(token, "begin");
    SameTextIff(token, "end");
    if st.mode.Some? && token2.Some? {
      SameTextIff(st.mode.value, token2.value);
    }
  }

  lemma LineAllowed(words: Words, st: Reading, line: string)
    ensures
      var kind, r := KindOf(line), LineRead(words, st, line);
      && (r.Some? <==> Allowed(kind, st.open.Some?, st.mode))
      && (r.Some? ==> r.value.open.Some? == OpenAfter(kind, st.open.Some?) && r.value.mode == ModeAfter(kind, st.mode))
  {
    hide LineRead, Field, ModeLine, Tokens, Comment, SameSpelling, Allowed, Trimmed;
    if Comment(line) {
      CommentLine(words, st, line);
      assert Allowed(Idle, st.open.Some?, st.mode) by { hide *; IdleAllowed(st.open.Some?, st.mode); }
    } else if '=' in line {
      SetLine(words, st, line);
      var eq := FirstEquals(line);
      FieldAllowed(words, st, Trimmed(line[..eq]), Trimmed(line[eq + 1..]));
      SetsAllowed(st.open.Some?, st.mode);
    } else {
      WordLine(words, st, line);
      var tokens := Tokens(line, 0);
      IdleAllowed(st.open.Some?, st.mode);
      if tokens != [] && |tokens| <= 2 {
        ModeAllowed(words, st, tokens[0], if |tokens| == 2 then Some(tokens[1]) else None);
        EndIsNotBegin(tokens[0]);
      }
    }
  }

  lemma IdleAllowed(open: bool, mode: Option<string>)
    ensures Allowed(Idle, open, mode)
  {
  }

  lemma SetsAllowed(open: bool, mode: Option<string>)
    ensures Allowed(Sets, open, mode) <==> open
  {
  }

  lemma EndIsNotBegin(token: string)
    ensures !(SameSpelling(token, "begin") && SameSpelling(token, "end"))
  {
  }

  lemma {:induction false} LinesAllowed(words: Words, st: Reading, lines: seq<string>)
    ensures ReadLines(words, st, lines).Some? <==> Nested(lines, st.open.Some?, st.mode)
    decreases |lines|
  {
    hide LineRead, KindOf, Allowed;
    if lines != [] {
      LineAllowed(words, st, lines[0]);
      var r := LineRead(words, st, lines[0]);
      if r.Some? {
        LinesAllowed(words, r.value, lines[1..]);
      }
    }
  }

  /**
    A file is refused exactly when some line comes where it may not: a key outside of an entry,
    `begin` within one, `begin m` within an entry or a mode, `end` outside of an entry, `end m`
    within one or when m is not the mode.
   */
  lemma {:induction false} AcceptedIff(words: Words, lines: seq<string>)
    ensures ReadAll(words, lines).Some? <==> Nested(lines, false, None)
  {
    hide ReadLines;
    LinesAllowed(words, BEGINNING, lines);
  }

  // ---- letters -------------------------------------------------------------------------------------

  lemma SameTextLike(a: string, b: string, c: string)
    requires SameSpelling(a, b)
    ensures SameText(a, c) == SameText(b, c)
  {
    SameTextIff(a, b);
  }

  /** Keys may be written in capital or lower-case letters. */
  lemma {:induction false} KeysIgnoreCase(words: Words, st: Reading, key: string, other: string, value: string)
    requires SameSpelling(key, other)
    ensures Field(words, st, key, value) == Field(words, st, other, value)
  {
    assert key != "" ==> (key[0] == '#' <==> other[0] == '#');
    SameTextLike(key, other, "prog");
    SameTextLike(key, other, "remote");
    SameTextLike(key, other, "button");
    SameTextLike(key, other, "delay");
    SameTextLike(key, other, "repeat");
    SameTextLike(key, other, "config");
    SameTextLike(key, other, "mode");
    SameTextLike(key, other, "flags");
    hide SameText, SameSpelling, NameOf, Decode, UpToNul, WithCode, WithConfig;
  }

  /** So may `begin` and `end`. */
  lemma {:induction false} BlocksIgnoreCase(words: Words, st: Reading, token: string, other: string, token2: Option<string>)
    requires SameSpelling(token, other)
    ensures ModeLine(words, st, token, token2) == ModeLine(words, st, other, token2)
  {
    SameTextLike(token, other, "begin");
    SameTextLike(token, other, "end");
    hide SameText, SameSpelling;
  }

  /** A key, its value, and any blanks around them. */
  lemma {:induction false} KeyLineSpaced(words: Words, st: Reading, b1: string, key: string, b2: string, b3: string, value: string, b4: string)
    requires Blanks(b1) && Blanks(b2) && Blanks(b3) && Blanks(b4)
    requires key != "" && Solid(key) && '=' !in key && Tidy(value)
    ensures LineRead(words, st, b1 + key + b2 + "=" + b3 + value + b4) == Field(words, st, key, value)
  {
    hide Field, Tokens, Trimmed, Tidy;
    var line := b1 + key + b2 + "=" + b3 + value + b4;
    var left, right := b1 + key + b2, b3 + value + b4;
    assert line == left + "=" + right;
    assert '=' !in left;
    FirstEqualsIs(line, |left|);
    assert line[..|left|] == left && line[|left| + 1..] == right;
    assert Trimmed(left) == key by { BareTrims(b1, key, b2); }
    assert Trimmed(right) == value by { TidyTrims(b3, value, b4); }
  }

  lemma BareTrims(a: string, s: string, b: string)
    requires Blanks(a) && Blanks(b) && s != "" && !IsBlank(s[0]) && !IsBlank(s[|s| - 1])
    ensures Trimmed(a + s + b) == s
  {
    var whole := a + s + b;
    var x, y := TrimmedIsBare(whole);
    hide Trimmed;
    var p, q := |a|, |a| + |s|;
    assert whole[p] == s[0] && whole[q - 1] == s[|s| - 1];
    assert forall i :: 0 <= i < p ==> whole[i] == a[i];
    assert forall i :: q <= i < |whole| ==> whole[i] == b[i - q];
    assert x <= p && q <= y;
    assert x == p && y == q;
    assert whole[p..q] == s;
  }

  lemma TidyTrims(a: string, s: string, b: string)
    requires Blanks(a) && Blanks(b) && Tidy(s)
    ensures Trimmed(a + s + b) == s
  {
    if s != "" {
      BareTrims(a, s, b);
    } else {
      var whole := a + s + b;
      var x, y := TrimmedIsBare(whole);
      assert forall i :: 0 <= i < |whole| ==> IsBlank(whole[i]);
    }
  }

  /** Of several lines with such a key the last one counts. */
  lemma {:induction false} LastSettingWins(words: Words, st: Reading, key: string, first: string, second: string)
    requires key in ["prog", "remote", "repeat", "delay", "mode", "flags"] && st.open.Some?
    ensures
      var once, twice := Field(words, st, key, second), Field(words, st, key, first);
      twice.Some? && Field(words, twice.value, key, second) == once
  {
    KeysApart();
    assert SameText(key, key);
    hide SameText, NameOf;
  }

  // ---- remaining corners -----------------------------------------------------------------------------

  /** Keys that are none of the known ones change nothing within an entry; `delay` is unknown to the older reader. */
  lemma {:induction false} UnknownKey(words: Words, st: Reading, key: string, value: string)
    requires st.open.Some?
    requires forall k :: k in ["prog", "remote", "button", "repeat", "config", "mode", "flags"] ==> !SameSpelling(key, k)
    requires words.revised ==> !SameSpelling(key, "delay")
    ensures Field(words, st, key, value) == Some(st)
  {
    SameTextIff(key, "prog");
    SameTextIff(key, "remote");
    SameTextIff(key, "button");
    SameTextIff(key, "delay");
    SameTextIff(key, "repeat");
    SameTextIff(key, "config");
    SameTextIff(key, "mode");
    SameTextIff(key, "flags");
    hide SameText, SameSpelling, NameOf, Decode, UpToNul, WithCode, WithConfig;
    var known := ["prog", "remote", "button", "repeat", "config", "mode", "flags"];
    assert forall i :: 0 <= i < 7 ==> known[i] in known;
  }

  /** One or two words that are neither `begin` nor `end` only end the force of a `remote` line. */
  lemma {:induction false} UnknownWords(words: Words, st: Reading, line: string)
    requires !Comment(line) && '=' !in line && 1 <= |Tokens(line, 0)| <= 2
    requires !SameSpelling(Tokens(line, 0)[0], "begin") && !SameSpelling(Tokens(line, 0)[0], "end")
    ensures LineRead(words, st, line) == Some(st.(remote := All))
  {
    hide LineRead, Tokens, SameText, SameSpelling, Comment;
    WordLine(words, st, line);
    SameTextIff(Tokens(line, 0)[0], "begin");
    SameTextIff(Tokens(line, 0)[0], "end");
  }

  /** A last `end` may be missing. */
  lemma {:induction false} LastEndMayBeMissing(words: Words, lines: seq<string>)
    requires Nested(lines + ["end"], false, None)
    ensures ReadAll(words, lines) == ReadAll(words, lines + ["end"]) != None
  {
    hide LineRead, Nested;
    AcceptedIff(words, lines + ["end"]);
    EndAdded(words, BEGINNING, lines);
  }

  lemma {:induction false} EndAdded(words: Words, st: Reading, lines: seq<string>)
    requires ReadLines(words, st, lines + ["end"]).Some?
    ensures
      var r := ReadLines(words, st, lines);
      && r.Some? && r.value.open.Some?
      && ReadLines(words, st, lines + ["end"]).value
         == r.value.(open := None, remote := All,
                     entries := r.value.entries + [Finished(r.value.open.value, r.value.mode, words.revised)])
    decreases |lines|
  {
    hide LineRead;
    if lines == [] {
      assert lines + ["end"] == ["end"] && ["end"][1..] == [];
      LineAllowed(words, st, "end");
      assert KindOf("end").Closes? by { EndCloses(); }
      EndRead(words, st);
    } else {
      assert (lines + ["end"])[0] == lines[0] && (lines + ["end"])[1..] == lines[1..] + ["end"];
      EndAdded(words, LineRead(words, st, lines[0]).value, lines[1..]);
    }
  }

  lemma EndCloses()
    ensures KindOf("end") == Closes
  {
    OneWord("end");
    assert !SameSpelling("end", "begin");
  }
}
