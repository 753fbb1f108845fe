/** The two revisions on the same file: what they read, and what they make of the presses that follow. */
module RevisionFiles {
  import opened Text
  import opened KeySequence
  import opened Entries
  import opened ModeMachine
  import opened ModeLaws
  import opened Startup
  import opened Escapes
  import opened ConfigFile
  import opened ConfigLoading
  import opened ConfigIncludes
  import opened Revision7

  // ---- the default delay -------------------------------------------------------------------------

  predicate NoDelayLine(line: string) {
    var eq := FirstEquals(line);
    eq < |line| ==> !SameText(Trimmed(line[..eq]), "delay")
  }

  predicate Defaulted(e: EntryState) {
    e.repeatDelay == if e.repeat > 0 then e.repeat - 1 else 0
  }

  predicate Undelayed(st: Reading) {
    && (st.open.Some? ==> st.open.value.repeatDelay == 0)
    && (forall i :: 0 <= i < |st.entries| ==> Defaulted(st.entries[i]))
  }

  lemma FieldKeepsUndelayed(words: Words, st: Reading, key: string, value: string)
    requires Undelayed(st) && !SameText(key, "delay")
    ensures var r := Field(words, st, key, value); r.Some? ==> Undelayed(r.value)
  {
    hide SameText, NameOf, Decode, UpToNul, Defaulted;
  }

  lemma LineKeepsUndelayed(words: Words, st: Reading, line: string)
    requires Undelayed(st) && NoDelayLine(line) && words.revised
    ensures var r := LineRead(words, st, line); r.Some? ==> Undelayed(r.value)
  {
    hide Field, Tokens, Trimmed, SameText;
    var eq := FirstEquals(line);
    if eq < |line| {
      FieldKeepsUndelayed(words, st, Trimmed(line[..eq]), Trimmed(line[eq + 1..]));
    }
  }

  lemma {:induction false} LinesKeepUndelayed(words: Words, st: Reading, lines: seq<string>)
    requires Undelayed(st) && words.revised && forall i :: 0 <= i < |lines| ==> NoDelayLine(lines[i])
    ensures var r := ReadLines(words, st, lines); r.Some? ==> Undelayed(r.value)
    decreases |lines|
  {
    hide Undelayed, NoDelayLine, LineRead;
    if lines != [] {
      LineKeepsUndelayed(words, st, lines[0]);
      var r := LineRead(words, st, lines[0]);
      if r.Some? {
        LinesKeepUndelayed(words, r.value, lines[1..]);
      }
    }
  }

  /** The later reader gives every entry of a file without `delay` lines its default delay. */
  lemma {:induction false} FileDefaultsDelays(words: Words, lines: seq<string>)
    requires words.revised && (forall i :: 0 <= i < |lines| ==> NoDelayLine(lines[i])) && ReadAll(words, lines).Some?
    ensures forall i :: 0 <= i < |ReadAll(words, lines).value| ==> Defaulted(ReadAll(words, lines).value[i])
  {
    hide ReadLines, NoDelayLine;
    LinesKeepUndelayed(words, BEGINNING, lines);
  }

  lemma StartedDefaults(before: seq<EntryState>, prog: string, after: seq<EntryState>, mode: Option<string>)
    requires Started(before, prog, after, mode) && forall i :: 0 <= i < |before| ==> Defaulted(before[i]) && before[i].code != []
    ensures AllAnswerAlike(Machine(after, mode))
  {
  }

  // ---- the older reader --------------------------------------------------------------------------

  function Older(words: Words): Words {
    words.(revised := false)
  }

  /** The older revision knows no delay. */
  function Plain(e: EntryState): EntryState {
    e.(repeatDelay := 0)
  }

  function PlainAll(entries: seq<EntryState>): (r: seq<EntryState>)
    ensures |r| == |entries| && forall i :: 0 <= i < |entries| ==> r[i] == Plain(entries[i])
  {
    seq(|entries|, i requires 0 <= i < |entries| => Plain(entries[i]))
  }

  function PlainReading(st: Reading): Reading {
    st.(open := if st.open.Some? then Some(Plain(st.open.value)) else None, entries := PlainAll(st.entries))
  }

  function PlainResult(r: Option<Reading>): Option<Reading> {
    if r.Some? then Some(PlainReading(r.value)) else None
  }

  lemma FieldOlder(words: Words, st: Reading, key: string, value: string)
    requires !SameText(key, "delay")
    ensures Field(Older(words), PlainReading(st), key, value) == PlainResult(Field(words, st, key, value))
  {
    hide SameText, NameOf, Decode, UpToNul, PlainAll;
  }

  lemma ModeLineOlder(words: Words, st: Reading, token: string, token2: Option<string>)
    ensures ModeLine(Older(words), PlainReading(st), token, token2) == PlainResult(ModeLine(words, st, token, token2))
  {
    hide SameText;
    if st.open.Some? {
      var e := Finished(st.open.value, st.mode, words.revised);
      assert PlainAll(st.entries + [e]) == PlainAll(st.entries) + [Plain(e)];
    }
  }

  lemma LineOlder(words: Words, st: Reading, line: string)
    requires NoDelayLine(line)
    ensures LineRead(Older(words), PlainReading(st), line) == PlainResult(LineRead(words, st, line))
  {
    hide Field, ModeLine, Tokens, Trimmed, SameText, PlainAll;
    var eq := FirstEquals(line);
    if eq < |line| {
      FieldOlder(words, st, Trimmed(line[..eq]), Trimmed(line[eq + 1..]));
    } else {
      var tokens := Tokens(line, 0);
      if tokens != [] && tokens[0][0] != '#' && |tokens| <= 2 {
        ModeLineOlder(words, st, tokens[0], if |tokens| == 2 then Some(tokens[1]) else None);
      }
    }
  }

  lemma {:induction false} LinesOlder(words: Words, st: Reading, lines: seq<string>)
    requires forall i :: 0 <= i < |lines| ==> NoDelayLine(lines[i])
    ensures ReadLines(Older(words), PlainReading(st), lines) == PlainResult(ReadLines(words, st, lines))
    decreases |lines|
  {
    hide LineRead, PlainReading, NoDelayLine;
    if lines != [] {
      LineOlder(words, st, lines[0]);
      var r := LineRead(words, st, lines[0]);
      if r.Some? {
        LinesOlder(words, r.value, lines[1..]);
      }
    }
  }

  /**
    Without `delay` lines both revisions accept the same files and read the same entries from
    them, but for the delays that the later one fills in.
   */
  lemma {:induction false} ReadersAgree(words: Words, lines: seq<string>)
    requires forall i :: 0 <= i < |lines| ==> NoDelayLine(lines[i])
    ensures
      var old7, new7 := ReadAll(Older(words), lines), ReadAll(words, lines);
      (old7.Some? <==> new7.Some?) && (new7.Some? ==> old7.value == PlainAll(new7.value))
  {
    hide ReadLines, NoDelayLine;
    LinesOlder(words, BEGINNING, lines);
    assert PlainReading(BEGINNING) == BEGINNING;
    var r := ReadLines(words, BEGINNING, lines);
    if r.Some? && r.value.open.Some? {
      var e := Finished(r.value.open.value, r.value.mode, words.revised);
      assert PlainAll(r.value.entries + [e]) == PlainAll(r.value.entries) + [Plain(e)];
    }
  }

  // ---- startup -----------------------------------------------------------------------------------

  lemma {:induction false} FirstDeclaringPlain(entries: seq<EntryState>, i: nat)
    requires i <= |entries|
    ensures FirstDeclaring(PlainAll(entries), i) == FirstDeclaring(entries, i)
    decreases |entries| - i
  {
    if i < |entries| {
      FirstDeclaringPlain(entries, i + 1);
    }
  }

  lemma StartedPlain(before: seq<EntryState>, prog: string, after: seq<EntryState>, mode: Option<string>,
                     after0: seq<EntryState>, mode0: Option<string>)
    requires Started(before, prog, after, mode) && Started(PlainAll(before), prog, after0, mode0)
    ensures mode0 == mode && after0 == PlainAll(after)
  {
    hide FirstDeclaring, SameText;
    FirstDeclaringPlain(before, 0);
    assert forall i :: 0 <= i < |before| ==> Startup.Named(PlainAll(before)[i], prog) == Startup.Named(before[i], prog);
    StartModePlain(before, prog);
    assert WithoutStart(PlainAll(before)) == PlainAll(WithoutStart(before));
  }

  lemma StartModePlain(before: seq<EntryState>, prog: string)
    requires FirstDeclaring(PlainAll(before), 0) == FirstDeclaring(before, 0)
    ensures StartMode(PlainAll(before), prog) == StartMode(before, prog)
  {
    hide FirstDeclaring, SameText;
    if i :| 0 <= i < |before| && Startup.Named(before[i], prog) {
      assert Startup.Named(PlainAll(before)[i], prog);
    }
    if i :| 0 <= i < |before| && Startup.Named(PlainAll(before)[i], prog) {
      assert Startup.Named(before[i], prog);
    }
  }

  // ---- runs --------------------------------------------------------------------------------------

  function PlainMachine(m: Machine): (r: Machine)
    ensures m.Valid() ==> r.Valid()
    ensures |r.entries| == |m.entries|
  {
    m.(entries := PlainAll(m.entries))
  }

  function PlainOutcome(x: Outcome): Outcome {
    Outcome(PlainMachine(x.machine), x.events)
  }

  lemma LeavingPlain(m: Machine, i: nat)
    requires m.Valid() && i < |m.entries|
    ensures Left(PlainMachine(m), i) == PlainMachine(Left(m, i)) && LeftEvents(PlainMachine(m), i) == LeftEvents(m, i)
  {
    hide EntryState.Valid, SameText;
    assert LeaveMode(PlainMachine(m)).entries == PlainMachine(LeaveMode(m)).entries;
  }

  lemma EnteringPlain(m: Machine, prog: string, i: nat)
    requires m.Valid() && i < |m.entries|
    ensures Entered(PlainMachine(m), prog, i) == PlainMachine(Entered(m, prog, i))
  {
    hide EntryState.Valid, SameText;
    assert Entered(PlainMachine(m), prog, i).entries == PlainMachine(Entered(m, prog, i)).entries;
  }

  lemma MatchingPlain(m: Machine, press: Press, i: nat)
    requires m.Valid() && i < |m.entries|
    ensures
      var r := Matched(m, press, i);
      Matched(PlainMachine(m), press, i) == (r.0, PlainMachine(r.1))
  {
    hide EntryState.Valid, Step;
    assert Matched(PlainMachine(m), press, i).1.entries == PlainMachine(Matched(m, press, i).1).entries;
  }

  lemma VisitPlain(m: Machine, prog: string, press: Press, i: nat)
    requires m.Valid() && i < |m.entries|
    ensures Visit(PlainMachine(m), prog, press, i) == PlainOutcome(Visit(m, prog, press, i))
    ensures Quits(PlainMachine(m), press, i) == Quits(m, press, i)
  {
    hide EntryState.Valid, Matched, Left, LeftEvents, Entered, SameText, PlainAll;
    MatchingPlain(m, press, i);
    var m1 := Matched(m, press, i).1;
    LeavingPlain(m1, i);
    EnteringPlain(Left(m1, i), prog, i);
  }

  lemma {:induction false} PassPlain(m: Machine, prog: string, press: Press, i: nat)
    requires m.Valid() && i <= |m.entries|
    ensures Pass(PlainMachine(m), prog, press, i) == PlainOutcome(Pass(m, prog, press, i))
    decreases |m.entries| - i
  {
    hide EntryState.Valid, Visit, Quits, PlainMachine;
    if i < |m.entries| {
      VisitPlain(m, prog, press, i);
      PassPlain(Visit(m, prog, press, i).machine, prog, press, i + 1);
    }
  }

  /** The older revision makes the same of every press, whatever delays are noted in the entries. */
  lemma {:induction false} RunPlain(m: Machine, prog: string, presses: seq<Press>)
    requires m.Valid()
    ensures Run(PlainMachine(m), prog, presses) == PlainOutcome(Run(m, prog, presses))
    decreases |presses|
  {
    hide EntryState.Valid, Pass, PlainMachine;
    if presses != [] {
      PassPlain(m, prog, presses[0], 0);
      RunPlain(Pass(m, prog, presses[0], 0).machine, prog, presses[1..]);
    }
  }

  // ---- from the file to the texts ----------------------------------------------------------------

  /** A file that both revisions take for the same: no includes, no delays, a button in every entry, no `quit`. */
  ghost predicate Common(words: Words, root: File) {
    && (forall i :: 0 <= i < |root.lines| ==> !IsInclude(root.lines[i]) && NoDelayLine(root.lines[i]))
    && var entries := ReadAll(Older(words), root.lines);
       entries.Some? ==> (
         && Matchable(entries.value)
         && forall i :: 0 <= i < |entries.value| ==> entries.value[i].code != [] && Quit !in entries.value[i].flags)
  }

  lemma SplicedWhole(words: Words, fs: FileSystem, root: File)
    requires Common(words, root)
    ensures Splice(fs, root, 1) == (root.lines, true)
  {
    hide IsInclude, NoDelayLine, Matchable, ReadAll, Splice;
    NoIncludes(fs, root, 1);
  }

  lemma CommonReads(words: Words, root: File)
    requires Common(words, root) && words.revised && NoLatchWord(words) && ReadAll(Older(words), root.lines).Some?
    ensures
      var entries := ReadAll(words, root.lines);
      && entries.Some? && ReadAll(Older(words), root.lines).value == PlainAll(entries.value)
      && Matchable(entries.value)
      && forall i :: 0 <= i < |entries.value| ==>
           AtHeads(entries.value[i]) && Defaulted(entries.value[i]) && entries.value[i].code != [] && Quit !in entries.value[i].flags
  {
    hide ReadAll, AtHeads, Defaulted, NoDelayLine, IsInclude, WildcardsLead;
    ReadersAgree(words, root.lines);
    FileIsReady(words, root.lines);
    FileDefaultsDelays(words, root.lines);
    var entries := ReadAll(words, root.lines).value;
    assert forall i :: 0 <= i < |entries| ==> PlainAll(entries)[i].code == entries[i].code && PlainAll(entries)[i].flags == entries[i].flags;
  }

  lemma StartedWithoutQuit(before: seq<EntryState>, prog: string, after: seq<EntryState>, mode: Option<string>)
    requires Started(before, prog, after, mode) && forall i :: 0 <= i < |before| ==> Quit !in before[i].flags
    ensures NoQuit(Machine(after, mode))
  {
    hide FirstDeclaring;
  }

  /**
    The older revision reads the file, the later one its splice; both start up, and then the
    older scan on the older entries and the later scan on the later entries hand out the same
    texts and go through the same states but for the delays, whatever is pressed.
   */
  lemma {:induction false} RevisionsAgreeFromFile(words: Words, fs: FileSystem, root: File, prog: string,
                                                  after0: seq<EntryState>, mode0: Option<string>,
                                                  after: seq<EntryState>, mode: Option<string>, presses: seq<Press>)
    requires words.revised && NoLatchWord(words) && Common(words, root)
    requires ReadAll(Older(words), root.lines).Some?
    requires Started(ReadAll(Older(words), root.lines).value, prog, after0, mode0)
    requires
      var spliced := ReadAll(words, Splice(fs, root, 1).0);
      spliced.Some? ==> Started(spliced.value, prog, after, mode)
    ensures Splice(fs, root, 1).1 && ReadAll(words, Splice(fs, root, 1).0).Some?
    ensures Machine(after0, mode0).Valid() && Machine(after, mode).Valid() && Machine(after0, mode0) == PlainMachine(Machine(after, mode))
    ensures Run(Machine(after0, mode0), prog, presses) == PlainOutcome(Run7(Machine(after, mode), prog, presses))
  {
    hide ReadAll, Splice, Started, Run, Run7, Matchable, NoQuit, AtHeads, Defaulted, Common, AllAnswerAlike, NoLatches, NoDelayLine,
      IsInclude, EntryState.Valid;
    SplicedWhole(words, fs, root);
    CommonReads(words, root);
    var before := ReadAll(words, root.lines).value;
    StartedPlain(before, prog, after, mode, after0, mode0);
    StartedValid(before, prog, after, mode);
    StartedDefaults(before, prog, after, mode);
    StartedWithoutQuit(before, prog, after, mode);
    RevisionsAgree(Machine(after, mode), prog, presses);
    RunPlain(Machine(after, mode), prog, presses);
  }
}
