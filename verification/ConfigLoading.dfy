/** From the lines of a file to the object that presses are run through. */
module ConfigLoading {
  import opened Text
  import opened KeySequence
  import opened Entries
  import opened ModeMachine
  import opened ModeLaws
  import opened LircConfiguration
  import opened Startup
  import opened Escapes
  import opened ConfigFile
  import opened ConfigParsing
  import opened ConfigLaws

  /** `lirc_flags` knows no word for the latch. */
  ghost predicate NoLatchWord(words: Words) {
    forall value :: Ecno !in words.flags(value)
  }

  /** Between two lines the cursors of the open entry are its tail pointers, those of a finished one are at the list heads. */
  predicate Ready(st: Reading) {
    && (st.open.Some? ==> CodeTail(st.open.value) && ConfigTail(st.open.value) && Ecno !in st.open.value.flags)
    && (forall i :: 0 <= i < |st.entries| ==> AtHeads(st.entries[i]))
  }

  predicate AtHeads(e: EntryState) {
    e.nextCode == 0 && e.nextConfig == 0 && Ecno !in e.flags
  }

  lemma FieldKeepsReady(words: Words, st: Reading, key: string, value: string)
    requires Ready(st) && NoLatchWord(words)
    ensures var r := Field(words, st, key, value);
      r.Some? ==> Ready(r.value) && r.value.entries == st.entries && r.value.mode == st.mode
  {
    hide SameText, NameOf, Decode, UpToNul, AtHeads;
  }

  lemma ModeLineKeepsReady(words: Words, st: Reading, token: string, token2: Option<string>)
    requires Ready(st)
    ensures var r := ModeLine(words, st, token, token2); r.Some? ==> Ready(r.value) && st.entries <= r.value.entries
  {
    hide SameText;
  }

  lemma LineKeepsReady(words: Words, st: Reading, line: string)
    requires Ready(st) && NoLatchWord(words)
    ensures var r := LineRead(words, st, line); r.Some? ==> Ready(r.value) && st.entries <= r.value.entries
  {
    hide Ready, Field, ModeLine, Tokens, Trimmed;
    var eq := FirstEquals(line);
    if eq < |line| {
      FieldKeepsReady(words, st, Trimmed(line[..eq]), Trimmed(line[eq + 1..]));
    } else {
      var tokens := Tokens(line, 0);
      if tokens != [] && tokens[0][0] != '#' && |tokens| <= 2 {
        var token2 := if |tokens| == 2 then Some(tokens[1]) else None;
        ModeLineKeepsReady(words, st, tokens[0], token2);
        RemoteReady(ModeLine(words, st, tokens[0], token2));
      }
    }
  }

  lemma RemoteReady(r: Option<Reading>)
    ensures r.Some? && Ready(r.value) ==> Ready(r.value.(remote := All))
  {
  }

  lemma {:induction false} LinesKeepReady(words: Words, st: Reading, lines: seq<string>)
    requires Ready(st) && NoLatchWord(words)
    ensures var r := ReadLines(words, st, lines); r.Some? ==> Ready(r.value) && st.entries <= r.value.entries
    decreases |lines|
  {
    hide Ready, LineRead;
    if lines != [] {
      LineKeepsReady(words, st, lines[0]);
      var r := LineRead(words, st, lines[0]);
      if r.Some? {
        LinesKeepReady(words, r.value, lines[1..]);
      }
    }
  }

  /**
    Every file that can be read, however it is written, gives entries with both cursors at the
    list heads and no latch set, although the cursors served as tail pointers meanwhile.
   */
  lemma {:induction false} FileIsReady(words: Words, lines: seq<string>)
    requires NoLatchWord(words) && ReadAll(words, lines).Some?
    ensures forall i :: 0 <= i < |ReadAll(words, lines).value| ==> AtHeads(ReadAll(words, lines).value[i])
  {
    hide ReadLines;
    LinesKeepReady(words, BEGINNING, lines);
  }

  /** Codes of every entry of a file can be matched. */
  ghost predicate Matchable(entries: seq<EntryState>) {
    forall i :: 0 <= i < |entries| ==> WildcardsLead(entries[i].code)
  }

  /** `lirc_readconfig` from the lines to the configuration object in its startup mode; None on an error. */
  method LoadConfig(words: Words, prog: string, lines: seq<string>) returns (config: LircConfig?)
    requires AreLines(lines)
    ensures config == null <==> ReadAll(words, lines).None?
    ensures config != null ==>
      && fresh(config) && config.Linked() && config.next == 0 && config.prog == prog
      && Started(ReadAll(words, lines).value, prog, config.entries, config.currentMode)
    ensures config != null && NoLatchWord(words) && Matchable(ReadAll(words, lines).value) ==> config.Valid()
  {
    hide ReadAll, Mirrors, Started, Matchable, WildcardsLead, LircConfig.Linked, AtHeads, EntryState.Valid;
    var result := ReadConfig(words, lines);
    if result.None? {
      return null;
    }
    ghost var states := ReadAll(words, lines).value;
    assert forall i :: 0 <= i < |result.value| ==> result.value[i] in result.value;
    config := Configure(prog, result.value, states);
    if NoLatchWord(words) && Matchable(states) {
      FileIsReady(words, lines);
      StartedValid(states, prog, config.entries, config.currentMode);
    }
  }

  lemma StartedValid(before: seq<EntryState>, prog: string, after: seq<EntryState>, mode: Option<string>)
    requires Started(before, prog, after, mode) && Matchable(before) && forall i :: 0 <= i < |before| ==> AtHeads(before[i])
    ensures Machine(after, mode).Valid() && NoLatches(before)
  {
    hide WildcardsLead;
  }

  /**
    From the text of a file on: whatever it says and whatever is pressed, `ecno` implies `once`
    and a mode to change to, and a `once` entry of the startup mode is silent until that mode has been left.
   */
  lemma {:induction false} LatchesFromFile(words: Words, lines: seq<string>, prog: string, after: seq<EntryState>, mode: Option<string>,
                        presses: seq<Press>)
    requires NoLatchWord(words) && ReadAll(words, lines).Some? && Matchable(ReadAll(words, lines).value)
    requires Started(ReadAll(words, lines).value, prog, after, mode)
    ensures Machine(after, mode).Valid() && LatchesSound(Run(Machine(after, mode), prog, presses).machine)
    ensures
      var events := Run(Machine(after, mode), prog, presses).events;
      forall i, b :: 0 <= i < |after| && 0 <= b < |events| && Speaks(events[b], i)
        && Once in after[i].flags && after[i].changeMode.Some? && mode.Some? && SameText(mode.value, after[i].changeMode.value)
        ==> exists c :: 0 <= c < b && Leaves(events[c], after[i].changeMode.value)
  {
    hide ReadAll, Started, Run, Matchable, LatchesSound, AtHeads, SameText, Leaves, Speaks, NoLatches;
    var before := ReadAll(words, lines).value;
    FileIsReady(words, lines);
    StartedValid(before, prog, after, mode);
    LatchesSoundFromStartup(before, prog, after, mode, presses);
    forall i | 0 <= i < |after| && Once in after[i].flags && after[i].changeMode.Some?
        && mode.Some? && SameText(mode.value, after[i].changeMode.value)
      ensures
        var events := Run(Machine(after, mode), prog, presses).events;
        forall b :: 0 <= b < |events| && Speaks(events[b], i) ==>
          exists c :: 0 <= c < b && Leaves(events[c], after[i].changeMode.value)
    {
      OnceFromStartup(before, prog, after, mode, presses, i);
    }
  }
}
