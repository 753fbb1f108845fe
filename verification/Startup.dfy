/** The mode a freshly read configuration starts in, and the latches that go with it. */
module Startup {
  import opened Text
  import opened KeySequence
  import opened Entries
  import opened ModeMachine
  import opened ModeLaws
  import opened LircConfiguration

  predicate Declares(e: EntryState) {
    StartupMode in e.flags && e.changeMode.Some?
  }

  predicate Named(e: EntryState, prog: string) {
    e.mode.Some? && SameText(prog, e.mode.value)
  }

  /** Index of the first entry from `i` on that declares a startup mode, or the number of entries. */
  function FirstDeclaring(entries: seq<EntryState>, i: nat): (k: nat)
    requires i <= |entries|
    ensures i <= k <= |entries| && (k < |entries| ==> Declares(entries[k]))
    ensures forall j :: i <= j < k ==> !Declares(entries[j])
    decreases |entries| - i
  {
    if i < |entries| && !Declares(entries[i]) then FirstDeclaring(entries, i + 1) else i
  }

  /** The mode at startup: the first declared one, else the program's own if an entry belongs to it. */
  ghost function StartMode(entries: seq<EntryState>, prog: string): Option<string> {
    var k := FirstDeclaring(entries, 0);
    if k < |entries| then entries[k].changeMode
    else if exists i :: 0 <= i < |entries| && Named(entries[i], prog) then Some(prog)
    else None
  }

  /** The entry whose startup mode is taken loses it, so that it never changes the mode again. */
  function WithoutStart(entries: seq<EntryState>): (r: seq<EntryState>)
    ensures |r| == |entries|
  {
    var k := FirstDeclaring(entries, 0);
    if k < |entries| then entries[k := entries[k].(changeMode := None)] else entries
  }

  ghost predicate Started(before: seq<EntryState>, prog: string, after: seq<EntryState>, mode: Option<string>) {
    var kept := WithoutStart(before);
    && mode == StartMode(before, prog) && |after| == |before|
    && forall i :: 0 <= i < |after| ==> after[i] == if mode.Some? then LatchedFor(kept[i], mode.value) else kept[i]
  }

  /** The first loop of `lirc_startupmode`. */
  method TakeDeclared(first: seq<Entry>, ghost states: seq<EntryState>) returns (startupMode: Option<string>)
    requires Mirrors(first, states)
    modifies first
    ensures Mirrors(first, WithoutStart(states))
    ensures var k := FirstDeclaring(states, 0);
      startupMode == if k < |states| then states[k].changeMode else None
  {
    hide Distinct, EntryState.Valid, Entry.State;
    var scan := 0;
    while scan < |first|
      invariant scan <= |first| && Mirrors(first, states)
      invariant FirstDeclaring(states, 0) == FirstDeclaring(states, scan)
    {
      var e := first[scan];
      e.Fields();
      if StartupMode in e.flags {
        if e.changeMode.Some? {
          Apart(first, scan);
          startupMode := e.changeMode;
          e.DropChangeMode();
          return;
        }
      }
      scan := scan + 1;
    }
    return None;
  }

  /** The second loop: does any entry belong to a mode named like the program? */
  method FindNamed(prog: string, first: seq<Entry>, ghost states: seq<EntryState>) returns (found: bool)
    requires Mirrors(first, states)
    ensures found <==> exists i :: 0 <= i < |states| && Named(states[i], prog)
  {
    var scan := 0;
    while scan < |first|
      invariant scan <= |first| && forall i :: 0 <= i < scan ==> !Named(states[i], prog)
    {
      var e := first[scan];
      assert e.State() == states[scan];
      if e.mode.Some? && SameText(prog, e.mode.value) {
        assert Named(states[scan], prog);
        return true;
      }
      scan := scan + 1;
    }
    return false;
  }

  /** The third loop: latch the `once` entries of the startup mode. */
  method LatchAll(first: seq<Entry>, startupMode: string, ghost states: seq<EntryState>) returns (ghost after: seq<EntryState>)
    requires Mirrors(first, states)
    modifies first
    ensures Mirrors(first, after) && |after| == |states|
    ensures forall i :: 0 <= i < |after| ==> after[i] == LatchedFor(states[i], startupMode)
  {
    hide Distinct, EntryState.Valid, Entry.State, LatchedFor;
    after := states;
    var scan := 0;
    while scan < |first|
      invariant scan <= |first| && Mirrors(first, after) && |after| == |states|
      invariant forall i :: 0 <= i < |after| ==> after[i] == if i < scan then LatchedFor(states[i], startupMode) else states[i]
    {
      Apart(first, scan);
      first[scan].LatchFor(startupMode);
      after := after[scan := LatchedFor(states[scan], startupMode)];
      scan := scan + 1;
    }
  }

  /** `lirc_startupmode`, and the configuration object that `lirc_readconfig` makes of the entries. */
  method Configure(prog: string, first: seq<Entry>, ghost states: seq<EntryState>) returns (config: LircConfig)
    requires Mirrors(first, states)
    modifies first
    ensures fresh(config) && config.Linked() && config.next == 0 && config.first == first && config.prog == prog
    ensures Started(states, prog, config.entries, config.currentMode)
  {
    hide Distinct, EntryState.Valid, Entry.State, LatchedFor;
    var startupMode := TakeDeclared(first, states);
    ghost var kept, after := WithoutStart(states), WithoutStart(states);
    if startupMode.None? {
      NothingDeclared(states);
      var found := FindNamed(prog, first, kept);
      if found {
        startupMode := Some(prog);
      }
    }
    if startupMode.Some? {
      after := LatchAll(first, startupMode.value, kept);
    }
    EntriesAre(first, after);
    config := new LircConfig(prog, first, startupMode);
    SameStates(config.entries, after);
  }

  lemma NothingDeclared(states: seq<EntryState>)
    requires FirstDeclaring(states, 0) < |states| ==> states[FirstDeclaring(states, 0)].changeMode == None
    ensures FirstDeclaring(states, 0) == |states| && WithoutStart(states) == states
  {
  }

  lemma EntriesAre(first: seq<Entry>, states: seq<EntryState>)
    requires Mirrors(first, states)
    ensures Distinct(first) && forall i :: 0 <= i < |first| ==> first[i].State() == states[i]
  {
  }

  lemma SameStates(a: seq<EntryState>, b: seq<EntryState>)
    requires |a| == |b| && forall i :: 0 <= i < |a| ==> a[i] == b[i]
    ensures a == b
  {
  }

  // ---- the mode at startup -----------------------------------------------------------------

  /** The entry belongs to a mode spelt like the program. */
  predicate OwnMode(e: EntryState, prog: string) {
    e.mode.Some? && SameSpelling(prog, e.mode.value)
  }

  lemma NamedIff(e: EntryState, prog: string)
    ensures Named(e, prog) <==> OwnMode(e, prog)
  {
    if e.mode.Some? {
      SameTextIff(prog, e.mode.value);
    }
  }

  /**
    The program starts in the mode of the first entry with the flag `startup_mode` and a mode to
    change to; without one, in the mode spelt like the program if an entry belongs to it; and else
    in none. Only the entry that gave the mode loses its change of mode.
   */
  lemma {:induction false} StartsIn(entries: seq<EntryState>, prog: string)
    ensures forall k ::
      (0 <= k < |entries| && StartupMode in entries[k].flags && entries[k].changeMode.Some?
       && forall j :: 0 <= j < k ==> StartupMode !in entries[j].flags || entries[j].changeMode.None?)
      ==> (StartMode(entries, prog) == entries[k].changeMode
           && WithoutStart(entries) == entries[k := entries[k].(changeMode := None)])
    ensures (forall j :: 0 <= j < |entries| ==> StartupMode !in entries[j].flags || entries[j].changeMode.None?) ==> (
      && WithoutStart(entries) == entries
      && StartMode(entries, prog) == if exists i :: 0 <= i < |entries| && OwnMode(entries[i], prog) then Some(prog) else None)
  {
    hide Named, OwnMode;
    forall i | 0 <= i < |entries|
      ensures Named(entries[i], prog) <==> OwnMode(entries[i], prog)
    {
      NamedIff(entries[i], prog);
    }
    var first := FirstDeclaring(entries, 0);
    assert first < |entries| ==> Declares(entries[first]);
    forall k | 0 <= k < |entries| && Declares(entries[k]) && forall j :: 0 <= j < k ==> !Declares(entries[j])
      ensures first == k
    {
    }
  }

  // ---- what startup establishes ------------------------------------------------------------

  predicate NoLatches(entries: seq<EntryState>) {
    forall i :: 0 <= i < |entries| ==> Ecno !in entries[i].flags
  }

  /** After startup a latch is set exactly on the `once` entries that change to the startup mode. */
  lemma {:induction false} StartupLatches(before: seq<EntryState>, prog: string, after: seq<EntryState>, mode: Option<string>)
    requires NoLatches(before) && Started(before, prog, after, mode)
    ensures forall i :: 0 <= i < |after| ==>
      (Ecno in after[i].flags <==>
        mode.Some? && Once in after[i].flags && after[i].changeMode.Some? && SameText(mode.value, after[i].changeMode.value))
    ensures LatchesSound(Machine(after, mode))
  {
  }

  /** From startup on, over every run of presses: `ecno` implies `once` and a mode to change to. */
  lemma LatchesSoundFromStartup(before: seq<EntryState>, prog: string, after: seq<EntryState>, mode: Option<string>,
                                presses: seq<Press>)
    requires NoLatches(before) && Started(before, prog, after, mode) && Machine(after, mode).Valid()
    ensures LatchesSound(Run(Machine(after, mode), prog, presses).machine)
  {
    hide Run, Started, LatchesSound;
    StartupLatches(before, prog, after, mode);
    RunKeepsLatchesSound(Machine(after, mode), prog, presses);
  }

  /** A `once` entry of the startup mode is silent until that mode has been left. */
  lemma OnceFromStartup(before: seq<EntryState>, prog: string, after: seq<EntryState>, mode: Option<string>,
                        presses: seq<Press>, i: nat)
    requires NoLatches(before) && Started(before, prog, after, mode) && Machine(after, mode).Valid()
    requires i < |after| && Once in after[i].flags && after[i].changeMode.Some?
    requires mode.Some? && SameText(mode.value, after[i].changeMode.value)
    ensures
      var events := Run(Machine(after, mode), prog, presses).events;
      forall b :: 0 <= b < |events| && Speaks(events[b], i) ==>
        exists c :: 0 <= c < b && Leaves(events[c], after[i].changeMode.value)
  {
    hide Run, Started, LatchesSound;
    StartupLatches(before, prog, after, mode);
    OncePerModeVisit(Machine(after, mode), prog, presses, i, after[i].changeMode.value);
  }
}
