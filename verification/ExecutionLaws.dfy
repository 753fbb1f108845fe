/** What a completed entry does to modes, latches and texts, visit by visit and over whole runs. */
module ExecutionLaws {
  import opened Text
  import opened KeySequence
  import opened Entries
  import opened ModeMachine
  import opened ModeLaws
  import opened Revision7

  // ---- one visit ---------------------------------------------------------------------------

  /** The entry belongs to no mode, or to the one in force. */
  predicate InForce(e: EntryState, current: Option<string>) {
    e.mode.None? || (current.Some? && SameSpelling(e.mode.value, current.value))
  }

  lemma ActiveIff(e: EntryState, current: Option<string>)
    ensures Active(e, current) <==> InForce(e, current)
  {
    if e.mode.Some? && current.Some? {
      SameTextIff(e.mode.value, current.value);
    }
  }

  /** A visit with this answer of the matcher. */
  function VisitWith(m: Machine, prog: string, i: nat, a: Answer): (r: Outcome)
    requires m.Valid() && i < |m.entries| && CursorValid(m.entries[i].code, a.cursor)
    ensures r.machine.Valid() && |r.machine.entries| == |m.entries|
  {
    var m1 := m.(entries := m.entries[i := Moved(m.entries[i], a.cursor)]);
    if a.hit && Active(m1.entries[i], m1.current) then
      var x := Executed(m1, prog, i);
      Outcome(x.machine, [Offered(i)] + x.events)
    else Outcome(m1, [Offered(i)])
  }

  lemma VisitsAreWith(m: Machine, prog: string, press: Press, i: nat)
    requires m.Valid() && i < |m.entries|
    ensures Visit(m, prog, press, i) == VisitWith(m, prog, i, Match(m.entries[i], press))
    ensures Visit7(m, prog, press, i, false) == VisitWith(m, prog, i, Match7(m.entries[i], press))
  {
    hide Match, Match7, Executed, Active, EntryState.Valid;
  }

  /** The mode after the visit of an entry that is executed or not. */
  function ModeAfter(e: EntryState, run: bool, current: Option<string>): Option<string> {
    if !run then current
    else if e.changeMode.Some? then e.changeMode
    else if Mode in e.flags then None
    else current
  }

  /** Executing entry `i` leaves the mode that entry `j` changes to. */
  predicate Releases(m: Machine, i: nat, j: nat)
    requires i < |m.entries| && j < |m.entries|
  {
    && Mode in m.entries[i].flags && m.current.Some? && m.entries[j].changeMode.Some?
    && SameSpelling(m.entries[j].changeMode.value, m.current.value)
  }

  /** Entry `j` is latched, also after the mode has been left that entry `i` leaves. */
  predicate StillLatched(m: Machine, i: nat, j: nat)
    requires i < |m.entries| && j < |m.entries|
  {
    Ecno in m.entries[j].flags && !Releases(m, i, j)
  }

  predicate OnceEntry(e: EntryState) {
    Once in e.flags && e.changeMode.Some?
  }

  /** The text that entry `i` says when it is executed. */
  function Saying(m: Machine, prog: string, i: nat): Option<string>
    requires m.Valid() && i < |m.entries|
  {
    var e := m.entries[i];
    if e.config != [] && e.prog.Some? && SameSpelling(e.prog.value, prog) && !(OnceEntry(e) && StillLatched(m, i, i))
    then Some(e.config[e.nextConfig]) else None
  }

  function Turned(e: EntryState, said: bool): nat {
    if !said then e.nextConfig else if e.nextConfig + 1 == |e.config| then 0 else e.nextConfig + 1
  }

  lemma LeftExactly(m: Machine, i: nat)
    requires m.Valid() && i < |m.entries|
    ensures
      var m' := Left(m, i);
      && m'.current == (if Mode in m.entries[i].flags then None else m.current)
      && forall j :: 0 <= j < |m.entries| ==>
           m'.entries[j] == m.entries[j].(flags := if Releases(m, i, j) then m.entries[j].flags - {Ecno} else m.entries[j].flags)
  {
    hide EntryState.Valid, SameText, SameSpelling;
    if m.current.Some? {
      forall j | 0 <= j < |m.entries| && m.entries[j].changeMode.Some?
        ensures SameText(m.entries[j].changeMode.value, m.current.value) <==> SameSpelling(m.entries[j].changeMode.value, m.current.value)
      {
        SameTextIff(m.entries[j].changeMode.value, m.current.value);
      }
    }
  }

  lemma EnteredExactly(m: Machine, prog: string, i: nat)
    requires m.Valid() && i < |m.entries|
    ensures
      var e, m' := m.entries[i], Entered(m, prog, i);
      var mute := OnceEntry(e) && Ecno in e.flags;
      var said := if e.config != [] && e.prog.Some? && SameSpelling(e.prog.value, prog) && !mute then Some(e.config[e.nextConfig]) else None;
      && Response(e, prog) == said
      && m'.current == (if e.changeMode.Some? then e.changeMode else m.current)
      && m'.entries[i] == e.(flags := if OnceEntry(e) then e.flags + {Ecno} else e.flags, nextConfig := Turned(e, said.Some?))
      && forall j :: 0 <= j < |m.entries| && j != i ==> m'.entries[j] == m.entries[j]
  {
    hide WildcardsLead, SameText, SameSpelling;
    if m.entries[i].prog.Some? {
      SameTextIff(m.entries[i].prog.value, prog);
    }
  }

  /**
    A visit in full: whether the entry is executed, the mode in force afterwards, every latch,
    the text it says and its place in the round, the events in order, and that all else stays.
   */
  lemma {:induction false} VisitWithExactly(m: Machine, prog: string, i: nat, a: Answer)
    requires m.Valid() && i < |m.entries| && CursorValid(m.entries[i].code, a.cursor)
    ensures
      var e := m.entries[i];
      var run := a.hit && InForce(e, m.current);
      var said := if run then Saying(m, prog, i) else None;
      var v := VisitWith(m, prog, i, a);
      && v.machine.current == ModeAfter(e, run, m.current)
      && v.events == [Offered(i)] + ((if run && Mode in e.flags && m.current.Some? then [Cleared(m.current.value)] else [])
                                     + (if said.Some? then [Emitted(i, said.value)] else []))
      && (forall j :: 0 <= j < |m.entries| ==>
            (Ecno in v.machine.entries[j].flags
             <==> if run then (j == i && OnceEntry(e)) || StillLatched(m, i, j) else Ecno in m.entries[j].flags))
      && (forall j :: 0 <= j < |m.entries| ==>
            v.machine.entries[j] == m.entries[j].(
              flags := v.machine.entries[j].flags,
              nextCode := if j == i then a.cursor else m.entries[j].nextCode,
              nextConfig := Turned(m.entries[j], j == i && said.Some?)))
      && (forall j, f :: 0 <= j < |m.entries| && f != Ecno ==> (f in v.machine.entries[j].flags <==> f in m.entries[j].flags))
  {
    hide EntryState.Valid, InForce, SameSpelling, Active, Left, Entered, Response, Moved;
    var m1 := m.(entries := m.entries[i := Moved(m.entries[i], a.cursor)]);
    assert m1.entries[i] == m.entries[i].(nextCode := a.cursor) by { hide *; MovedIs(m.entries[i], a.cursor); }
    ActiveIff(m1.entries[i], m1.current);
    assert InForce(m1.entries[i], m1.current) == InForce(m.entries[i], m.current) by { hide *; ForceByMode(m.entries[i], m1.entries[i], m.current); }
    if a.hit && InForce(m.entries[i], m.current) {
      LeftExactly(m1, i);
      EnteredExactly(Left(m1, i), prog, i);
    }
  }

  lemma MovedIs(e: EntryState, cursor: nat)
    requires CursorValid(e.code, cursor)
    ensures Moved(e, cursor) == e.(nextCode := cursor)
  {
  }

  lemma ForceByMode(a: EntryState, b: EntryState, current: Option<string>)
    requires a.mode == b.mode
    ensures InForce(a, current) == InForce(b, current)
  {
  }

  /** The press completes entry `i`, which is executed because its mode is in force. */
  predicate Runs(m: Machine, press: Press, i: nat)
    requires m.Valid() && i < |m.entries|
  {
    Match(m.entries[i], press).hit && InForce(m.entries[i], m.current)
  }

  /** The mode after a visit: the entry's own change, or none if it only leaves, or the mode before. */
  lemma {:induction false} VisitChangesMode(m: Machine, prog: string, press: Press, i: nat)
    requires m.Valid() && i < |m.entries|
    ensures Visit(m, prog, press, i).machine.current == ModeAfter(m.entries[i], Runs(m, press, i), m.current)
    ensures Quits(m, press, i) <==> Runs(m, press, i) && Quit in m.entries[i].flags
  {
    hide Match, VisitWith, Visit, InForce, Active, EntryState.Valid;
    VisitsAreWith(m, prog, press, i);
    VisitWithExactly(m, prog, i, Match(m.entries[i], press));
    ActiveIff(m.entries[i], m.current);
    QuitsAre(m, press, i);
  }

  lemma QuitsAre(m: Machine, press: Press, i: nat)
    requires m.Valid() && i < |m.entries|
    ensures Quits(m, press, i) <==> Match(m.entries[i], press).hit && Active(m.entries[i], m.current) && Quit in m.entries[i].flags
  {
    hide Match, EntryState.Valid;
  }

  /** What entry `i` says at its visit, as a text of the press and nothing else. */
  lemma {:induction false} VisitSays(m: Machine, prog: string, press: Press, i: nat)
    requires m.Valid() && i < |m.entries|
    ensures
      var said := if Runs(m, press, i) then Saying(m, prog, i) else None;
      Texts(Visit(m, prog, press, i).events) == ToSeq(said)
  {
    hide Match, VisitWith, Visit, InForce, Saying, EntryState.Valid, Texts;
    VisitsAreWith(m, prog, press, i);
    VisitWithExactly(m, prog, i, Match(m.entries[i], press));
    var said := if Runs(m, press, i) then Saying(m, prog, i) else None;
    var left := if Runs(m, press, i) && Mode in m.entries[i].flags && m.current.Some? then [Cleared(m.current.value)] else [];
    var last := if said.Some? then [Emitted(i, said.value)] else [];
    NoTexts();
    OneEvent(Offered(i));
    if left != [] {
      OneEvent(left[0]);
    }
    if last != [] {
      OneEvent(last[0]);
    }
    TextsConcat([Offered(i)], left + last);
    TextsConcat(left, last);
  }

  // ---- the mode in force over whole runs -------------------------------------------------------

  /** The entries executed at one press, from entry `j` on, in order. */
  function ExecutedIn(m: Machine, prog: string, press: Press, j: nat): seq<nat>
    requires m.Valid() && j <= |m.entries|
    decreases |m.entries| - j
  {
    if j == |m.entries| then []
    else if !Runs(m, press, j) then ExecutedIn(Visit(m, prog, press, j).machine, prog, press, j + 1)
    else if Quit in m.entries[j].flags then [j]
    else [j] + ExecutedIn(Visit(m, prog, press, j).machine, prog, press, j + 1)
  }

  function ExecutedOver(m: Machine, prog: string, presses: seq<Press>): seq<nat>
    requires m.Valid()
    decreases |presses|
  {
    if presses == [] then []
    else ExecutedIn(m, prog, presses[0], 0) + ExecutedOver(Pass(m, prog, presses[0], 0).machine, prog, presses[1..])
  }

  predicate Indices(xs: seq<nat>, n: nat) {
    forall k :: 0 <= k < |xs| ==> xs[k] < n
  }

  /** These entries change or leave a mode. */
  predicate Changes(e: EntryState) {
    e.changeMode.Some? || Mode in e.flags
  }

  function ModeOf(entries: seq<EntryState>, xs: seq<nat>, start: Option<string>): Option<string>
    requires Indices(xs, |entries|)
    decreases |xs|
  {
    if xs == [] then start else ModeOf(entries, xs[1..], ModeAfter(entries[xs[0]], true, start))
  }

  lemma {:induction false} ModeOfConcat(entries: seq<EntryState>, a: seq<nat>, b: seq<nat>, start: Option<string>)
    requires Indices(a, |entries|) && Indices(b, |entries|)
    ensures Indices(a + b, |entries|) && ModeOf(entries, a + b, start) == ModeOf(entries, b, ModeOf(entries, a, start))
    decreases |a|
  {
    hide ModeAfter;
    if a == [] {
      assert a + b == b;
    } else {
      assert (a + b)[0] == a[0] && (a + b)[1..] == a[1..] + b;
      ModeOfConcat(entries, a[1..], b, ModeAfter(entries[a[0]], true, start));
    }
  }

  /** The entries that change modes are the same in both lists. */
  predicate SameModes(a: seq<EntryState>, b: seq<EntryState>) {
    |a| == |b| && forall i :: 0 <= i < |a| ==> a[i].changeMode == b[i].changeMode && (Mode in a[i].flags <==> Mode in b[i].flags)
  }

  lemma {:induction false} ModeOfSame(a: seq<EntryState>, b: seq<EntryState>, xs: seq<nat>, start: Option<string>)
    requires SameModes(a, b) && Indices(xs, |a|)
    ensures ModeOf(a, xs, start) == ModeOf(b, xs, start)
    decreases |xs|
  {
    if xs != [] {
      ModeOfSame(a, b, xs[1..], ModeAfter(a[xs[0]], true, start));
    }
  }

  lemma VisitSameModes(m: Machine, prog: string, press: Press, i: nat)
    requires m.Valid() && i < |m.entries|
    ensures SameModes(m.entries, Visit(m, prog, press, i).machine.entries)
  {
    hide Visit, EntryState.Valid;
    var m' := Visit(m, prog, press, i).machine;
    forall j | 0 <= j < |m.entries|
      ensures m'.entries[j].changeMode == m.entries[j].changeMode && (Mode in m'.entries[j].flags <==> Mode in m.entries[j].flags)
    {
      VisitKeepsSettings(m, prog, press, i, j);
      SameSettingsSameFlag(m'.entries[j], m.entries[j], Mode);
    }
  }

  lemma {:induction false} PassMode(m: Machine, prog: string, press: Press, j: nat)
    requires m.Valid() && j <= |m.entries|
    ensures
      var xs, m' := ExecutedIn(m, prog, press, j), Pass(m, prog, press, j).machine;
      Indices(xs, |m.entries|) && m'.current == ModeOf(m.entries, xs, m.current) && SameModes(m.entries, m'.entries)
    decreases |m.entries| - j
  {
    hide Visit, Quits, Runs, EntryState.Valid, ModeAfter;
    if j < |m.entries| {
      var m1 := Visit(m, prog, press, j).machine;
      VisitChangesMode(m, prog, press, j);
      VisitSameModes(m, prog, press, j);
      if Runs(m, press, j) {
        assert [j][1..] == [];
        if Quit !in m.entries[j].flags {
          PassMode(m1, prog, press, j + 1);
          var rest := ExecutedIn(m1, prog, press, j + 1);
          ModeOfSame(m.entries, m1.entries, rest, m1.current);
          assert ([j] + rest)[1..] == rest;
        }
      } else {
        assert m1.current == m.current by { NoChange(m.entries[j], m.current); }
        PassMode(m1, prog, press, j + 1);
        ModeOfSame(m.entries, m1.entries, ExecutedIn(m1, prog, press, j + 1), m1.current);
      }
    }
  }

  lemma NoChange(e: EntryState, current: Option<string>)
    ensures ModeAfter(e, false, current) == current
  {
  }

  lemma {:induction false} RunMode(m: Machine, prog: string, presses: seq<Press>)
    requires m.Valid()
    ensures
      var xs, m' := ExecutedOver(m, prog, presses), Run(m, prog, presses).machine;
      Indices(xs, |m.entries|) && m'.current == ModeOf(m.entries, xs, m.current) && SameModes(m.entries, m'.entries)
    decreases |presses|
  {
    hide Pass, ExecutedIn, ModeOf, EntryState.Valid;
    if presses == [] {
      assert ModeOf(m.entries, [], m.current) == m.current by { ModeOfNone(m.entries, m.current); }
    } else {
      var m1 := Pass(m, prog, presses[0], 0).machine;
      PassMode(m, prog, presses[0], 0);
      RunMode(m1, prog, presses[1..]);
      var rest := ExecutedOver(m1, prog, presses[1..]);
      ModeOfSame(m.entries, m1.entries, rest, m1.current);
      ModeOfConcat(m.entries, ExecutedIn(m, prog, presses[0], 0), rest, m.current);
    }
  }

  lemma ModeOfNone(entries: seq<EntryState>, start: Option<string>)
    ensures ModeOf(entries, [], start) == start
  {
  }

  lemma {:induction false} ModeOfLast(entries: seq<EntryState>, xs: seq<nat>, start: Option<string>, k: nat)
    requires Indices(xs, |entries|) && k < |xs| && Changes(entries[xs[k]])
    requires forall l :: k < l < |xs| ==> !Changes(entries[xs[l]])
    ensures ModeOf(entries, xs, start) == entries[xs[k]].changeMode
    decreases |xs|
  {
    var start1 := ModeAfter(entries[xs[0]], true, start);
    if k > 0 {
      ModeOfLast(entries, xs[1..], start1, k - 1);
    } else {
      assert forall l :: 0 <= l < |xs[1..]| ==> xs[1..][l] == xs[l + 1];
      ModeOfUnchanged(entries, xs[1..], start1);
    }
  }

  lemma {:induction false} ModeOfUnchanged(entries: seq<EntryState>, xs: seq<nat>, start: Option<string>)
    requires Indices(xs, |entries|) && forall l :: 0 <= l < |xs| ==> !Changes(entries[xs[l]])
    ensures ModeOf(entries, xs, start) == start
    decreases |xs|
  {
    if xs != [] {
      ModeOfUnchanged(entries, xs[1..], start);
    }
  }

  /**
    The mode in force after a run is that of the last executed entry that changes or leaves a
    mode, which is none if it only leaves; and the mode at the start if there is no such entry.
   */
  lemma {:induction false} ModeInForce(m: Machine, prog: string, presses: seq<Press>)
    requires m.Valid()
    ensures
      var xs, current := ExecutedOver(m, prog, presses), Run(m, prog, presses).machine.current;
      && Indices(xs, |m.entries|)
      && ((forall l :: 0 <= l < |xs| ==> !Changes(m.entries[xs[l]])) ==> current == m.current)
      && (forall k :: 0 <= k < |xs| && Changes(m.entries[xs[k]]) && (forall l :: k < l < |xs| ==> !Changes(m.entries[xs[l]]))
            ==> current == m.entries[xs[k]].changeMode)
  {
    hide Run, ExecutedOver, ModeOf, Changes, EntryState.Valid;
    RunMode(m, prog, presses);
    var xs := ExecutedOver(m, prog, presses);
    if forall l :: 0 <= l < |xs| ==> !Changes(m.entries[xs[l]]) {
      ModeOfUnchanged(m.entries, xs, m.current);
    }
    forall k | 0 <= k < |xs| && Changes(m.entries[xs[k]]) && (forall l :: k < l < |xs| ==> !Changes(m.entries[xs[l]]))
      ensures Run(m, prog, presses).machine.current == m.entries[xs[k]].changeMode
    {
      ModeOfLast(m.entries, xs, m.current, k);
    }
  }

  /**
    Entering a mode makes its entries speak: once entry `i` has been executed, an entry of the
    mode it changes to, with a text of its own program and no `once`, says that text at its completing press.
   */
  lemma {:induction false} EnteringMakesSpeak(m: Machine, prog: string, first: Press, second: Press, i: nat, j: nat)
    requires m.Valid() && i < |m.entries| && j < |m.entries| && i != j
    requires Runs(m, first, i) && m.entries[i].changeMode.Some?
    requires
      var e := m.entries[j];
      && e.mode.Some? && SameSpelling(e.mode.value, m.entries[i].changeMode.value)
      && e.config != [] && e.prog.Some? && SameSpelling(e.prog.value, prog) && Once !in e.flags
      && Match(e, second).hit
    ensures
      var m1 := Visit(m, prog, first, i).machine;
      Texts(Visit(m1, prog, second, j).events) == [m.entries[j].config[m.entries[j].nextConfig]]
  {
    hide Match, VisitWith, Visit, SameSpelling, EntryState.Valid, Texts;
    VisitsAreWith(m, prog, first, i);
    VisitWithExactly(m, prog, i, Match(m.entries[i], first));
    var m1 := Visit(m, prog, first, i).machine;
    SameMatch(m.entries[j], m1.entries[j], second);
    VisitSays(m1, prog, second, j);
  }

  // ---- latches over whole runs -----------------------------------------------------------------

  /** One execution: the latch of entry `i` is set by its own, and released when its mode is left. */
  predicate LatchAfterOne(entries: seq<EntryState>, x: nat, i: nat, current: Option<string>, latch: bool)
    requires x < |entries| && i < |entries|
  {
    (x == i && OnceEntry(entries[i])) || (latch && !Releases(Machine(entries, current), x, i))
  }

  predicate LatchOf(entries: seq<EntryState>, xs: seq<nat>, i: nat, current: Option<string>, latch: bool)
    requires Indices(xs, |entries|) && i < |entries|
    decreases |xs|
  {
    if xs == [] then latch
    else LatchOf(entries, xs[1..], i, ModeAfter(entries[xs[0]], true, current), LatchAfterOne(entries, xs[0], i, current, latch))
  }

  lemma {:induction false} LatchOfConcat(entries: seq<EntryState>, a: seq<nat>, b: seq<nat>, i: nat, current: Option<string>, latch: bool)
    requires Indices(a, |entries|) && Indices(b, |entries|) && i < |entries|
    ensures Indices(a + b, |entries|)
    ensures LatchOf(entries, a + b, i, current, latch)
        <==> LatchOf(entries, b, i, ModeOf(entries, a, current), LatchOf(entries, a, i, current, latch))
    decreases |a|
  {
    hide ModeAfter, LatchAfterOne;
    if a == [] {
      assert a + b == b;
    } else {
      assert (a + b)[0] == a[0] && (a + b)[1..] == a[1..] + b;
      LatchOfConcat(entries, a[1..], b, i, ModeAfter(entries[a[0]], true, current), LatchAfterOne(entries, a[0], i, current, latch));
    }
  }

  predicate SameOnce(a: EntryState, b: EntryState) {
    Once in a.flags <==> Once in b.flags
  }

  lemma {:induction false} LatchOfSame(a: seq<EntryState>, b: seq<EntryState>, xs: seq<nat>, i: nat, current: Option<string>, latch: bool)
    requires SameModes(a, b) && Indices(xs, |a|) && i < |a| && SameOnce(a[i], b[i])
    ensures LatchOf(a, xs, i, current, latch) == LatchOf(b, xs, i, current, latch)
    decreases |xs|
  {
    hide SameSpelling;
    if xs != [] {
      LatchOfSame(a, b, xs[1..], i, ModeAfter(a[xs[0]], true, current), LatchAfterOne(a, xs[0], i, current, latch));
    }
  }

  lemma VisitLatches(m: Machine, prog: string, press: Press, i: nat, j: nat)
    requires m.Valid() && i < |m.entries| && j < |m.entries|
    ensures
      var e' := Visit(m, prog, press, j).machine.entries[i];
      && SameOnce(m.entries[i], e')
      && (Ecno in e'.flags <==> if Runs(m, press, j) then LatchAfterOne(m.entries, j, i, m.current, Ecno in m.entries[i].flags)
                                else Ecno in m.entries[i].flags)
  {
    hide Match, VisitWith, Visit, SameSpelling, EntryState.Valid, InForce;
    VisitsAreWith(m, prog, press, j);
    VisitWithExactly(m, prog, j, Match(m.entries[j], press));
  }

  lemma {:induction false} PassLatches(m: Machine, prog: string, press: Press, i: nat, j: nat)
    requires m.Valid() && i < |m.entries| && j <= |m.entries| && Indices(ExecutedIn(m, prog, press, j), |m.entries|)
    ensures
      var e' := Pass(m, prog, press, j).machine.entries[i];
      && SameOnce(m.entries[i], e')
      && (Ecno in e'.flags <==> LatchOf(m.entries, ExecutedIn(m, prog, press, j), i, m.current, Ecno in m.entries[i].flags))
    decreases |m.entries| - j
  {
    hide Visit, Quits, Runs, EntryState.Valid, ModeAfter, LatchAfterOne;
    if j < |m.entries| {
      var m1 := Visit(m, prog, press, j).machine;
      VisitChangesMode(m, prog, press, j);
      VisitSameModes(m, prog, press, j);
      VisitLatches(m, prog, press, i, j);
      PassMode(m1, prog, press, j + 1);
      var rest := ExecutedIn(m1, prog, press, j + 1);
      if Runs(m, press, j) {
        assert [j][1..] == [];
        if Quit !in m.entries[j].flags {
          PassLatches(m1, prog, press, i, j + 1);
          LatchOfSame(m.entries, m1.entries, rest, i, m1.current, Ecno in m1.entries[i].flags);
          assert ([j] + rest)[1..] == rest;
        }
      } else {
        assert m1.current == m.current by { NoChange(m.entries[j], m.current); }
        PassLatches(m1, prog, press, i, j + 1);
        LatchOfSame(m.entries, m1.entries, rest, i, m1.current, Ecno in m1.entries[i].flags);
      }
    }
  }

  /**
    Over any run a latch is set exactly by what has been executed: by the entry's own execution,
    if it is a `once` entry, until an execution leaves the mode it changes to.
   */
  lemma {:induction false} LatchesOverRun(m: Machine, prog: string, presses: seq<Press>, i: nat)
    requires m.Valid() && i < |m.entries|
    ensures
      var xs, e' := ExecutedOver(m, prog, presses), Run(m, prog, presses).machine.entries[i];
      && Indices(xs, |m.entries|) && SameOnce(m.entries[i], e')
      && (Ecno in e'.flags <==> LatchOf(m.entries, xs, i, m.current, Ecno in m.entries[i].flags))
    decreases |presses|
  {
    hide Pass, ExecutedIn, ModeOf, LatchOf, EntryState.Valid;
    RunMode(m, prog, presses);
    if presses == [] {
      LatchOfNone(m.entries, i, m.current, Ecno in m.entries[i].flags);
    } else {
      var xs, m1 := ExecutedIn(m, prog, presses[0], 0), Pass(m, prog, presses[0], 0).machine;
      PassMode(m, prog, presses[0], 0);
      PassLatches(m, prog, presses[0], i, 0);
      LatchesOverRun(m1, prog, presses[1..], i);
      var rest := ExecutedOver(m1, prog, presses[1..]);
      LatchOfSame(m.entries, m1.entries, rest, i, m1.current, Ecno in m1.entries[i].flags);
      LatchOfConcat(m.entries, xs, rest, i, m.current, Ecno in m.entries[i].flags);
    }
  }

  lemma LatchOfNone(entries: seq<EntryState>, i: nat, current: Option<string>, latch: bool)
    requires i < |entries|
    ensures LatchOf(entries, [], i, current, latch) == latch
  {
  }

  // ---- behind a `quit` in the later revision ---------------------------------------------------

  predicate OnlyOffers(events: seq<Event>) {
    forall k :: 0 <= k < |events| ==> events[k].Offered?
  }

  /** Once an entry has quit, the later ones say and change nothing at this press; only their cursors move. */
  lemma {:induction false} QuietBehindQuit(m: Machine, prog: string, press: Press, j: nat)
    requires m.Valid() && j <= |m.entries|
    ensures
      var p := Pass7(m, prog, press, j, true);
      && OnlyOffers(p.events) && p.machine.current == m.current
      && forall i :: 0 <= i < |m.entries| ==> p.machine.entries[i] == m.entries[i].(nextCode := p.machine.entries[i].nextCode)
    decreases |m.entries| - j
  {
    hide Match7, EntryState.Valid, Due7;
    if j < |m.entries| {
      QuietBehindQuit(Visit7(m, prog, press, j, true).machine, prog, press, j + 1);
    }
  }

  /** In the later revision, too, executing a `quit` entry ends what the press executes. */
  lemma {:induction false} QuitEndsExecution(m: Machine, prog: string, press: Press, j: nat)
    requires m.Valid() && j < |m.entries|
    requires Match7(m.entries[j], press).hit && InForce(m.entries[j], m.current) && Quit in m.entries[j].flags
    ensures
      var v, p := VisitWith(m, prog, j, Match7(m.entries[j], press)), Pass7(m, prog, press, j, false);
      && v.events <= p.events && OnlyOffers(p.events[|v.events|..]) && p.machine.current == v.machine.current
  {
    hide Match7, EntryState.Valid, VisitWith, Visit7, InForce, Active;
    ActiveIff(m.entries[j], m.current);
    VisitsAreWith(m, prog, press, j);
    Quits7By(m, press, j);
    var v := VisitWith(m, prog, j, Match7(m.entries[j], press));
    QuietBehindQuit(v.machine, prog, press, j + 1);
    var rest := Pass7(v.machine, prog, press, j + 1, true).events;
    assert (v.events + rest)[|v.events|..] == rest;
  }

  lemma Quits7By(m: Machine, press: Press, j: nat)
    requires m.Valid() && j < |m.entries|
    ensures Quits7(m, press, j, false) <==> Match7(m.entries[j], press).hit && Active(m.entries[j], m.current) && Quit in m.entries[j].flags
  {
    hide Match7, EntryState.Valid;
  }
}
