/** Laws of whole runs of the mode machine: `once` latches, round robin, and exact sequences. */
module ModeLaws {
  import opened Text
  import opened KeySequence
  import opened Entries
  import opened ModeMachine

  // ---- `once` means once per visit of the mode ---------------------------------------

  predicate Leaves(e: Event, mode: string) {
    e.Cleared? && SameText(mode, e.left)
  }

  predicate Speaks(e: Event, i: nat) {
    e.Emitted? && e.entry == i
  }

  /** The latch of entry `i`, as far as the events tell. */
  function LatchAfter(events: seq<Event>, i: nat, mode: string, latch: bool): bool {
    if events == [] then latch
    else LatchAfter(events[1..], i, mode, Speaks(events[0], i) || (latch && !Leaves(events[0], mode)))
  }

  /** Entry `i` never speaks while latched. */
  predicate Restrained(events: seq<Event>, i: nat, mode: string, latch: bool) {
    events != [] ==>
      && !(latch && Speaks(events[0], i))
      && Restrained(events[1..], i, mode, Speaks(events[0], i) || (latch && !Leaves(events[0], mode)))
  }

  lemma {:induction false} RestrainedConcat(a: seq<Event>, b: seq<Event>, i: nat, mode: string, latch: bool)
    ensures LatchAfter(a + b, i, mode, latch) == LatchAfter(b, i, mode, LatchAfter(a, i, mode, latch))
    ensures Restrained(a + b, i, mode, latch)
        <==> Restrained(a, i, mode, latch) && Restrained(b, i, mode, LatchAfter(a, i, mode, latch))
    decreases |a|
  {
    if a == [] {
      assert a + b == b;
    } else {
      assert (a + b)[0] == a[0] && (a + b)[1..] == a[1..] + b;
      RestrainedConcat(a[1..], b, i, mode, Speaks(a[0], i) || (latch && !Leaves(a[0], mode)));
    }
  }

  /** Restraint, read off the positions of the events. */
  lemma {:induction false} RestrainedBetween(events: seq<Event>, i: nat, mode: string, latch: bool, b: nat)
    requires Restrained(events, i, mode, latch) && b < |events| && Speaks(events[b], i)
    ensures latch ==> exists c :: 0 <= c < b && Leaves(events[c], mode)
    ensures forall a :: 0 <= a < b && Speaks(events[a], i) ==> exists c :: a < c < b && Leaves(events[c], mode)
    decreases |events|
  {
    if b > 0 {
      var latch1 := Speaks(events[0], i) || (latch && !Leaves(events[0], mode));
      var tail := events[1..];
      RestrainedBetween(tail, i, mode, latch1, b - 1);
      if latch1 {
        var c :| 0 <= c < b - 1 && Leaves(tail[c], mode);
        assert Leaves(events[c + 1], mode);
      }
      forall a | 0 <= a < b && Speaks(events[a], i)
        ensures exists c :: a < c < b && Leaves(events[c], mode)
      {
        if a == 0 {
          var c :| 0 <= c < b - 1 && Leaves(tail[c], mode);
          assert Leaves(events[c + 1], mode);
        } else {
          assert Speaks(tail[a - 1], i);
          var c :| a - 1 < c < b - 1 && Leaves(tail[c], mode);
          assert Leaves(events[c + 1], mode);
        }
      }
    }
  }

  /** A `once` entry that changes to `mode`; and `latch` is set only if the entry's latch is. */
  predicate OnceFor(e: EntryState, mode: string, latch: bool) {
    Once in e.flags && e.changeMode == Some(mode) && (latch ==> Ecno in e.flags)
  }

  lemma LeavingLatch(m: Machine, i: nat, j: nat, mode: string, latch: bool)
    requires m.Valid() && i < |m.entries| && j < |m.entries| && OnceFor(m.entries[i], mode, latch)
    ensures
      var events := LeftEvents(m, j);
      Restrained(events, i, mode, latch) && OnceFor(Left(m, j).entries[i], mode, LatchAfter(events, i, mode, latch))
  {
    hide EntryState.Valid;
    var events := LeftEvents(m, j);
    if events != [] {
      assert events[1..] == [];
    }
  }

  lemma EnteringLatch(m: Machine, prog: string, i: nat, j: nat, mode: string, latch: bool)
    requires m.Valid() && i < |m.entries| && j < |m.entries| && OnceFor(m.entries[i], mode, latch)
    ensures
      var events := SaidEvents(j, Response(m.entries[j], prog));
      && Restrained(events, i, mode, latch)
      && OnceFor(Entered(m, prog, j).entries[i], mode, LatchAfter(events, i, mode, latch))
  {
    hide EntryState.Valid;
    var events := SaidEvents(j, Response(m.entries[j], prog));
    if events != [] {
      assert events[1..] == [];
    }
  }

  lemma VisitLatch(m: Machine, prog: string, press: Press, i: nat, j: nat, mode: string, latch: bool)
    requires m.Valid() && i < |m.entries| && j < |m.entries| && OnceFor(m.entries[i], mode, latch)
    ensures
      var v := Visit(m, prog, press, j);
      && Restrained(v.events, i, mode, latch)
      && OnceFor(v.machine.entries[i], mode, LatchAfter(v.events, i, mode, latch))
  {
    hide EntryState.Valid, Match, Left, LeftEvents, Entered, Response, SaidEvents, Active;
    var (hit, m1) := Matched(m, press, j);
    var offered := [Offered(j)];
    assert offered[1..] == [];
    assert Restrained(offered, i, mode, latch) && LatchAfter(offered, i, mode, latch) == latch;
    if hit && Active(m1.entries[j], m1.current) {
      var left, m2 := LeftEvents(m1, j), Left(m1, j);
      LeavingLatch(m1, i, j, mode, latch);
      EnteringLatch(m2, prog, i, j, mode, LatchAfter(left, i, mode, latch));
      RestrainedConcat(left, SaidEvents(j, Response(m2.entries[j], prog)), i, mode, latch);
      RestrainedConcat(offered, Executed(m1, prog, j).events, i, mode, latch);
    }
  }

  lemma {:induction false} PassLatch(m: Machine, prog: string, press: Press, i: nat, j: nat, mode: string, latch: bool)
    requires m.Valid() && i < |m.entries| && j <= |m.entries| && OnceFor(m.entries[i], mode, latch)
    ensures
      var pass := Pass(m, prog, press, j);
      && Restrained(pass.events, i, mode, latch)
      && OnceFor(pass.machine.entries[i], mode, LatchAfter(pass.events, i, mode, latch))
    decreases |m.entries| - j
  {
    hide Visit, Quits, OnceFor, EntryState.Valid;
    if j < |m.entries| {
      var v := Visit(m, prog, press, j);
      VisitLatch(m, prog, press, i, j, mode, latch);
      if !Quits(m, press, j) {
        var latch1 := LatchAfter(v.events, i, mode, latch);
        PassLatch(v.machine, prog, press, i, j + 1, mode, latch1);
        RestrainedConcat(v.events, Pass(v.machine, prog, press, j + 1).events, i, mode, latch);
      }
    }
  }

  lemma {:induction false} RunLatch(m: Machine, prog: string, presses: seq<Press>, i: nat, mode: string, latch: bool)
    requires m.Valid() && i < |m.entries| && OnceFor(m.entries[i], mode, latch)
    ensures Restrained(Run(m, prog, presses).events, i, mode, latch)
    decreases |presses|
  {
    hide Pass, OnceFor, EntryState.Valid;
    if presses != [] {
      var pass := Pass(m, prog, presses[0], 0);
      PassLatch(m, prog, presses[0], i, 0, mode, latch);
      RunLatch(pass.machine, prog, presses[1..], i, mode, LatchAfter(pass.events, i, mode, latch));
      RestrainedConcat(pass.events, Run(pass.machine, prog, presses[1..]).events, i, mode, latch);
    }
  }

  /**
    `once` means once per mode visit: between two texts of a `once` entry that changes to
    `mode`, the mode is left; and an entry latched at the start speaks only after the mode is left.
   */
  lemma {:induction false} OncePerModeVisit(m: Machine, prog: string, presses: seq<Press>, i: nat, mode: string)
    requires m.Valid() && i < |m.entries| && Once in m.entries[i].flags && m.entries[i].changeMode == Some(mode)
    ensures
      var events := Run(m, prog, presses).events;
      forall b :: 0 <= b < |events| && Speaks(events[b], i) ==>
        && (Ecno in m.entries[i].flags ==> exists c :: 0 <= c < b && Leaves(events[c], mode))
        && (forall a :: 0 <= a < b && Speaks(events[a], i) ==> exists c :: a < c < b && Leaves(events[c], mode))
  {
    hide Run;
    var events := Run(m, prog, presses).events;
    var latch := Ecno in m.entries[i].flags;
    RunLatch(m, prog, presses, i, mode, latch);
    forall b | 0 <= b < |events| && Speaks(events[b], i)
      ensures latch ==> exists c :: 0 <= c < b && Leaves(events[c], mode)
      ensures forall a :: 0 <= a < b && Speaks(events[a], i) ==> exists c :: a < c < b && Leaves(events[c], mode)
    {
      RestrainedBetween(events, i, mode, latch, b);
    }
  }

  // ---- the latch is only ever set on `once` entries that change the mode --------------

  predicate LatchSound(e: EntryState) {
    Ecno in e.flags ==> Once in e.flags && e.changeMode.Some?
  }

  ghost predicate LatchesSound(m: Machine) {
    forall i :: 0 <= i < |m.entries| ==> LatchSound(m.entries[i])
  }

  lemma VisitKeepsLatchesSound(m: Machine, prog: string, press: Press, j: nat)
    requires m.Valid() && j < |m.entries| && LatchesSound(m)
    ensures LatchesSound(Visit(m, prog, press, j).machine)
  {
    hide EntryState.Valid, Match, Response, Active, LeftEvents, SaidEvents;
  }

  lemma {:induction false} PassKeepsLatchesSound(m: Machine, prog: string, press: Press, j: nat)
    requires m.Valid() && j <= |m.entries| && LatchesSound(m)
    ensures LatchesSound(Pass(m, prog, press, j).machine)
    decreases |m.entries| - j
  {
    hide Visit, Quits, EntryState.Valid, LatchesSound;
    if j < |m.entries| {
      VisitKeepsLatchesSound(m, prog, press, j);
      if !Quits(m, press, j) {
        PassKeepsLatchesSound(Visit(m, prog, press, j).machine, prog, press, j + 1);
      }
    }
  }

  /** Over every run, a latch is set only on a `once` entry that changes the mode. */
  lemma {:induction false} RunKeepsLatchesSound(m: Machine, prog: string, presses: seq<Press>)
    requires m.Valid() && LatchesSound(m)
    ensures LatchesSound(Run(m, prog, presses).machine)
    decreases |presses|
  {
    hide Pass, EntryState.Valid, LatchesSound;
    if presses != [] {
      PassKeepsLatchesSound(m, prog, presses[0], 0);
      RunKeepsLatchesSound(Pass(m, prog, presses[0], 0).machine, prog, presses[1..]);
    }
  }

  // ---- command texts come round robin -------------------------------------------------

  function TextsOf(events: seq<Event>, i: nat): seq<string> {
    if events == [] then []
    else (if Speaks(events[0], i) then [events[0].text] else []) + TextsOf(events[1..], i)
  }

  lemma {:induction false} TextsOfConcat(a: seq<Event>, b: seq<Event>, i: nat)
    ensures TextsOf(a + b, i) == TextsOf(a, i) + TextsOf(b, i)
    decreases |a|
  {
    if a == [] {
      assert a + b == b;
    } else {
      assert (a + b)[0] == a[0] && (a + b)[1..] == a[1..] + b;
      TextsOfConcat(a[1..], b, i);
      var head := if Speaks(a[0], i) then [a[0].text] else [];
      assert head + (TextsOf(a[1..], i) + TextsOf(b, i)) == (head + TextsOf(a[1..], i)) + TextsOf(b, i);
    }
  }

  /** `texts` are the config strings taken cyclically from position `from`, ending at `to`. */
  predicate RoundRobin(config: seq<string>, from: nat, texts: seq<string>, to: nat)
    decreases |texts|
  {
    if texts == [] then from == to
    else
      && from < |config| && texts[0] == config[from]
      && RoundRobin(config, if from + 1 == |config| then 0 else from + 1, texts[1..], to)
  }

  lemma {:induction false} RoundRobinConcat(config: seq<string>, from: nat, a: seq<string>, mid: nat, b: seq<string>, to: nat)
    requires RoundRobin(config, from, a, mid) && RoundRobin(config, mid, b, to)
    ensures RoundRobin(config, from, a + b, to)
    decreases |a|
  {
    if a == [] {
      assert a + b == b;
    } else {
      assert (a + b)[0] == a[0] && (a + b)[1..] == a[1..] + b;
      RoundRobinConcat(config, if from + 1 == |config| then 0 else from + 1, a[1..], mid, b, to);
    }
  }

  /** Position `k` of a list of `n`, counted cyclically. */
  function Cyclic(k: nat, n: nat): (r: nat)
    requires n > 0
    ensures r < n
  {
    if k < n then k else Cyclic(k - n, n)
  }

  lemma {:induction false} RoundRobinAt(config: seq<string>, from: nat, texts: seq<string>, to: nat, k: nat)
    requires from < |config| && RoundRobin(config, from, texts, to) && k < |texts|
    ensures texts[k] == config[Cyclic(from + k, |config|)]
    decreases k
  {
    if k > 0 {
      var following := if from + 1 == |config| then 0 else from + 1;
      RoundRobinAt(config, following, texts[1..], to, k - 1);
    }
  }

  /** An entry hands out its next text, or nothing. */
  lemma ResponseRoundRobin(e: EntryState, prog: string)
    requires e.Valid()
    ensures
      var e', said := Responded(e, prog), Response(e, prog);
      e'.config == e.config && RoundRobin(e.config, e.nextConfig, if said.Some? then [said.value] else [], e'.nextConfig)
  {
    hide WildcardsLead;
  }

  lemma SilentRoundRobin(config: seq<string>, from: nat)
    ensures RoundRobin(config, from, [], from)
  {
  }

  lemma ExecutedTexts(m: Machine, prog: string, i: nat, j: nat)
    requires m.Valid() && i < |m.entries| && j < |m.entries|
    ensures
      var said := Response(Left(m, j).entries[j], prog);
      TextsOf(Executed(m, prog, j).events, i) == if i == j && said.Some? then [said.value] else []
  {
    hide EntryState.Valid, Response, Left, Entered;
    var said := SaidEvents(j, Response(Left(m, j).entries[j], prog));
    TextsOfConcat(LeftEvents(m, j), said, i);
    assert TextsOf(LeftEvents(m, j), i) == [];
    assert TextsOf(said, i) == if i == j && said != [] then [said[0].text] else [];
  }

  lemma LeavingKeepsConfig(m: Machine, i: nat, j: nat)
    requires m.Valid() && i < |m.entries| && j < |m.entries|
    ensures
      var e, e' := m.entries[i], Left(m, j).entries[i];
      e'.config == e.config && e'.nextConfig == e.nextConfig
  {
    hide EntryState.Valid;
  }

  lemma VisitRoundRobin(m: Machine, prog: string, press: Press, i: nat, j: nat)
    requires m.Valid() && i < |m.entries| && j < |m.entries|
    ensures
      var v := Visit(m, prog, press, j);
      var e, e' := m.entries[i], v.machine.entries[i];
      e'.config == e.config && RoundRobin(e.config, e.nextConfig, TextsOf(v.events, i), e'.nextConfig)
  {
    hide EntryState.Valid, Match, Active, Response, Responded, Left, LeftEvents, SaidEvents, RoundRobin;
    var (hit, m1) := Matched(m, press, j);
    var e := m.entries[i];
    SilentRoundRobin(e.config, e.nextConfig);
    assert TextsOf([Offered(j)], i) == [];
    if hit && Active(m1.entries[j], m1.current) {
      var events := Executed(m1, prog, j).events;
      ExecutedTexts(m1, prog, i, j);
      TextsOfConcat([Offered(j)], events, i);
      EmptyFirst(TextsOf(events, i));
      LeavingKeepsConfig(m1, i, j);
      ResponseRoundRobin(Left(m1, j).entries[j], prog);
    }
  }

  lemma {:induction false} PassRoundRobin(m: Machine, prog: string, press: Press, i: nat, j: nat)
    requires m.Valid() && i < |m.entries| && j <= |m.entries|
    ensures
      var pass := Pass(m, prog, press, j);
      var e, e' := m.entries[i], pass.machine.entries[i];
      e'.config == e.config && RoundRobin(e.config, e.nextConfig, TextsOf(pass.events, i), e'.nextConfig)
    decreases |m.entries| - j
  {
    hide Visit, Quits, EntryState.Valid;
    if j < |m.entries| {
      var v := Visit(m, prog, press, j);
      VisitRoundRobin(m, prog, press, i, j);
      if !Quits(m, press, j) {
        var rest := Pass(v.machine, prog, press, j + 1);
        PassRoundRobin(v.machine, prog, press, i, j + 1);
        TextsOfConcat(v.events, rest.events, i);
        RoundRobinConcat(m.entries[i].config, m.entries[i].nextConfig, TextsOf(v.events, i),
                         v.machine.entries[i].nextConfig, TextsOf(rest.events, i), rest.machine.entries[i].nextConfig);
      }
    }
  }

  lemma {:induction false} RunRoundRobin(m: Machine, prog: string, presses: seq<Press>, i: nat)
    requires m.Valid() && i < |m.entries|
    ensures
      var run := Run(m, prog, presses);
      var e, e' := m.entries[i], run.machine.entries[i];
      e'.config == e.config && RoundRobin(e.config, e.nextConfig, TextsOf(run.events, i), e'.nextConfig)
    decreases |presses|
  {
    hide Pass, EntryState.Valid;
    if presses != [] {
      var pass := Pass(m, prog, presses[0], 0);
      PassRoundRobin(m, prog, presses[0], i, 0);
      RunRoundRobin(pass.machine, prog, presses[1..], i);
      var rest := Run(pass.machine, prog, presses[1..]);
      TextsOfConcat(pass.events, rest.events, i);
      RoundRobinConcat(m.entries[i].config, m.entries[i].nextConfig, TextsOf(pass.events, i),
                       pass.machine.entries[i].nextConfig, TextsOf(rest.events, i), rest.machine.entries[i].nextConfig);
    }
  }

  /** Over any run the k-th text an entry hands out is the k-th of its config texts, counted cyclically. */
  lemma {:induction false} TextsRoundRobin(m: Machine, prog: string, presses: seq<Press>, i: nat, k: nat)
    requires m.Valid() && i < |m.entries|
    requires k < |TextsOf(Run(m, prog, presses).events, i)|
    ensures
      var e := m.entries[i];
      e.config != [] && TextsOf(Run(m, prog, presses).events, i)[k] == e.config[Cyclic(e.nextConfig + k, |e.config|)]
  {
    hide Run;
    var e, run := m.entries[i], Run(m, prog, presses);
    RunRoundRobin(m, prog, presses, i);
    RoundRobinAt(e.config, e.nextConfig, TextsOf(run.events, i), run.machine.entries[i].nextConfig, k);
  }

  // ---- without `quit`, every entry follows its own matcher ----------------------------

  predicate NoQuit(m: Machine) {
    forall i :: 0 <= i < |m.entries| ==> Quit !in m.entries[i].flags
  }

  lemma VisitKeepsNoQuit(m: Machine, prog: string, press: Press, j: nat)
    requires m.Valid() && j < |m.entries| && NoQuit(m)
    ensures NoQuit(Visit(m, prog, press, j).machine) && !Quits(m, press, j)
  {
    hide Visit, EntryState.Valid, Settings;
    var m' := Visit(m, prog, press, j).machine;
    forall i | 0 <= i < |m'.entries|
      ensures Quit !in m'.entries[i].flags
    {
      VisitKeepsSettings(m, prog, press, j, i);
      SameSettingsSameFlag(m'.entries[i], m.entries[i], Quit);
    }
    if Quits(m, press, j) {
      QuitsByFlag(m, press, j);
    }
  }

  /** A visit moves the cursor of its own entry only, by one step of the matcher. */
  lemma VisitCursor(m: Machine, prog: string, press: Press, i: nat, j: nat)
    requires m.Valid() && i < |m.entries| && j < |m.entries|
    ensures
      var e, e' := m.entries[i], Visit(m, prog, press, j).machine.entries[i];
      && e'.code == e.code && e'.repeat == e.repeat
      && e'.nextCode == (if i == j then Match(e, press).cursor else e.nextCode)
  {
    hide EntryState.Valid, Match, Active, Response;
  }

  lemma {:induction false} PassCursor(m: Machine, prog: string, press: Press, i: nat, j: nat)
    requires m.Valid() && i < |m.entries| && j <= |m.entries| && NoQuit(m)
    ensures
      var pass := Pass(m, prog, press, j);
      var e, e' := m.entries[i], pass.machine.entries[i];
      && NoQuit(pass.machine)
      && e'.code == e.code && e'.repeat == e.repeat
      && e'.nextCode == (if i >= j then Match(e, press).cursor else e.nextCode)
    decreases |m.entries| - j
  {
    hide Visit, Quits, NoQuit, EntryState.Valid;
    if j < |m.entries| {
      VisitCursor(m, prog, press, i, j);
      VisitKeepsNoQuit(m, prog, press, j);
      var m1 := Visit(m, prog, press, j).machine;
      PassCursor(m1, prog, press, i, j + 1);
    }
  }

  /** A text of entry `i` means that the press completed its code list. */
  lemma {:induction false} PassSpeaksOnMatch(m: Machine, prog: string, press: Press, i: nat, j: nat, k: nat)
    requires m.Valid() && i < |m.entries| && j <= |m.entries|
    requires k < |Pass(m, prog, press, j).events| && Speaks(Pass(m, prog, press, j).events[k], i)
    ensures i >= j && Match(m.entries[i], press).hit
    decreases |m.entries| - j
  {
    hide Visit, Quits, EntryState.Valid, Match;
    var v := Visit(m, prog, press, j);
    if k < |v.events| {
      VisitSpeaksOnMatch(m, prog, press, i, j, k);
    } else {
      VisitCursor(m, prog, press, i, j);
      PassSpeaksOnMatch(v.machine, prog, press, i, j + 1, k - |v.events|);
      SameMatch(m.entries[i], v.machine.entries[i], press);
    }
  }

  lemma SameMatch(a: EntryState, b: EntryState, press: Press)
    requires a.Valid() && b.Valid() && a.code == b.code && a.repeat == b.repeat && a.nextCode == b.nextCode
    ensures Match(a, press) == Match(b, press)
  {
  }

  lemma VisitSpeaksOnMatch(m: Machine, prog: string, press: Press, i: nat, j: nat, k: nat)
    requires m.Valid() && i < |m.entries| && j < |m.entries|
    requires k < |Visit(m, prog, press, j).events| && Speaks(Visit(m, prog, press, j).events[k], i)
    ensures i == j && Match(m.entries[i], press).hit
  {
    hide EntryState.Valid, Match, Active, Response;
  }

  /** The cursor reached from `cursor` by a run of presses, first press first. */
  function FromCursor(code: seq<Code>, repeat: nat, cursor: nat, presses: seq<Press>): nat
    requires WildcardsLead(code) && CursorValid(code, cursor)
    decreases |presses|
  {
    if presses == [] then cursor
    else FromCursor(code, repeat, Step(code, RepeatRule(repeat, presses[0].rep), cursor, presses[0]).cursor, presses[1..])
  }

  lemma {:induction false} FromCursorSplit(code: seq<Code>, repeat: nat, before: seq<Press>, presses: seq<Press>)
    requires WildcardsLead(code)
    ensures FromCursor(code, repeat, RunCursor(code, repeat, before), presses) == RunCursor(code, repeat, before + presses)
    decreases |presses|
  {
    hide Step, RepeatRule;
    if presses == [] {
      assert before + presses == before;
    } else {
      var next := before + [presses[0]];
      assert next[..|next| - 1] == before;
      assert before + presses == next + presses[1..];
      FromCursorSplit(code, repeat, next, presses[1..]);
    }
  }

  lemma {:induction false} RunFollowsMatcher(m: Machine, prog: string, presses: seq<Press>, i: nat)
    requires m.Valid() && i < |m.entries| && NoQuit(m)
    ensures
      var e, e' := m.entries[i], Run(m, prog, presses).machine.entries[i];
      && e'.code == e.code && e'.repeat == e.repeat
      && e'.nextCode == FromCursor(e.code, e.repeat, e.nextCode, presses)
    decreases |presses|
  {
    hide Pass, NoQuit, Step;
    if presses != [] {
      PassCursor(m, prog, presses[0], i, 0);
      RunFollowsMatcher(Pass(m, prog, presses[0], 0).machine, prog, presses[1..], i);
    }
  }

  // ---- presses that a `quit` hides -----------------------------------------------------------

  /** An entry from `j` on and before `i` is executed at this press and carries `quit`. */
  predicate QuitBefore(m: Machine, prog: string, press: Press, i: nat, j: nat)
    requires m.Valid() && i < |m.entries|
    decreases |m.entries| - j
  {
    j < i && (Quits(m, press, j) || QuitBefore(Visit(m, prog, press, j).machine, prog, press, i, j + 1))
  }

  /** A pass moves a cursor by one step of the matcher, unless an entry before has quit: then it stays. */
  lemma {:induction false} PassCursorExact(m: Machine, prog: string, press: Press, i: nat, j: nat)
    requires m.Valid() && j <= i < |m.entries|
    ensures
      var e, e' := m.entries[i], Pass(m, prog, press, j).machine.entries[i];
      && e'.code == e.code && e'.repeat == e.repeat
      && e'.nextCode == if QuitBefore(m, prog, press, i, j) then e.nextCode else Match(e, press).cursor
    decreases i - j
  {
    hide Visit, Quits, EntryState.Valid, Match;
    var m1 := Visit(m, prog, press, j).machine;
    VisitCursor(m, prog, press, i, j);
    if !Quits(m, press, j) {
      if j == i {
        CursorPassed(m1, prog, press, i, j + 1);
      } else {
        PassCursorExact(m1, prog, press, i, j + 1);
        SameMatch(m.entries[i], m1.entries[i], press);
      }
    }
  }

  lemma {:induction false} CursorPassed(m: Machine, prog: string, press: Press, i: nat, j: nat)
    requires m.Valid() && i < j <= |m.entries|
    ensures
      var e, e' := m.entries[i], Pass(m, prog, press, j).machine.entries[i];
      e'.code == e.code && e'.repeat == e.repeat && e'.nextCode == e.nextCode
    decreases |m.entries| - j
  {
    hide Visit, Quits, EntryState.Valid, Match;
    if j < |m.entries| {
      VisitCursor(m, prog, press, i, j);
      CursorPassed(Visit(m, prog, press, j).machine, prog, press, i, j + 1);
    }
  }

  /** The presses of a run that entry `i` gets to see. */
  function Shown(m: Machine, prog: string, presses: seq<Press>, i: nat): seq<Press>
    requires m.Valid() && i < |m.entries|
    decreases |presses|
  {
    if presses == [] then []
    else
      (if QuitBefore(m, prog, presses[0], i, 0) then [] else [presses[0]])
      + Shown(Pass(m, prog, presses[0], 0).machine, prog, presses[1..], i)
  }

  lemma {:induction false} RunCursorShown(m: Machine, prog: string, presses: seq<Press>, i: nat)
    requires m.Valid() && i < |m.entries|
    ensures
      var e, e' := m.entries[i], Run(m, prog, presses).machine.entries[i];
      && e'.code == e.code && e'.repeat == e.repeat
      && e'.nextCode == FromCursor(e.code, e.repeat, e.nextCode, Shown(m, prog, presses, i))
    decreases |presses|
  {
    hide Pass, QuitBefore, Step;
    if presses != [] {
      var m1 := Pass(m, prog, presses[0], 0).machine;
      PassCursorExact(m, prog, presses[0], i, 0);
      RunCursorShown(m1, prog, presses[1..], i);
      if !QuitBefore(m, prog, presses[0], i, 0) {
        assert ([presses[0]] + Shown(m1, prog, presses[1..], i))[1..] == Shown(m1, prog, presses[1..], i);
      } else {
        EmptyFirst(Shown(m1, prog, presses[1..], i));
      }
    }
  }

  /**
    With `quit` or without, the cursor of a sequence entry is the longest proper prefix of its
    list that matches the fresh ones of the presses it was shown since the last completion.
   */
  lemma {:induction false} CursorOfShown(m: Machine, prog: string, presses: seq<Press>, i: nat)
    requires m.Valid() && i < |m.entries| && |m.entries[i].code| >= 2 && m.entries[i].nextCode == 0
    ensures
      var code, shown := m.entries[i].code, Shown(m, prog, presses, i);
      LongestTail(code, SinceCompletion(code, shown), Run(m, prog, presses).machine.entries[i].nextCode)
  {
    hide Run, Shown, LongestTail, SinceCompletion, Step, MatchesTail;
    var e, shown := m.entries[i], Shown(m, prog, presses, i);
    RunCursorShown(m, prog, presses, i);
    FromCursorSplit(e.code, e.repeat, [], shown);
    EmptyFirst(shown);
    MatcherExact(e.code, e.repeat, shown, Press("", "", 0));
  }

  /** A `quit` entry for the first of these codes, and a sequence entry for all of them. */
  function QuitFirst(code: seq<Code>): Machine
    requires code != []
  {
    Machine([EntryState(None, [code[0]], 0, 0, [], None, {Quit}, None, 0, 0),
             EntryState(None, code, 0, 0, [], None, {}, None, 0, 0)], None)
  }

  lemma QuitsFirst(prog: string, code: seq<Code>, press: Press)
    requires |code| == 2 && WildcardsLead(code) && press.rep == 0 && Hits(code[0], press)
    ensures QuitFirst(code).Valid() && QuitBefore(QuitFirst(code), prog, press, 1, 0)
  {
    hide Visit, Hits;
  }

  /** The `quit` entry hides the first press of the sequence, whose cursor stays behind. */
  lemma QuitHidesPress(prog: string, code: seq<Code>, press: Press)
    requires |code| == 2 && WildcardsLead(code) && press.rep == 0 && Hits(code[0], press)
    ensures QuitFirst(code).Valid()
    ensures
      var seen := SinceCompletion(code, [press]);
      && Run(QuitFirst(code), prog, [press]).machine.entries[1].nextCode == 0
      && MatchesTail(code, seen, 1) && !LongestTail(code, seen, 0)
  {
    var m := QuitFirst(code);
    QuitsFirst(prog, code, press);
    assert [press][..0] == [] && [press][1..] == [] && [] + [press] == [press];
    hide Pass, QuitBefore, Hits, WildcardsLead, EntryState.Valid;
    PassCursorExact(m, prog, press, 1, 0);
    assert Run(m, prog, [press]).machine == Pass(m, prog, press, 0).machine;
  }

  // ---- when exactly an entry speaks ----------------------------------------------------------

  predicate SpeaksIn(events: seq<Event>, i: nat) {
    exists k :: 0 <= k < |events| && Speaks(events[k], i)
  }

  lemma SpeaksInConcat(a: seq<Event>, b: seq<Event>, i: nat)
    ensures SpeaksIn(a + b, i) <==> SpeaksIn(a, i) || SpeaksIn(b, i)
  {
    if k :| 0 <= k < |a| && Speaks(a[k], i) {
      assert Speaks((a + b)[k], i);
    }
    if k :| 0 <= k < |b| && Speaks(b[k], i) {
      assert Speaks((a + b)[|a| + k], i);
    }
    if k :| 0 <= k < |a + b| && Speaks((a + b)[k], i) {
      assert if k < |a| then Speaks(a[k], i) else Speaks(b[k - |a|], i);
    }
  }

  /** What the entries from `j` on have made of the configuration when the press comes to entry `i`. */
  function Reached(m: Machine, prog: string, press: Press, i: nat, j: nat): (r: Machine)
    requires m.Valid() && j <= i < |m.entries|
    ensures r.Valid() && |r.entries| == |m.entries|
    decreases i - j
  {
    if j == i then m else Reached(Visit(m, prog, press, j).machine, prog, press, i, j + 1)
  }

  /** The entry belongs to the mode in force and, once that mode is left if it says so, has a text to say. */
  predicate Due(m: Machine, prog: string, i: nat)
    requires m.Valid() && i < |m.entries|
  {
    Active(m.entries[i], m.current) && Response(Left(m, i).entries[i], prog).Some?
  }

  lemma VisitSpeaksIff(m: Machine, prog: string, press: Press, i: nat)
    requires m.Valid() && i < |m.entries|
    ensures SpeaksIn(Visit(m, prog, press, i).events, i) <==> Match(m.entries[i], press).hit && Due(m, prog, i)
  {
    hide Match, EntryState.Valid, Response, SpeaksIn;
    var m1 := Matched(m, press, i).1;
    var text := Response(Left(m1, i).entries[i], prog);
    assert text == Response(Left(m, i).entries[i], prog) by { hide *; CursorSaysNothing(m, press, i, prog); }
    SpeaksInConcat([Offered(i)], LeftEvents(m1, i) + SaidEvents(i, text), i);
    SpeaksInConcat(LeftEvents(m1, i), SaidEvents(i, text), i);
    OnlySaid(m1, i, text);
  }

  lemma CursorSaysNothing(m: Machine, press: Press, i: nat, prog: string)
    requires m.Valid() && i < |m.entries|
    ensures Response(Left(Matched(m, press, i).1, i).entries[i], prog) == Response(Left(m, i).entries[i], prog)
  {
    hide Match, EntryState.Valid;
  }

  lemma OnlySaid(m: Machine, i: nat, text: Option<string>)
    requires i < |m.entries|
    ensures !SpeaksIn([Offered(i)], i) && !SpeaksIn(LeftEvents(m, i), i)
    ensures SpeaksIn(SaidEvents(i, text), i) <==> text.Some?
  {
    if text.Some? {
      assert Speaks(SaidEvents(i, text)[0], i);
    }
  }

  lemma {:induction false} PassSpeaksIff(m: Machine, prog: string, press: Press, i: nat, j: nat)
    requires m.Valid() && j <= i < |m.entries| && NoQuit(m)
    ensures
      var reached := Reached(m, prog, press, i, j);
      SpeaksIn(Pass(m, prog, press, j).events, i) <==> Match(m.entries[i], press).hit && Due(reached, prog, i)
    decreases i - j
  {
    hide Visit, Quits, NoQuit, EntryState.Valid, Match, Due;
    var v := Visit(m, prog, press, j);
    VisitKeepsNoQuit(m, prog, press, j);
    var later := Pass(v.machine, prog, press, j + 1).events;
    SpeaksInConcat(v.events, later, i);
    if j == i {
      VisitSpeaksIff(m, prog, press, i);
      if k :| 0 <= k < |later| && Speaks(later[k], i) {
        PassSpeaksOnMatch(v.machine, prog, press, i, j + 1, k);
      }
    } else {
      if k :| 0 <= k < |v.events| && Speaks(v.events[k], i) {
        VisitSpeaksOnMatch(m, prog, press, i, j, k);
      }
      VisitCursor(m, prog, press, i, j);
      SameMatch(m.entries[i], v.machine.entries[i], press);
      PassSpeaksIff(v.machine, prog, press, i, j + 1);
    }
  }

  /**
    In a configuration without `quit` a sequence entry hands out a text at a press exactly when
    the press is fresh, completes the sequence in the fresh presses since its last completion,
    and finds the entry due in the configuration that the entries before it have left.
   */
  lemma {:induction false} SequenceEntryIff(m: Machine, prog: string, presses: seq<Press>, press: Press, i: nat)
    requires m.Valid() && i < |m.entries| && NoQuit(m)
    requires |m.entries[i].code| >= 2 && m.entries[i].nextCode == 0
    ensures
      var m' := Run(m, prog, presses).machine;
      var code := m.entries[i].code;
      SpeaksIn(Pass(m', prog, press, 0).events, i)
      <==> press.rep == 0 && MatchesTail(code, SinceCompletion(code, presses) + [press], |code|)
           && Due(Reached(m', prog, press, i, 0), prog, i)
  {
    hide Run, Pass, NoQuit, Step, MatchesTail, SinceCompletion, LongestTail, Reached, Due, SpeaksIn;
    var e := m.entries[i];
    RunFollowsMatcher(m, prog, presses, i);
    RunKeepsNoQuit(m, prog, presses);
    FromCursorSplit(e.code, e.repeat, [], presses);
    assert [] + presses == presses;
    PassSpeaksIff(Run(m, prog, presses).machine, prog, press, i, 0);
    MatcherExact(e.code, e.repeat, presses, press);
  }

  lemma {:induction false} RunKeepsNoQuit(m: Machine, prog: string, presses: seq<Press>)
    requires m.Valid() && NoQuit(m)
    ensures NoQuit(Run(m, prog, presses).machine)
    decreases |presses|
  {
    hide Pass, NoQuit;
    if presses != [] {
      PassKeepsNoQuit(m, prog, presses[0], 0);
      RunKeepsNoQuit(Pass(m, prog, presses[0], 0).machine, prog, presses[1..]);
    }
  }

  lemma {:induction false} PassKeepsNoQuit(m: Machine, prog: string, press: Press, j: nat)
    requires m.Valid() && j <= |m.entries| && NoQuit(m)
    ensures NoQuit(Pass(m, prog, press, j).machine)
    decreases |m.entries| - j
  {
    hide Visit, Quits, NoQuit, EntryState.Valid;
    if j < |m.entries| {
      VisitKeepsNoQuit(m, prog, press, j);
      PassKeepsNoQuit(Visit(m, prog, press, j).machine, prog, press, j + 1);
    }
  }
}
