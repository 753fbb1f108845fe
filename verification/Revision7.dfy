/**
  The later revision of the matcher and of the scan (`lirc_client.c_v7`): a repeat delay, and
  a `quit` that lets the later entries follow the presses without executing them.
 */
module Revision7 {
  import opened Text
  import opened Arithmetic
  import opened KeySequence
  import opened Entries
  import opened ModeMachine
  import opened ModeLaws
  import opened LircConfiguration

  predicate DelayedRule(repeat: nat, delay: nat, rep: nat) {
    rep == 0 || (repeat > 0 && rep > delay && (rep - delay - 1) % repeat == 0)
  }

  function Match7(e: EntryState, press: Press): (a: Answer)
    requires e.Valid()
    ensures CursorValid(e.code, a.cursor)
  {
    var rule := DelayedRule(e.repeat, e.repeatDelay, press.rep);
    if e.code == [] then Answer(rule, 0) else Step(e.code, rule, e.nextCode, press)
  }

  method IsCode7(scan: Entry, press: Press) returns (hit: bool)
    requires scan.Valid()
    modifies scan`nextCode
    ensures Answer(hit, scan.nextCode) == Match7(old(scan.State()), press)
    ensures scan.State() == Moved(old(scan.State()), scan.nextCode)
    ensures scan.Valid()
  {
    if scan.code == [] {
      return press.rep == 0 ||
        (scan.repeat > 0 && press.rep > scan.repeatDelay && (press.rep - scan.repeatDelay - 1) % scan.repeat == 0);
    }
    if Accepts(scan.code[scan.nextCode].remote, press.remote) {
      if Accepts(scan.code[scan.nextCode].button, press.button) {
        var iscode := false;
        if |scan.code| == 1 || press.rep == 0 {
          scan.nextCode := scan.nextCode + 1;
        }
        if scan.nextCode == |scan.code| {
          scan.nextCode := 0;
          iscode := |scan.code| != 1 || press.rep == 0 ||
            (scan.repeat > 0 && press.rep > scan.repeatDelay && (press.rep - scan.repeatDelay - 1) % scan.repeat == 0);
        }
        return iscode;
      }
    }
    if press.rep != 0 {
      return false;
    }
    scan.Realign(press);
    return false;
  }

  // ---- the pass ------------------------------------------------------------------------

  function Matched7(m: Machine, press: Press, i: nat): (r: (bool, Machine))
    requires m.Valid() && i < |m.entries|
    ensures r.1.Valid() && |r.1.entries| == |m.entries|
  {
    var e := m.entries[i];
    var a := Match7(e, press);
    (a.hit, m.(entries := m.entries[i := Moved(e, a.cursor)]))
  }

  predicate Due7(m: Machine, press: Press, i: nat)
    requires m.Valid() && i < |m.entries|
  {
    var (hit, m1) := Matched7(m, press, i);
    hit && Active(m1.entries[i], m1.current)
  }

  function Visit7(m: Machine, prog: string, press: Press, i: nat, quitHappened: bool): (r: Outcome)
    requires m.Valid() && i < |m.entries|
    ensures r.machine.Valid() && |r.machine.entries| == |m.entries|
  {
    var m1 := Matched7(m, press, i).1;
    if Due7(m, press, i) && !quitHappened then
      var x := Executed(m1, prog, i);
      Outcome(x.machine, [Offered(i)] + x.events)
    else Outcome(m1, [Offered(i)])
  }

  predicate Quits7(m: Machine, press: Press, i: nat, quitHappened: bool)
    requires m.Valid() && i < |m.entries|
  {
    quitHappened || (Due7(m, press, i) && Quit in m.entries[i].flags)
  }

  function Pass7(m: Machine, prog: string, press: Press, i: nat, quitHappened: bool): (r: Outcome)
    requires m.Valid() && i <= |m.entries|
    ensures r.machine.Valid() && |r.machine.entries| == |m.entries|
    decreases |m.entries| - i
  {
    if i == |m.entries| then Outcome(m, [])
    else
      var v := Visit7(m, prog, press, i, quitHappened);
      var rest := Pass7(v.machine, prog, press, i + 1, Quits7(m, press, i, quitHappened));
      Outcome(rest.machine, v.events + rest.events)
  }

  function Run7(m: Machine, prog: string, presses: seq<Press>): (r: Outcome)
    requires m.Valid()
    ensures r.machine.Valid() && |r.machine.entries| == |m.entries|
    decreases |presses|
  {
    if presses == [] then Outcome(m, [])
    else
      var first := Pass7(m, prog, presses[0], 0, false);
      var rest := Run7(first.machine, prog, presses[1..]);
      Outcome(rest.machine, first.events + rest.events)
  }

  lemma Pass7Resumes(m: Machine, prog: string, press: Press, i: nat, quitHappened: bool, done: seq<Event>)
    requires m.Valid() && i < |m.entries|
    ensures
      var v := Visit7(m, prog, press, i, quitHappened);
      var whole := Pass7(m, prog, press, i, quitHappened);
      var rest := Pass7(v.machine, prog, press, i + 1, Quits7(m, press, i, quitHappened));
      && whole.machine == rest.machine && done + whole.events == (done + v.events) + rest.events
      && Texts(done + v.events) == Texts(done) + (if Said(v.events).Some? then [Said(v.events).value] else [])
  {
    hide Quits7, Texts, Visit7, Said, EntryState.Valid;
    var v := Visit7(m, prog, press, i, quitHappened);
    Visit7Texts(m, prog, press, i, quitHappened);
    TextsConcat(done, v.events);
    Reassociate(done, v.events, Pass7(v.machine, prog, press, i + 1, Quits7(m, press, i, quitHappened)).events);
  }

  lemma Visit7Texts(m: Machine, prog: string, press: Press, i: nat, quitHappened: bool)
    requires m.Valid() && i < |m.entries|
    ensures
      var events := Visit7(m, prog, press, i, quitHappened).events;
      Texts(events) == (if Said(events).Some? then [Said(events).value] else [])
  {
    hide Executed, Due7, Matched7, EntryState.Valid;
    if Due7(m, press, i) && !quitHappened {
      var m1 := Matched7(m, press, i).1;
      var left, events := LeftEvents(m1, i), Executed(m1, prog, i).events;
      ExecutedEvents(m1, prog, i);
      assert Texts(left) == [];
      assert events == left + events[|left|..];
      TextsConcat([Offered(i)], events);
      TextsConcat(left, events[|left|..]);
    }
  }

  /** `lirc_execute`: here it no longer touches the resume point. */
  method Execute7(config: LircConfig, scan: nat) returns (s: Option<string>)
    requires config.Valid() && scan < |config.first|
    modifies config`currentMode, config`entries, config`log, config.nodes
    ensures config.Valid()
    ensures config.State() == Executed(old(config.State()), config.prog, scan).machine
    ensures config.log == old(config.log) + Executed(old(config.State()), config.prog, scan).events
    ensures s == Said(Executed(old(config.State()), config.prog, scan).events)
  {
    hide Distinct, Entered, Response, LeaveMode, Entry.State, EntryState.Valid;
    var e := config.first[scan];
    e.Fields();
    if Mode in e.flags {
      config.ClearMode();
    }
    assert config.State() == Left(old(config.State()), scan);
    assert config.log == old(config.log) + LeftEvents(old(config.State()), scan);
    s := config.Enter(scan);
  }

  /** The loop body of the scan; `s` is None when the entry was not executed. */
  method Offer7(config: LircConfig, scan: nat, press: Press, quitHappened: bool)
    returns (s: Option<string>, quits: bool)
    requires config.Valid() && scan < |config.first|
    modifies config`currentMode, config`entries, config`log, config.nodes
    ensures config.Valid()
    ensures config.State() == Visit7(old(config.State()), config.prog, press, scan, quitHappened).machine
    ensures config.log == old(config.log) + Visit7(old(config.State()), config.prog, press, scan, quitHappened).events
    ensures s == Said(Visit7(old(config.State()), config.prog, press, scan, quitHappened).events)
    ensures (quitHappened || quits) == Quits7(old(config.State()), press, scan, quitHappened)
    ensures quitHappened ==> s.None? && !quits
  {
    hide Match7, Entry.State, EntryState.Valid, Executed, Distinct;
    Apart(config.first, scan);
    ghost var before := config.State();
    var e := config.first[scan];
    var hit := IsCode7(e, press);
    config.entries := config.entries[scan := e.State()];
    config.log := config.log + [Offered(scan)];
    assert (hit, config.State()) == Matched7(before, press, scan);
    s, quits := None, false;
    e.Fields();
    var active := e.mode.None? || (config.currentMode.Some? && SameText(e.mode.value, config.currentMode.value));
    if hit && active && !quitHappened {
      quits := Quit in e.flags;
      s := Execute7(config, scan);
    }
  }

  /** The revised `lirc_code2char`. */
  method Code2Char7(config: LircConfig, code: Received) returns (text: Option<string>, ghost done: seq<Event>)
    requires config.Valid()
    modifies config`currentMode, config`next, config`entries, config`log, config.nodes
    ensures config.Valid() && config.log == old(config.log) + done
    ensures !code.Pressed? ==> text.None? && done == [] && config.State() == old(config.State())
    ensures !code.Pressed? ==> config.next == if code.NoRepeat? then 0 else old(config.next)
    ensures code.Pressed? && text.Some? ==>
      var rest := Pass7(config.State(), config.prog, code.press, config.next, false);
      && old(config.next) < config.next && Texts(done) == [text.value]
      && Pass7(old(config.State()), config.prog, code.press, old(config.next), false)
         == Outcome(rest.machine, done + rest.events)
    ensures code.Pressed? && text.None? ==>
      && config.next == 0 && Texts(done) == []
      && Pass7(old(config.State()), config.prog, code.press, old(config.next), false) == Outcome(config.State(), done)
  {
    hide Visit7, Quits7, Pass7, Said, Texts, Distinct, Entry.State, EntryState.Valid;
    text, done := None, [];
    assert Texts(done) == [] by { NoTexts(); }
    if code.NoName? {
      return;
    }
    var s := None;
    if code.Pressed? {
      var press := code.press;
      var scan, quitHappened := config.next, false;
      ghost var whole := Pass7(config.State(), config.prog, press, config.next, false);
      while scan < |config.first|
        invariant config.Valid() && config.log == old(config.log) + done && old(config.next) <= scan <= |config.first|
        invariant Texts(done) == if s.Some? then [s.value] else []
        invariant !quitHappened ==> s.None? && config.next == old(config.next)
        invariant quitHappened ==> config.next == |config.first| && old(config.next) < |config.first|
        invariant var rest := Pass7(config.State(), config.prog, press, scan, quitHappened);
                  whole == Outcome(rest.machine, done + rest.events)
      {
        ghost var before := config.State();
        Pass7Resumes(before, config.prog, press, scan, quitHappened, done);
        var said, quits := Offer7(config, scan, press, quitHappened);
        done := done + Visit7(before, config.prog, press, scan, quitHappened).events;
        if quits {
          s := said;
          quitHappened := true;
          config.next := |config.first|;
          scan := scan + 1;
          continue;
        } else if said.Some? {
          s := said;
          config.next := scan + 1;
          break;
        }
        scan := scan + 1;
      }
      if scan == |config.first| {
        Pass7Ends(config.State(), config.prog, press, quitHappened);
      }
      if s.Some? {
        Pass7Ends(config.State(), config.prog, press, false);
        return s, done;
      }
    }
    config.next := 0;
  }

  /** The drain loop of `mod_lirc_poll` over the later revision: draining one press is one pass. */
  method Drain7(config: LircConfig, code: Received) returns (commands: seq<string>)
    requires config.Valid() && config.next == 0
    modifies config`currentMode, config`next, config`entries, config`log, config.nodes
    ensures config.Valid() && config.next == 0
    ensures !code.Pressed? ==> commands == [] && config.State() == old(config.State()) && config.log == old(config.log)
    ensures code.Pressed? ==>
      var pass := Pass7(old(config.State()), config.prog, code.press, 0, false);
      config.State() == pass.machine && config.log == old(config.log) + pass.events && commands == Texts(pass.events)
  {
    hide Pass7, Texts, Distinct, Entry.State, EntryState.Valid;
    ghost var whole := if code.Pressed? then Pass7(config.State(), config.prog, code.press, 0, false) else Outcome(config.State(), []);
    ghost var events: seq<Event> := [];
    assert Texts(events) == [] by { NoTexts(); }
    commands := [];
    var command, done := Code2Char7(config, code);
    TextsConcat(events, done);
    events := events + done;
    while command.Some?
      invariant config.Valid() && config.log == old(config.log) + events
      invariant command.Some? ==> code.Pressed? && Texts(events) == commands + [command.value]
      invariant command.None? ==> config.next == 0 && Texts(events) == commands && whole == Outcome(config.State(), events)
      invariant command.Some? ==>
        var rest := Pass7(config.State(), config.prog, code.press, config.next, false);
        whole == Outcome(rest.machine, events + rest.events)
      decreases if command.Some? then |config.first| + 1 - config.next else 0
    {
      commands := commands + [command.value];
      command, done := Code2Char7(config, code);
      TextsConcat(events, done);
      events := events + done;
    }
  }

  lemma Pass7Ends(m: Machine, prog: string, press: Press, quitHappened: bool)
    requires m.Valid()
    ensures Pass7(m, prog, press, |m.entries|, quitHappened) == Outcome(m, [])
  {
  }

  // ---- agreement of the two revisions --------------------------------------------------

  lemma DefaultedDelayAgrees(repeat: nat, rep: nat)
    ensures DelayedRule(repeat, if repeat > 0 then repeat - 1 else 0, rep) == RepeatRule(repeat, rep)
  {
    if rep >= repeat > 0 {
      MultiplesStep(rep, repeat);
    } else if repeat > 0 {
      RemainderUnique(rep, repeat, 0, rep);
    }
  }

  /** Any other delay is told apart by some repeat count. */
  lemma OtherDelayDiffers(repeat: nat, delay: nat) returns (rep: nat)
    requires repeat > 0 && delay != repeat - 1
    ensures DelayedRule(repeat, delay, rep) != RepeatRule(repeat, rep)
  {
    if delay + 1 < repeat {
      rep := delay + 1;
      RemainderUnique(0, repeat, 0, 0);
      RemainderUnique(rep, repeat, 0, rep);
    } else {
      rep := repeat;
      RemainderUnique(rep, repeat, 1, 0);
    }
  }

  /**
    The delayed rule answers every repeat count like the plain one exactly when there is no
    repeat at all or the delay is the defaulted one.
   */
  lemma {:induction false} RepeatRulesAgree(repeat: nat, delay: nat)
    ensures (forall rep: nat :: DelayedRule(repeat, delay, rep) == RepeatRule(repeat, rep))
        <==> (repeat == 0 || delay == repeat - 1)
  {
    if repeat == 0 || delay == repeat - 1 {
      hide RepeatRule;
      forall rep: nat
        ensures DelayedRule(repeat, delay, rep) == RepeatRule(repeat, rep)
      {
        DefaultedDelayAgrees(repeat, rep);
      }
    } else {
      var rep := OtherDelayDiffers(repeat, delay);
    }
  }

  /** Where the rules for repeats do not matter or come to the same. */
  predicate AnswersAlike(e: EntryState) {
    if e.code == [] then e.repeat == 1 && e.repeatDelay == 0
    else |e.code| > 1 || e.repeat == 0 || e.repeatDelay == e.repeat - 1
  }

  /** A repeat count at which an entry without codes is not due in the later revision. */
  lemma CodelessDiffers(repeat: nat, delay: nat) returns (rep: nat)
    requires repeat != 1 || delay != 0
    ensures !DelayedRule(repeat, delay, rep)
  {
    if repeat == 0 || delay > 0 {
      rep := 1;
    } else {
      rep := 2;
      RemainderUnique(1, repeat, 0, 1);
    }
  }

  lemma CodelessAgrees(rep: nat)
    ensures DelayedRule(1, 0, rep)
  {
    if rep > 0 {
      RemainderUnique(rep - 1, 1, rep - 1, 0);
    }
  }

  lemma SingleHit(code: Code, rep: nat) returns (press: Press)
    ensures press.rep == rep && Hits(code, press)
  {
    press := Press(if code.remote.All? then "" else code.remote.text, if code.button.All? then "" else code.button.text, rep);
  }

  /**
    The two matchers give the same answer and cursor for every press exactly when the entry has
    several codes, or one code and no repeat or the default delay, or none and answers every repeat.
   */
  lemma {:induction false} MatchersAgreeIff(e: EntryState)
    requires e.Valid()
    ensures (forall press :: Match7(e, press) == Match(e, press)) <==> AnswersAlike(e)
  {
    hide DelayedRule, RepeatRule, Hits, WildcardsLead, Realigned;
    if AnswersAlike(e) {
      forall press
        ensures Match7(e, press) == Match(e, press)
      {
        MatchersAgree(e, press);
      }
    } else if e.code == [] {
      var rep := CodelessDiffers(e.repeat, e.repeatDelay);
      var press := Press("", "", rep);
      assert Match7(e, press) != Match(e, press);
    } else {
      var rep := OtherDelayDiffers(e.repeat, e.repeatDelay);
      var press := SingleHit(e.code[0], rep);
      assert Match7(e, press) != Match(e, press);
    }
  }

  lemma {:induction false} MatchersAgree(e: EntryState, press: Press)
    requires e.Valid() && AnswersAlike(e)
    ensures Match7(e, press) == Match(e, press)
  {
    hide DelayedRule, RepeatRule, Hits, WildcardsLead, Realigned;
    if e.code == [] {
      CodelessAgrees(press.rep);
    } else if |e.code| == 1 {
      RepeatRulesAgree(e.repeat, e.repeatDelay);
    }
  }

  predicate AllAnswerAlike(m: Machine) {
    forall i :: 0 <= i < |m.entries| ==> AnswersAlike(m.entries[i])
  }

  lemma VisitsAgree(m: Machine, prog: string, press: Press, i: nat)
    requires m.Valid() && i < |m.entries| && AllAnswerAlike(m) && NoQuit(m)
    ensures Visit7(m, prog, press, i, false) == Visit(m, prog, press, i)
    ensures !Quits7(m, press, i, false)
  {
    hide Match7, Match, Executed, Active, EntryState.Valid;
    MatchersAgree(m.entries[i], press);
  }

  lemma VisitKeepsAlike(m: Machine, prog: string, press: Press, i: nat)
    requires m.Valid() && i < |m.entries| && AllAnswerAlike(m)
    ensures AllAnswerAlike(Visit(m, prog, press, i).machine)
  {
    hide Visit, EntryState.Valid;
    forall j | 0 <= j < |m.entries|
      ensures AnswersAlike(Visit(m, prog, press, i).machine.entries[j])
    {
      VisitKeepsSettings(m, prog, press, i, j);
    }
  }

  lemma {:induction false} PassesAgree(m: Machine, prog: string, press: Press, i: nat)
    requires m.Valid() && i <= |m.entries| && AllAnswerAlike(m) && NoQuit(m)
    ensures Pass7(m, prog, press, i, false) == Pass(m, prog, press, i)
    ensures AllAnswerAlike(Pass(m, prog, press, i).machine) && NoQuit(Pass(m, prog, press, i).machine)
    decreases |m.entries| - i
  {
    hide Visit7, Visit, Quits7, Quits, NoQuit, AllAnswerAlike, EntryState.Valid;
    if i < |m.entries| {
      VisitsAgree(m, prog, press, i);
      VisitKeepsAlike(m, prog, press, i);
      VisitKeepsNoQuit(m, prog, press, i);
      PassesAgree(Visit(m, prog, press, i).machine, prog, press, i + 1);
    }
  }

  /**
    Without `quit`, with entries that answer alike, the two revisions go through the same states
    and hand out the same texts over any stream of presses.
   */
  lemma {:induction false} RevisionsAgree(m: Machine, prog: string, presses: seq<Press>)
    requires m.Valid() && AllAnswerAlike(m) && NoQuit(m)
    ensures Run7(m, prog, presses) == Run(m, prog, presses)
    decreases |presses|
  {
    hide Pass7, Pass, NoQuit, AllAnswerAlike, EntryState.Valid;
    if presses != [] {
      PassesAgree(m, prog, presses[0], 0);
      RevisionsAgree(Pass(m, prog, presses[0], 0).machine, prog, presses[1..]);
    }
  }

  // ---- what `quit` does to the entries behind it -----------------------------------------------

  /** Executed or not, a visit moves the cursor of its own entry only, by one step of the matcher. */
  lemma Visit7Cursor(m: Machine, prog: string, press: Press, i: nat, j: nat, quitHappened: bool)
    requires m.Valid() && i < |m.entries| && j < |m.entries|
    ensures
      var e, e' := m.entries[i], Visit7(m, prog, press, j, quitHappened).machine.entries[i];
      && e'.code == e.code && e'.repeat == e.repeat && e'.repeatDelay == e.repeatDelay
      && e'.nextCode == (if i == j then Match7(e, press).cursor else e.nextCode)
  {
    hide EntryState.Valid, Match7, Active, Response;
  }

  lemma SameMatch7(a: EntryState, b: EntryState, press: Press)
    requires a.Valid() && b.Valid() && a.code == b.code && a.nextCode == b.nextCode
    requires a.repeat == b.repeat && a.repeatDelay == b.repeatDelay
    ensures Match7(a, press) == Match7(b, press)
  {
    hide DelayedRule, Step;
  }

  /** Whatever is executed and whoever quits, every entry from `j` on follows the press. */
  lemma {:induction false} Pass7Cursor(m: Machine, prog: string, press: Press, i: nat, j: nat, quitHappened: bool)
    requires m.Valid() && i < |m.entries| && j <= |m.entries|
    ensures
      var e, e' := m.entries[i], Pass7(m, prog, press, j, quitHappened).machine.entries[i];
      && e'.code == e.code && e'.repeat == e.repeat && e'.repeatDelay == e.repeatDelay
      && e'.nextCode == (if i >= j then Match7(e, press).cursor else e.nextCode)
    decreases |m.entries| - j
  {
    hide Visit7, Quits7, EntryState.Valid, Match7;
    if j < |m.entries| {
      var v := Visit7(m, prog, press, j, quitHappened);
      Visit7Cursor(m, prog, press, i, j, quitHappened);
      Pass7Cursor(v.machine, prog, press, i, j + 1, Quits7(m, press, j, quitHappened));
      if i > j {
        SameMatch7(m.entries[i], v.machine.entries[i], press);
      }
    }
  }

  /** The cursor does not depend on the repeat rule. */
  lemma CursorByStep(e: EntryState, press: Press)
    requires e.Valid()
    ensures Match7(e, press).cursor == Step(e.code, RepeatRule(e.repeat, press.rep), e.nextCode, press).cursor
  {
    hide DelayedRule, RepeatRule, Hits, WildcardsLead, Realigned;
  }

  /** Over any run, `quit` or not, every cursor is the matcher run on all the presses. */
  lemma {:induction false} Run7FollowsMatcher(m: Machine, prog: string, presses: seq<Press>, i: nat)
    requires m.Valid() && i < |m.entries|
    ensures
      var e, e' := m.entries[i], Run7(m, prog, presses).machine.entries[i];
      && e'.code == e.code && e'.repeat == e.repeat
      && e'.nextCode == FromCursor(e.code, e.repeat, e.nextCode, presses)
    decreases |presses|
  {
    hide Pass7, Match7, Step;
    if presses != [] {
      Pass7Cursor(m, prog, presses[0], i, 0, false);
      CursorByStep(m.entries[i], presses[0]);
      Run7FollowsMatcher(Pass7(m, prog, presses[0], 0, false).machine, prog, presses[1..], i);
    }
  }

  /**
    In the later revision a sequence entry never loses track: over any run, whatever is executed
    and whoever quits, its cursor is the longest proper prefix of its list that matches the fresh
    presses since the last completion.
   */
  lemma {:induction false} CursorsNeverLost(m: Machine, prog: string, presses: seq<Press>, i: nat)
    requires m.Valid() && i < |m.entries| && |m.entries[i].code| >= 2 && m.entries[i].nextCode == 0
    ensures
      var e := m.entries[i];
      LongestTail(e.code, SinceCompletion(e.code, presses), Run7(m, prog, presses).machine.entries[i].nextCode)
  {
    hide Run7, LongestTail, SinceCompletion, Step, MatchesTail;
    var e := m.entries[i];
    Run7FollowsMatcher(m, prog, presses, i);
    FromCursorSplit(e.code, e.repeat, [], presses);
    EmptyFirst(presses);
    MatcherExact(e.code, e.repeat, presses, Press("", "", 0));
  }
}
