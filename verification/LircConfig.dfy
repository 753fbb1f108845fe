/** The configuration object that hands out command texts, one call at a time. */
module LircConfiguration {
  import opened Text
  import opened KeySequence
  import opened Entries
  import opened ModeMachine

  /** What `sscanf` and `strtok` make of a line received from the daemon. */
  datatype Received =
    | NoRepeat            // no hexadecimal code and repeat counter
    | NoName              // button or remote name missing
    | Pressed(press: Press)

  ghost function States(first: seq<Entry>): (r: seq<EntryState>)
    reads first
    ensures |r| == |first| && forall i :: 0 <= i < |first| ==> r[i] == first[i].State()
  {
    if first == [] then [] else [first[0].State()] + States(first[1..])
  }

  lemma Apart(first: seq<Entry>, scan: nat)
    requires Distinct(first) && scan < |first|
    ensures forall j :: 0 <= j < |first| && j != scan ==> first[j] != first[scan]
  {
  }

  class LircConfig {
    const prog: string               // lirc_prog
    const first: seq<Entry>          // the list of entries; an index into it is a pointer, |first| is NULL
    var currentMode: Option<string>
    var next: nat
    ghost const nodes: set<Entry>       // the entries as objects
    ghost var entries: seq<EntryState>  // the values of the entries
    ghost var log: seq<Event>           // every offer, mode clearing and emission so far

    constructor (prog: string, first: seq<Entry>, currentMode: Option<string>)
      requires Distinct(first)
      ensures Linked() && next == 0 && log == []
      ensures this.prog == prog && this.first == first && this.currentMode == currentMode
    {
      this.prog, this.first, this.currentMode := prog, first, currentMode;
      next, log := 0, [];
      nodes := set e | e in first;
      new;
      entries := States(first);
    }

    /** The values are those of the objects, which are all different. */
    ghost predicate Linked()
      reads this, nodes
    {
      && next <= |first| == |entries|
      && Distinct(first)
      && forall i :: 0 <= i < |first| ==> first[i] in nodes && first[i].State() == entries[i]
    }

    /** Presses can be matched. */
    ghost predicate Valid()
      reads this, nodes
    {
      Linked() && State().Valid()
    }

    ghost function State(): Machine
      reads this
    {
      Machine(entries, currentMode)
    }

    /** `lirc_clearmode` */
    method ClearMode()
      requires Valid()
      modifies this`currentMode, this`entries, this`log, nodes
      ensures Valid()
      ensures State() == LeaveMode(old(State()))
      ensures log == old(log) + (if old(currentMode).Some? then [Cleared(old(currentMode).value)] else [])
    {
      hide Entry.State, EntryState.Valid, Distinct;
      if currentMode.None? {
        return;
      }
      var scan := 0;
      while scan < |first|
        invariant Valid() && |entries| == |old(entries)| && scan <= |first| && currentMode == old(currentMode) && log == old(log)
        invariant forall i :: 0 <= i < |first| ==>
          entries[i] == (if i < scan then Unlatched(old(entries)[i], currentMode.value) else old(entries)[i])
      {
        Apart(first, scan);
        var e := first[scan];
        e.Unlatch(currentMode.value);
        entries := entries[scan := e.State()];
        scan := scan + 1;
      }
      log := log + [Cleared(currentMode.value)];
      currentMode := None;
    }

    /** `lirc_execute` from the mode change on. */
    method Enter(scan: nat) returns (s: Option<string>)
      requires Valid() && scan < |first|
      modifies this`currentMode, this`entries, this`log, nodes
      ensures Valid()
      ensures State() == Entered(old(State()), prog, scan)
      ensures s == Response(old(entries)[scan], prog)
      ensures log == old(log) + SaidEvents(scan, s)
    {
      hide Distinct, Response, Responded, Entry.State, EntryState.Valid;
      Apart(first, scan);
      var e := first[scan];
      e.Fields();
      if e.changeMode.Some? {
        currentMode := e.changeMode;
      }
      s := e.Respond(prog);
      entries := entries[scan := e.State()];
      log := log + SaidEvents(scan, s);
    }

    /** `lirc_execute`: the text of entry `scan`, if it has one to say. */
    method Execute(scan: nat) returns (s: Option<string>)
      requires Valid() && scan < |first|
      modifies this`currentMode, this`next, this`entries, this`log, nodes
      ensures Valid()
      ensures State() == Executed(old(State()), prog, scan).machine
      ensures log == old(log) + Executed(old(State()), prog, scan).events
      ensures next == if Quit in old(entries)[scan].flags then |first| else scan + 1
      ensures s == Said(Executed(old(State()), prog, scan).events)
    {
      hide Distinct, Entered, Response, LeaveMode, Entry.State, EntryState.Valid;
      var e := first[scan];
      e.Fields();
      if Quit in e.flags {
        next := |first|;
      } else {
        next := scan + 1;
      }
      if Mode in e.flags {
        ClearMode();
      }
      assert State() == Left(old(State()), scan) && log == old(log) + LeftEvents(old(State()), scan);
      s := Enter(scan);
    }

    /** The body of the scan: offer the press to entry `scan` and execute it if it is due. */
    method Offer(scan: nat, press: Press) returns (text: Option<string>)
      requires Valid() && scan < |first|
      modifies this`currentMode, this`next, this`entries, this`log, nodes
      ensures Valid()
      ensures State() == Visit(old(State()), prog, press, scan).machine
      ensures log == old(log) + Visit(old(State()), prog, press, scan).events
      ensures text == Said(Visit(old(State()), prog, press, scan).events)
      ensures if Quits(old(State()), press, scan) then next == |first|
              else next == scan + 1 || (text.None? && next == old(next))
    {
      hide Match, Entry.State, EntryState.Valid, Executed, Distinct;
      Apart(first, scan);
      ghost var before := State();
      var e := first[scan];
      var hit := e.IsCode(press);
      entries := entries[scan := e.State()];
      log := log + [Offered(scan)];
      assert (hit, State()) == Matched(before, press, scan);
      text := None;
      e.Fields();
      if hit && (e.mode.None? || (currentMode.Some? && SameText(e.mode.value, currentMode.value))) {
        text := Execute(scan);
      }
    }

    /**
      `lirc_code2char`: go on with the pass of this press where the last call stopped, up to
      the next command text. Without one the pass is over and the next press starts afresh.
     */
    method Code2Char(code: Received) returns (s: Option<string>, ghost done: seq<Event>)
      requires Valid()
      modifies this`currentMode, this`next, this`entries, this`log, nodes
      ensures Valid() && log == old(log) + done
      ensures !code.Pressed? ==> s.None? && done == [] && State() == old(State())
      ensures !code.Pressed? ==> next == if code.NoRepeat? then 0 else old(next)
      ensures code.Pressed? && s.Some? ==>
        var rest := Pass(State(), prog, code.press, next);
        && old(next) < next && Texts(done) == [s.value]
        && Pass(old(State()), prog, code.press, old(next)) == Outcome(rest.machine, done + rest.events)
      ensures code.Pressed? && s.None? ==>
        && next == 0 && Texts(done) == []
        && Pass(old(State()), prog, code.press, old(next)) == Outcome(State(), done)
    {
      hide Visit, Quits, Pass, Said, Texts, Distinct, Entry.State, EntryState.Valid;
      s, done := None, [];
      assert Texts(done) == [] by { NoTexts(); }
      if code.NoName? {
        return;
      }
      if code.Pressed? {
        var press := code.press;
        var scan := next;
        ghost var whole := Pass(State(), prog, press, next);
        while scan < |first|
          invariant Valid() && log == old(log) + done && old(next) <= scan <= |first|
          invariant Texts(done) == []
          invariant scan < |first| ==> next < |first|
          invariant var rest := Pass(State(), prog, press, scan);
                    whole == Outcome(rest.machine, done + rest.events)
        {
          ghost var before := State();
          PassResumes(before, prog, press, scan, done);
          var text := Offer(scan, press);
          done := done + Visit(before, prog, press, scan).events;
          if text.Some? {
            return text, done;
          }
          if next < |first| {
            scan := scan + 1;
          } else {
            scan := |first|;
          }
        }
        PassEnds(State(), prog, press);
      }
      next := 0;
    }

    /**
      The drain loop of `mod_lirc_poll`: ask for command texts until there is none. Draining
      one press is one pass over the entries, and the next press starts at the first entry.
     */
    method Drain(code: Received) returns (commands: seq<string>)
      requires Valid() && next == 0
      modifies this`currentMode, this`next, this`entries, this`log, nodes
      ensures Valid() && next == 0
      ensures !code.Pressed? ==> commands == [] && State() == old(State()) && log == old(log)
      ensures code.Pressed? ==>
        var pass := Pass(old(State()), prog, code.press, 0);
        State() == pass.machine && log == old(log) + pass.events && commands == Texts(pass.events)
    {
      hide Pass, Texts, Distinct, Entry.State, EntryState.Valid;
      ghost var whole := if code.Pressed? then Pass(State(), prog, code.press, 0) else Outcome(State(), []);
      ghost var events: seq<Event> := [];
      assert Texts(events) == [] by { NoTexts(); }
      commands := [];
      var command, done := Code2Char(code);
      TextsConcat(events, done);
      events := events + done;
      while command.Some?
        invariant Valid() && log == old(log) + events
        invariant command.Some? ==> code.Pressed? && Texts(events) == commands + [command.value]
        invariant command.None? ==> next == 0 && Texts(events) == commands && whole == Outcome(State(), events)
        invariant command.Some? ==>
          var rest := Pass(State(), prog, code.press, next);
          whole == Outcome(rest.machine, events + rest.events)
        decreases if command.Some? then |first| + 1 - next else 0
      {
        commands := commands + [command.value];
        command, done := Code2Char(code);
        TextsConcat(events, done);
        events := events + done;
      }
    }
  }
}
