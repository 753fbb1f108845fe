/**
  The pass of one key press over all entries, as a fold on values: modes, `once` latches,
  round-robin command texts and the `quit` flag.
 */
module ModeMachine {
  import opened Text
  import opened KeySequence
  import opened Entries

  datatype Event =
    | Offered(entry: nat)                // the press was matched against this entry
    | Cleared(left: string)              // `lirc_clearmode` ran while this mode was current
    | Emitted(entry: nat, text: string)  // the entry's next command text was handed out

  datatype Machine = Machine(entries: seq<EntryState>, current: Option<string>) {
    ghost predicate Valid() {
      forall i :: 0 <= i < |entries| ==> entries[i].Valid()
    }
  }

  datatype Outcome = Outcome(machine: Machine, events: seq<Event>)

  function LeaveMode(m: Machine): (r: Machine)
    ensures |r.entries| == |m.entries|
    ensures m.Valid() ==> r.Valid()
  {
    if m.current.None? then m
    else Machine(seq(|m.entries|, i requires 0 <= i < |m.entries| => Unlatched(m.entries[i], m.current.value)), None)
  }

  /** `flags = mode` makes the entry leave the current mode before anything else. */
  function Left(m: Machine, i: nat): (r: Machine)
    requires m.Valid() && i < |m.entries|
    ensures r.Valid() && |r.entries| == |m.entries|
  {
    if Mode in m.entries[i].flags then LeaveMode(m) else m
  }

  function LeftEvents(m: Machine, i: nat): seq<Event>
    requires i < |m.entries|
  {
    if Mode in m.entries[i].flags && m.current.Some? then [Cleared(m.current.value)] else []
  }

  /** The entry's own mode change, latch and round robin. */
  function Entered(m: Machine, prog: string, i: nat): (r: Machine)
    requires m.Valid() && i < |m.entries|
    ensures r.Valid() && |r.entries| == |m.entries|
  {
    var e := m.entries[i];
    Machine(m.entries[i := Responded(e, prog)], if e.changeMode.Some? then e.changeMode else m.current)
  }

  function SaidEvents(i: nat, text: Option<string>): seq<Event> {
    if text.Some? then [Emitted(i, text.value)] else []
  }

  /** A press completed an active entry: mode change, latch, and at most one command text. */
  function Executed(m: Machine, prog: string, i: nat): (r: Outcome)
    requires m.Valid() && i < |m.entries|
    ensures r.machine.Valid() && |r.machine.entries| == |m.entries|
  {
    var m1 := Left(m, i);
    Outcome(Entered(m1, prog, i), LeftEvents(m, i) + SaidEvents(i, Response(m1.entries[i], prog)))
  }

  /** The press is matched against entry `i`; only its cursor may move. */
  function Matched(m: Machine, press: Press, i: nat): (r: (bool, Machine))
    requires m.Valid() && i < |m.entries|
    ensures r.1.Valid() && |r.1.entries| == |m.entries|
  {
    var e := m.entries[i];
    var a := Match(e, press);
    (a.hit, m.(entries := m.entries[i := Moved(e, a.cursor)]))
  }

  /** Offer the press to entry `i` and execute it when it is completed and active. */
  function Visit(m: Machine, prog: string, press: Press, i: nat): (r: Outcome)
    requires m.Valid() && i < |m.entries|
    ensures r.machine.Valid() && |r.machine.entries| == |m.entries|
  {
    var (hit, m1) := Matched(m, press, i);
    if hit && Active(m1.entries[i], m1.current) then
      var x := Executed(m1, prog, i);
      Outcome(x.machine, [Offered(i)] + x.events)
    else Outcome(m1, [Offered(i)])
  }

  /** The visit of entry `i` executes it and the entry carries `quit`. */
  predicate Quits(m: Machine, press: Press, i: nat)
    requires m.Valid() && i < |m.entries|
  {
    var (hit, m1) := Matched(m, press, i);
    hit && Active(m1.entries[i], m1.current) && Quit in m1.entries[i].flags
  }

  /** One press over the entries from `i` on, left to right, up to the first executed `quit` entry. */
  function Pass(m: Machine, prog: string, press: Press, i: nat): (r: Outcome)
    requires m.Valid() && i <= |m.entries|
    ensures r.machine.Valid() && |r.machine.entries| == |m.entries|
    decreases |m.entries| - i
  {
    if i == |m.entries| then Outcome(m, [])
    else
      var v := Visit(m, prog, press, i);
      if Quits(m, press, i) then v
      else
        var rest := Pass(v.machine, prog, press, i + 1);
        Outcome(rest.machine, v.events + rest.events)
  }

  function Run(m: Machine, prog: string, presses: seq<Press>): (r: Outcome)
    requires m.Valid()
    ensures r.machine.Valid() && |r.machine.entries| == |m.entries|
    decreases |presses|
  {
    if presses == [] then Outcome(m, [])
    else
      var first := Pass(m, prog, presses[0], 0);
      var rest := Run(first.machine, prog, presses[1..]);
      Outcome(rest.machine, first.events + rest.events)
  }

  /** The command texts among the events. */
  function Texts(events: seq<Event>): (r: seq<string>) {
    if events == [] then []
    else (if events[0].Emitted? then [events[0].text] else []) + Texts(events[1..])
  }

  lemma NoTexts()
    ensures Texts([]) == []
  {
  }

  lemma {:induction false} TextsConcat(a: seq<Event>, b: seq<Event>)
    ensures Texts(a + b) == Texts(a) + Texts(b)
  {
    if a == [] {
      assert a + b == b;
    } else {
      assert (a + b)[0] == a[0] && (a + b)[1..] == a[1..] + b;
      TextsConcat(a[1..], b);
      var head := if a[0].Emitted? then [a[0].text] else [];
      assert head + (Texts(a[1..]) + Texts(b)) == (head + Texts(a[1..])) + Texts(b);
    }
  }

  lemma ExecutedEvents(m: Machine, prog: string, i: nat)
    requires m.Valid() && i < |m.entries|
    ensures
      var events, left := Executed(m, prog, i).events, LeftEvents(m, i);
      events == left || (events != [] && events[|events| - 1].Emitted? && events[..|events| - 1] == left)
  {
    hide Left, Response, Responded, Entered;
  }

  /** A visit hands out at most one text, and it is the last thing the visit does; it makes one offer. */
  lemma {:induction false} VisitEvents(m: Machine, prog: string, press: Press, i: nat)
    requires m.Valid() && i < |m.entries|
    ensures
      var events := Visit(m, prog, press, i).events;
      && events != []
      && Texts(events) == (if events[|events| - 1].Emitted? then [events[|events| - 1].text] else [])
      && Offers(events) == [i]
  {
    hide Executed, Active, Matched, EntryState.Valid, LeftEvents, Texts, Offers;
    var (hit, m1) := Matched(m, press, i);
    OneEvent(Offered(i));
    if hit && Active(m1.entries[i], m1.current) {
      var left, events := LeftEvents(m1, i), Executed(m1, prog, i).events;
      ExecutedEvents(m1, prog, i);
      LeavingIsSilent(m1, i);
      TextsConcat([Offered(i)], events);
      OffersConcat([Offered(i)], events);
      if events != left {
        var last := events[|events| - 1];
        assert events == left + [last];
        OneEvent(last);
        TextsConcat(left, [last]);
        OffersConcat(left, [last]);
      }
    }
  }

  lemma OneEvent(e: Event)
    ensures Texts([e]) == if e.Emitted? then [e.text] else []
    ensures Offers([e]) == if e.Offered? then [e.entry] else []
  {
    assert [e][1..] == [];
  }

  lemma LeavingIsSilent(m: Machine, i: nat)
    requires i < |m.entries|
    ensures Texts(LeftEvents(m, i)) == [] && Offers(LeftEvents(m, i)) == []
    ensures LeftEvents(m, i) != [] ==> LeftEvents(m, i)[|LeftEvents(m, i)| - 1].Cleared?
  {
  }

  /** The text handed out by the last of these events, if it handed one out. */
  function Said(events: seq<Event>): Option<string> {
    if events != [] && events[|events| - 1].Emitted? then Some(events[|events| - 1].text) else None
  }

  /** The index at which a pass goes on after entry `i`. */
  function Following(m: Machine, press: Press, i: nat): (r: nat)
    requires m.Valid() && i < |m.entries|
    ensures i < r <= |m.entries|
  {
    if Quits(m, press, i) then |m.entries| else i + 1
  }

  lemma PassEnds(m: Machine, prog: string, press: Press)
    requires m.Valid()
    ensures Pass(m, prog, press, |m.entries|) == Outcome(m, [])
  {
  }

  /** A pass interrupted after entry `i` is the events so far followed by the pass from where it goes on. */
  lemma {:induction false} PassResumes(m: Machine, prog: string, press: Press, i: nat, done: seq<Event>)
    requires m.Valid() && i < |m.entries|
    ensures
      var v := Visit(m, prog, press, i);
      var whole := Pass(m, prog, press, i);
      var rest := Pass(v.machine, prog, press, Following(m, press, i));
      && whole.machine == rest.machine && done + whole.events == (done + v.events) + rest.events
      && Texts(done + v.events) == Texts(done) + (if Said(v.events).Some? then [Said(v.events).value] else [])
  {
    hide Visit, Quits, Texts;
    var v := Visit(m, prog, press, i);
    VisitEvents(m, prog, press, i);
    TextsConcat(done, v.events);
    PassEnds(v.machine, prog, press);
  }

  // ---- every entry is offered the press at most once, left to right -------------------

  function Offers(events: seq<Event>): seq<nat> {
    if events == [] then []
    else (if events[0].Offered? then [events[0].entry] else []) + Offers(events[1..])
  }

  lemma {:induction false} OffersConcat(a: seq<Event>, b: seq<Event>)
    ensures Offers(a + b) == Offers(a) + Offers(b)
  {
    if a == [] {
      assert a + b == b;
    } else {
      assert (a + b)[0] == a[0] && (a + b)[1..] == a[1..] + b;
      OffersConcat(a[1..], b);
      var head := if a[0].Offered? then [a[0].entry] else [];
      assert head + (Offers(a[1..]) + Offers(b)) == (head + Offers(a[1..])) + Offers(b);
    }
  }

  predicate InOrder(offers: seq<nat>, from: nat) {
    forall k :: 0 <= k < |offers| ==> offers[k] == from + k
  }

  /** The offers made by the rest of a pass, seen from one entry earlier. */
  lemma PassOffers(m: Machine, prog: string, press: Press, i: nat)
    requires m.Valid() && i < |m.entries|
    ensures
      var offers := Offers(Pass(m, prog, press, i).events);
      if Quits(m, press, i) then offers == [i]
      else offers == [i] + Offers(Pass(Visit(m, prog, press, i).machine, prog, press, i + 1).events)
  {
    hide Visit, Quits;
    var v := Visit(m, prog, press, i);
    VisitEvents(m, prog, press, i);
    OffersConcat(v.events, Pass(v.machine, prog, press, i + 1).events);
  }

  lemma QuitsByFlag(m: Machine, press: Press, i: nat)
    requires m.Valid() && i < |m.entries| && Quits(m, press, i)
    ensures Quit in m.entries[i].flags
  {
  }

  /** No entry is passed over: the offers are i, i+1, ... and stop early only at an executed `quit` entry. */
  lemma {:induction false} OffersInOrder(m: Machine, prog: string, press: Press, i: nat)
    requires m.Valid() && i <= |m.entries|
    ensures
      var offers := Offers(Pass(m, prog, press, i).events);
      && i + |offers| <= |m.entries| && InOrder(offers, i)
      && (i + |offers| < |m.entries| ==> offers != [] && Quit in m.entries[i + |offers| - 1].flags)
    decreases |m.entries| - i
  {
    hide Visit, Quits;
    if i < |m.entries| {
      PassOffers(m, prog, press, i);
      if Quits(m, press, i) {
        assert Quit in m.entries[i].flags by { QuitsByFlag(m, press, i); }
      } else {
        var m1 := Visit(m, prog, press, i).machine;
        OffersInOrder(m1, prog, press, i + 1);
        var after := Offers(Pass(m1, prog, press, i + 1).events);
        if i + 1 + |after| < |m.entries| {
          VisitKeepsSettings(m, prog, press, i, i + |after|);
          SameSettingsSameFlag(m1.entries[i + |after|], m.entries[i + |after|], Quit);
        }
      }
    }
  }

  // ---- what no pass changes ----------------------------------------------------------

  /** The settings read from the configuration file, without cursors and latch. */
  function Settings(e: EntryState): EntryState {
    e.(flags := e.flags - {Ecno}, nextConfig := 0, nextCode := 0)
  }

  lemma LatchIsNoSetting(e: EntryState, left: string)
    ensures Settings(e.(flags := e.flags + {Ecno})) == Settings(e) == Settings(Unlatched(e, left))
  {
    assert (e.flags + {Ecno}) - {Ecno} == e.flags - {Ecno} == (e.flags - {Ecno}) - {Ecno};
  }

  lemma LeavingKeepsSettings(m: Machine, j: nat)
    requires j < |m.entries|
    ensures Settings(LeaveMode(m).entries[j]) == Settings(m.entries[j])
  {
    if m.current.Some? {
      LatchIsNoSetting(m.entries[j], m.current.value);
    }
  }

  lemma {:induction false} VisitKeepsSettings(m: Machine, prog: string, press: Press, i: nat, j: nat)
    requires m.Valid() && i < |m.entries| && j < |m.entries|
    ensures Settings(Visit(m, prog, press, i).machine.entries[j]) == Settings(m.entries[j])
  {
    hide LeaveMode, Active, LeftEvents, Match;
    var (hit, m1) := Matched(m, press, i);
    if hit && Active(m1.entries[i], m1.current) {
      LeavingKeepsSettings(m1, j);
      LatchIsNoSetting(m1.entries[j], "");
      LatchIsNoSetting(LeaveMode(m1).entries[j], "");
    }
  }

  lemma SameSettingsSameFlag(a: EntryState, b: EntryState, flag: Flag)
    requires Settings(a) == Settings(b) && flag != Ecno
    ensures flag in a.flags <==> flag in b.flags
  {
    assert flag in a.flags <==> flag in Settings(a).flags;
    assert flag in b.flags <==> flag in Settings(b).flags;
  }
}
