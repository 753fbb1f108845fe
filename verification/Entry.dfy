/** One configuration entry: the object, and the matcher that moves its cursor in place. */
module Entries {
  import opened Text
  import opened KeySequence

  datatype Flag = Once | Quit | Mode | Ecno | StartupMode

  /** The fields of an entry as a value; a cursor equal to the length of its list is NULL. */
  datatype EntryState = EntryState(
    prog: Option<string>, code: seq<Code>, repeat: nat, repeatDelay: nat, config: seq<string>,
    changeMode: Option<string>, flags: set<Flag>, mode: Option<string>, nextConfig: nat, nextCode: nat)
  {
    ghost predicate Valid() {
      && WildcardsLead(code) && CursorValid(code, nextCode)
      && (if config == [] then nextConfig == 0 else nextConfig < |config|)
    }
  }

  predicate Active(e: EntryState, current: Option<string>) {
    e.mode.None? || (current.Some? && SameText(e.mode.value, current.value))
  }

  function Unlatched(e: EntryState, left: string): (r: EntryState)
    ensures e.Valid() ==> r.Valid()
  {
    if e.changeMode.Some? && SameText(e.changeMode.value, left) then e.(flags := e.flags - {Ecno}) else e
  }

  /** A `once` entry for the startup mode counts as executed. */
  function LatchedFor(e: EntryState, startupMode: string): (r: EntryState)
    ensures e.Valid() ==> r.Valid()
  {
    if e.changeMode.Some? && Once in e.flags && SameText(startupMode, e.changeMode.value)
    then e.(flags := e.flags + {Ecno}) else e
  }

  /** A `once` entry that changes the mode is silent while its latch is set. */
  predicate Muted(e: EntryState) {
    e.changeMode.Some? && Once in e.flags && Ecno in e.flags
  }

  /** The command text of an executed entry: the next one of its own program, unless muted. */
  function Response(e: EntryState, prog: string): Option<string> {
    if e.nextConfig < |e.config| && e.prog.Some? && SameText(e.prog.value, prog) && !Muted(e)
    then Some(e.config[e.nextConfig])
    else None
  }

  /** An executed entry: latched when it is a `once` entry, and past the text it handed out. */
  function Responded(e: EntryState, prog: string): (r: EntryState)
    ensures e.Valid() ==> r.Valid()
  {
    var latched := if e.changeMode.Some? && Once in e.flags then e.flags + {Ecno} else e.flags;
    var following := if e.nextConfig + 1 == |e.config| then 0 else e.nextConfig + 1;
    e.(flags := latched, nextConfig := if Response(e, prog).Some? then following else e.nextConfig)
  }

  /** What `lirc_iscode` answers for this entry. */
  function Match(e: EntryState, press: Press): (a: Answer)
    requires e.Valid()
    ensures CursorValid(e.code, a.cursor)
  {
    Step(e.code, RepeatRule(e.repeat, press.rep), e.nextCode, press)
  }

  function Moved(e: EntryState, cursor: nat): (r: EntryState)
    requires CursorValid(e.code, cursor)
    ensures e.Valid() ==> r.Valid()
  {
    e.(nextCode := cursor)
  }

  /** The list cut off behind the element a tail pointer points to, and one more element. */
  function LinkedBehind<T>(list: seq<T>, tail: nat, item: T): seq<T> {
    (if tail < |list| then list[..tail + 1] else list) + [item]
  }

  /** A button goes behind the code that `next_code` points to. */
  function WithCode(e: EntryState, code: Code): EntryState {
    var list := if e.code == [] then [code] else LinkedBehind(e.code, e.nextCode, code);
    e.(code := list, nextCode := |list| - 1)
  }

  /** A config text goes behind the one that `next_config` points to. */
  function WithConfig(e: EntryState, text: string): EntryState {
    var list := if e.config == [] then [text] else LinkedBehind(e.config, e.nextConfig, text);
    e.(config := list, nextConfig := |list| - 1)
  }

  /**
    A finished entry: the cursors, used as tail pointers until now, go to the list heads. The
    later revision gives a missing delay its default.
   */
  function Finished(e: EntryState, mode: Option<string>, revised: bool): EntryState {
    var delay := if revised && e.repeatDelay == 0 && e.repeat > 0 then e.repeat - 1 else e.repeatDelay;
    e.(nextCode := 0, nextConfig := 0, mode := mode, repeatDelay := delay)
  }

  class Entry {
    var prog: Option<string>
    var code: seq<Code>
    var repeat: nat
    var repeatDelay: nat
    var config: seq<string>
    var changeMode: Option<string>
    var flags: set<Flag>
    var mode: Option<string>
    var nextConfig: nat
    var nextCode: nat

    constructor (state: EntryState)
      ensures State() == state
    {
      prog, code, repeat, repeatDelay, config := state.prog, state.code, state.repeat, state.repeatDelay, state.config;
      changeMode, flags, mode := state.changeMode, state.flags, state.mode;
      nextConfig, nextCode := state.nextConfig, state.nextCode;
    }

    ghost function State(): EntryState
      reads this
    {
      EntryState(prog, code, repeat, repeatDelay, config, changeMode, flags, mode, nextConfig, nextCode)
    }

    lemma Fields()
      ensures State().changeMode == changeMode && State().flags == flags && State().mode == mode
    {
    }

    ghost predicate Valid()
      reads this
    {
      State().Valid()
    }

    /** Does the list, shifted by `codes`, cover its own first `nextCode` codes? */
    method Aligns(codes: nat) returns (flag: bool)
      requires Valid() && 1 <= codes <= nextCode < |code|
      ensures flag == Border(code, nextCode, codes)
    {
      flag := true;
      var prev, next := 0, codes;
      while next != nextCode
        invariant next == prev + codes <= nextCode
        invariant flag && forall i :: 0 <= i < prev ==> Covers(code, i, codes)
        decreases nextCode - next
      {
        assert Covers(code, prev, codes) ==
               (CoversName(code[prev].remote, code[next].remote) && CoversName(code[prev].button, code[next].button));
        if code[prev].remote.All? || SameText(code[prev].remote.text, code[next].remote.text) {
          if code[prev].button.All? || SameText(code[prev].button.text, code[next].button.text) {
            prev, next := prev + 1, next + 1;
          } else {
            return false;
          }
        } else {
          return false;
        }
      }
    }

    /** The fallback after a mismatch: try the shifts of the list on itself from the smallest. */
    method Realign(press: Press)
      requires Valid() && nextCode < |code|
      modifies this`nextCode
      ensures nextCode == Realigned(code, old(nextCode), press, 1)
    {
      hide Border, Hits, WildcardsLead;
      var codes := 0;
      if codes == nextCode {
        return;
      }
      codes := codes + 1;
      while codes != nextCode + 1
        invariant nextCode == old(nextCode) && 1 <= codes <= nextCode + 1
        invariant Realigned(code, nextCode, press, 1) == Realigned(code, nextCode, press, codes)
        decreases nextCode + 1 - codes
      {
        var flag := Aligns(codes);
        if flag {
          var prev := nextCode - codes;
          if Hits(code[prev], press) {
            nextCode := prev + 1;
            return;
          }
        }
        codes := codes + 1;
      }
      nextCode := 0;
    }

    method IsCode(press: Press) returns (hit: bool)
      requires Valid()
      modifies this`nextCode
      ensures Answer(hit, nextCode) == Match(old(State()), press)
      ensures State() == Moved(old(State()), nextCode)
      ensures Valid()
    {
      if code == [] {
        return true;
      }
      if Accepts(code[nextCode].remote, press.remote) {
        if Accepts(code[nextCode].button, press.button) {
          if |code| == 1 || press.rep == 0 {
            nextCode := nextCode + 1;
          }
          if nextCode == |code| {
            nextCode := 0;
            return |code| != 1 || (if repeat == 0 then press.rep == 0 else press.rep % repeat == 0);
          } else {
            return false;
          }
        }
      }
      if press.rep != 0 {
        return false;
      }
      Realign(press);
      return false;
    }

    /** A `button` line. */
    method AppendCode(c: Code)
      modifies this`code, this`nextCode
      ensures State() == WithCode(old(State()), c)
    {
      if code == [] {
        code := [c];
      } else {
        code := LinkedBehind(code, nextCode, c);
      }
      nextCode := |code| - 1;
    }

    /** A `config` line. */
    method AppendConfig(text: string)
      modifies this`config, this`nextConfig
      ensures State() == WithConfig(old(State()), text)
    {
      if config == [] {
        config := [text];
      } else {
        config := LinkedBehind(config, nextConfig, text);
      }
      nextConfig := |config| - 1;
    }

    /** The `end` of the block. */
    method Finish(mode: Option<string>, revised: bool)
      modifies this`nextCode, this`nextConfig, this`mode, this`repeatDelay
      ensures State() == Finished(old(State()), mode, revised)
    {
      nextCode := 0;
      nextConfig := 0;
      this.mode := mode;
      if revised && repeatDelay == 0 && repeat > 0 {
        repeatDelay := repeat - 1;
      }
    }

    /** `scan->change_mode = NULL` */
    method DropChangeMode()
      modifies this`changeMode
      ensures State() == old(State()).(changeMode := None)
    {
      changeMode := None;
    }

    /** The latching loop body of `lirc_startupmode`. */
    method LatchFor(startupMode: string)
      modifies this`flags
      ensures State() == LatchedFor(old(State()), startupMode)
    {
      if changeMode.Some? && Once in flags && SameText(startupMode, changeMode.value) {
        flags := flags + {Ecno};
      }
    }

    /** The loop body of `lirc_clearmode`. */
    method Unlatch(left: string)
      requires Valid()
      modifies this`flags
      ensures State() == Unlatched(old(State()), left)
      ensures Valid()
    {
      if changeMode.Some? {
        if SameText(changeMode.value, left) {
          flags := flags - {Ecno};
        }
      }
    }

    /** The part of `lirc_execute` that concerns the entry alone: latch and round robin. */
    method Respond(prog: string) returns (s: Option<string>)
      requires Valid()
      modifies this`flags, this`nextConfig
      ensures State() == Responded(old(State()), prog)
      ensures s == Response(old(State()), prog)
      ensures Valid()
    {
      var doOnce := true;
      if changeMode.Some? {
        if Once in flags {
          if Ecno in flags {
            doOnce := false;
          } else {
            flags := flags + {Ecno};
          }
        }
      }
      if nextConfig < |config| && this.prog.Some? && SameText(this.prog.value, prog) && doOnce {
        s := Some(config[nextConfig]);
        nextConfig := nextConfig + 1;
        if nextConfig == |config| {
          nextConfig := 0;
        }
      } else {
        s := None;
      }
    }
  }

  ghost predicate Distinct(first: seq<Entry>) {
    forall i, j :: 0 <= i < j < |first| ==> first[i] != first[j]
  }

  /** The entries as objects, distinct and with these values. */
  ghost predicate Mirrors(first: seq<Entry>, states: seq<EntryState>)
    reads first
  {
    Distinct(first) && |first| == |states| && forall i :: 0 <= i < |first| ==> first[i].State() == states[i]
  }
}
