/**
  The key-sequence matcher: one cursor into a list of codes, moved by a stream of key
  presses. The stepping functions follow the code; `LongestTail` says what they are for.
 */
module KeySequence {
  import opened Text

  /** A remote or button name in a `button` line; `All` is LIRC_ALL, written `*`. */
  datatype Name = All | Named(text: string)

  datatype Code = Code(remote: Name, button: Name)

  /** `rep` is the repeat counter sent by the daemon: 0 for a fresh press. */
  datatype Press = Press(remote: string, button: string, rep: nat)

  predicate Accepts(pattern: Name, text: string) {
    pattern.All? || SameText(pattern.text, text)
  }

  predicate Hits(code: Code, press: Press) {
    Accepts(code.remote, press.remote) && Accepts(code.button, press.button)
  }

  /** Comparing two names of the list; LIRC_ALL is no string, so it must not be on the right alone. */
  predicate Comparable(pattern: Name, other: Name) {
    pattern.All? || other.Named?
  }

  predicate CoversName(pattern: Name, other: Name)
    requires Comparable(pattern, other)
  {
    pattern.All? || SameText(pattern.text, other.text)
  }

  /**
    No shift of the list on itself compares a name with LIRC_ALL: among all codes but the
    last, the wildcards of each field come first.
   */
  predicate WildcardsLead(code: seq<Code>) {
    forall i, j :: 0 <= i < j < |code| - 1 ==>
      Comparable(code[i].remote, code[j].remote) && Comparable(code[i].button, code[j].button)
  }

  predicate Covers(code: seq<Code>, i: nat, shift: nat)
    requires WildcardsLead(code) && 1 <= shift && i + shift < |code| - 1
  {
    var other := code[i + shift];
    CoversName(code[i].remote, other.remote) && CoversName(code[i].button, other.button)
  }

  /** Shifted by `shift`, the list covers its own first `cursor` codes. */
  predicate Border(code: seq<Code>, cursor: nat, shift: nat)
    requires WildcardsLead(code) && cursor < |code| && 1 <= shift <= cursor
  {
    forall i :: 0 <= i < cursor - shift ==> Covers(code, i, shift)
  }

  /** The cursor after a mismatch: the first shift from `shift` on that fits, or the list head. */
  function Realigned(code: seq<Code>, cursor: nat, press: Press, shift: nat): (c: nat)
    requires WildcardsLead(code) && cursor < |code| && 1 <= shift <= cursor + 1
    ensures c <= cursor
    decreases cursor - shift + 1
  {
    if shift == cursor + 1 then 0
    else if Border(code, cursor, shift) && Hits(code[cursor - shift], press) then cursor - shift + 1
    else Realigned(code, cursor, press, shift + 1)
  }

  /** What a completed single-code entry answers on the `rep`-th repeat of the key. */
  predicate RepeatRule(repeat: nat, rep: nat) {
    if repeat == 0 then rep == 0 else rep % repeat == 0
  }

  datatype Answer = Answer(hit: bool, cursor: nat)

  predicate CursorValid(code: seq<Code>, cursor: nat) {
    if code == [] then cursor == 0 else cursor < |code|
  }

  /** One call of `lirc_iscode`; `single` is the verdict for a completed single-code list. */
  function Step(code: seq<Code>, single: bool, cursor: nat, press: Press): (a: Answer)
    requires WildcardsLead(code) && CursorValid(code, cursor)
    ensures CursorValid(code, a.cursor)
  {
    if code == [] then Answer(true, 0)
    else if Hits(code[cursor], press) then
      var c := if |code| == 1 || press.rep == 0 then cursor + 1 else cursor;
      if c == |code| then Answer(|code| != 1 || single, 0) else Answer(false, c)
    else if press.rep != 0 then Answer(false, cursor)
    else Answer(false, Realigned(code, cursor, press, 1))
  }

  // ---- what the cursor means ---------------------------------------------------------

  /** The first `len` codes match the last `len` presses. */
  predicate MatchesTail(code: seq<Code>, presses: seq<Press>, len: nat) {
    len <= |code| && len <= |presses| &&
    forall i :: 0 <= i < len ==> Hits(code[i], presses[|presses| - len + i])
  }

  /** `cursor` is the length of the longest proper prefix of the list matching the last presses. */
  predicate LongestTail(code: seq<Code>, presses: seq<Press>, cursor: nat) {
    cursor < |code| && MatchesTail(code, presses, cursor) &&
    forall len: nat :: cursor < len < |code| ==> !MatchesTail(code, presses, len)
  }

  /** The fresh presses since the list was last completed. */
  function SinceCompletion(code: seq<Code>, presses: seq<Press>): seq<Press> {
    if presses == [] then []
    else
      var before := SinceCompletion(code, presses[..|presses| - 1]);
      var press := presses[|presses| - 1];
      if press.rep != 0 then before
      else if MatchesTail(code, before + [press], |code|) then []
      else before + [press]
  }

  /** The cursor after a run of presses from a freshly read entry. */
  function RunCursor(code: seq<Code>, repeat: nat, presses: seq<Press>): (c: nat)
    requires WildcardsLead(code)
    ensures CursorValid(code, c)
  {
    if presses == [] then 0
    else
      var press := presses[|presses| - 1];
      Step(code, RepeatRule(repeat, press.rep),
           RunCursor(code, repeat, presses[..|presses| - 1]), press).cursor
  }

  lemma MatchesTailExtend(code: seq<Code>, presses: seq<Press>, press: Press, len: nat)
    requires 1 <= len <= |code|
    ensures MatchesTail(code, presses + [press], len)
        <==> MatchesTail(code, presses, len - 1) && Hits(code[len - 1], press)
  {
    var all := presses + [press];
    if MatchesTail(code, all, len) {
      forall i | 0 <= i < len - 1
        ensures Hits(code[i], presses[|presses| - (len - 1) + i])
      {
        assert Hits(code[i], all[|all| - len + i]);
      }
      assert Hits(code[len - 1], all[|all| - len + (len - 1)]);
    }
  }

  /** Below a matched prefix, shifting the list on itself and looking at the presses agree. */
  lemma BorderIsTail(code: seq<Code>, presses: seq<Press>, cursor: nat, shift: nat)
    requires WildcardsLead(code) && cursor < |code| && 1 <= shift <= cursor
    requires MatchesTail(code, presses, cursor)
    ensures Border(code, cursor, shift) <==> MatchesTail(code, presses, cursor - shift)
  {
    var len := cursor - shift;
    forall i | 0 <= i < len
      ensures Covers(code, i, shift) <==> Hits(code[i], presses[|presses| - len + i])
    {
      assert Hits(code[i + shift], presses[|presses| - cursor + (i + shift)]);
    }
  }

  lemma {:induction false} RealignedIsLongest(code: seq<Code>, presses: seq<Press>, cursor: nat, press: Press, shift: nat)
    requires WildcardsLead(code) && LongestTail(code, presses, cursor)
    requires 1 <= shift <= cursor + 1
    requires forall len: nat :: cursor - shift + 1 < len < |code| ==> !MatchesTail(code, presses + [press], len)
    ensures LongestTail(code, presses + [press], Realigned(code, cursor, press, shift))
    decreases cursor - shift + 1
  {
    if shift <= cursor {
      BorderIsTail(code, presses, cursor, shift);
      MatchesTailExtend(code, presses, press, cursor - shift + 1);
      if !(Border(code, cursor, shift) && Hits(code[cursor - shift], press)) {
        RealignedIsLongest(code, presses, cursor, press, shift + 1);
      }
    }
  }

  /** One fresh press: completion is reported exactly when the whole list matches, and the cursor stays longest. */
  lemma StepExact(code: seq<Code>, single: bool, presses: seq<Press>, cursor: nat, press: Press)
    requires |code| >= 2 && WildcardsLead(code) && press.rep == 0
    requires LongestTail(code, presses, cursor)
    ensures
      var a := Step(code, single, cursor, press);
      var complete := MatchesTail(code, presses + [press], |code|);
      a.hit == complete && LongestTail(code, if complete then [] else presses + [press], a.cursor)
  {
    forall len: nat | 1 <= len <= |code|
      ensures MatchesTail(code, presses + [press], len)
          <==> MatchesTail(code, presses, len - 1) && Hits(code[len - 1], press)
    {
      MatchesTailExtend(code, presses, press, len);
    }
    assert MatchesTail(code, presses + [press], cursor + 1) <==> Hits(code[cursor], press);
    forall len: nat | cursor + 1 < len <= |code|
      ensures !MatchesTail(code, presses + [press], len)
    {
      assert !MatchesTail(code, presses, len - 1);
    }
    if !Hits(code[cursor], press) {
      RealignedIsLongest(code, presses, cursor, press, 1);
    }
  }

  /**
    Sequence matching is exact: over any run of presses the cursor is the longest matching
    prefix of the fresh presses since the last completion, and the next press is reported as
    a completion exactly when it is fresh and the last presses match the whole list.
   */
  lemma {:induction false} MatcherExact(code: seq<Code>, repeat: nat, presses: seq<Press>, press: Press)
    requires |code| >= 2 && WildcardsLead(code)
    ensures
      var since := SinceCompletion(code, presses);
      var cursor := RunCursor(code, repeat, presses);
      && LongestTail(code, since, cursor)
      && Step(code, RepeatRule(repeat, press.rep), cursor, press).hit
         == (press.rep == 0 && MatchesTail(code, since + [press], |code|))
      && (press.rep != 0 ==> Step(code, RepeatRule(repeat, press.rep), cursor, press).cursor == cursor)
    decreases |presses|
  {
    var since := SinceCompletion(code, presses);
    var cursor := RunCursor(code, repeat, presses);
    if presses != [] {
      var before, last := presses[..|presses| - 1], presses[|presses| - 1];
      MatcherExact(code, repeat, before, last);
      if last.rep == 0 {
        StepExact(code, RepeatRule(repeat, 0), SinceCompletion(code, before), RunCursor(code, repeat, before), last);
      }
    }
    if press.rep == 0 {
      StepExact(code, RepeatRule(repeat, 0), since, cursor, press);
    }
  }

  /** A list of one code never leaves its head; it answers each matching press by the repeat rule. */
  lemma {:induction false} SingleCodeExact(code: seq<Code>, repeat: nat, press: Press)
    requires |code| == 1
    ensures
      var a := Step(code, RepeatRule(repeat, press.rep), 0, press);
      a.cursor == 0 && (a.hit <==> Hits(code[0], press) && RepeatRule(repeat, press.rep))
  {
    if !Hits(code[0], press) {
      assert Realigned(code, 0, press, 1) == 0;
    }
  }
}
