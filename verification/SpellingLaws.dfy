/** What the matcher answers, in terms of the letters of names and of repeat counts. */
module SpellingLaws {
  import opened Text
  import opened Arithmetic
  import opened KeySequence
  import opened Revision7

  /** A field of a `button` line takes every name, or its own in capital or lower-case letters. */
  predicate Takes(pattern: Name, text: string) {
    pattern.All? || SameSpelling(pattern.text, text)
  }

  lemma {:induction false} HitsIff(code: Code, press: Press)
    ensures Hits(code, press) <==> Takes(code.remote, press.remote) && Takes(code.button, press.button)
  {
    if code.remote.Named? {
      SameTextIff(code.remote.text, press.remote);
    }
    if code.button.Named? {
      SameTextIff(code.button.text, press.button);
    }
  }

  predicate Alike(p: Press, q: Press) {
    p.rep == q.rep && SameSpelling(p.remote, q.remote) && SameSpelling(p.button, q.button)
  }

  lemma AlikeHits(code: Code, p: Press, q: Press)
    requires Alike(p, q)
    ensures Hits(code, p) <==> Hits(code, q)
  {
    SameTextIff(p.remote, q.remote);
    SameTextIff(p.button, q.button);
  }

  lemma {:induction false} AlikeRealigns(code: seq<Code>, cursor: nat, p: Press, q: Press, shift: nat)
    requires WildcardsLead(code) && cursor < |code| && 1 <= shift <= cursor + 1 && Alike(p, q)
    ensures Realigned(code, cursor, p, shift) == Realigned(code, cursor, q, shift)
    decreases cursor - shift + 1
  {
    hide Hits, Alike, WildcardsLead, Border;
    if shift <= cursor {
      AlikeHits(code[cursor - shift], p, q);
      AlikeRealigns(code, cursor, p, q, shift + 1);
    }
  }

  /** A press is answered in the same way in whatever letters it is spelt, from every cursor. */
  lemma {:induction false} StepIgnoresCase(code: seq<Code>, single: bool, cursor: nat, p: Press, q: Press)
    requires WildcardsLead(code) && CursorValid(code, cursor) && Alike(p, q)
    ensures Step(code, single, cursor, p) == Step(code, single, cursor, q)
  {
    hide Hits, WildcardsLead, Realigned;
    if code != [] {
      AlikeHits(code[cursor], p, q);
      AlikeRealigns(code, cursor, p, q, 1);
    }
  }

  /** Each press is spelt like the code at its place, in capital or lower-case letters. */
  predicate Plays(code: seq<Code>, presses: seq<Press>) {
    |presses| <= |code| && forall i :: 0 <= i < |presses| ==>
      presses[i].rep == 0 && Takes(code[i].remote, presses[i].remote) && Takes(code[i].button, presses[i].button)
  }

  lemma PlaysMatches(code: seq<Code>, presses: seq<Press>)
    requires Plays(code, presses)
    ensures MatchesTail(code, presses, |presses|)
  {
    hide Hits, Takes;
    forall i | 0 <= i < |presses|
      ensures Hits(code[i], presses[i])
    {
      HitsIff(code[i], presses[i]);
    }
  }

  lemma {:induction false} NothingCompleted(code: seq<Code>, presses: seq<Press>)
    requires Plays(code, presses) && |presses| < |code|
    ensures SinceCompletion(code, presses) == presses
    decreases |presses|
  {
    hide Takes, Hits;
    if presses != [] {
      var before := presses[..|presses| - 1];
      NothingCompleted(code, before);
      assert before + [presses[|presses| - 1]] == presses;
    }
  }

  /**
    Playing a sequence from the start, in capital or lower-case letters, moves the cursor press
    by press and is reported at the last one.
   */
  lemma {:induction false} PlayingAnswers(code: seq<Code>, repeat: nat, presses: seq<Press>, press: Press)
    requires |code| >= 2 && WildcardsLead(code) && Plays(code, presses + [press])
    ensures RunCursor(code, repeat, presses) == |presses|
    ensures Step(code, RepeatRule(repeat, press.rep), |presses|, press).hit <==> |presses| + 1 == |code|
  {
    var all := presses + [press];
    assert all[|presses|] == press && forall i :: 0 <= i < |presses| ==> all[i] == presses[i];
    assert Plays(code, presses);
    PlaysMatches(code, presses);
    PlaysMatches(code, all);
    NothingCompleted(code, presses);
    hide Plays, MatchesTail, Step, SinceCompletion, WildcardsLead;
    MatcherExact(code, repeat, presses, press);
    LongestIsAll(code, presses, RunCursor(code, repeat, presses));
    OnlyWhole(code, all);
  }

  lemma LongestIsAll(code: seq<Code>, presses: seq<Press>, cursor: nat)
    requires LongestTail(code, presses, cursor) && MatchesTail(code, presses, |presses|) && |presses| < |code|
    ensures cursor == |presses|
  {
  }

  lemma OnlyWhole(code: seq<Code>, presses: seq<Press>)
    requires MatchesTail(code, presses, |presses|)
    ensures MatchesTail(code, presses, |code|) <==> |presses| == |code|
  {
  }

  /** An entry with one button answers that button, in any letters, by its repeat rule. */
  lemma {:induction false} SingleAnswers(code: seq<Code>, repeat: nat, press: Press)
    requires |code| == 1
    ensures Step(code, RepeatRule(repeat, press.rep), 0, press).hit
        <==> Takes(code[0].remote, press.remote) && Takes(code[0].button, press.button) && RepeatRule(repeat, press.rep)
  {
    hide Hits, Takes, RepeatRule;
    HitsIff(code[0], press);
    SingleCodeExact(code, repeat, press);
  }

  /** An entry without buttons answers every press. */
  lemma CodelessAnswers(repeat: nat, press: Press)
    ensures Step([], RepeatRule(repeat, press.rep), 0, press) == Answer(true, 0)
  {
  }

  // ---- repeats -----------------------------------------------------------------------------

  lemma Multiple(a: nat, n: nat)
    requires n > 0
    ensures a % n == 0 <==> exists k: nat :: a == k * n
  {
    if a % n == 0 {
      assert a == (a / n) * n;
    }
    if k: nat :| a == k * n {
      RemainderUnique(a, n, k, 0);
    }
  }

  /** The fresh press is answered, and then every `repeat`-th repeat. */
  lemma {:induction false} RepeatRuleIff(repeat: nat, rep: nat)
    ensures RepeatRule(repeat, rep) <==> exists k: nat :: rep == k * repeat
  {
    if repeat > 0 {
      Multiple(rep, repeat);
    } else {
      assert rep == 0 ==> rep == 0 * repeat;
    }
  }

  /** In the later revision `delay` repeats are skipped before that. */
  lemma {:induction false} DelayedRuleIff(repeat: nat, delay: nat, rep: nat)
    ensures DelayedRule(repeat, delay, rep) <==> rep == 0 || (repeat > 0 && exists k: nat :: rep == delay + 1 + k * repeat)
  {
    if repeat > 0 && rep > delay {
      Multiple(rep - delay - 1, repeat);
      if k: nat :| rep - delay - 1 == k * repeat {
        assert rep == delay + 1 + k * repeat;
      }
      if k: nat :| rep == delay + 1 + k * repeat {
        assert rep - delay - 1 == k * repeat;
      }
    }
  }
}
