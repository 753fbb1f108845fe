/**
  The interpreter of `util.c`: it evaluates a format text while reading it, and passes over
  dead segments with a scanner of its own.
 */
module SongFormatter {
  import opened Text
  import opened SongFormat

  function SegmentEnd(s: CString, p: nat): (e: nat)
    requires p <= |s|
    ensures p <= e <= |s| && Delimiter(s, e)
  {
    ParseSegment(s, p).1
  }

  function ChainEnd(s: CString, p: nat): (e: nat)
    requires p <= |s|
    ensures p <= e <= |s|
  {
    ParseChain(s, p).1
  }

  /** Where the segment ends from inside `depth` open groups. */
  function EndFrom(s: CString, p: nat, depth: nat): (e: nat)
    requires p <= |s|
    ensures p <= e <= |s|
    decreases depth
  {
    if depth == 0 then SegmentEnd(s, p) else EndFrom(s, ChainEnd(s, p), depth - 1)
  }

  predicate Ordinary(c: char) {
    c != '[' && c != ']' && c != '|' && c != '&' && c != '#'
  }

  lemma {:induction false} LettersOn(s: CString, p: nat, e: nat)
    requires p <= e <= |s| && forall i :: p <= i < e ==> IsLower(s[i])
    ensures SegmentEnd(s, p) == SegmentEnd(s, e)
    decreases e - p
  {
    if p < e {
      assert ParseAtom(s, p) == (Lit(s[p]), p + 1);
      LettersOn(s, p + 1, e);
    }
  }

  /** Reading one ordinary character as text leads to the same end as reading a whole specifier. */
  lemma {:induction false} OrdinaryOn(s: CString, p: nat)
    requires p < |s| && (Ordinary(s[p]) || (s[p] == '#' && p + 1 == |s|))
    ensures SegmentEnd(s, p) == SegmentEnd(s, p + 1)
    decreases |s| - p
  {
    if s[p] == '%' || s[p] == '#' {
      var e := LabelEnd(s, p + 1);
      LettersOn(s, p + 1, e);
      if e < |s| && s[e] == '%' && s[p] == '%' {
        assert ParseAtom(s, p) == (Label(s[p + 1..e]), e + 1);
        OrdinaryOn(s, e);
      } else {
        assert ParseAtom(s, p) == (Raw(s[p..e]), e);
      }
    } else {
      assert ParseAtom(s, p) == (Lit(s[p]), p + 1);
    }
  }

  lemma SameSegmentEnd(s: CString, p: nat, q: nat)
    requires p <= |s| && q <= |s| && SegmentEnd(s, p) == SegmentEnd(s, q)
    ensures ChainEnd(s, p) == ChainEnd(s, q)
  {
  }

  lemma SameEnd(s: CString, p: nat, q: nat, depth: nat)
    requires p <= |s| && q <= |s| && SegmentEnd(s, p) == SegmentEnd(s, q)
    ensures EndFrom(s, p, depth) == EndFrom(s, q, depth)
  {
    SameSegmentEnd(s, p, q);
  }

  lemma IntoGroup(s: CString, p: nat, depth: nat)
    requires p < |s| && s[p] == '['
    ensures EndFrom(s, p, depth) == EndFrom(s, p + 1, depth + 1)
  {
    var q := ChainEnd(s, p + 1);
    assert ParseAtom(s, p).1 == q;
    assert SegmentEnd(s, p) == SegmentEnd(s, q);
    SameEnd(s, p, q, depth);
  }

  lemma InsideGroup(s: CString, p: nat, depth: nat)
    requires p < |s| && depth > 0
    ensures s[p] == ']' ==> EndFrom(s, p, depth) == EndFrom(s, p + 1, depth - 1)
    ensures s[p] == '|' || s[p] == '&' ==> EndFrom(s, p, depth) == EndFrom(s, p + 1, depth)
  {
    assert Delimiter(s, p) ==> ParseSegment(s, p) == (Nil, p);
    assert s[p] == ']' ==> ChainEnd(s, p) == p + 1;
    assert s[p] == '|' || s[p] == '&' ==> ChainEnd(s, p) == ChainEnd(s, p + 1);
  }

  lemma EndOfText(s: CString, depth: nat)
    ensures EndFrom(s, |s|, depth) == |s|
  {
  }

  /**
    The scanner that counts brackets stops at the very delimiter where evaluation of the
    segment would stop.
   */
  method SkipFormatting(s: CString, start: nat) returns (p: nat)
    requires start <= |s|
    ensures p == SegmentEnd(s, start)
  {
    hide EndFrom, SegmentEnd, ChainEnd;
    p := start;
    var stack := 0;
    assert EndFrom(s, p, 0) == SegmentEnd(s, p) by { EndOutside(s, p); }
    while p < |s|
      invariant start <= p <= |s|
      invariant EndFrom(s, p, stack) == SegmentEnd(s, start)
      decreases |s| - p
    {
      if s[p] == '[' {
        IntoGroup(s, p, stack);
        stack := stack + 1;
      } else if s[p] == '#' && p + 1 < |s| {
        EscapeOn(s, p);
        SameEnd(s, p, p + 2, stack);
        p := p + 1;
      } else if stack > 0 {
        if s[p] == ']' {
          InsideGroup(s, p, stack);
          stack := stack - 1;
        } else if s[p] == '|' || s[p] == '&' {
          InsideGroup(s, p, stack);
        } else {
          OrdinaryOn(s, p);
          SameEnd(s, p, p + 1, stack);
        }
      } else {
        EndOutside(s, p);
        if s[p] == '&' || s[p] == '|' || s[p] == ']' {
          break;
        }
        OrdinaryOn(s, p);
        SameEnd(s, p, p + 1, stack);
      }
      p := p + 1;
    }
    if p == |s| {
      EndOfText(s, stack);
    }
  }

  lemma EndOutside(s: CString, p: nat)
    requires p <= |s|
    ensures EndFrom(s, p, 0) == SegmentEnd(s, p)
    ensures Delimiter(s, p) ==> SegmentEnd(s, p) == p
  {
  }

  lemma EscapeOn(s: CString, p: nat)
    requires p + 1 < |s| && s[p] == '#'
    ensures SegmentEnd(s, p) == SegmentEnd(s, p + 2)
  {
    assert ParseAtom(s, p) == (Esc(s[p + 1]), p + 2);
  }

  // ---- the interpreter ------------------------------------------------------------------

  datatype Result = Result(text: Option<string>, last: nat)

  /** What evaluation of the rest of a chain yields in state `st`. */
  function Rest(song: Song, s: CString, p: nat, st: State): Result
    requires p <= |s|
  {
    var (chain, q, closed) := ParseChain(s, p);
    Result(GroupValue(EvalChain(song, st, chain), closed), q)
  }

  lemma AtomStep(song: Song, s: CString, p: nat, st: State)
    requires p <= |s| && !Delimiter(s, p)
    ensures
      var (atom, q) := ParseAtom(s, p);
      Rest(song, s, p, st) == Rest(song, s, q, ApplyAtom(song, st, atom))
  {
    hide ApplyAtom, ParseAtom, EvalAfter;
    var (atom, q) := ParseAtom(s, p);
    var (seg, e) := ParseSegment(s, q);
    assert ParseSegment(s, p) == (Cons(atom, seg), e);
    var st' := ApplyAtom(song, st, atom);
    assert ApplySegment(song, st, Cons(atom, seg)) == ApplySegment(song, st', seg);
    var rest := ParseChain(s, q);
    match rest.0
    case Last(_) =>
      assert ParseChain(s, p) == (Last(Cons(atom, seg)), rest.1, rest.2);
    case Link(_, op, next) =>
      assert ParseChain(s, p) == (Link(Cons(atom, seg), op, next), rest.1, rest.2);
  }

  lemma GroupStep(song: Song, s: CString, p: nat, st: State)
    requires p < |s| && s[p] == '['
    ensures
      var r := Rest(song, s, p + 1, START);
      Rest(song, s, p, st) == Rest(song, s, r.last, ApplyGroup(st, r.text))
  {
    var r := ParseChain(s, p + 1);
    assert ParseAtom(s, p) == (Group(r.0, r.2), r.1);
    AtomStep(song, s, p, st);
  }

  lemma ConnectiveStep(song: Song, s: CString, p: nat, st: State, op: Op)
    requires p < |s| && s[p] == (if op.Or? then '|' else '&')
    ensures
      if Enters(st, op) then Rest(song, s, p, st) == Rest(song, s, p + 1, EnterState(st, op))
      else Rest(song, s, p, st) == Rest(song, s, SegmentEnd(s, p + 1), st)
  {
    assert ParseSegment(s, p) == (Nil, p);
    var next := ParseChain(s, p + 1);
    assert ParseChain(s, p) == (Link(Nil, op, next.0), next.1, next.2);
    assert EvalChain(song, st, Link(Nil, op, next.0)) == EvalAfter(song, st, op, next.0);
    if !Enters(st, op) {
      var e := SegmentEnd(s, p + 1);
      assert ParseSegment(s, e) == (Nil, e);
      var here := ParseChain(s, e);
      match next.0
      case Last(seg) =>
        assert here == (Last(Nil), next.1, next.2);
      case Link(seg, op', next') =>
        assert here == (Link(Nil, op', next'), next.1, next.2);
        assert EvalChain(song, st, Link(Nil, op', next')) == EvalAfter(song, st, op', next');
    }
  }

  lemma EndStep(song: Song, s: CString, p: nat, st: State)
    requires p <= |s| && (p == |s| || s[p] == ']')
    ensures Rest(song, s, p, st) == if p == |s| then Result(st.ret, p) else Result(GroupValue(st, true), p + 1)
  {
    assert ParseSegment(s, p) == (Nil, p);
    assert EvalChain(song, st, Last(Nil)) == st;
  }

  /** The part of the loop that reads a `%` specifier, or a `#` at the very end. */
  method Specifier(song: Song, s: CString, p: nat, ret: Option<string>, found: bool)
    returns (ret': Option<string>, found': bool, p': nat)
    requires p < |s| && (s[p] == '%' || (s[p] == '#' && p + 1 == |s|))
    ensures
      var a := ParseAtom(s, p);
      State(ret', found') == ApplyAtom(song, State(ret, found), a.0) && p' == a.1
  {
    var end := p + 1;
    while end < |s| && IsLower(s[end])
      invariant p + 1 <= end <= |s|
      invariant forall i :: p + 1 <= i < end ==> IsLower(s[i])
    {
      end := end + 1;
    }
    var length := end - p + 1;
    var tag := Unknown;
    if !(end < |s| && s[end] == '%') {
      length := length - 1;
    } else {
      tag := song(s[p + 1..end]);
    }
    ret', found', p' := ret, found, p + length;
    match tag {
      case Unknown => ret' := Append(ret, s[p..p + length]);
      case Missing =>
      case Value(text) =>
        found' := true;
        ret' := Append(ret, text);
    }
    LabelEndUnique(s, p + 1, end);
    if end < |s| && s[end] == '%' {
      assert s[p..end + 1] == "%" + s[p + 1..end] + "%";
    }
  }

  lemma {:induction false} LabelEndUnique(s: CString, p: nat, e: nat)
    requires p <= e <= |s| && (forall i :: p <= i < e ==> IsLower(s[i])) && (e < |s| ==> !IsLower(s[e]))
    ensures LabelEnd(s, p) == e
    decreases e - p
  {
    if p < e {
      LabelEndUnique(s, p + 1, e);
    }
  }

  /**
    `songToFormatedString`: for every text, song and starting point the result is the meaning
    of the tree read from there, and `last` is the end of that tree, whatever the song.
   */
  method Format(song: Song, s: CString, start: nat) returns (ret: Option<string>, last: nat)
    requires start <= |s|
    ensures
      var (chain, q, closed) := ParseChain(s, start);
      last == q && ret == GroupValue(EvalChain(song, START, chain), closed)
    decreases |s| - start
  {
    hide Rest, ParseChain, ParseSegment, EvalChain, EvalAfter, SegmentEnd;
    ghost var whole := Rest(song, s, start, START);
    assert whole == Result(GroupValue(EvalChain(song, START, ParseChain(s, start).0), ParseChain(s, start).2), ParseChain(s, start).1) by {
      RestUnfolds(song, s, start, START);
    }
    ret := None;
    var found, p := false, start;
    while p < |s|
      invariant start <= p <= |s|
      invariant Rest(song, s, p, State(ret, found)) == whole
      decreases |s| - p
    {
      ghost var st := State(ret, found);
      if s[p] == '|' {
        ConnectiveStep(song, s, p, st, Or);
        p := p + 1;
        if !found {
          ret := None;
        } else {
          p := SkipFormatting(s, p);
        }
        continue;
      }
      if s[p] == '&' {
        ConnectiveStep(song, s, p, st, And);
        p := p + 1;
        if !found {
          p := SkipFormatting(s, p);
        } else {
          found := false;
        }
        continue;
      }
      if s[p] == '[' {
        GroupStep(song, s, p, st);
        RestUnfolds(song, s, p + 1, START);
        var temp;
        temp, p := Format(song, s, p + 1);
        if temp.Some? {
          ret := Append(ret, temp.value);
          found := true;
        }
        continue;
      }
      if s[p] == ']' {
        EndStep(song, s, p, st);
        last := p + 1;
        if !found {
          ret := None;
        }
        return;
      }
      AtomStep(song, s, p, st);
      if s[p] != '#' && s[p] != '%' {
        ret := Append(ret, [s[p]]);
        p := p + 1;
        continue;
      }
      if s[p] == '#' && p + 1 < |s| {
        ret := Append(ret, [s[p + 1]]);
        p := p + 2;
        continue;
      }
      ret, found, p := Specifier(song, s, p, ret, found);
    }
    EndStep(song, s, p, State(ret, found));
    last := p;
  }

  lemma RestUnfolds(song: Song, s: CString, p: nat, st: State)
    requires p <= |s|
    ensures
      var (chain, q, closed) := ParseChain(s, p);
      Rest(song, s, p, st) == Result(GroupValue(EvalChain(song, st, chain), closed), q)
  {
  }
}
