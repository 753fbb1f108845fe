/** Laws of the title-format language: reading and printing are inverse, and what chains mean. */
module FormatLaws {
  import opened Text
  import opened SongFormat
  import opened SongFormatter

  // ---- printing ------------------------------------------------------------------------

  function PrintAtom(atom: Atom): string
    decreases atom, 0
  {
    match atom
    case Lit(c) => [c]
    case Esc(c) => ['#', c]
    case Label(name) => "%" + name + "%"
    case Raw(text) => text
    case Group(body, closed) => "[" + PrintChain(body) + (if closed then "]" else "")
  }

  function PrintSegment(seg: Segment): string
    decreases seg, 0
  {
    match seg
    case Nil => ""
    case Cons(head, tail) => PrintAtom(head) + PrintSegment(tail)
  }

  function PrintOp(op: Op): string {
    if op.Or? then "|" else "&"
  }

  function PrintChain(chain: Chain): string
    decreases chain, 1
  {
    match chain
    case Last(seg) => PrintSegment(seg)
    case Link(seg, op, next) => PrintSegment(seg) + (PrintOp(op) + PrintChain(next))
  }

  function Closing(closed: bool): string {
    if closed then "]" else ""
  }

  lemma Slice(s: string, p: nat, q: nat, e: nat)
    requires p <= q <= e <= |s|
    ensures s[p..e] == s[p..q] + s[q..e]
  {
  }

  /** What `ParseChain` reads at `p`, by the delimiter that ends the first segment. */
  lemma ChainCases(s: CString, p: nat)
    requires p <= |s|
    ensures
      var (seg, e) := ParseSegment(s, p);
      if e == |s| then ParseChain(s, p) == (Last(seg), e, false)
      else if s[e] == ']' then ParseChain(s, p) == (Last(seg), e + 1, true)
      else
        var next := ParseChain(s, e + 1);
        var op := if s[e] == '|' then Or else And;
        s[e..e + 1] == PrintOp(op) && ParseChain(s, p) == (Link(seg, op, next.0), next.1, next.2)
  {
  }

  lemma PrintCases(seg: Segment, op: Op, next: Chain, closed: bool)
    ensures PrintChain(Last(seg)) == PrintSegment(seg)
    ensures PrintChain(Link(seg, op, next)) + Closing(closed)
         == PrintSegment(seg) + (PrintOp(op) + (PrintChain(next) + Closing(closed)))
  {
  }

  /** Reading loses nothing: the tree of any text prints as the text that was read. */
  lemma {:induction false} ChainPrintsBack(s: CString, p: nat)
    requires p <= |s|
    ensures var (chain, q, closed) := ParseChain(s, p); s[p..q] == PrintChain(chain) + Closing(closed)
    decreases |s| - p, 2
  {
    hide ParseChain, ParseSegment, PrintChain, PrintSegment, PrintOp;
    var (seg, e) := ParseSegment(s, p);
    SegmentPrintsBack(s, p);
    ChainCases(s, p);
    if e < |s| && s[e] != ']' {
      var (next, q, closed) := ParseChain(s, e + 1);
      ChainPrintsBack(s, e + 1);
      PrintCases(seg, if s[e] == '|' then Or else And, next, closed);
      Slice(s, p, e, q);
      Slice(s, e, e + 1, q);
    } else {
      PrintCases(seg, Or, Last(Nil), false);
      if e < |s| {
        assert s[e..e + 1] == "]";
        Slice(s, p, e, e + 1);
      }
    }
  }

  lemma {:induction false} SegmentPrintsBack(s: CString, p: nat)
    requires p <= |s|
    ensures var (seg, e) := ParseSegment(s, p); s[p..e] == PrintSegment(seg)
    decreases |s| - p, 1
  {
    if !Delimiter(s, p) {
      var (atom, q) := ParseAtom(s, p);
      var (tail, e) := ParseSegment(s, q);
      AtomPrintsBack(s, p);
      SegmentPrintsBack(s, q);
      Slice(s, p, q, e);
    }
  }

  lemma {:induction false} AtomPrintsBack(s: CString, p: nat)
    requires p <= |s| && !Delimiter(s, p)
    ensures var (atom, q) := ParseAtom(s, p); s[p..q] == PrintAtom(atom)
    decreases |s| - p, 0
  {
    hide ParseChain, PrintChain;
    if s[p] == '[' {
      var (body, q, closed) := ParseChain(s, p + 1);
      ChainPrintsBack(s, p + 1);
      Slice(s, p, p + 1, q);
      assert s[p..p + 1] == "[";
      assert ParseAtom(s, p) == (Group(body, closed), q);
    } else if s[p] == '%' {
      SpecifierPrintsBack(s, p);
    }
  }

  lemma SpecifierPrintsBack(s: CString, p: nat)
    requires p < |s| && s[p] == '%'
    ensures var (atom, q) := ParseAtom(s, p); s[p..q] == PrintAtom(atom)
  {
    hide LabelEnd, Delimiter, ParseChain, PrintChain;
    var e := LabelEnd(s, p + 1);
    if e < |s| && s[e] == '%' {
      LabelSlice(s, p, e);
    }
  }

  lemma LabelSlice(s: string, p: nat, e: nat)
    requires p < e < |s| && s[p] == '%' && s[e] == '%'
    ensures s[p..e + 1] == "%" + s[p + 1..e] + "%"
  {
    Slice(s, p, p + 1, e + 1);
    Slice(s, p + 1, e, e + 1);
    assert s[p..p + 1] == "%";
    assert s[e..e + 1] == "%";
    Reassociate("%", s[p + 1..e], "%");
  }

  // ---- reading a printed tree ------------------------------------------------------------

  /** Trees as one would write them: no stray special characters, every group and label closed. */
  predicate WellFormedAtom(atom: Atom)
    decreases atom, 0
  {
    match atom
    case Lit(c) => Ordinary(c) && c != '%' && c != '\0'
    case Esc(c) => c != '\0'
    case Label(name) => forall i :: 0 <= i < |name| ==> IsLower(name[i])
    case Raw(_) => false
    case Group(body, closed) => closed && WellFormed(body)
  }

  predicate WellFormedSegment(seg: Segment)
    decreases seg, 0
  {
    match seg
    case Nil => true
    case Cons(head, tail) => WellFormedAtom(head) && WellFormedSegment(tail)
  }

  predicate WellFormed(chain: Chain)
    decreases chain, 1
  {
    match chain
    case Last(seg) => WellFormedSegment(seg)
    case Link(seg, _, next) => WellFormedSegment(seg) && WellFormed(next)
  }

  lemma FirstOf(s: string, p: nat, t: string)
    requires Stands(s, p, t) && t != ""
    ensures s[p] == t[0]
  {
    assert s[p + 0] == t[0];
  }

  lemma LabelReadsBack(s: CString, p: nat, name: string)
    requires WellFormedAtom(Label(name)) && Stands(s, p, PrintAtom(Label(name)))
    ensures p < |s| && !Delimiter(s, p) && ParseAtom(s, p) == (Label(name), p + 2 + |name|)
  {
    hide ParseChain, ParseSegment;
    var e := p + 1 + |name|;
    StandsConcat(s, p, "%" + name, "%");
    StandsConcat(s, p, "%", name);
    FirstOf(s, p, "%");
    FirstOf(s, e, "%");
    assert s[p + 1..e] == name;
    forall i | p + 1 <= i < e
      ensures IsLower(s[i])
    {
      assert s[p + 1 + (i - p - 1)] == name[i - p - 1];
    }
    LabelEndUnique(s, p + 1, e);
  }

  lemma {:induction false} GroupReadsBack(s: CString, p: nat, body: Chain)
    requires WellFormed(body) && Stands(s, p, PrintAtom(Group(body, true)))
    ensures p < |s| && !Delimiter(s, p) && ParseAtom(s, p) == (Group(body, true), p + 2 + |PrintChain(body)|)
    decreases body, 2
  {
    hide ParseSegment, PrintChain, WellFormed;
    var e := p + 1 + |PrintChain(body)|;
    StandsConcat(s, p, "[" + PrintChain(body), "]");
    StandsConcat(s, p, "[", PrintChain(body));
    FirstOf(s, p, "[");
    FirstOf(s, e, "]");
    ChainReadsBack(s, p + 1, body);
  }

  lemma {:induction false} AtomReadsBack(s: CString, p: nat, atom: Atom)
    requires WellFormedAtom(atom) && Stands(s, p, PrintAtom(atom))
    ensures p < |s| && !Delimiter(s, p) && ParseAtom(s, p) == (atom, p + |PrintAtom(atom)|)
    decreases atom, 0
  {
    hide ParseChain, ParseSegment, PrintChain, WellFormed;
    match atom
    case Lit(c) =>
      FirstOf(s, p, [c]);
    case Esc(c) =>
      assert PrintAtom(atom) == "#" + [c];
      StandsConcat(s, p, "#", [c]);
      FirstOf(s, p, "#");
      FirstOf(s, p + 1, [c]);
    case Label(name) =>
      LabelReadsBack(s, p, name);
    case Group(body, _) =>
      GroupReadsBack(s, p, body);
  }

  lemma {:induction false} SegmentReadsBack(s: CString, p: nat, seg: Segment)
    requires WellFormedSegment(seg) && Stands(s, p, PrintSegment(seg)) && Delimiter(s, p + |PrintSegment(seg)|)
    ensures ParseSegment(s, p) == (seg, p + |PrintSegment(seg)|)
    decreases seg, 0
  {
    match seg
    case Nil =>
    case Cons(head, tail) =>
      StandsConcat(s, p, PrintAtom(head), PrintSegment(tail));
      AtomReadsBack(s, p, head);
      var q := p + |PrintAtom(head)|;
      assert q + |PrintSegment(tail)| == p + |PrintSegment(seg)|;
      SegmentReadsBack(s, q, tail);
  }

  lemma LinkAt(s: string, p: nat, seg: Segment, op: Op, next: Chain)
    requires Stands(s, p, PrintChain(Link(seg, op, next)))
    ensures
      var e := p + |PrintSegment(seg)|;
      && Stands(s, p, PrintSegment(seg)) && Stands(s, e + 1, PrintChain(next))
      && s[e] == (if op.Or? then '|' else '&')
      && p + |PrintChain(Link(seg, op, next))| == e + 1 + |PrintChain(next)|
  {
    var tail := PrintOp(op) + PrintChain(next);
    StandsConcat(s, p, PrintSegment(seg), tail);
    var e := p + |PrintSegment(seg)|;
    StandsConcat(s, e, PrintOp(op), PrintChain(next));
    FirstOf(s, e, PrintOp(op));
  }

  lemma {:induction false} ChainReadsBack(s: CString, p: nat, chain: Chain)
    requires WellFormed(chain) && Stands(s, p, PrintChain(chain))
    requires var e := p + |PrintChain(chain)|; e == |s| || s[e] == ']'
    ensures
      var e := p + |PrintChain(chain)|;
      ParseChain(s, p) == if e == |s| then (chain, e, false) else (chain, e + 1, true)
    decreases chain, 1
  {
    hide ParseChain, ParseSegment, PrintSegment, WellFormedSegment, Stands;
    match chain
    case Last(seg) =>
      LastReadsBack(s, p, seg);
    case Link(seg, op, next) =>
      LinkAt(s, p, seg, op, next);
      hide PrintChain;
      SegmentReadsBack(s, p, seg);
      ChainReadsBack(s, p + |PrintSegment(seg)| + 1, next);
      LinkRead(s, p, seg, p + |PrintSegment(seg)|, op);
  }

  lemma LinkRead(s: CString, p: nat, seg: Segment, e: nat, op: Op)
    requires p <= e < |s| && ParseSegment(s, p) == (seg, e) && s[e] == (if op.Or? then '|' else '&')
    ensures
      var r := ParseChain(s, e + 1);
      ParseChain(s, p) == (Link(seg, op, r.0), r.1, r.2)
  {
  }

  lemma {:induction false} LastReadsBack(s: CString, p: nat, seg: Segment)
    requires WellFormedSegment(seg) && Stands(s, p, PrintSegment(seg))
    requires var e := p + |PrintSegment(seg)|; e == |s| || s[e] == ']'
    ensures
      var e := p + |PrintSegment(seg)|;
      ParseChain(s, p) == if e == |s| then (Last(seg), e, false) else (Last(seg), e + 1, true)
    decreases seg, 1
  {
    assert p + |PrintSegment(seg)| <= |s|;
    hide ParseChain, ParseSegment, PrintSegment, WellFormedSegment, Stands;
    ChainCases(s, p);
    SegmentReadsBack(s, p, seg);
  }

  lemma {:induction false} PrintedHasNoTerminator(chain: Chain)
    requires WellFormed(chain)
    ensures '\0' !in PrintChain(chain)
    decreases chain, 1
  {
    match chain
    case Last(seg) => SegmentHasNoTerminator(seg);
    case Link(seg, _, next) =>
      SegmentHasNoTerminator(seg);
      PrintedHasNoTerminator(next);
  }

  lemma {:induction false} SegmentHasNoTerminator(seg: Segment)
    requires WellFormedSegment(seg)
    ensures '\0' !in PrintSegment(seg)
    decreases seg, 0
  {
    match seg
    case Nil =>
    case Cons(head, tail) =>
      SegmentHasNoTerminator(tail);
      if head.Group? {
        PrintedHasNoTerminator(head.body);
      }
  }

  /**
    Interpreting the printed form of a tree is evaluating the tree: the same optional text,
    and the whole of the printed form is read.
   */
  lemma {:induction false} PrintedFormMeansTree(song: Song, chain: Chain)
    requires WellFormed(chain)
    ensures '\0' !in PrintChain(chain)
    ensures
      var s := PrintChain(chain);
      Rest(song, s, 0, START) == Result(EvalChain(song, START, chain).ret, |s|)
  {
    PrintedHasNoTerminator(chain);
    ChainReadsBack(PrintChain(chain), 0, chain);
  }

  // ---- found means text ------------------------------------------------------------------

  predicate TextWhenFound(st: State) {
    st.found ==> st.ret.Some?
  }

  lemma {:induction false} SegmentTextWhenFound(song: Song, st: State, seg: Segment)
    requires TextWhenFound(st)
    ensures TextWhenFound(ApplySegment(song, st, seg))
    decreases seg
  {
    match seg
    case Nil =>
    case Cons(head, tail) => SegmentTextWhenFound(song, ApplyAtom(song, st, head), tail);
  }

  lemma {:induction false} ChainTextWhenFound(song: Song, st: State, chain: Chain)
    requires TextWhenFound(st)
    ensures TextWhenFound(EvalChain(song, st, chain))
    decreases chain, 0
  {
    match chain
    case Last(seg) => SegmentTextWhenFound(song, st, seg);
    case Link(seg, op, next) =>
      SegmentTextWhenFound(song, st, seg);
      AfterTextWhenFound(song, ApplySegment(song, st, seg), op, next);
  }

  lemma {:induction false} AfterTextWhenFound(song: Song, st: State, op: Op, chain: Chain)
    requires TextWhenFound(st)
    ensures TextWhenFound(EvalAfter(song, st, op, chain))
    decreases chain, 1
  {
    if Enters(st, op) {
      ChainTextWhenFound(song, EnterState(st, op), chain);
    } else if chain.Link? {
      AfterTextWhenFound(song, st, chain.op, chain.next);
    }
  }

  /** A closed group has a value exactly when something was found in it at its closing bracket. */
  lemma {:induction false} GroupHasValueIffFound(song: Song, body: Chain)
    ensures GroupValue(EvalChain(song, START, body), true).Some? <==> EvalChain(song, START, body).found
  {
    ChainTextWhenFound(song, START, body);
  }

  // ---- what chains mean --------------------------------------------------------------------

  function Join(ret: Option<string>, more: Option<string>): Option<string> {
    if more.None? then ret else Append(ret, more.value)
  }

  function Own(song: Song, seg: Segment): State {
    ApplySegment(song, START, seg)
  }

  lemma JoinAssociates(a: Option<string>, b: Option<string>, c: Option<string>)
    ensures Join(Join(a, b), c) == Join(a, Join(b, c))
  {
    if a.Some? && b.Some? && c.Some? {
      assert (a.value + b.value) + c.value == a.value + (b.value + c.value);
    }
  }

  lemma AtomAdds(song: Song, st: State, atom: Atom)
    ensures
      var own := ApplyAtom(song, START, atom);
      ApplyAtom(song, st, atom) == State(Join(st.ret, own.ret), st.found || own.found)
  {
  }

  /** A live segment adds its own text and its own find, whatever came before it. */
  lemma {:induction false} SegmentAdds(song: Song, st: State, seg: Segment)
    ensures ApplySegment(song, st, seg) == State(Join(st.ret, Own(song, seg).ret), st.found || Own(song, seg).found)
    decreases seg
  {
    hide ApplyAtom, Join;
    match seg
    case Nil =>
      assert Join(st.ret, None) == st.ret by { JoinNone(st.ret); }
    case Cons(head, tail) =>
      var first, own := ApplyAtom(song, START, head), Own(song, tail);
      AtomAdds(song, st, head);
      SegmentAdds(song, ApplyAtom(song, st, head), tail);
      SegmentAdds(song, first, tail);
      JoinAssociates(st.ret, first.ret, own.ret);
  }

  lemma JoinNone(ret: Option<string>)
    ensures Join(ret, None) == ret && Join(None, ret) == ret
  {
  }

  /** The segments joined by one connective. */
  function Chained(op: Op, segs: seq<Segment>): Chain
    requires segs != []
    decreases |segs|
  {
    if |segs| == 1 then Last(segs[0]) else Link(segs[0], op, Chained(op, segs[1..]))
  }

  /** Index of the first segment with a find, or the number of segments. */
  function FirstFound(song: Song, segs: seq<Segment>): (k: nat)
    ensures k <= |segs|
    ensures forall i :: 0 <= i < k ==> !Own(song, segs[i]).found
    ensures k < |segs| ==> Own(song, segs[k]).found
    decreases |segs|
  {
    if segs == [] then 0
    else if Own(song, segs[0]).found then 0
    else 1 + FirstFound(song, segs[1..])
  }

  lemma {:induction false} PassedOver(song: Song, st: State, segs: seq<Segment>)
    requires st.found && segs != []
    ensures EvalAfter(song, st, Or, Chained(Or, segs)) == st
    decreases |segs|
  {
    if |segs| > 1 {
      PassedOver(song, st, segs[1..]);
    }
  }

  lemma {:induction false} StaysUnfound(song: Song, st: State, segs: seq<Segment>)
    requires !st.found && segs != []
    ensures EvalAfter(song, st, And, Chained(And, segs)) == st
    decreases |segs|
  {
    if |segs| > 1 {
      StaysUnfound(song, st, segs[1..]);
    }
  }

  /** `[a|b|c]` is the first alternative in which something is found, alone; nothing without one. */
  lemma {:induction false} AlternativesPickFirst(song: Song, segs: seq<Segment>)
    requires segs != []
    ensures
      var k := FirstFound(song, segs);
      var value := GroupValue(EvalChain(song, START, Chained(Or, segs)), true);
      value == if k < |segs| then Own(song, segs[k]).ret else None
    decreases |segs|
  {
    hide ApplySegment;
    var own := Own(song, segs[0]);
    if |segs| > 1 {
      if own.found {
        PassedOver(song, own, segs[1..]);
      } else {
        AlternativesPickFirst(song, segs[1..]);
      }
    }
  }

  /** The texts of all segments, in order. */
  function AllTexts(song: Song, segs: seq<Segment>): Option<string>
    decreases |segs|
  {
    if segs == [] then None else Join(Own(song, segs[0]).ret, AllTexts(song, segs[1..]))
  }

  lemma {:induction false} ConjunctionFrom(song: Song, ret: Option<string>, segs: seq<Segment>)
    requires segs != []
    ensures
      var st := EvalChain(song, State(ret, false), Chained(And, segs));
      var all := forall i :: 0 <= i < |segs| ==> Own(song, segs[i]).found;
      st.found == all && (all ==> st.ret == Join(ret, AllTexts(song, segs)))
    decreases |segs|
  {
    hide ApplySegment, Join;
    var st := ApplySegment(song, State(ret, false), segs[0]);
    SegmentAdds(song, State(ret, false), segs[0]);
    assert segs[0] == segs[0..][0];
    if |segs| == 1 {
      JoinNone(Own(song, segs[0]).ret);
      assert AllTexts(song, segs[1..]) == None;
    } else {
      var tail := segs[1..];
      if st.found {
        ConjunctionFrom(song, st.ret, tail);
        JoinAssociates(ret, Own(song, segs[0]).ret, AllTexts(song, tail));
        assert (forall i :: 0 <= i < |segs| ==> Own(song, segs[i]).found)
           <==> (forall i :: 0 <= i < |tail| ==> Own(song, tail[i]).found) by {
          assert forall i :: 0 <= i < |tail| ==> tail[i] == segs[i + 1];
          assert forall i :: 1 <= i < |segs| ==> segs[i] == tail[i - 1];
        }
      } else {
        StaysUnfound(song, st, tail);
      }
    }
  }

  /** `[a&b&c]` is all the texts in order if something is found in every one of them, else nothing. */
  lemma {:induction false} ConjunctionNeedsAll(song: Song, segs: seq<Segment>)
    requires segs != []
    ensures
      var value := GroupValue(EvalChain(song, START, Chained(And, segs)), true);
      var all := forall i :: 0 <= i < |segs| ==> Own(song, segs[i]).found;
      value == if all then AllTexts(song, segs) else None
  {
    ConjunctionFrom(song, None, segs);
    JoinNone(AllTexts(song, segs));
  }

  // ---- mixed chains ------------------------------------------------------------------------

  /** What a segment is worth alone: its text if something is found in it. */
  function Worth(song: Song, seg: Segment): Option<string> {
    GroupValue(Own(song, seg), true)
  }

  /** `|` takes the right value if there is no left one, `&` needs both and joins them. */
  function Combine(op: Op, left: Option<string>, right: Option<string>): Option<string> {
    match op
    case Or => if left.Some? then left else right
    case And => if left.Some? && right.Some? then Some(left.value + right.value) else None
  }

  function CombineAll(song: Song, left: Option<string>, op: Op, chain: Chain): Option<string>
    decreases chain
  {
    match chain
    case Last(seg) => Combine(op, left, Worth(song, seg))
    case Link(seg, op', next) => CombineAll(song, Combine(op, left, Worth(song, seg)), op', next)
  }

  /** Entering a segment combines what was there with what the segment is worth. */
  lemma EnteredCombines(song: Song, st: State, op: Op, seg: Segment)
    requires TextWhenFound(st) && Enters(st, op)
    ensures
      var st' := ApplySegment(song, EnterState(st, op), seg);
      TextWhenFound(st') && GroupValue(st', true) == Combine(op, GroupValue(st, true), Worth(song, seg))
  {
    hide ApplySegment;
    SegmentAdds(song, EnterState(st, op), seg);
    SegmentTextWhenFound(song, START, seg);
    SegmentTextWhenFound(song, EnterState(st, op), seg);
  }

  lemma {:induction false} AfterCombines(song: Song, st: State, op: Op, chain: Chain)
    requires TextWhenFound(st)
    ensures GroupValue(EvalAfter(song, st, op, chain), true) == CombineAll(song, GroupValue(st, true), op, chain)
    decreases chain
  {
    hide ApplySegment, Worth;
    var seg := chain.seg;
    if Enters(st, op) {
      EnteredCombines(song, st, op, seg);
      if chain.Link? {
        AfterCombines(song, ApplySegment(song, EnterState(st, op), seg), chain.op, chain.next);
      }
    } else {
      assert Combine(op, GroupValue(st, true), Worth(song, seg)) == GroupValue(st, true);
      if chain.Link? {
        AfterCombines(song, st, chain.op, chain.next);
      }
    }
  }

  /**
    A group with any mixture of `|` and `&` has the value of its segments combined from left to
    right, both connectives binding equally, although dead segments are never evaluated.
   */
  lemma {:induction false} MixedChainCombines(song: Song, chain: Chain)
    ensures GroupValue(EvalChain(song, START, chain), true)
         == match chain
            case Last(seg) => Worth(song, seg)
            case Link(seg, op, next) => CombineAll(song, Worth(song, seg), op, next)
  {
    hide ApplySegment, EvalAfter, CombineAll;
    SegmentTextWhenFound(song, START, chain.seg);
    if chain.Link? {
      AfterCombines(song, Own(song, chain.seg), chain.op, chain.next);
    }
  }
}
