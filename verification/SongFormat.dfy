/**
  The title-format language: syntax trees, their meaning, and the tree every format text
  stands for. The meaning of a tree never looks at positions or at characters to be skipped.
 */
module SongFormat {
  import opened Text

  datatype Op = Or | And

  datatype Atom =
    | Lit(c: char)                          // an ordinary character
    | Esc(c: char)                          // `#c`
    | Label(name: string)                   // `%name%`
    | Raw(text: string)                     // a `%` whose label is not closed, or a final `#`
    | Group(body: Chain, closed: bool)      // `[ ... ]`; not closed when the text ends first
  datatype Segment = Nil | Cons(head: Atom, tail: Segment)
  datatype Chain = Last(seg: Segment) | Link(seg: Segment, op: Op, next: Chain)

  /** What a song has to say to a label. */
  datatype Tag =
    | Unknown               // not a label: the specifier stays in the text
    | Missing               // a label without a value
    | Value(text: string)

  type Song = string -> Tag

  // ---- meaning -------------------------------------------------------------------------

  /** The text so far (None is NULL) and whether a label or group has been found. */
  datatype State = State(ret: Option<string>, found: bool)

  const START := State(None, false)

  function Append(ret: Option<string>, text: string): Option<string> {
    if ret.None? then Some(text) else Some(ret.value + text)
  }

  function Plain(st: State, text: string): State {
    State(Append(st.ret, text), st.found)
  }

  function Found(st: State, text: string): State {
    State(Append(st.ret, text), true)
  }

  function ApplyLabel(song: Song, st: State, name: string): State {
    match song(name)
    case Unknown => Plain(st, "%" + name + "%")
    case Missing => st
    case Value(text) => Found(st, text)
  }

  /** The value of a group: a closed group without a find is nothing. */
  function GroupValue(st: State, closed: bool): Option<string> {
    if closed && !st.found then None else st.ret
  }

  function ApplyGroup(st: State, value: Option<string>): State {
    if value.Some? then Found(st, value.value) else st
  }

  function ApplyAtom(song: Song, st: State, atom: Atom): State
    decreases atom, 0
  {
    match atom
    case Lit(c) => Plain(st, [c])
    case Esc(c) => Plain(st, [c])
    case Label(name) => ApplyLabel(song, st, name)
    case Raw(text) => Plain(st, text)
    case Group(body, closed) => ApplyGroup(st, GroupValue(EvalChain(song, START, body), closed))
  }

  function ApplySegment(song: Song, st: State, seg: Segment): State
    decreases seg, 0
  {
    match seg
    case Nil => st
    case Cons(head, tail) => ApplySegment(song, ApplyAtom(song, st, head), tail)
  }

  /** Does evaluation enter the segment after `op`, and in which state? */
  predicate Enters(st: State, op: Op) {
    if op.Or? then !st.found else st.found
  }

  function EnterState(st: State, op: Op): State {
    State(if op.Or? then None else st.ret, false)
  }

  /** Evaluate a chain whose first segment is live. */
  function EvalChain(song: Song, st: State, chain: Chain): State
    decreases chain, 1
  {
    match chain
    case Last(seg) => ApplySegment(song, st, seg)
    case Link(seg, op, next) => EvalAfter(song, ApplySegment(song, st, seg), op, next)
  }

  /** Left to right over the segments: enter the next one, or pass over it and ask its own connective. */
  function EvalAfter(song: Song, st: State, op: Op, chain: Chain): State
    decreases chain, 2
  {
    if Enters(st, op) then EvalChain(song, EnterState(st, op), chain)
    else
      match chain
      case Last(_) => st
      case Link(_, op', next) => EvalAfter(song, st, op', next)
  }

  // ---- the tree of a text --------------------------------------------------------------

  predicate IsLower(c: char) {
    'a' <= c <= 'z'
  }

  /** The end of the run of lower-case letters from `p` on. */
  function LabelEnd(s: CString, p: nat): (e: nat)
    requires p <= |s|
    ensures p <= e <= |s| && (forall i :: p <= i < e ==> IsLower(s[i])) && (e < |s| ==> !IsLower(s[e]))
    decreases |s| - p
  {
    if p < |s| && IsLower(s[p]) then LabelEnd(s, p + 1) else p
  }

  predicate Delimiter(s: CString, p: nat)
    requires p <= |s|
  {
    p == |s| || s[p] == '|' || s[p] == '&' || s[p] == ']'
  }

  /** The atom at `p` and the position after it. */
  function ParseAtom(s: CString, p: nat): (r: (Atom, nat))
    requires p <= |s| && !Delimiter(s, p)
    ensures p < r.1 <= |s|
    decreases |s| - p, 0
  {
    if s[p] == '[' then
      var r := ParseChain(s, p + 1);
      (Group(r.0, r.2), r.1)
    else if s[p] == '#' && p + 1 < |s| then (Esc(s[p + 1]), p + 2)
    else if s[p] == '%' || s[p] == '#' then
      var e := LabelEnd(s, p + 1);
      if e < |s| && s[e] == '%' && s[p] == '%' then (Label(s[p + 1..e]), e + 1) else (Raw(s[p..e]), e)
    else (Lit(s[p]), p + 1)
  }

  /** The atoms up to the next delimiter, and its position. */
  function ParseSegment(s: CString, p: nat): (r: (Segment, nat))
    requires p <= |s|
    ensures p <= r.1 <= |s| && Delimiter(s, r.1)
    decreases |s| - p, 1
  {
    if Delimiter(s, p) then (Nil, p)
    else
      var a := ParseAtom(s, p);
      var r := ParseSegment(s, a.1);
      (Cons(a.0, r.0), r.1)
  }

  /** The chain from `p` up to the closing bracket or the end of the text; the position after it. */
  function ParseChain(s: CString, p: nat): (r: (Chain, nat, bool))
    requires p <= |s|
    ensures p <= r.1 <= |s|
    decreases |s| - p, 2
  {
    var first := ParseSegment(s, p);
    var e := first.1;
    if e == |s| then (Last(first.0), e, false)
    else if s[e] == ']' then (Last(first.0), e + 1, true)
    else
      var r := ParseChain(s, e + 1);
      (Link(first.0, if s[e] == '|' then Or else And, r.0), r.1, r.2)
  }
}
