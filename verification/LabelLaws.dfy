/** What a format text prints, atom by atom, and what counts as a find. */
module LabelLaws {
  import opened Text
  import opened SongFormat
  import opened SongFormatter
  import opened FormatLaws

  function Atoms(seg: Segment): seq<Atom> {
    match seg
    case Nil => []
    case Cons(head, tail) => [head] + Atoms(tail)
  }

  /** What the bracketed body is worth; a bracket that is never closed keeps its text without a find. */
  function Inside(song: Song, body: Chain, closed: bool): Option<string> {
    var st := EvalChain(song, START, body);
    if closed && !st.found then None else st.ret
  }

  /** The text of one atom, if it has one. */
  function Contribution(song: Song, atom: Atom): Option<string> {
    match atom
    case Lit(c) => Some([c])
    case Esc(c) => Some([c])
    case Raw(text) => Some(text)
    case Group(body, closed) => Inside(song, body, closed)
    case Label(name) =>
      match song(name)
      case Unknown => Some("%" + name + "%")
      case Missing => None
      case Value(text) => Some(text)
  }

  /** A label with a value, or a group with one. */
  predicate Finds(song: Song, atom: Atom) {
    (atom.Label? && song(atom.name).Value?) || (atom.Group? && Inside(song, atom.body, atom.closed).Some?)
  }

  /** The texts of the atoms that have one, in order. */
  function Parts(song: Song, atoms: seq<Atom>): seq<string>
    decreases |atoms|
  {
    if atoms == [] then [] else ToSeq(Contribution(song, atoms[0])) + Parts(song, atoms[1..])
  }

  function Concat(parts: seq<string>): string {
    if parts == [] then "" else parts[0] + Concat(parts[1..])
  }

  function Printed(parts: seq<string>): Option<string> {
    if parts == [] then None else Some(Concat(parts))
  }

  lemma AtomMeans(song: Song, atom: Atom)
    ensures ApplyAtom(song, START, atom) == State(Contribution(song, atom), Finds(song, atom))
  {
  }

  lemma PrintedFirst(part: Option<string>, rest: seq<string>)
    ensures Join(part, Printed(rest)) == Printed(ToSeq(part) + rest)
  {
    if part.Some? {
      assert ([part.value] + rest)[1..] == rest;
      assert part.value + "" == part.value;
    } else {
      EmptyFirst(rest);
    }
  }

  lemma {:induction false} SegmentState(song: Song, seg: Segment)
    ensures
      var atoms := Atoms(seg);
      Own(song, seg) == State(Printed(Parts(song, atoms)), exists k :: 0 <= k < |atoms| && Finds(song, atoms[k]))
    decreases seg
  {
    hide ApplyAtom, Join, Contribution, Finds, Printed;
    match seg
    case Nil =>
      assert Printed([]) == None by { NothingPrinted(); }
    case Cons(head, tail) =>
      var atoms, rest := Atoms(seg), Atoms(tail);
      AtomMeans(song, head);
      SegmentAdds(song, ApplyAtom(song, START, head), tail);
      SegmentState(song, tail);
      PrintedFirst(Contribution(song, head), Parts(song, rest));
      assert atoms[0] == head && atoms[1..] == rest;
      assert forall k :: 1 <= k < |atoms| ==> atoms[k] == rest[k - 1];
      assert forall k :: 0 <= k < |rest| ==> rest[k] == atoms[k + 1];
  }

  lemma NothingPrinted()
    ensures Printed([]) == None
  {
  }

  /**
    A segment prints its atoms in order: characters and escaped characters as they are, labels
    by their values, unknown labels and stray specifiers as they stand, groups by what they are
    worth; and something is found in it exactly when a label or a group of it has a value.
   */
  lemma {:induction false} SegmentMeans(song: Song, seg: Segment)
    ensures Own(song, seg).found <==> exists k :: 0 <= k < |Atoms(seg)| && Finds(song, Atoms(seg)[k])
    ensures Own(song, seg).ret == Printed(Parts(song, Atoms(seg)))
  {
    hide Own, Finds, Printed, Parts;
    SegmentState(song, seg);
  }

  // ---- formats as they are written -------------------------------------------------------------

  predicate IsLabel(name: string) {
    forall i :: 0 <= i < |name| ==> 'a' <= name[i] <= 'z'
  }

  function Only(atom: Atom): Segment {
    Cons(atom, Nil)
  }

  lemma OneAtom(song: Song, atom: Atom)
    ensures Own(song, Only(atom)) == State(Contribution(song, atom), Finds(song, atom))
  {
    hide ApplyAtom, Contribution, Finds;
    AtomMeans(song, atom);
    assert ApplySegment(song, ApplyAtom(song, START, atom), Nil) == ApplyAtom(song, START, atom);
  }

  lemma WellFormedLabel(name: string)
    requires IsLabel(name)
    ensures WellFormedSegment(Only(Label(name)))
  {
    assert WellFormedAtom(Label(name)) && WellFormedSegment(Nil);
  }

  lemma PrintedOnly(atom: Atom)
    ensures PrintSegment(Only(atom)) == PrintAtom(atom)
  {
    assert PrintSegment(Nil) == "" && PrintAtom(atom) + "" == PrintAtom(atom);
  }

  /** `[%name%]` prints the value of the label, and nothing when it has none or is no label. */
  lemma {:induction false} BracketedLabel(song: Song, name: string)
    requires IsLabel(name)
    ensures
      var s := "[%" + name + "%]";
      '\0' !in s && Rest(song, s, 0, START) == Result(match song(name) case Value(text) => Some(text) case _ => None, |s|)
  {
    var body := Last(Only(Label(name)));
    var group := Group(body, true);
    var chain := Last(Only(group));
    WellFormedLabel(name);
    assert WellFormedAtom(group) by { assert WellFormed(body); }
    assert WellFormedSegment(Only(group)) by { assert WellFormedSegment(Nil); }
    PrintedGroup(name);
    hide PrintChain, PrintSegment, PrintAtom, Rest, Own, Contribution, Finds, WellFormedSegment;
    PrintedFormMeansTree(song, chain);
    OneAtom(song, Label(name));
    OneAtom(song, group);
    LabelInside(song, name);
  }

  lemma LabelInside(song: Song, name: string)
    ensures
      var group := Group(Last(Only(Label(name))), true);
      Contribution(song, group) == match song(name) case Value(text) => Some(text) case _ => None
  {
    OneAtom(song, Label(name));
    assert EvalChain(song, START, Last(Only(Label(name)))) == Own(song, Only(Label(name)));
  }

  lemma PrintedGroup(name: string)
    ensures PrintChain(Last(Only(Group(Last(Only(Label(name))), true)))) == "[%" + name + "%]"
  {
    hide PrintSegment;
    var atom := Label(name);
    var inner := PrintChain(Last(Only(atom)));
    PrintedOnly(atom);
    assert inner == "%" + name + "%";
    PrintedOnly(Group(Last(Only(atom)), true));
    assert "[" + inner + "]" == "[%" + name + "%]";
  }

  /** `%a%|%b%` prints the value of the first label that has one; the second one only without it. */
  lemma {:induction false} LabelOrLabel(song: Song, a: string, b: string)
    requires IsLabel(a) && IsLabel(b)
    ensures
      var s := "%" + a + "%|%" + b + "%";
      '\0' !in s && Rest(song, s, 0, START) == Result(
        if song(a).Value? then Some(song(a).text) else Contribution(song, Label(b)), |s|)
  {
    var chain := Link(Only(Label(a)), Or, Last(Only(Label(b))));
    WellFormedLabel(a);
    WellFormedLabel(b);
    assert WellFormed(Last(Only(Label(b)))) && WellFormed(chain);
    PrintedOr(a, b);
    hide PrintChain, Rest, WellFormed;
    PrintedFormMeansTree(song, chain);
    OneAtom(song, Label(a));
    OneAtom(song, Label(b));
    var st := Own(song, Only(Label(a)));
    assert EvalChain(song, START, chain) == EvalAfter(song, st, Or, Last(Only(Label(b))));
    if !st.found {
      assert EnterState(st, Or) == START;
    }
  }

  lemma PrintedOr(a: string, b: string)
    ensures PrintChain(Link(Only(Label(a)), Or, Last(Only(Label(b))))) == "%" + a + "%|%" + b + "%"
  {
    hide PrintSegment;
    PrintedOnly(Label(a));
    PrintedOnly(Label(b));
    var left, right := PrintSegment(Only(Label(a))), PrintChain(Last(Only(Label(b))));
    assert left == "%" + a + "%" && right == "%" + b + "%";
    assert left + ("|" + right) == "%" + a + "%|%" + b + "%";
  }

  /** A label ends with the first character that is no lower-case letter; unless that is `%` it is no label. */
  lemma {:induction false} UnclosedLabel(s: CString, p: nat, name: string)
    requires IsLabel(name) && Stands(s, p, "%" + name)
    requires var e := p + 1 + |name|; e < |s| ==> s[e] != '%' && !('a' <= s[e] <= 'z')
    ensures !Delimiter(s, p) && ParseAtom(s, p) == (Raw("%" + name), p + 1 + |name|)
  {
    var e, text := p + 1 + |name|, "%" + name;
    assert s[p + 0] == text[0];
    assert forall i :: p + 1 <= i < e ==> s[i] == text[i - p] == name[i - p - 1];
    LabelEndUnique(s, p + 1, e);
    assert s[p..e] == text;
  }

  /** And one that is closed is a label, whatever follows. */
  lemma {:induction false} ClosedLabel(s: CString, p: nat, name: string)
    requires IsLabel(name) && Stands(s, p, "%" + name + "%")
    ensures !Delimiter(s, p) && ParseAtom(s, p) == (Label(name), p + 2 + |name|)
  {
    WellFormedLabel(name);
    LabelReadsBack(s, p, name);
  }
}
