/** The lines of a reply as names and values, and what the elements of a listing become. */
module ElementLaws {
  import opened Text
  import opened MpdStream
  import opened MpdProtocol
  import opened MpdEntities
  import opened MpdLaws

  // ---- one line ----------------------------------------------------------------------------

  function Colons(k: nat): (r: string)
    ensures |r| == k && forall i :: 0 <= i < k ==> r[i] == ':'
  {
    if k == 0 then "" else ":" + Colons(k - 1)
  }

  /** `k` colons, a name, a colon and a blank, and a value. */
  predicate Spells(line: string, k: nat, e: Element) {
    e.name != "" && ':' !in e.name && line == Colons(k) + e.name + ": " + e.value
  }

  lemma {:induction false} SkipsColons(line: string, from: nat, k: nat)
    requires from <= k <= |line| && (forall i :: from <= i < k ==> line[i] == ':') && (k < |line| ==> line[k] != ':')
    ensures SkipColons(line, from) == k
    decreases k - from
  {
    if from < k {
      SkipsColons(line, from + 1, k);
    }
  }

  lemma {:induction false} FindsColon(line: string, from: nat, e: nat)
    requires from <= e <= |line| && (forall i :: from <= i < e ==> line[i] != ':') && (e < |line| ==> line[e] == ':')
    ensures NextColon(line, from) == e
    decreases e - from
  {
    if from < e {
      FindsColon(line, from + 1, e);
    }
  }

  lemma {:induction false} ColonsEnd(line: string, from: nat) returns (k: nat)
    requires from <= |line|
    ensures from <= k <= |line| && (forall i :: from <= i < k ==> line[i] == ':') && (k < |line| ==> line[k] != ':')
    ensures SkipColons(line, from) == k
    decreases |line| - from
  {
    k := from;
    if from < |line| && line[from] == ':' {
      k := ColonsEnd(line, from + 1);
    }
  }

  lemma {:induction false} NameEnd(line: string, from: nat) returns (e: nat)
    requires from <= |line|
    ensures from <= e <= |line| && (forall i :: from <= i < e ==> line[i] != ':') && (e < |line| ==> line[e] == ':')
    ensures NextColon(line, from) == e
    decreases |line| - from
  {
    e := from;
    if from < |line| && line[from] != ':' {
      e := NameEnd(line, from + 1);
    }
  }

  lemma SpellsPositions(line: string, k: nat, e: Element)
    requires Spells(line, k, e)
    ensures
      var n := k + |e.name|;
      && n + 2 <= |line| && (forall i :: 0 <= i < k ==> line[i] == ':')
      && line[k..n] == e.name && line[n] == ':' && line[n + 1] == ' ' && line[n + 2..] == e.value
      && line[k] != ':' && (forall i :: k <= i < n ==> line[i] != ':')
  {
    var n := k + |e.name|;
    assert forall i :: k <= i < n ==> line[i] == e.name[i - k];
  }

  /** The element of a line that is spelt so: the name before the colon, the value behind the blank. */
  lemma {:induction false} SpeltElement(line: string, k: nat, e: Element)
    requires Spells(line, k, e)
    ensures ParseElement(line) == Some(e)
  {
    SpellsPositions(line, k, e);
    hide Spells;
    SkipsColons(line, 0, k);
    FindsColon(line, k, k + |e.name|);
    assert line[k + |e.name| + 1..][1..] == e.value;
  }

  lemma InParts(s: string, k: nat, n: nat)
    requires k <= n && n + 2 <= |s|
    ensures s == s[..k] + s[k..n] + s[n..n + 2] + s[n + 2..]
  {
  }

  lemma ColonsAre(s: string)
    requires forall i :: 0 <= i < |s| ==> s[i] == ':'
    ensures s == Colons(|s|)
  {
  }

  /** Every element that is read is spelt so in its line. */
  lemma {:induction false} ElementSpelt(line: string) returns (k: nat)
    requires ParseElement(line).Some?
    ensures Spells(line, k, ParseElement(line).value)
  {
    k := ColonsEnd(line, 0);
    var n := NameEnd(line, k);
    assert n + 2 <= |line| && line[n + 1] == line[n + 1..][0] == ' ';
    assert ParseElement(line) == Some(Element(line[k..n], line[n + 2..])) by { assert line[n + 1..][1..] == line[n + 2..]; }
    hide ParseElement, SkipColons, NextColon, Colons;
    InParts(line, k, n);
    ColonsAre(line[..k]);
    assert line[n..n + 2] == ": ";
  }

  predicate Ordinary(line: string) {
    Fits(line) && line != "OK" && line != "list_OK" && !("ACK" <= line)
  }

  /**
    Reading a line that is spelt so leaves that element and nothing else; reading any other line
    leaves an error and no element.
   */
  lemma {:induction false} ReadsSpelling(c: Conn, line: string, tail: string)
    requires !Blocked(c.session) && Ordinary(line) && c.future == line + "\n" + tail
    ensures Get(c).future == tail
    ensures forall k, e :: Spells(line, k, e) ==> Get(c).session == c.session.(returnElement := Some(e))
    ensures (forall k, e :: !Spells(line, k, e)) ==> Get(c).session == c.session.(returnElement := None, error := 1)
  {
    hide TakeLine, ParseElement, Spells;
    TakesLine(line, tail);
    forall k, e | Spells(line, k, e)
      ensures ParseElement(line) == Some(e)
    {
      SpeltElement(line, k, e);
    }
    if ParseElement(line).Some? {
      var k := ElementSpelt(line);
    }
  }

  // ---- replies written from names and values ---------------------------------------------------

  /** What a server may send as one element. */
  predicate Sendable(e: Element) {
    && e.name != "" && ':' !in e.name && '\n' !in e.name && '\n' !in e.value
    && !("ACK" <= e.name) && |e.name| + 2 + |e.value| < BUFFER_MAX
  }

  function Written(e: Element): string {
    e.name + ": " + e.value
  }

  function AllWritten(elements: seq<Element>): (r: seq<string>)
    ensures |r| == |elements| && forall i :: 0 <= i < |elements| ==> r[i] == Written(elements[i])
  {
    if elements == [] then [] else [Written(elements[0])] + AllWritten(elements[1..])
  }

  lemma WrittenIsOrdinary(e: Element)
    requires Sendable(e)
    ensures Ordinary(Written(e))
  {
    var line := Written(e);
    assert forall i :: 0 <= i < |e.name| ==> line[i] == e.name[i];
    assert line[|e.name|] == ':' && line[|e.name| + 1] == ' ';
    assert ':' in line && ':' !in "OK" && ':' !in "list_OK";
  }

  lemma WrittenIsElement(e: Element)
    requires Sendable(e)
    ensures ElementLine(Written(e)) && ParseElement(Written(e)) == Some(e)
  {
    hide ParseElement;
    EmptyFirst(e.name);
    assert Colons(0) == "";
    SpeltElement(Written(e), 0, e);
    WrittenIsOrdinary(e);
  }

  lemma WrittenLines(elements: seq<Element>)
    requires forall i :: 0 <= i < |elements| ==> Sendable(elements[i])
    ensures forall i :: 0 <= i < |elements| ==> ElementLine(AllWritten(elements)[i])
    ensures Parsed(AllWritten(elements)) == elements
  {
    hide ParseElement, ElementLine, Sendable, Written;
    var lines := AllWritten(elements);
    forall i | 0 <= i < |elements|
      ensures ElementLine(lines[i]) && ParseElement(lines[i]) == Some(elements[i])
    {
      WrittenIsElement(elements[i]);
    }
    var parsed := Parsed(lines);
    assert forall i :: 0 <= i < |elements| ==> Some(parsed[i]) == Some(elements[i]);
  }

  /**
    A listing sent as names and values that begins with a header is handed out as the entities of
    its groups, in order, without an error and up to the last byte of the reply.
   */
  lemma {:induction false} ListingSent(c: Conn, elements: seq<Element>, tail: string)
    requires forall i :: 0 <= i < |elements| ==> Sendable(elements[i])
    requires !c.session.doneProcessing && c.session.listOks == 0 && c.session.returnElement.None?
    requires c.future == Encode(AllWritten(elements) + ["OK"]) + tail
    requires elements != [] && IsHeader(elements[0])
    ensures
      var groups := Groups(elements);
      var (c', entities) := Calls(c, |groups|);
      && |entities| == |groups|
      && (forall i :: 0 <= i < |groups| ==> IsGroup(groups[i]) && entities[i] == Some(Built(groups[i])))
      && c'.future == tail && c'.session.doneProcessing && c'.session.error == c.session.error
  {
    hide IsHeader, Encode, Groups, Calls, Parsed, ElementLine, Sendable;
    WrittenLines(elements);
    ListingEntities(c, AllWritten(elements), tail);
  }

  /** Reads of a plain reply sent as names and values see them in order. */
  lemma {:induction false} ElementsSent(c: Conn, elements: seq<Element>, tail: string)
    requires forall i :: 0 <= i < |elements| ==> Sendable(elements[i])
    requires !c.session.doneProcessing && c.session.listOks == 0
    requires c.future == Encode(AllWritten(elements) + ["OK"]) + tail
    ensures Upcoming(c) == elements
    ensures AtEnd(c).future == tail && AtEnd(c).session.doneProcessing && AtEnd(c).session.error == c.session.error
  {
    hide Encode, Upcoming, AtEnd, Parsed, ElementLine, Sendable;
    WrittenLines(elements);
    UpcomingOnWire(c, AllWritten(elements), tail);
  }

  // ---- kinds of entities -------------------------------------------------------------------------

  /** A group headed by a directory or playlist is that, by its name; what follows the header changes nothing. */
  lemma {:induction false} KindOfGroup(group: seq<Element>)
    requires IsGroup(group)
    ensures group[0].name == "file" || group[0].name == "directory" || group[0].name == "playlist"
    ensures group[0].name == "directory" ==> Built(group) == DirectoryEntity(group[0].value)
    ensures group[0].name == "playlist" ==> Built(group) == PlaylistEntity(group[0].value)
    ensures group[0].name == "file" ==> Built(group).SongEntity? && Built(group).song.file == group[0].value
  {
    hide AddTag;
    if group[0].name == "file" {
      FirstTagWins(group, "Artist");
    } else {
      DescribedOther(NewEntity(group[0]), group[1..]);
    }
  }

  lemma {:induction false} DescribedOther(entity: Entity, body: seq<Element>)
    requires !entity.SongEntity?
    ensures Described(entity, body) == entity
    decreases |body|
  {
    if body != [] {
      DescribedOther(entity, body[1..]);
    }
  }

  /** Behind the end of a response, or of a segment of it, there are no more entities, and asking changes nothing. */
  lemma {:induction false} NoMoreEntities(c: Conn)
    requires c.session.doneProcessing || (c.session.listOks > 0 && c.session.doneListOk)
    ensures NextEntity(c) == (c, None)
  {
  }

  /** Exactly these names head a group. */
  lemma HeaderNames(e: Element)
    ensures IsHeader(e) <==> e.name in ["file", "directory", "playlist"]
  {
  }

  // ---- numbers ---------------------------------------------------------------------------------

  const DIGITS := "0123456789"

  /** A number in decimal digits, as one writes it. */
  function Decimal(n: nat): string {
    if n < 10 then [DIGITS[n]] else Decimal(n / 10) + [DIGITS[n % 10]]
  }

  lemma {:induction false} DigitsConcat(a: string, b: string, acc: int)
    requires forall i :: 0 <= i < |a| ==> '0' <= a[i] <= '9'
    ensures Digits(a + b, acc) == Digits(b, Digits(a, acc))
    decreases |a|
  {
    if a == "" {
      assert a + b == b;
    } else {
      assert (a + b)[0] == a[0] && (a + b)[1..] == a[1..] + b;
      DigitsConcat(a[1..], b, acc * 10 + (a[0] as int - '0' as int));
    }
  }

  lemma DigitIs(d: nat, rest: string, acc: int)
    requires d < 10 && (rest == "" || !('0' <= rest[0] <= '9'))
    ensures '0' <= DIGITS[d] <= '9' && Digits([DIGITS[d]] + rest, acc) == 10 * acc + d
  {
    assert ([DIGITS[d]] + rest)[1..] == rest;
  }

  lemma {:induction false} DecimalRead(n: nat, rest: string)
    requires rest == "" || !('0' <= rest[0] <= '9')
    ensures forall i :: 0 <= i < |Decimal(n)| ==> '0' <= Decimal(n)[i] <= '9'
    ensures Decimal(n) != "" && Digits(Decimal(n) + rest, 0) == n
    decreases n
  {
    hide Digits;
    if n < 10 {
      DigitIs(n, rest, 0);
    } else {
      var q, r := n / 10, n % 10;
      DecimalRead(q, "");
      assert Decimal(q) + "" == Decimal(q);
      DigitIs(r, rest, q);
      Reassociate(Decimal(q), [DIGITS[r]], rest);
      DigitsConcat(Decimal(q), [DIGITS[r]] + rest, 0);
    }
  }

  predicate White(s: string) {
    forall i :: 0 <= i < |s| ==> s[i] == ' ' || 9 <= s[i] as int <= 13
  }

  predicate Numeric(c: char) {
    c == '+' || c == '-' || '0' <= c <= '9'
  }

  lemma {:induction false} WhiteSkipped(white: string, s: string)
    requires White(white) && s != "" && Numeric(s[0])
    ensures SkipSpace(white + s) == s
    decreases |white|
  {
    if white == "" {
      assert white + s == s;
    } else {
      assert (white + s)[0] == white[0] && (white + s)[1..] == white[1..] + s;
      WhiteSkipped(white[1..], s);
    }
  }

  function Signed(n: int): string {
    if n < 0 then "-" + Decimal(-n) else Decimal(n)
  }

  /** A number of either sign, behind white space and before whatever is no digit, is read as that number. */
  lemma {:induction false} NumberRead(white: string, n: int, rest: string)
    requires White(white) && (rest == "" || !('0' <= rest[0] <= '9'))
    ensures Atoi(white + Signed(n) + rest) == n
  {
    hide Digits, SkipSpace, Decimal;
    var digits := Decimal(if n < 0 then -n else n);
    DecimalRead(if n < 0 then -n else n, rest);
    var t := Signed(n) + rest;
    assert t[0] == Signed(n)[0];
    WhiteSkipped(white, t);
    Reassociate(white, Signed(n), rest);
    if n < 0 {
      assert t[1..] == digits + rest;
    }
  }

  /** The first number under a name that is not the mark for none. */
  function FirstNumber(name: string, body: seq<Element>): int
    decreases |body|
  {
    if body == [] then -1
    else if body[0].name == name && body[0].value != "" && Atoi(body[0].value) != -1 then Atoi(body[0].value)
    else FirstNumber(name, body[1..])
  }

  predicate NumberTag(name: string) {
    name in ["Time", "Pos", "Id"]
  }

  function NumberOf(song: Song, name: string): int
    requires NumberTag(name)
  {
    if name == "Time" then song.time else if name == "Pos" then song.pos else song.id
  }

  lemma AddNumber(song: Song, e: Element, name: string)
    requires NumberTag(name)
    ensures
      var n := NumberOf(song, name);
      NumberOf(AddTag(song, e), name) == if n == -1 && e.name == name && e.value != "" then Atoi(e.value) else n
  {
    hide Atoi;
  }

  lemma {:induction false} NumbersFrom(song: Song, body: seq<Element>, name: string)
    requires NumberTag(name)
    ensures
      var d, n := Described(SongEntity(song), body), NumberOf(song, name);
      d.SongEntity? && NumberOf(d.song, name) == if n != -1 then n else FirstNumber(name, body)
    decreases |body|
  {
    hide Atoi, AddTag;
    if body != [] {
      AddNumber(song, body[0], name);
      NumbersFrom(AddTag(song, body[0]), body[1..], name);
    }
  }

  /** In a song the first number under `Time`, `Pos` and `Id` wins; -1, the mark for none, may be overwritten. */
  lemma {:induction false} FirstNumberWins(group: seq<Element>, name: string)
    requires IsGroup(group) && group[0].name == "file" && NumberTag(name)
    ensures
      var built := Built(group);
      built.SongEntity? && NumberOf(built.song, name) == FirstNumber(name, group[1..])
  {
    hide Described, FirstNumber;
    NumbersFrom(NewSong(group[0].value), group[1..], name);
  }
}
