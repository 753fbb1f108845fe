/** Laws of whole replies: command lists are accounted for exactly, listings split at their headers. */
module MpdLaws {
  import opened Text
  import opened MpdStream
  import opened MpdProtocol
  import opened MpdEntities

  // ---- streams as lines ------------------------------------------------------------------

  predicate Fits(line: string) {
    '\n' !in line && |line| < BUFFER_MAX
  }

  function Encode(lines: seq<string>): string {
    if lines == [] then "" else lines[0] + "\n" + Encode(lines[1..])
  }

  /** The lines a stream holds, and the bytes that are not a complete line. */
  function Lines(f: string): (r: (seq<string>, string))
    decreases |f|
  {
    match TakeLine(f)
    case Line(text, rest) => var r := Lines(rest); ([text] + r.0, r.1)
    case _ => ([], f)
  }

  lemma TakenApart(f: string)
    ensures TakeLine(f).Line? ==>
      Fits(TakeLine(f).text) && f == TakeLine(f).text + "\n" + TakeLine(f).rest
  {
  }

  lemma EncodeFirst(line: string, lines: seq<string>, rest: string)
    ensures Encode([line] + lines) + rest == line + "\n" + (Encode(lines) + rest)
  {
    assert ([line] + lines)[1..] == lines;
  }

  /** Nothing is lost, added or reordered: the lines with their line ends and the rest are the stream. */
  lemma {:induction false} LinesConserve(f: string)
    ensures var (lines, rest) := Lines(f); Encode(lines) + rest == f && forall i :: 0 <= i < |lines| ==> Fits(lines[i])
    decreases |f|
  {
    hide TakeLine, Fits;
    TakenApart(f);
    if TakeLine(f).Line? {
      var rest := TakeLine(f).rest;
      LinesConserve(rest);
      EncodeFirst(TakeLine(f).text, Lines(rest).0, Lines(rest).1);
    }
  }

  /** The lines sent are the lines read. */
  lemma {:induction false} LinesRoundTrip(lines: seq<string>, rest: string)
    requires forall i :: 0 <= i < |lines| ==> Fits(lines[i])
    requires !TakeLine(rest).Line?
    ensures Lines(Encode(lines) + rest) == (lines, rest)
    decreases |lines|
  {
    hide TakeLine, Encode;
    if lines == [] {
      assert Encode(lines) + rest == rest by { EncodeNothing(); }
    } else {
      assert lines == [lines[0]] + lines[1..];
      EncodeFirst(lines[0], lines[1..], rest);
      TakesLine(lines[0], Encode(lines[1..]) + rest);
      LinesRoundTrip(lines[1..], rest);
    }
  }

  lemma EncodeNothing()
    ensures Encode([]) == ""
  {
  }

  // ---- command lists -----------------------------------------------------------------------

  /** A line that is an element and fits the buffer. */
  predicate ElementLine(line: string) {
    Fits(line) && line != "OK" && line != "list_OK" && !("ACK" <= line) && ParseElement(line).Some?
  }

  predicate Conforming(segments: seq<seq<string>>) {
    forall i, k :: 0 <= i < |segments| && 0 <= k < |segments[i]| ==> ElementLine(segments[i][k])
  }

  /**
    What of a reply to a command list is still to come: the segments of commands that were done,
    each with its `list_OK`, the last lines, and then whatever comes after the reply; `undone`
    commands get no segment.
   */
  datatype Rest = Rest(segments: seq<seq<string>>, last: seq<string>, undone: nat, tail: string)

  function Replied(segments: seq<seq<string>>, last: seq<string>): seq<string> {
    if segments == [] then last else segments[0] + ["list_OK"] + Replied(segments[1..], last)
  }

  /** The reply to a command list that is done: a segment and `list_OK` for every command, then `OK`. */
  function Reply(segments: seq<seq<string>>): seq<string> {
    Replied(segments, ["OK"])
  }

  function Behind(rest: Rest): Rest
    requires rest.segments != []
  {
    rest.(segments := rest.segments[1..])
  }

  /** Within the reply to a command list, before the remaining `lines` of the current segment. */
  ghost predicate Within(c: Conn, lines: seq<string>, rest: Rest) {
    && (forall k :: 0 <= k < |lines| ==> ElementLine(lines[k])) && Conforming(rest.segments)
    && c.future == Encode(lines + ["list_OK"] + Replied(rest.segments, rest.last)) + rest.tail
    && !c.session.doneProcessing && !c.session.doneListOk
    && c.session.listOks == |rest.segments| + rest.undone + 1 && c.session.error == 0
    && c.session.commandList.NoList?
  }

  /** The `list_OK` of a segment has been read; `rest` is still to come. */
  ghost predicate Drained(c: Conn, rest: Rest) {
    && Conforming(rest.segments) && c.future == Encode(Replied(rest.segments, rest.last)) + rest.tail
    && !c.session.doneProcessing && c.session.doneListOk
    && c.session.listOks == |rest.segments| + rest.undone && c.session.error == 0
    && c.session.commandList.NoList?
    && c.session.returnElement.None?
  }

  /** Between two segments: the next command of the list is due, or the last lines. */
  ghost predicate AtSegment(c: Conn, rest: Rest) {
    && Conforming(rest.segments) && c.future == Encode(Replied(rest.segments, rest.last)) + rest.tail
    && !c.session.doneProcessing && !c.session.doneListOk
    && c.session.listOks == |rest.segments| + rest.undone && c.session.error == 0
    && c.session.commandList.NoList?
  }

  lemma TakesFirst(lines: seq<string>, tail: string)
    requires lines != [] && Fits(lines[0])
    ensures TakeLine(Encode(lines) + tail) == Line(lines[0], Encode(lines[1..]) + tail)
  {
    var rest := Encode(lines[1..]) + tail;
    assert Encode(lines) + tail == lines[0] + "\n" + rest;
    TakesLine(lines[0], rest);
  }

  lemma EntersSegment(c: Conn, rest: Rest)
    requires AtSegment(c, rest) && rest.segments != []
    ensures Within(c, rest.segments[0], Behind(rest))
  {
    assert forall k :: 0 <= k < |rest.segments[0]| ==> ElementLine(rest.segments[0][k]);
  }

  /** Reading on within a segment: its next element, or its `list_OK`. */
  lemma GetWithin(c: Conn, lines: seq<string>, rest: Rest)
    requires Within(c, lines, rest)
    ensures
      if lines != [] then
        Within(Get(c), lines[1..], rest) && Get(c).session.returnElement == ParseElement(lines[0])
      else Drained(Get(c), rest)
  {
    hide ParseElement, TakeLine;
    var all := lines + ["list_OK"] + Replied(rest.segments, rest.last);
    if lines != [] {
      assert all[0] == lines[0] && all[1..] == lines[1..] + ["list_OK"] + Replied(rest.segments, rest.last);
      TakesFirst(all, rest.tail);
    } else {
      assert all[0] == "list_OK" && all[1..] == Replied(rest.segments, rest.last);
      assert Fits("list_OK");
      TakesFirst(all, rest.tail);
    }
  }

  /** Skipping a segment reads exactly up to its `list_OK`. */
  lemma {:induction false} SkipsSegment(c: Conn, lines: seq<string>, rest: Rest)
    requires Within(c, lines, rest)
    ensures Drained(FinishListOk(c), rest)
    decreases |lines|
  {
    hide Get, Encode;
    GetWithin(c, lines, rest);
    GetProgress(c);
    if lines != [] {
      SkipsSegment(Get(c), lines[1..], rest);
    }
  }

  /** Whether the segment was read to its end or not: the next command is at its own segment. */
  lemma NextSegment(c: Conn, lines: seq<string>, rest: Rest)
    requires Within(c, lines, rest) || Drained(c, rest)
    ensures
      var (r, c') := NextListOk(c);
      AtSegment(c', rest) && r == if rest.segments == [] && rest.undone == 0 then -1 else 0
  {
    hide Get, Encode;
    if Within(c, lines, rest) {
      SkipsSegment(c, lines, rest);
    }
  }

  /** `k` reads in a row. */
  function Gets(c: Conn, k: nat): (r: (Conn, seq<Option<Element>>))
    decreases k
  {
    if k == 0 then (c, [])
    else
      var r := Gets(Get(c), k - 1);
      (r.0, [Get(c).session.returnElement] + r.1)
  }

  /** Reads within a segment see its elements in order, and at last that there are no more. */
  lemma {:induction false} GetsWithin(c: Conn, lines: seq<string>, rest: Rest, k: nat)
    requires Within(c, lines, rest) && k <= |lines| + 1
    ensures
      var (c', seen) := Gets(c, k);
      && |seen| == k
      && (forall i :: 0 <= i < k ==> seen[i] == if i < |lines| then ParseElement(lines[i]) else None)
      && (if k <= |lines| then Within(c', lines[k..], rest) else Drained(c', rest))
    decreases k
  {
    hide Get, Encode, ParseElement, Within, Drained;
    if k == 0 {
      assert lines[0..] == lines;
    } else {
      GetWithin(c, lines, rest);
      if lines != [] {
        GetsWithin(Get(c), lines[1..], rest, k - 1);
        if k <= |lines| {
          assert lines[1..][k - 1..] == lines[k..];
        }
      } else {
        assert Get(c).session.returnElement == None by { DrainedNone(Get(c), rest); }
      }
    }
  }

  lemma DrainedNone(c: Conn, rest: Rest)
    requires Drained(c, rest)
    ensures c.session.returnElement == None
  {
  }

  /** Round after round: read `wanted[j]` elements of segment j, then go to the next command. */
  function Rounds(c: Conn, wanted: seq<nat>): (r: (Conn, seq<seq<Option<Element>>>, seq<int>))
    decreases |wanted|
  {
    if wanted == [] then (c, [], [])
    else
      var g := Gets(c, wanted[0]);
      var n := NextListOk(g.0);
      var r := Rounds(n.1, wanted[1..]);
      (r.0, [g.1] + r.1, [n.0] + r.2)
  }

  /** No round asks for more than the elements of its segment and the note that there are no more. */
  predicate Modest(segments: seq<seq<string>>, wanted: seq<nat>) {
    |wanted| == |segments| && forall j :: 0 <= j < |wanted| ==> wanted[j] <= |segments[j]| + 1
  }

  predicate SeenRight(lines: seq<string>, seen: seq<Option<Element>>) {
    forall i :: 0 <= i < |seen| ==> seen[i] == if i < |lines| then ParseElement(lines[i]) else None
  }

  lemma {:induction false} RoundsAccount(c: Conn, rest: Rest, wanted: seq<nat>)
    requires AtSegment(c, rest) && Modest(rest.segments, wanted)
    ensures
      var (c', seen, results) := Rounds(c, wanted);
      && |seen| == |results| == |rest.segments|
      && (forall j :: 0 <= j < |rest.segments| ==> |seen[j]| == wanted[j] && SeenRight(rest.segments[j], seen[j]))
      && (forall j :: 0 <= j < |rest.segments| ==> results[j] == if j == |rest.segments| - 1 && rest.undone == 0 then -1 else 0)
      && AtSegment(c', rest.(segments := []))
    decreases |rest.segments|
  {
    hide Get, Gets, NextListOk, Encode, ParseElement, Within, Drained, AtSegment, Conforming;
    if rest.segments != [] {
      var first, later := rest.segments[0], Behind(rest);
      EntersSegment(c, rest);
      GetsWithin(c, first, later, wanted[0]);
      var c1 := Gets(c, wanted[0]).0;
      var lines := if wanted[0] <= |first| then first[wanted[0]..] else [];
      NextSegment(c1, lines, later);
      RoundsAccount(NextListOk(c1).1, later, wanted[1..]);
    }
  }

  /** The whole command list, from the first command sent to the final `OK`. */
  function SentList(s: Session, n: nat): Session
    decreases n
  {
    if n == 0 then s else SentList(Executed(s, Sent), n - 1)
  }

  lemma {:induction false} SentListCounts(s: Session, n: nat)
    requires s.commandList.OkList? && s.error == 0
    ensures SentList(s, n) == s.(listOks := s.listOks + n)
    decreases n
  {
    if n > 0 {
      SentListCounts(Executed(s, Sent), n - 1);
    }
  }

  lemma SendingCounts(s: Session, n: nat)
    requires s.doneProcessing && !s.doneListOk && s.commandList.NoList?
    ensures
      var sent := ListEnded(SentList(ListOkBegun(s, Sent), n), Sent);
      sent == s.(doneProcessing := false, listOks := n, error := 0)
  {
    SentListCounts(ListOkBegun(s, Sent), n);
  }

  lemma {:induction false} FinalOk(c: Conn, tail: string)
    requires AtSegment(c, Rest([], ["OK"], 0, tail))
    ensures
      var end := Finish(c);
      && end.future == tail && end.session.doneProcessing && end.session.listOks == 0 && !end.session.doneListOk
      && end.session.error == 0
  {
    LeftoverCountBites(c, [], tail);
  }

  /**
    Command-list accounting: after n commands sent as a list, a conforming reply is consumed
    segment by segment whatever part of each segment is read; `mpd_nextListOkCommand` says 0
    n-1 times and then -1; the final `OK` leaves no count and no error; and not one byte
    beyond the reply is consumed.
   */
  lemma {:induction false} CommandListAccounting(s: Session, segments: seq<seq<string>>, wanted: seq<nat>, tail: string, ending: int)
    requires s.doneProcessing && !s.doneListOk && s.commandList.NoList?
    requires Conforming(segments) && Modest(segments, wanted)
    ensures
      var sent := ListEnded(SentList(ListOkBegun(s, Sent), |segments|), Sent);
      var (c, seen, results) := Rounds(Conn(sent, Encode(Reply(segments)) + tail, ending), wanted);
      var end := Finish(c);
      && sent.listOks == |segments|
      && |seen| == |results| == |segments|
      && (forall j :: 0 <= j < |segments| ==> |seen[j]| == wanted[j] && SeenRight(segments[j], seen[j]))
      && (forall j :: 0 <= j < |segments| ==> results[j] == if j == |segments| - 1 then -1 else 0)
      && end.future == tail && end.session.doneProcessing && end.session.listOks == 0 && end.session.error == 0
  {
    hide Rounds, Encode, Replied, Conforming, Finish, SentList, ListEnded, ListOkBegun;
    SendingCounts(s, |segments|);
    var sent := ListEnded(SentList(ListOkBegun(s, Sent), |segments|), Sent);
    var c0 := Conn(sent, Encode(Reply(segments)) + tail, ending);
    RoundsAccount(c0, Rest(segments, ["OK"], 0, tail), wanted);
    FinalOk(Rounds(c0, wanted).0, tail);
  }

  // ---- an aborted command list -------------------------------------------------------------

  /** A plain reply ends without an error exactly when no such count is left over; it clears the count. */
  lemma {:induction false} LeftoverCountBites(c: Conn, lines: seq<string>, tail: string)
    requires forall k :: 0 <= k < |lines| ==> ElementLine(lines[k])
    requires !c.session.doneProcessing && c.session.error == 0
    requires c.future == Encode(lines + ["OK"]) + tail
    ensures
      var end := Finish(c);
      && end.session.error == (if c.session.listOks == 0 then 0 else 1)
      && end.session.doneProcessing && end.session.listOks == 0 && !end.session.doneListOk && end.future == tail
    decreases |lines|
  {
    hide TakeLine, ParseElement, Encode;
    var c1 := c.(session := c.session.(doneListOk := false));
    var all := lines + ["OK"];
    GetProgress(c1);
    if lines != [] {
      assert all[0] == lines[0] && all[1..] == lines[1..] + ["OK"];
      TakesFirst(all, tail);
      LeftoverCountBites(Get(c1), lines[1..], tail);
    } else {
      assert all[0] == "OK" && all[1..] == [] && Fits("OK");
      TakesFirst(all, tail);
      EncodeNothing();
      assert "" + tail == tail;
      assert Get(c1).session.doneProcessing;
    }
  }

  /** A reply that breaks off with an `ACK` ends there, with the count of the commands not done. */
  lemma {:induction false} AckEnds(c: Conn, lines: seq<string>, ack: string, tail: string)
    requires forall k :: 0 <= k < |lines| ==> ElementLine(lines[k])
    requires Fits(ack) && "ACK" <= ack
    requires !c.session.doneProcessing && c.future == Encode(lines + [ack]) + tail
    ensures
      var end := Finish(c);
      && end.session == c.session.(returnElement := None, error := ERROR_ACK, doneProcessing := true, doneListOk := false)
      && end.future == tail
    decreases |lines|
  {
    hide TakeLine, ParseElement, Encode;
    var c1 := c.(session := c.session.(doneListOk := false));
    var all := lines + [ack];
    GetProgress(c1);
    if lines != [] {
      assert all[0] == lines[0] && all[1..] == lines[1..] + [ack];
      TakesFirst(all, tail);
      AckEnds(Get(c1), lines[1..], ack, tail);
    } else {
      assert all[0] == ack && all[1..] == [] && ack[0] == 'A';
      TakesFirst(all, tail);
      EncodeNothing();
      assert "" + tail == tail;
      assert Get(c1).session.doneProcessing;
    }
  }

  /** An aborted reply: m whole segments, some elements of the next one, and the `ACK`. */
  function Aborted(segments: seq<seq<string>>, lines: seq<string>, ack: string): seq<string> {
    Replied(segments, lines + [ack])
  }

  /**
    The end of an aborted list of n commands of which m were done: a count of n - m is left over.
    A plain command sent next is answered as it should be, but its reply ends without an error
    exactly when n == m; beginning another command list clears the count first.
   */
  lemma {:induction false} AbortedListBites(s: Session, undone: nat, segments: seq<seq<string>>, wanted: seq<nat>,
                                            lines: seq<string>, ack: string, plain: seq<string>, tail: string, ending: int)
    requires s.doneProcessing && !s.doneListOk && s.commandList.NoList?
    requires Conforming(segments) && Modest(segments, wanted)
    requires forall k :: 0 <= k < |lines| ==> ElementLine(lines[k])
    requires forall k :: 0 <= k < |plain| ==> ElementLine(plain[k])
    requires Fits(ack) && "ACK" <= ack
    ensures
      var after := Encode(plain + ["OK"]) + tail;
      var sent := ListEnded(SentList(ListOkBegun(s, Sent), |segments| + undone), Sent);
      var (c, seen, results) := Rounds(Conn(sent, Encode(Aborted(segments, lines, ack)) + after, ending), wanted);
      var aborted := Finish(c);
      var next := Finish(aborted.(session := Executed(aborted.session, Sent)));
      && |seen| == |segments|
      && (forall j :: 0 <= j < |segments| ==> |seen[j]| == wanted[j] && SeenRight(segments[j], seen[j]))
      && aborted.session.doneProcessing && aborted.session.error == ERROR_ACK && aborted.session.listOks == undone
      && aborted.future == after
      && (next.session.error == 0 <==> undone == 0) && next.future == tail && next.session.listOks == 0
      && ListOkBegun(aborted.session, Sent).listOks == 0 && ListOkBegun(aborted.session, Sent).error == 0
  {
    hide Rounds, Encode, Replied, Conforming, Finish, SentList, ListEnded;
    var after := Encode(plain + ["OK"]) + tail;
    SendingCounts(s, |segments| + undone);
    var sent := ListEnded(SentList(ListOkBegun(s, Sent), |segments| + undone), Sent);
    var c0 := Conn(sent, Encode(Aborted(segments, lines, ack)) + after, ending);
    RoundsAccount(c0, Rest(segments, lines + [ack], undone, after), wanted);
    var c := Rounds(c0, wanted).0;
    NoSegments(lines + [ack]);
    AckEnds(c, lines, ack, after);
    var aborted := Finish(c);
    LeftoverCountBites(aborted.(session := Executed(aborted.session, Sent)), plain, tail);
  }

  lemma NoSegments(last: seq<string>)
    ensures Replied([], last) == last
  {
  }

  // ---- listings ------------------------------------------------------------------------------

  /** The elements that reads would see from here until one sees none. */
  function Upcoming(c: Conn): seq<Element>
    decreases Measure(c)
  {
    if Blocked(c.session) then []
    else
      GetProgress(c);
      var c1 := Get(c);
      if c1.session.returnElement.None? then [] else [c1.session.returnElement.value] + Upcoming(c1)
  }

  /** The state in which those reads end. */
  function AtEnd(c: Conn): Conn
    decreases Measure(c)
  {
    if Blocked(c.session) then c
    else
      GetProgress(c);
      var c1 := Get(c);
      if c1.session.returnElement.None? then c1 else AtEnd(c1)
  }

  /** With the element already looked at. */
  function Pending(c: Conn): seq<Element> {
    if c.session.returnElement.Some? then [c.session.returnElement.value] + Upcoming(c) else Upcoming(c)
  }

  function BodyLength(elements: seq<Element>): (n: nat)
    ensures n <= |elements| && (forall i :: 0 <= i < n ==> !IsHeader(elements[i]))
    ensures n < |elements| ==> IsHeader(elements[n])
    decreases |elements|
  {
    if elements == [] || IsHeader(elements[0]) then 0 else 1 + BodyLength(elements[1..])
  }

  function Described(entity: Entity, body: seq<Element>): Entity
    decreases |body|
  {
    if body == [] then entity else Described(Describe(entity, body[0]), body[1..])
  }

  /** The entity of a group: its header, described by the elements after it. */
  function Built(group: seq<Element>): Entity
    requires group != [] && IsHeader(group[0])
  {
    Described(NewEntity(group[0]), group[1..])
  }

  /** Between two entities a header has been looked at, or nothing is looked at. */
  predicate Settled(c: Conn) {
    c.session.returnElement.Some? ==> !Blocked(c.session)
  }

  /** One read: what it sees is the first of the upcoming elements. */
  lemma GetSplits(c: Conn)
    requires !Blocked(c.session)
    ensures
      var c1 := Get(c);
      && Settled(c1)
      && (if c1.session.returnElement.Some? then Upcoming(c) == Pending(c1) && AtEnd(c1) == AtEnd(c)
          else Upcoming(c) == [] && AtEnd(c) == c1)
  {
    hide Get;
    GetProgress(c);
  }

  /** `c'` is further on in the response of `c`, with the elements `left` still pending. */
  ghost predicate Continues(c: Conn, c': Conn, left: seq<Element>) {
    if left == [] then c' == AtEnd(c) && c'.session.returnElement.None?
    else
      && c'.session.returnElement.Some? && !Blocked(c'.session)
      && Pending(c') == left && AtEnd(c') == AtEnd(c)
  }

  lemma GetContinues(c: Conn)
    requires !Blocked(c.session)
    ensures Continues(c, Get(c), Upcoming(c))
  {
    GetSplits(c);
  }

  lemma ContinuesOn(c: Conn, c1: Conn, c2: Conn, left1: seq<Element>, left2: seq<Element>)
    requires left1 != [] && Continues(c, c1, left1) && Continues(c1, c2, left2)
    ensures Continues(c, c2, left2)
  {
  }

  lemma BodyCases(elements: seq<Element>)
    requires elements != []
    ensures
      var n := BodyLength(elements);
      if IsHeader(elements[0]) then n == 0 && elements[..n] == [] && elements[n..] == elements
      else
        var m := BodyLength(elements[1..]);
        && n == m + 1 && elements[..n] == [elements[0]] + elements[1..][..m]
        && elements[n..] == elements[1..][m..]
  {
    hide IsHeader;
    if !IsHeader(elements[0]) {
      var m := BodyLength(elements[1..]);
      assert elements == [elements[0]] + elements[1..];
    }
  }

  lemma DescribedFirst(entity: Entity, e: Element, body: seq<Element>)
    ensures Described(entity, [e] + body) == Described(Describe(entity, e), body)
  {
    assert ([e] + body)[1..] == body;
  }

  /** The collecting loop uses exactly the elements before the next header. */
  lemma {:induction false} CollectsBody(c: Conn, entity: Entity)
    requires c.session.returnElement.Some? && !Blocked(c.session)
    ensures
      var before := Pending(c);
      var n := BodyLength(before);
      var (c', built) := Collect(c, entity);
      built == Described(entity, before[..n]) && Continues(c, c', before[n..])
    decreases Measure(c)
  {
    hide Get, Describe, Described, IsHeader, Blocked, Upcoming, AtEnd, BodyLength, Continues;
    var e, rest := c.session.returnElement.value, Upcoming(c);
    assert Pending(c) == [e] + rest && Pending(c)[1..] == rest;
    BodyCases(Pending(c));
    if IsHeader(e) {
      assert Continues(c, c, Pending(c)) by { ContinuesSame(c); }
      DescribedNothing(entity);
    } else {
      GetProgress(c);
      GetContinues(c);
      var c1, entity1 := Get(c), Describe(entity, e);
      var m := BodyLength(rest);
      DescribedFirst(entity, e, rest[..m]);
      if rest == [] {
        NothingLeft(c, c1);
        DescribedNothing(entity1);
      } else {
        PendingLeft(c, c1, rest);
        CollectsBody(c1, entity1);
        ContinuesOn(c, c1, Collect(c1, entity1).0, rest, rest[m..]);
      }
    }
  }

  lemma ContinuesSame(c: Conn)
    requires c.session.returnElement.Some? && !Blocked(c.session)
    ensures Continues(c, c, Pending(c))
  {
  }

  lemma NothingLeft(c: Conn, c': Conn)
    requires Continues(c, c', [])
    ensures c'.session.returnElement.None?
  {
  }

  lemma PendingLeft(c: Conn, c': Conn, left: seq<Element>)
    requires left != [] && Continues(c, c', left)
    ensures c'.session.returnElement.Some? && !Blocked(c'.session) && Pending(c') == left
  {
  }

  lemma DescribedNothing(entity: Entity)
    ensures Described(entity, []) == entity
  {
  }

  /** The length of the first group: its header and the elements up to the next header. */
  function GroupLength(elements: seq<Element>): (n: nat)
    requires elements != []
    ensures 1 <= n <= |elements|
  {
    1 + BodyLength(elements[1..])
  }

  /** Collecting behind a header that has been looked at. */
  lemma CollectsGroup(c: Conn)
    requires c.session.returnElement.Some? && !Blocked(c.session) && IsHeader(c.session.returnElement.value)
    ensures
      var elements := Pending(c);
      var n := GroupLength(elements);
      var (c', built) := Collect(Get(c), NewEntity(elements[0]));
      built == Built(elements[..n]) && Continues(c, c', elements[n..])
  {
    hide Get, Describe, Described, IsHeader, Blocked, Upcoming, AtEnd, BodyLength, Continues, NewEntity;
    var header, rest := c.session.returnElement.value, Upcoming(c);
    var elements := Pending(c);
    assert elements == [header] + rest && elements[1..] == rest;
    var c1, m := Get(c), BodyLength(rest);
    assert elements[..m + 1][1..] == rest[..m] && elements[m + 1..] == rest[m..];
    GetContinues(c);
    if rest == [] {
      NothingLeft(c, c1);
      DescribedNothing(NewEntity(header));
    } else {
      PendingLeft(c, c1, rest);
      CollectsBody(c1, NewEntity(header));
      ContinuesOn(c, c1, Collect(c1, NewEntity(header)).0, rest, rest[m..]);
    }
  }

  /**
    One call: a response that begins with a header yields the entity of the first group, and
    the element looked at last is the first of the next call; nothing is lost or used twice.
   */
  lemma {:induction false} NextEntitySplits(c: Conn)
    requires Settled(c)
    ensures
      var elements := Pending(c);
      var (c', entity) := NextEntity(c);
      if elements == [] then entity == None
      else if !IsHeader(elements[0]) then entity == None && c'.session.error == 1
      else
        var n := GroupLength(elements);
        entity == Some(Built(elements[..n])) && Continues(c, c', elements[n..])
  {
    hide Get, Upcoming, AtEnd, Collect, Built, NewEntity, IsHeader, GroupLength, Continues;
    if Blocked(c.session) {
      BlockedHasNothing(c);
    } else if c.session.returnElement.Some? {
      if IsHeader(c.session.returnElement.value) {
        CollectsGroup(c);
      }
    } else {
      var c1 := Get(c);
      GetContinues(c);
      if Upcoming(c) == [] {
        NothingLeft(c, c1);
      } else {
        PendingLeft(c, c1, Upcoming(c));
        if IsHeader(c1.session.returnElement.value) {
          CollectsGroup(c1);
          var elements := Pending(c1);
          ContinuesOn(c, c1, NextEntity(c).0, elements, elements[GroupLength(elements)..]);
        }
      }
    }
  }

  lemma BlockedHasNothing(c: Conn)
    requires Blocked(c.session) && c.session.returnElement.None?
    ensures Pending(c) == []
  {
  }

  predicate HeaderFirst(elements: seq<Element>) {
    elements != [] ==> IsHeader(elements[0])
  }

  /** A header and elements that describe it. */
  predicate IsGroup(group: seq<Element>) {
    group != [] && IsHeader(group[0]) && BodyLength(group[1..]) == |group| - 1
  }

  lemma FirstGroup(elements: seq<Element>)
    requires elements != [] && IsHeader(elements[0])
    ensures IsGroup(elements[..GroupLength(elements)]) && HeaderFirst(elements[GroupLength(elements)..])
  {
    hide IsHeader;
    var n := GroupLength(elements);
    assert elements[..n][1..] == elements[1..][..n - 1];
    BodyWithin(elements[1..]);
    if n < |elements| {
      assert elements[n..][0] == elements[1..][n - 1];
    }
  }

  lemma {:induction false} BodyWithin(elements: seq<Element>)
    ensures var n := BodyLength(elements); BodyLength(elements[..n]) == n
    decreases |elements|
  {
    hide IsHeader;
    var n := BodyLength(elements);
    if n > 0 {
      BodyWithin(elements[1..]);
      assert elements[..n][1..] == elements[1..][..n - 1];
    }
  }

  /** The groups of a response: cut before every header. */
  function Groups(elements: seq<Element>): (r: seq<seq<Element>>)
    requires HeaderFirst(elements)
    ensures forall k :: 0 <= k < |r| ==> IsGroup(r[k])
    decreases |elements|
  {
    if elements == [] then []
    else
      FirstGroup(elements);
      [elements[..GroupLength(elements)]] + Groups(elements[GroupLength(elements)..])
  }

  function Flatten(groups: seq<seq<Element>>): seq<Element> {
    if groups == [] then [] else groups[0] + Flatten(groups[1..])
  }

  /** The groups are a partition of the elements, in order. */
  lemma {:induction false} GroupsConserve(elements: seq<Element>)
    requires HeaderFirst(elements)
    ensures Flatten(Groups(elements)) == elements
    decreases |elements|
  {
    hide IsHeader, IsGroup, GroupLength, Groups, HeaderFirst;
    if elements == [] {
      assert Groups(elements) == [] by { NoGroups(); }
    } else {
      FirstOfGroups(elements);
      var n := GroupLength(elements);
      GroupsConserve(elements[n..]);
      assert elements[..n] + elements[n..] == elements;
    }
  }

  lemma NoGroups()
    ensures Groups([]) == []
  {
  }

  lemma FirstOfGroups(elements: seq<Element>)
    requires HeaderFirst(elements) && elements != []
    ensures
      var n := GroupLength(elements);
      && 0 < n <= |elements| && HeaderFirst(elements[n..])
      && Groups(elements) == [elements[..n]] + Groups(elements[n..])
  {
    hide IsHeader, IsGroup;
    FirstGroup(elements);
  }

  /** The entities handed out by `n` calls in a row, and the state after them. */
  function Calls(c: Conn, n: nat): (r: (Conn, seq<Option<Entity>>))
    decreases n
  {
    if n == 0 then (c, [])
    else
      var first := NextEntity(c);
      var r := Calls(first.0, n - 1);
      (r.0, [first.1] + r.1)
  }

  /**
    Repeated calls over a response that begins with a header return exactly the entities of
    its groups, in order, and leave the connection where the response ended.
   */
  lemma {:induction false} EntitiesAreGroups(c: Conn)
    requires Settled(c) && Pending(c) != [] && HeaderFirst(Pending(c))
    ensures
      var groups := Groups(Pending(c));
      var (c', entities) := Calls(c, |groups|);
      && |entities| == |groups|
      && (forall i :: 0 <= i < |groups| ==> IsGroup(groups[i]) && entities[i] == Some(Built(groups[i])))
      && c' == AtEnd(c) && c'.session.returnElement.None?
    decreases |Pending(c)|
  {
    hide NextEntity, Pending, AtEnd, IsHeader, Built, IsGroup;
    var elements := Pending(c);
    var n := GroupLength(elements);
    FirstGroup(elements);
    NextEntitySplits(c);
    var c1 := NextEntity(c).0;
    var groups := Groups(elements);
    assert groups[0] == elements[..n] && groups[1..] == Groups(elements[n..]);
    if n < |elements| {
      EntitiesAreGroups(c1);
      assert forall i :: 1 <= i < |groups| ==> groups[i] == groups[1..][i - 1];
    }
  }

  // ---- a listing on the wire -------------------------------------------------------------------

  function Parsed(lines: seq<string>): (r: seq<Element>)
    requires forall k :: 0 <= k < |lines| ==> ElementLine(lines[k])
    ensures |r| == |lines| && forall k :: 0 <= k < |lines| ==> Some(r[k]) == ParseElement(lines[k])
  {
    if lines == [] then []
    else
      assert ElementLine(lines[0]);
      [ParseElement(lines[0]).value] + Parsed(lines[1..])
  }

  /** What reads see of a plain reply are its lines, and behind its `OK` they end. */
  lemma {:induction false} UpcomingOnWire(c: Conn, lines: seq<string>, tail: string)
    requires forall k :: 0 <= k < |lines| ==> ElementLine(lines[k])
    requires !c.session.doneProcessing && c.session.listOks == 0 && c.future == Encode(lines + ["OK"]) + tail
    ensures Upcoming(c) == Parsed(lines)
    ensures
      var end := AtEnd(c);
      end.future == tail && end.session.doneProcessing && end.session.error == c.session.error && end.session.listOks == 0
    decreases |lines|
  {
    hide TakeLine, ParseElement, Encode;
    var all := lines + ["OK"];
    if lines != [] {
      assert all[0] == lines[0] && all[1..] == lines[1..] + ["OK"];
      TakesFirst(all, tail);
      UpcomingOnWire(Get(c), lines[1..], tail);
    } else {
      assert all[0] == "OK" && all[1..] == [] && Fits("OK");
      TakesFirst(all, tail);
      EncodeNothing();
      assert "" + tail == tail;
    }
  }

  /**
    A listing: repeated calls over a plain reply that begins with a header hand out exactly the
    entities of the groups of its lines, in order, without an error and up to the last byte of the reply.
   */
  lemma {:induction false} ListingEntities(c: Conn, lines: seq<string>, tail: string)
    requires forall k :: 0 <= k < |lines| ==> ElementLine(lines[k])
    requires !c.session.doneProcessing && c.session.listOks == 0 && c.session.returnElement.None?
    requires c.future == Encode(lines + ["OK"]) + tail
    requires lines != [] && IsHeader(Parsed(lines)[0])
    ensures
      var groups := Groups(Parsed(lines));
      var (c', entities) := Calls(c, |groups|);
      && |entities| == |groups|
      && (forall i :: 0 <= i < |groups| ==> IsGroup(groups[i]) && entities[i] == Some(Built(groups[i])))
      && c'.future == tail && c'.session.doneProcessing && c'.session.error == c.session.error
  {
    hide IsHeader, Encode, Upcoming, AtEnd, Groups, Calls, Parsed;
    UpcomingOnWire(c, lines, tail);
    EntitiesAreGroups(c);
  }

  // ---- tags ----------------------------------------------------------------------------------

  /** The first non-empty value under a name. */
  function FirstValue(name: string, body: seq<Element>): Option<string>
    decreases |body|
  {
    if body == [] then None
    else if body[0].name == name && body[0].value != "" then Some(body[0].value)
    else FirstValue(name, body[1..])
  }

  function Either(a: Option<string>, b: Option<string>): Option<string> {
    if a.Some? then a else b
  }

  predicate TextTag(name: string) {
    name in {"Artist", "Album", "Title", "Track", "Name", "Date"}
  }

  function Tag(song: Song, name: string): Option<string>
    requires TextTag(name)
  {
    if name == "Artist" then song.artist
    else if name == "Album" then song.album
    else if name == "Title" then song.title
    else if name == "Track" then song.track
    else if name == "Name" then song.name
    else song.date
  }

  lemma AddTagOnce(song: Song, e: Element, name: string)
    requires TextTag(name)
    ensures AddTag(song, e).file == song.file
    ensures Tag(AddTag(song, e), name)
         == Either(Tag(song, name), if e.name == name && e.value != "" then Some(e.value) else None)
  {
    hide Atoi;
  }

  lemma {:induction false} TagsFrom(song: Song, body: seq<Element>, name: string)
    requires TextTag(name)
    ensures
      var d := Described(SongEntity(song), body);
      && d.SongEntity? && d.song.file == song.file
      && Tag(d.song, name) == Either(Tag(song, name), FirstValue(name, body))
    decreases |body|
  {
    hide AddTag, Tag, TextTag;
    if body != [] {
      AddTagOnce(song, body[0], name);
      TagsFrom(AddTag(song, body[0]), body[1..], name);
    }
  }

  /** In a song the first non-empty value of every text tag wins. */
  lemma {:induction false} FirstTagWins(group: seq<Element>, name: string)
    requires IsGroup(group) && group[0].name == "file" && TextTag(name)
    ensures
      var built := Built(group);
      built.SongEntity? && built.song.file == group[0].value && Tag(built.song, name) == FirstValue(name, group[1..])
  {
    TagsFrom(NewSong(group[0].value), group[1..], name);
  }
}
