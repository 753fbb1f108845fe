/** The lines that the byte stream of an MPD connection stands for. */
module MpdStream {
  import opened Text
  import opened ByteStream

  const BUFFER_MAX: nat := 50000     // MPD_BUFFER_MAX_LENGTH

  const ERROR_TIMEOUT := 10
  const ERROR_CONNCLOSED := 17
  const ERROR_ACK := 18
  const ERROR_BUFFEROVERRUN := 19

  /** The error when the bytes run out. */
  function Ending(net: seq<NetEvent>): int {
    if EndsClosed(net) then ERROR_CONNCLOSED else ERROR_TIMEOUT
  }

  datatype LineResult =
    | Line(text: string, rest: string)
    | Overrun                // the first BUFFER_MAX bytes hold no line end
    | NoLine                 // the stream ends within a line that would still fit

  /** The next line of a stream: a function of the bytes alone, not of how they are cut into pieces. */
  function TakeLine(f: string): LineResult {
    var k := FirstNewline(f);
    if k < |f| && k < BUFFER_MAX then Line(f[..k], f[k + 1..])
    else if |f| >= BUFFER_MAX then Overrun
    else NoLine
  }

  lemma TakesLine(text: string, rest: string)
    requires '\n' !in text && |text| < BUFFER_MAX
    ensures TakeLine(text + "\n" + rest) == Line(text, rest)
  {
    var f := text + "\n" + rest;
    FirstNewlineUnique(f, |text|);
    assert f[..|text|] == text && f[|text| + 1..] == rest;
  }

  lemma Overruns(unread: string, arriving: string)
    requires |unread| == BUFFER_MAX && '\n' !in unread
    ensures TakeLine(unread + arriving) == Overrun
  {
    var f := unread + arriving;
    var k := FirstNewline(f);
    assert forall i :: 0 <= i < BUFFER_MAX ==> f[i] == unread[i];
  }

  lemma FallsShort(unread: string)
    requires |unread| < BUFFER_MAX && '\n' !in unread
    ensures TakeLine(unread) == NoLine
  {
    FirstNewlineUnique(unread, |unread|);
  }

  // ---- interruptions -----------------------------------------------------------------------

  datatype Outcome = Delivered(text: string) | Fails(error: int)

  /** What reading a line comes to, with these bytes in the buffer. */
  function ReadOutcome(unread: string, net: seq<NetEvent>): Outcome {
    match TakeLine(unread + Arriving(net))
    case Line(text, _) => Delivered(text)
    case Overrun => Fails(ERROR_BUFFEROVERRUN)
    case NoLine => Fails(Ending(net))
  }

  /** What a reader sees that waits again after an interruption, as the condition in the source intends. */
  function Retrying(net: seq<NetEvent>): seq<NetEvent> {
    if net == [] then [] else (if net[0].Interrupted? then [] else [net[0]]) + Retrying(net[1..])
  }

  /** Events after which the reader goes on. */
  predicate GoesOn(events: seq<NetEvent>) {
    forall i :: 0 <= i < |events| ==> events[i].Data? || events[i].Again?
  }

  lemma {:induction false} GoingOn(before: seq<NetEvent>, rest: seq<NetEvent>)
    requires GoesOn(before)
    ensures Arriving(before + rest) == Arriving(before) + Arriving(rest)
    ensures EndsClosed(before + rest) == EndsClosed(rest)
    ensures Retrying(before + rest) == before + Retrying(rest)
    decreases |before|
  {
    if before == [] {
      assert before + rest == rest && "" + Arriving(rest) == Arriving(rest) && [] + Retrying(rest) == Retrying(rest);
    } else {
      assert (before + rest)[0] == before[0] && (before + rest)[1..] == before[1..] + rest;
      GoingOn(before[1..], rest);
      assert [before[0]] + before[1..] == before;
      Reassociate([before[0]], before[1..], Retrying(rest));
      if before[0].Data? {
        Reassociate(before[0].bytes, Arriving(before[1..]), Arriving(rest));
      }
    }
  }

  /** More bytes do not change what has been decided. */
  lemma Decided(f: string, more: string)
    requires !TakeLine(f).NoLine?
    ensures if TakeLine(f).Overrun? then TakeLine(f + more).Overrun? else TakeLine(f + more) == Line(TakeLine(f).text, TakeLine(f).rest + more)
  {
    var k := FirstNewline(f);
    if k < |f| {
      FirstNewlineUnique(f + more, k);
      assert (f + more)[..k] == f[..k] && (f + more)[k + 1..] == f[k + 1..] + more;
    } else {
      assert forall i :: 0 <= i < |f| ==> (f + more)[i] == f[i];
    }
  }

  /** An interruption before a line is decided is reported as a timeout, whatever would have come later. */
  lemma InterruptedTimesOut(unread: string, before: seq<NetEvent>, later: seq<NetEvent>)
    requires GoesOn(before) && TakeLine(unread + Arriving(before)).NoLine?
    ensures ReadOutcome(unread, before + ([Interrupted] + later)) == Fails(ERROR_TIMEOUT)
  {
    hide TakeLine;
    GoingOn(before, [Interrupted] + later);
    assert Arriving(before) + "" == Arriving(before);
  }

  /**
    The reader as written and the one that waits again come to the same, whatever arrives later,
    exactly when the buffer and the events before the interruption already decide the line.
   */
  lemma {:induction false} InterruptionIff(unread: string, before: seq<NetEvent>)
    requires GoesOn(before)
    ensures (forall later ::
              ReadOutcome(unread, before + ([Interrupted] + later)) == ReadOutcome(unread, Retrying(before + ([Interrupted] + later))))
        <==> !TakeLine(unread + Arriving(before)).NoLine?
  {
    hide TakeLine, ReadOutcome;
    var f := unread + Arriving(before);
    if TakeLine(f).NoLine? {
      assert [Interrupted] + [Closed] == [Interrupted, Closed];
      InterruptedTimesOut(unread, before, [Closed]);
      RetriesToClose(unread, before);
    } else {
      forall later
        ensures ReadOutcome(unread, before + ([Interrupted] + later)) == ReadOutcome(unread, Retrying(before + ([Interrupted] + later)))
      {
        RetrySame(unread, before, later);
      }
    }
  }

  lemma ClosedOutcome(unread: string, before: seq<NetEvent>)
    requires GoesOn(before) && TakeLine(unread + Arriving(before)).NoLine?
    ensures ReadOutcome(unread, before + [Closed]) == Fails(ERROR_CONNCLOSED)
  {
    hide TakeLine;
    GoingOn(before, [Closed]);
    assert Arriving([Closed]) == "" && EndsClosed([Closed]);
    assert Arriving(before) + "" == Arriving(before);
  }

  lemma RetriesToClose(unread: string, before: seq<NetEvent>)
    requires GoesOn(before) && TakeLine(unread + Arriving(before)).NoLine?
    ensures ReadOutcome(unread, Retrying(before + ([Interrupted] + [Closed]))) == Fails(ERROR_CONNCLOSED)
  {
    hide TakeLine, ReadOutcome, Arriving, EndsClosed;
    GoingOn(before, [Interrupted] + [Closed]);
    assert ([Interrupted] + [Closed])[1..] == [Closed] && [Closed][1..] == [];
    assert Retrying([Closed]) == [Closed] + Retrying([]) == [Closed];
    assert Retrying([Interrupted] + [Closed]) == [] + Retrying([Closed]);
    assert Retrying(before + ([Interrupted] + [Closed])) == before + [Closed];
    ClosedOutcome(unread, before);
  }

  lemma RetrySame(unread: string, before: seq<NetEvent>, later: seq<NetEvent>)
    requires GoesOn(before) && !TakeLine(unread + Arriving(before)).NoLine?
    ensures ReadOutcome(unread, before + ([Interrupted] + later)) == ReadOutcome(unread, Retrying(before + ([Interrupted] + later)))
  {
    hide TakeLine, Arriving, EndsClosed;
    var f, rest := unread + Arriving(before), [Interrupted] + later;
    GoingOn(before, rest);
    GoingOn(before, Retrying(rest));
    Reassociate(unread, Arriving(before), Arriving(rest));
    Reassociate(unread, Arriving(before), Arriving(Retrying(rest)));
    Decided(f, Arriving(rest));
    Decided(f, Arriving(Retrying(rest)));
  }
}
