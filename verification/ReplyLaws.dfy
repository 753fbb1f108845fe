/** Replies that are not what they should be, and commands that cannot be sent. */
module ReplyLaws {
  import opened Text
  import opened MpdStream
  import opened MpdProtocol
  import opened MpdLaws

  // ---- broken replies --------------------------------------------------------------------------

  /** The bytes of a reply that breaks off: whole element lines, and a part without a line end. */
  ghost predicate BreaksOff(c: Conn, lines: seq<string>, part: string) {
    && !c.session.doneProcessing && c.future == Encode(lines) + part
    && (forall k :: 0 <= k < |lines| ==> ElementLine(lines[k])) && !TakeLine(part).Line?
  }

  /**
    A reply that breaks off before its `OK` ends the command with the error of the connection,
    closed or timed out, or with an overrun if the unfinished line does not fit the buffer; the
    part is not consumed, and the count of outstanding `list_OK`s stays.
   */
  lemma {:induction false} BrokenReply(c: Conn, lines: seq<string>, part: string)
    requires BreaksOff(c, lines, part)
    ensures
      var end := Finish(c);
      && end.session == c.session.(returnElement := None, doneProcessing := true, doneListOk := false,
                                   error := if |part| >= BUFFER_MAX then ERROR_BUFFEROVERRUN else c.ending)
      && end.future == part
    decreases |lines|
  {
    hide ParseElement, Encode;
    var c1 := c.(session := c.session.(doneListOk := false));
    GetProgress(c1);
    if lines == [] {
      EncodeNothing();
      EmptyFirst(part);
      PartKind(part);
      hide TakeLine;
      assert Get(c1).session.doneProcessing;
    } else {
      TakesFirst(lines, part);
      hide TakeLine;
      BrokenReply(Get(c1), lines[1..], part);
    }
  }

  lemma PartKind(part: string)
    requires !TakeLine(part).Line?
    ensures TakeLine(part) == if |part| >= BUFFER_MAX then Overrun else NoLine
  {
  }

  /** A `list_OK` in the reply to a plain command is an error, and does not end the reply. */
  lemma {:induction false} UnexpectedListOk(c: Conn, before: seq<string>, after: seq<string>, tail: string)
    requires forall k :: 0 <= k < |before| ==> ElementLine(before[k])
    requires forall k :: 0 <= k < |after| ==> ElementLine(after[k])
    requires !c.session.doneProcessing && c.session.listOks == 0
    requires c.future == Encode(before + ["list_OK"] + after + ["OK"]) + tail
    ensures
      var end := Finish(c);
      end.session.doneProcessing && end.session.error == 1 && end.session.listOks == 0 && end.future == tail
    decreases |before|
  {
    hide TakeLine, ParseElement, Encode;
    var all := before + ["list_OK"] + after + ["OK"];
    var c1 := c.(session := c.session.(doneListOk := false));
    GetProgress(c1);
    if before == [] {
      assert all[0] == "list_OK" && all[1..] == after + ["OK"] && Fits("list_OK");
      TakesFirst(all, tail);
      KeepsError(Get(c1), after, tail);
    } else {
      assert all[0] == before[0] && all[1..] == before[1..] + ["list_OK"] + after + ["OK"];
      TakesFirst(all, tail);
      UnexpectedListOk(Get(c1), before[1..], after, tail);
    }
  }

  /** An error noted within a plain reply is still there at its end. */
  lemma {:induction false} KeepsError(c: Conn, lines: seq<string>, tail: string)
    requires forall k :: 0 <= k < |lines| ==> ElementLine(lines[k])
    requires !c.session.doneProcessing && c.session.listOks == 0 && c.future == Encode(lines + ["OK"]) + tail
    ensures
      var end := Finish(c);
      && end.session.doneProcessing && end.session.error == c.session.error && end.session.listOks == 0
      && end.future == tail
    decreases |lines|
  {
    hide TakeLine, ParseElement, Encode;
    var c1 := c.(session := c.session.(doneListOk := false));
    var all := lines + ["OK"];
    GetProgress(c1);
    if lines != [] {
      assert all[0] == lines[0] && all[1..] == lines[1..] + ["OK"];
      TakesFirst(all, tail);
      KeepsError(Get(c1), lines[1..], tail);
    } else {
      assert all[0] == "OK" && all[1..] == [] && Fits("OK");
      TakesFirst(all, tail);
      EncodeNothing();
      EmptyFirst(tail);
      assert Get(c1).session.doneProcessing;
    }
  }

  /** Whatever ends a reply, `OK`, `ACK`, a broken connection or an overrun, no segment is noted as read any more. */
  lemma {:induction false} EndClearsSegment(c: Conn)
    requires !Blocked(c.session)
    ensures Get(c).session.doneProcessing ==> !Get(c).session.doneListOk
    ensures !TakeLine(c.future).Line? ==> Get(c).session.doneProcessing && Get(c).future == c.future
  {
    hide TakeLine, ParseElement;
  }

  /** When the reply to a list breaks off with an `ACK` there is no next command, though some are outstanding. */
  lemma {:induction false} NoNextAfterAck(c: Conn, lines: seq<string>, ack: string, tail: string)
    requires forall k :: 0 <= k < |lines| ==> ElementLine(lines[k])
    requires Fits(ack) && "ACK" <= ack
    requires !c.session.doneProcessing && c.session.listOks > 0 && !c.session.doneListOk
    requires c.future == Encode(lines + [ack]) + tail
    ensures
      var (r, end) := NextListOk(c);
      && r == -1 && end.future == tail
      && end.session == c.session.(returnElement := None, error := ERROR_ACK, doneProcessing := true)
  {
    hide Encode;
    AckSkipped(c, lines, ack, tail);
  }

  lemma {:induction false} AckSkipped(c: Conn, lines: seq<string>, ack: string, tail: string)
    requires forall k :: 0 <= k < |lines| ==> ElementLine(lines[k])
    requires Fits(ack) && "ACK" <= ack
    requires !c.session.doneProcessing && c.session.listOks > 0 && !c.session.doneListOk
    requires c.future == Encode(lines + [ack]) + tail
    ensures
      var end := FinishListOk(c);
      && end.future == tail
      && end.session == c.session.(returnElement := None, error := ERROR_ACK, doneProcessing := true)
    decreases |lines|
  {
    hide TakeLine, ParseElement, Encode;
    var all := lines + [ack];
    GetProgress(c);
    if lines != [] {
      assert all[0] == lines[0] && all[1..] == lines[1..] + [ack];
      TakesFirst(all, tail);
      AckSkipped(Get(c), lines[1..], ack, tail);
    } else {
      assert all[0] == ack && all[1..] == [] && ack[0] == 'A';
      TakesFirst(all, tail);
      EncodeNothing();
      EmptyFirst(tail);
      assert Get(c).session.doneProcessing;
    }
  }

  /** Reading when nothing is due is an error, consumes nothing and forgets the element looked at. */
  lemma {:induction false} NothingDue(c: Conn)
    requires c.session.doneProcessing || (c.session.listOks > 0 && c.session.doneListOk)
    ensures Get(c) == c.(session := c.session.(returnElement := None, error := 1))
  {
  }

  // ---- commands that are not sent ----------------------------------------------------------------

  /** A second plain command before the reply to the first has been finished is refused, whatever the network does. */
  lemma {:induction false} SecondCommandRefused(s: Session, sending: Sending)
    requires s.doneProcessing && s.commandList.NoList?
    ensures
      var busy := Executed(s, Sent);
      !busy.doneProcessing && Executed(busy, sending) == busy.(error := 1)
  {
  }

  /** A command that could not be sent leaves nothing to be read, and the next one can be sent. */
  lemma {:induction false} FailedSending(s: Session, sending: Sending)
    requires s.doneProcessing && s.commandList.NoList? && !sending.Sent?
    ensures
      var failed := Executed(s, sending);
      && failed == s.(error := if sending.SendFailed? then ERROR_SENDING else ERROR_TIMEOUT)
      && Executed(failed, Sent) == s.(error := 0, doneProcessing := false)
  {
  }

  /** A command of a list that could not be sent is not counted. */
  lemma {:induction false} FailedInList(s: Session, sending: Sending)
    requires s.commandList.OkList? && !sending.Sent?
    ensures Executed(s, sending) == s.(error := if sending.SendFailed? then ERROR_SENDING else ERROR_TIMEOUT)
  {
  }

  /** Commands of a list without `list_OK`s are not counted, and its end makes one reply due. */
  lemma {:induction false} PlainListCountsNothing(s: Session, n: nat)
    requires s.doneProcessing && s.commandList.NoList?
    ensures
      var sent := ListEnded(SentList(ListBegun(s, Sent), n), Sent);
      sent == s.(doneProcessing := false, error := 0)
  {
    PlainCommands(ListBegun(s, Sent), n);
  }

  lemma {:induction false} PlainCommands(s: Session, n: nat)
    requires s.commandList.PlainList? && s.error == 0
    ensures SentList(s, n) == s
    decreases n
  {
    if n > 0 {
      PlainCommands(Executed(s, Sent), n - 1);
    }
  }

  /** Lists do not nest, and only a list that has begun can end. */
  lemma {:induction false} ListsDoNotNest(s: Session, sending: Sending)
    ensures !s.commandList.NoList? ==> ListBegun(s, sending) == s.(error := 1) == ListOkBegun(s, sending)
    ensures s.commandList.NoList? ==> ListEnded(s, sending) == s.(error := 1)
  {
  }
}
