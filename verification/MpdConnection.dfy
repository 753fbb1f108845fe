/** The connection object: the protocol fields on top of the line reader. */
module MpdConnection {
  import opened Text
  import opened ByteStream
  import opened MpdStream
  import opened MpdReader
  import opened MpdProtocol
  import opened MpdEntities

  class Connection {
    const reader: Reader
    var doneProcessing: bool
    var listOks: nat
    var doneListOk: bool
    var commandList: ListMode
    var returnElement: Option<Element>

    constructor (reader: Reader)
      requires reader.Valid()
      ensures Valid() && this.reader == reader
      ensures Session() == MpdProtocol.Session(true, 0, false, NoList, None, reader.error)
    {
      this.reader := reader;
      doneProcessing, listOks, doneListOk, commandList, returnElement := true, 0, false, NoList, None;
    }

    ghost predicate Valid()
      reads this, reader, reader.buffer
    {
      reader.Valid()
    }

    ghost function Session(): Session
      reads this, reader
    {
      MpdProtocol.Session(doneProcessing, listOks, doneListOk, commandList, returnElement, reader.error)
    }

    ghost function State(): Conn
      requires Valid()
      reads this, reader, reader.buffer
    {
      Conn(Session(), reader.Future(), Ending(reader.net))
    }

    /** Work left for the reading loops. */
    ghost function Work(): nat
      requires Valid()
      reads this, reader, reader.buffer
    {
      reader.Work() + (if doneProcessing then 0 else 1)
    }

    /** What `mpd_getNextReturnElement` does with a complete line. */
    method HandleLine(output: string)
      requires returnElement.None?
      modifies this`returnElement, this`doneProcessing, this`doneListOk, this`listOks, reader`error
      ensures Session() == Handle(old(Session()), output)
    {
      if output == "OK" {
        if listOks > 0 {
          reader.error := 1;
        }
        listOks := 0;
        doneProcessing := true;
        doneListOk := false;
        return;
      }
      if output == "list_OK" {
        if listOks == 0 {
          reader.error := 1;
        } else {
          doneListOk := true;
          listOks := listOks - 1;
        }
        return;
      }
      if "ACK" <= output {
        reader.error := ERROR_ACK;
        doneProcessing := true;
        doneListOk := false;
        return;
      }
      returnElement := ParseElement(output);
      if returnElement.None? {
        reader.error := 1;
      }
    }

    method GetNextReturnElement()
      requires Valid()
      modifies this`returnElement, this`doneProcessing, this`doneListOk, this`listOks, reader, reader.buffer
      ensures Valid()
      ensures !old(Blocked(Session())) ==> Work() < old(Work())
      ensures returnElement.Some? ==> !Blocked(Session())
      ensures NulFree(old(reader.Future())) ==> State() == Get(old(State())) && NulFree(reader.Future())
    {
      hide TakeLine, NulFree, Ending, ParseElement, ReadOutcome, Arriving, Weight;
      ghost var before := State();
      returnElement := None;
      if doneProcessing || (listOks > 0 && doneListOk) {
        reader.error := 1;
        return;
      }
      var line := reader.ReadLine();
      FutureNulFree(before);
      if line.None? {
        doneProcessing := true;
        doneListOk := false;
        return;
      }
      HandleLine(line.value);
    }

    lemma FutureNulFree(before: Conn)
      requires Valid()
      ensures NulFree(before.future) && TakeLine(before.future).Line? && TakeLine(before.future).rest == reader.Future()
        ==> NulFree(reader.Future())
    {
    }

    method FinishCommand()
      requires Valid()
      modifies this`returnElement, this`doneProcessing, this`doneListOk, this`listOks, reader, reader.buffer
      ensures Valid() && doneProcessing
      ensures NulFree(old(reader.Future())) ==> State() == Finish(old(State())) && NulFree(reader.Future())
    {
      hide Get, NulFree, Ending;
      while !doneProcessing
        invariant Valid()
        invariant NulFree(old(reader.Future())) ==> Finish(State()) == Finish(old(State())) && NulFree(reader.Future())
        decreases Work()
      {
        if doneListOk {
          doneListOk := false;
        }
        GetNextReturnElement();
      }
    }

    method FinishListOkCommand()
      requires Valid()
      modifies this`returnElement, this`doneProcessing, this`doneListOk, this`listOks, reader, reader.buffer
      ensures Valid()
      ensures NulFree(old(reader.Future())) ==> State() == FinishListOk(old(State())) && NulFree(reader.Future())
    {
      hide Get, NulFree, Ending;
      while !doneProcessing && listOks > 0 && !doneListOk
        invariant Valid()
        invariant NulFree(old(reader.Future())) ==>
          FinishListOk(State()) == FinishListOk(old(State())) && NulFree(reader.Future())
        decreases Work()
      {
        GetNextReturnElement();
      }
    }

    method NextListOkCommand() returns (r: int)
      requires Valid()
      modifies this`returnElement, this`doneProcessing, this`doneListOk, this`listOks, reader, reader.buffer
      ensures Valid()
      ensures NulFree(old(reader.Future())) ==> (r, State()) == NextListOk(old(State())) && NulFree(reader.Future())
    {
      hide NulFree, Ending, FinishListOk;
      FinishListOkCommand();
      if !doneProcessing {
        doneListOk := false;
      }
      if listOks == 0 || doneProcessing {
        return -1;
      }
      return 0;
    }

    // ---- sending -----------------------------------------------------------------------

    /** `mpd_executeCommand`; `sending` is what `select` and `send` come to. */
    method ExecuteCommand(sending: Sending)
      modifies this`doneProcessing, this`listOks, reader`error
      ensures Session() == Executed(old(Session()), sending)
    {
      if !doneProcessing && commandList.NoList? {
        reader.error := 1;
        return;
      }
      reader.error := 0;
      match sending {
        case SendFailed =>
          reader.error := ERROR_SENDING;
        case SendTimedOut =>
          reader.error := ERROR_TIMEOUT;
        case Sent =>
          if commandList.NoList? {
            doneProcessing := false;
          } else if commandList.OkList? {
            listOks := listOks + 1;
          }
      }
    }

    method SendCommandListBegin(sending: Sending)
      modifies this`doneProcessing, this`listOks, this`commandList, reader`error
      ensures Session() == ListBegun(old(Session()), sending)
    {
      if !commandList.NoList? {
        reader.error := 1;
        return;
      }
      commandList := PlainList;
      ExecuteCommand(sending);
    }

    method SendCommandListOkBegin(sending: Sending)
      modifies this`doneProcessing, this`listOks, this`commandList, reader`error
      ensures Session() == ListOkBegun(old(Session()), sending)
    {
      if !commandList.NoList? {
        reader.error := 1;
        return;
      }
      commandList := OkList;
      ExecuteCommand(sending);
      listOks := 0;
    }

    method SendCommandListEnd(sending: Sending)
      modifies this`doneProcessing, this`listOks, this`commandList, reader`error
      ensures Session() == ListEnded(old(Session()), sending)
    {
      if commandList.NoList? {
        reader.error := 1;
        return;
      }
      commandList := NoList;
      ExecuteCommand(sending);
    }

    // ---- listings ----------------------------------------------------------------------

    /** The loop of `mpd_getNextInfoEntity` over the elements that describe the entity. */
    method CollectElements(entity: Entity) returns (built: Entity)
      requires Valid() && (returnElement.Some? ==> !Blocked(Session()))
      modifies this`returnElement, this`doneProcessing, this`doneListOk, this`listOks, reader, reader.buffer
      ensures Valid()
      ensures NulFree(old(reader.Future())) ==>
        (State(), built) == Collect(old(State()), entity) && NulFree(reader.Future())
    {
      hide Get, NulFree, Ending, Describe, IsHeader, Blocked;
      built := entity;
      while returnElement.Some?
        invariant Valid() && (returnElement.Some? ==> !Blocked(Session()))
        invariant NulFree(old(reader.Future())) ==>
          Collect(State(), built) == Collect(old(State()), entity) && NulFree(reader.Future())
        decreases Work()
      {
        if IsHeader(returnElement.value) {
          return;
        }
        built := Describe(built, returnElement.value);
        GetNextReturnElement();
      }
    }

    method GetNextInfoEntity() returns (entity: Option<Entity>)
      requires Valid()
      modifies this`returnElement, this`doneProcessing, this`doneListOk, this`listOks, reader, reader.buffer
      ensures Valid()
      ensures NulFree(old(reader.Future())) ==>
        (State(), entity) == NextEntity(old(State())) && NulFree(reader.Future())
    {
      hide Get, NulFree, Ending, NewEntity, Collect, IsHeader;
      entity := None;
      if doneProcessing || (listOks > 0 && doneListOk) {
        return;
      }
      if returnElement.None? {
        GetNextReturnElement();
      }
      if returnElement.None? {
        return;
      }
      if !IsHeader(returnElement.value) {
        reader.error := 1;
        return;
      }
      var built := NewEntity(returnElement.value);
      GetNextReturnElement();
      built := CollectElements(built);
      return Some(built);
    }
  }
}
