/** The reply protocol: what each received line does to the state of a connection. */
module MpdProtocol {
  import opened Text
  import opened MpdStream

  datatype Element = Element(name: string, value: string)

  datatype ListMode = NoList | PlainList | OkList      // 0, COMMAND_LIST, COMMAND_LIST_OK

  /** The protocol fields of `mpd_Connection`. */
  datatype Session = Session(
    doneProcessing: bool, listOks: nat, doneListOk: bool, commandList: ListMode,
    returnElement: Option<Element>, error: int)

  function SkipColons(line: string, from: nat): (p: nat)
    requires from <= |line|
    ensures from <= p <= |line|
    decreases |line| - from
  {
    if from < |line| && line[from] == ':' then SkipColons(line, from + 1) else from
  }

  function NextColon(line: string, from: nat): (p: nat)
    requires from <= |line|
    ensures from <= p <= |line|
    decreases |line| - from
  {
    if from == |line| || line[from] == ':' then from else NextColon(line, from + 1)
  }

  /** `name: value`, as `strtok_r` takes it apart; leading colons are skipped. */
  function ParseElement(line: string): Option<Element> {
    var p := SkipColons(line, 0);
    var e := NextColon(line, p);
    if p == |line| || e == |line| then None
    else
      var value := line[e + 1..];
      if value != "" && value[0] == ' ' then Some(Element(line[p..e], value[1..])) else None
  }

  function Handle(s: Session, line: string): Session {
    if line == "OK" then
      s.(error := if s.listOks > 0 then 1 else s.error, listOks := 0, doneProcessing := true, doneListOk := false)
    else if line == "list_OK" then
      if s.listOks == 0 then s.(error := 1) else s.(doneListOk := true, listOks := s.listOks - 1)
    else if "ACK" <= line then
      s.(error := ERROR_ACK, doneProcessing := true, doneListOk := false)
    else
      var e := ParseElement(line);
      if e.Some? then s.(returnElement := e) else s.(error := 1)
  }

  predicate Blocked(s: Session) {
    s.doneProcessing || (s.listOks > 0 && s.doneListOk)
  }

  /** A connection: its state, the undelivered bytes, and the error when they run out. */
  datatype Conn = Conn(session: Session, future: string, ending: int)

  function Broken(s: Session, error: int): Session {
    s.(error := error, doneProcessing := true, doneListOk := false)
  }

  /** `mpd_getNextReturnElement` */
  function Get(c: Conn): Conn {
    var s := c.session.(returnElement := None);
    if Blocked(s) then c.(session := s.(error := 1))
    else match TakeLine(c.future)
      case Line(text, rest) => c.(session := Handle(s, text), future := rest)
      case Overrun => c.(session := Broken(s, ERROR_BUFFEROVERRUN))
      case NoLine => c.(session := Broken(s, c.ending))
  }

  function Measure(c: Conn): nat {
    2 * |c.future| + (if c.session.doneProcessing then 0 else 1) + (if c.session.returnElement.Some? then 1 else 0)
  }

  lemma GetProgress(c: Conn)
    requires !Blocked(c.session)
    ensures Measure(Get(c)) < Measure(c)
    ensures Get(c).session.returnElement.Some? ==> !Blocked(Get(c).session) && |Get(c).future| < |c.future|
  {
  }

  /** `mpd_finishCommand` */
  function Finish(c: Conn): Conn
    decreases Measure(c)
  {
    if c.session.doneProcessing then c
    else
      var c1 := c.(session := c.session.(doneListOk := false));
      GetProgress(c1);
      Finish(Get(c1))
  }

  /** `mpd_finishListOkCommand` */
  function FinishListOk(c: Conn): Conn
    decreases Measure(c)
  {
    if c.session.doneProcessing || c.session.listOks == 0 || c.session.doneListOk then c
    else
      GetProgress(c);
      FinishListOk(Get(c))
  }

  /** `mpd_nextListOkCommand` */
  function NextListOk(c: Conn): (int, Conn) {
    var c1 := FinishListOk(c);
    var s := if c1.session.doneProcessing then c1.session else c1.session.(doneListOk := false);
    (if s.listOks == 0 || s.doneProcessing then -1 else 0, c1.(session := s))
  }

  // ---- sending -------------------------------------------------------------------------

  datatype Sending = Sent | SendFailed | SendTimedOut

  const ERROR_SENDING := 16

  /** `mpd_executeCommand` */
  function Executed(s: Session, sending: Sending): Session {
    if !s.doneProcessing && s.commandList.NoList? then s.(error := 1)
    else match sending
      case SendFailed => s.(error := ERROR_SENDING)
      case SendTimedOut => s.(error := ERROR_TIMEOUT)
      case Sent =>
        match s.commandList
        case NoList => s.(error := 0, doneProcessing := false)
        case PlainList => s.(error := 0)
        case OkList => s.(error := 0, listOks := s.listOks + 1)
  }

  /** `mpd_sendCommandListBegin` */
  function ListBegun(s: Session, sending: Sending): Session {
    if !s.commandList.NoList? then s.(error := 1) else Executed(s.(commandList := PlainList), sending)
  }

  /** `mpd_sendCommandListOkBegin` */
  function ListOkBegun(s: Session, sending: Sending): Session {
    if !s.commandList.NoList? then s.(error := 1)
    else Executed(s.(commandList := OkList), sending).(listOks := 0)
  }

  /** `mpd_sendCommandListEnd` */
  function ListEnded(s: Session, sending: Sending): Session {
    if s.commandList.NoList? then s.(error := 1) else Executed(s.(commandList := NoList), sending)
  }
}
