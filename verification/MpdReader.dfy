/** The bounded buffer of a connection and the line reader on top of it. */
module MpdReader {
  import opened Text
  import opened ByteStream
  import opened MpdStream

  class Reader {
    const buffer: array<char>
    var buflen: nat
    var bufstart: nat
    var net: seq<NetEvent>      // what the network has in store up to its next close or timeout
    var error: int

    constructor (net: seq<NetEvent>)
      ensures Valid() && fresh(buffer) && this.net == net && Future() == Arriving(net) && error == 0
    {
      buffer := new char[BUFFER_MAX + 1];
      buflen, bufstart, error := 0, 0, 0;
      this.net := net;
      new;
      buffer[0] := '\0';
      assert Unread() == "";
    }

    ghost predicate Valid()
      reads this, buffer
    {
      buffer.Length == BUFFER_MAX + 1 && bufstart <= buflen <= BUFFER_MAX && buffer[buflen] == '\0'
    }

    ghost function Unread(): string
      requires Valid()
      reads this, buffer
    {
      buffer[bufstart..buflen]
    }

    /** Every byte that was or will be received and has not been delivered in a line. */
    ghost function Future(): string
      requires Valid()
      reads this, buffer
    {
      Unread() + Arriving(net)
    }

    ghost function Work(): nat
      requires Valid()
      reads this, buffer
    {
      buflen - bufstart + Weight(net)
    }

    /** No line end in the unread bytes before `end`, as long as they hold no NUL. */
    ghost predicate Searched(end: nat)
      requires Valid() && bufstart <= end <= buflen
      reads this, buffer
    {
      NulFree(Unread()) ==> '\n' !in buffer[bufstart..end]
    }

    /** `strchr(buffer + from, '\n')`: None is NULL; the search ends at the first NUL. */
    method FindNewline(from: nat) returns (rt: Option<nat>)
      requires Valid() && bufstart <= from <= buflen && Searched(from)
      ensures rt.Some? ==> bufstart <= rt.value < buflen && buffer[rt.value] == '\n' && Searched(rt.value)
      ensures rt.None? ==> Searched(buflen)
    {
      var i := from;
      while buffer[i] != '\n' && buffer[i] != '\0'
        invariant from <= i <= buflen && Searched(i)
        decreases buflen - i
      {
        assert buffer[bufstart..i + 1] == buffer[bufstart..i] + [buffer[i]];
        i := i + 1;
      }
      if buffer[i] == '\n' {
        return Some(i);
      }
      assert i < buflen ==> Unread()[i - bufstart] == '\0';
      return None;
    }

    /** `memmove` of the unread bytes, with their terminator, to the start of the buffer. */
    method Compact()
      requires Valid()
      modifies this`buflen, this`bufstart, buffer
      ensures Valid() && bufstart == 0 && Unread() == old(Unread())
    {
      ghost var unread := Unread();
      var n := buflen - bufstart;
      forall i | 0 <= i <= n {
        buffer[i] := buffer[bufstart + i];
      }
      buflen, bufstart := n, 0;
      assert forall i :: 0 <= i < n ==> buffer[i] == unread[i];
      assert buffer[0..n] == unread;
    }

    /** What `recv` does to the buffer. */
    method Store(bytes: string)
      requires Valid() && buflen + |bytes| <= BUFFER_MAX
      modifies this`buflen, buffer
      ensures Valid() && Unread() == old(Unread()) + bytes && buflen == old(buflen) + |bytes|
    {
      forall i | 0 <= i < |bytes| {
        buffer[buflen + i] := bytes[i];
      }
      ghost var start := buflen;
      buflen := buflen + |bytes|;
      buffer[buflen] := '\0';
      assert buffer[start..buflen] == bytes;
      assert buffer[bufstart..start] == old(buffer[bufstart..buflen]);
    }

    /** What the network hands over for `recv` with room for `capacity` bytes. */
    method NextPiece(capacity: nat) returns (bytes: string)
      requires Valid() && 0 < capacity && net != [] && net[0].Data?
      modifies this`net
      ensures 0 < |bytes| <= capacity
      ensures Arriving(old(net)) == bytes + Arriving(net) && Ending(net) == Ending(old(net))
      ensures Weight(old(net)) >= |bytes| + Weight(net)
    {
      ghost var before := net;
      var piece := net[0].bytes;
      bytes := piece;
      assert net == [Data(piece)] + net[1..];
      DataFirst(piece, net[1..]);
      if |bytes| > capacity {
        TakePart(piece, capacity, net[1..]);
        net := [Data(piece[capacity..])] + net[1..];
        bytes := piece[..capacity];
      } else {
        net := net[1..];
      }
    }

    /** `select` and `recv` into the free part of the buffer. */
    method Receive() returns (r: NetEvent)
      requires Valid() && buflen < BUFFER_MAX
      modifies this`net, this`buflen, buffer
      ensures Valid() && Work() <= old(Work()) && old(Unread()) <= Unread() && old(buflen) <= buflen
      ensures r.Data? || r.Again? ==>
        Future() == old(Future()) && Ending(net) == Ending(old(net)) && Weight(net) < Weight(old(net))
      ensures !r.Data? ==> Unread() == old(Unread()) && buflen == old(buflen)
      ensures !r.Data? && !r.Again? ==>
        && Unread() == Future() == old(Future())
        && Ending(net) == Ending(old(net)) == if r.Closed? then ERROR_CONNCLOSED else ERROR_TIMEOUT
    {
      hide NulFree, Arriving, Ending, Weight;
      NothingComes(net);
      if net == [] {
        assert Unread() + "" == Unread();
        return TimedOut;
      }
      r := net[0];
      if r.Data? {
        var bytes := NextPiece(BUFFER_MAX - buflen);
        Store(bytes);
        Reassociate(old(Unread()), bytes, Arriving(net));
      } else if r.Again? {
        AgainPasses(net);
        net := net[1..];
      } else {
        assert Unread() + "" == Unread();
      }
    }

    lemma NothingComes(net: seq<NetEvent>)
      ensures net == [] || (!net[0].Data? && !net[0].Again?) ==>
        Arriving(net) == "" && Ending(net) == if net != [] && net[0].Closed? then ERROR_CONNCLOSED else ERROR_TIMEOUT
    {
    }

    lemma AgainPasses(net: seq<NetEvent>)
      requires net != [] && net[0].Again?
      ensures Arriving(net[1..]) == Arriving(net) && Ending(net[1..]) == Ending(net) && Weight(net[1..]) < Weight(net)
    {
    }

    /** `*rt = 0`: the bytes before the line end are the line. */
    method Deliver(rt: nat) returns (output: string)
      requires Valid() && bufstart <= rt < buflen && buffer[rt] == '\n'
      modifies this`bufstart, buffer
      ensures Valid() && bufstart == rt + 1 && buflen == old(buflen)
      ensures output == old(buffer[bufstart..rt]) && old(Unread()) == output + "\n" + Unread()
    {
      output := buffer[bufstart..rt];
      assert Unread() == output + "\n" + buffer[rt + 1..buflen];
      buffer[rt] := '\0';
      bufstart := rt + 1;
    }

    /** The error exits of the buffer loop, by what the stream `whole` still holds. */
    ghost predicate Failed(whole: string, ending: int)
      requires Valid()
      reads this, buffer
    {
      && error in {ERROR_TIMEOUT, ERROR_CONNCLOSED, ERROR_BUFFEROVERRUN}
      && (NulFree(whole) ==>
          match TakeLine(whole)
          case Line(_, _) => false
          case Overrun => error == ERROR_BUFFEROVERRUN && Future() == whole
          case NoLine => error == ending && Future() == whole)
    }

    /** Make room at the end of a full buffer; a full buffer without a line end is an overrun. */
    method MakeRoom() returns (ok: bool)
      requires Valid() && Searched(buflen)
      modifies this`buflen, this`bufstart, this`error, buffer
      ensures Valid() && Searched(buflen) && Future() == old(Future()) && Work() == old(Work())
      ensures net == old(net)
      ensures ok ==> buflen < BUFFER_MAX && error == old(error)
      ensures !ok ==> forall ending :: Failed(old(Future()), ending)
    {
      hide TakeLine, Arriving, NulFree, Failed;
      if buflen >= BUFFER_MAX {
        Compact();
      }
      if buflen >= BUFFER_MAX {
        error := ERROR_BUFFEROVERRUN;
        forall ending: int
          ensures Failed(Future(), ending)
        {
          BufferOverruns(ending);
        }
        return false;
      }
      return true;
    }

    /** One round of the buffer loop: make room and receive; bytes from `bufferCheck` on are new. */
    method Refill() returns (ok: bool, bufferCheck: nat)
      requires Valid() && Searched(buflen)
      modifies this, buffer
      ensures Valid() && Work() <= old(Work())
      ensures ok ==>
        && Future() == old(Future()) && Ending(net) == Ending(old(net)) && Weight(net) < Weight(old(net))
        && error == old(error) && bufstart <= bufferCheck <= buflen && Searched(bufferCheck)
      ensures !ok ==> Failed(old(Future()), Ending(old(net))) && Ending(net) == Ending(old(net))
    {
      hide TakeLine, Arriving, Ending, NulFree, Failed, Weight;
      bufferCheck := 0;
      ok := MakeRoom();
      if !ok {
        return;
      }
      bufferCheck := buflen;
      ghost var unread := Unread();
      PartNulFree(unread, Arriving(net));
      var readed := Receive();
      if !readed.Data? && !readed.Again? {
        error := if readed.Closed? then ERROR_CONNCLOSED else ERROR_TIMEOUT;
        StreamEnds();
        return false, bufferCheck;
      }
      assert Unread() == unread + Unread()[|unread|..];
      PartNulFree(unread, Unread()[|unread|..]);
      assert buffer[bufstart..bufferCheck] == unread;
    }

    /** The buffer loop of `mpd_getNextReturnElement`, up to a complete line or an error. */
    method ReadLine() returns (line: Option<string>)
      requires Valid()
      modifies this, buffer
      ensures Valid()
      ensures line.Some? ==> error == old(error) && Work() < old(Work())
      ensures line.Some? ==> old(Future()) == line.value + "\n" + Future()
      ensures line.Some? && NulFree(old(Future())) ==>
        TakeLine(old(Future())) == Line(line.value, Future())
      ensures Ending(net) == Ending(old(net))
      ensures line.None? ==> Work() <= old(Work()) && Failed(old(Future()), Ending(old(net)))
      ensures NulFree(old(Future())) ==>
        ReadOutcome(old(Unread()), old(net)) == if line.Some? then Delivered(line.value) else Fails(error)
    {
      hide TakeLine, Arriving, Ending, NulFree, Failed, ReadOutcome;
      ghost var whole := Future();
      var rt := None;
      assert Searched(bufstart);
      if bufstart < buflen {
        rt := FindNewline(bufstart);
      }
      while rt.None?
        invariant Valid() && Future() == whole && Ending(net) == Ending(old(net)) && error == old(error)
        invariant Work() <= old(Work())
        invariant rt.None? ==> Searched(buflen)
        invariant rt.Some? ==> bufstart <= rt.value < buflen && buffer[rt.value] == '\n' && Searched(rt.value)
        decreases Weight(net)
      {
        var ok, bufferCheck := Refill();
        if !ok {
          FailedOutcome(old(Unread()), old(net));
          return None;
        }
        if bufstart < buflen {
          rt := FindNewline(bufferCheck);
        }
      }
      assert NulFree(whole) ==> NulFree(Unread()) by { PartNulFree(Unread(), Arriving(net)); }
      var output := Deliver(rt.value);
      Reassociate(output + "\n", Unread(), Arriving(net));
      if NulFree(whole) {
        assert |output| < BUFFER_MAX;
        TakesLine(output, Future());
        LineOutcome(old(Unread()), old(net), output, Future());
      }
      return Some(output);
    }

    lemma FailedOutcome(unread: string, net: seq<NetEvent>)
      requires Valid() && Failed(unread + Arriving(net), Ending(net))
      ensures NulFree(unread + Arriving(net)) ==> ReadOutcome(unread, net) == Fails(error)
    {
      hide TakeLine, Arriving, Ending;
    }

    lemma LineOutcome(unread: string, net: seq<NetEvent>, text: string, rest: string)
      requires TakeLine(unread + Arriving(net)) == Line(text, rest)
      ensures ReadOutcome(unread, net) == Delivered(text)
    {
    }

    lemma BufferOverruns(ending: int)
      requires Valid() && Searched(buflen) && buflen == BUFFER_MAX && bufstart == 0 && error == ERROR_BUFFEROVERRUN
      ensures Failed(Future(), ending)
    {
      var whole := Future();
      if NulFree(whole) {
        PartNulFree(Unread(), Arriving(net));
        Overruns(Unread(), Arriving(net));
      }
    }

    lemma StreamEnds()
      requires Valid() && Searched(buflen) && buflen < BUFFER_MAX
      requires error in {ERROR_TIMEOUT, ERROR_CONNCLOSED} && Unread() == Future()
      ensures Failed(Unread(), error)
    {
      if NulFree(Unread()) {
        FallsShort(Unread());
      }
    }
  }
}
