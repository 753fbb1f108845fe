/** Cutting the bytes from the remote-control daemon into codes, one line each. */
module CodeFraming {
  import opened Text
  import opened ByteStream

  const PACKET_SIZE: nat := 100

  /** The codes a stream stands for: everything up to and with each line end. */
  function Codes(f: string): seq<string>
    decreases |f|
  {
    var k := FirstNewline(f);
    if k == |f| then [] else [f[..k + 1]] + Codes(f[k + 1..])
  }

  /** A code has exactly one line end, at its end. */
  predicate IsCode(code: string) {
    code != "" && FirstNewline(code) == |code| - 1
  }

  function Joined(codes: seq<string>): string {
    if codes == [] then "" else codes[0] + Joined(codes[1..])
  }

  /** The bytes behind the last line end. */
  function Leftover(f: string): string
    decreases |f|
  {
    var k := FirstNewline(f);
    if k == |f| then f else Leftover(f[k + 1..])
  }

  /** The codes and the leftover are the stream, and each code ends with its only line end. */
  lemma {:induction false} CodesConserve(f: string)
    ensures Joined(Codes(f)) + Leftover(f) == f
    ensures forall i :: 0 <= i < |Codes(f)| ==> IsCode(Codes(f)[i])
    decreases |f|
  {
    var k := FirstNewline(f);
    if k < |f| {
      var code, rest := f[..k + 1], f[k + 1..];
      FirstNewlineUnique(code, k);
      hide FirstNewline;
      CodesConserve(rest);
      JoinedFirst(code, Codes(rest), Leftover(rest));
      assert f == code + rest;
    } else {
      assert Joined([]) + f == f;
    }
  }

  lemma JoinedFirst(code: string, codes: seq<string>, rest: string)
    ensures Joined([code] + codes) + rest == code + (Joined(codes) + rest)
  {
    assert ([code] + codes)[1..] == codes;
  }

  // ---- one call ----------------------------------------------------------------------------

  /** The buffer up to `end_len`, the size of its packet, and what the daemon has in store. */
  datatype Framer = Framer(buffer: string, packetSize: nat, net: seq<NetEvent>) {
    predicate Valid() {
      0 < packetSize && |buffer| <= packetSize
    }

    /** Every byte that was or will be received and has neither been handed out nor dropped. */
    function Future(): string {
      buffer + Arriving(net)
    }
  }

  /** `strchr(lirc_buffer, '\n')`; a NUL ends the search. */
  function LineEnd(buffer: string): (end: Option<nat>)
    ensures end.Some? ==> end.value < |buffer| && FirstNewline(buffer) == end.value && NulFree(buffer[..end.value + 1])
    ensures end.None? ==> '\n' !in UpToNul(buffer)
  {
    var s := UpToNul(buffer);
    var k := FirstNewline(s);
    if k == |s| then None
    else
      FirstNewlineUnique(buffer, k);
      Some(k)
  }

  datatype Fetched = Got | TryAgain | Ended

  /** A full packet grows. */
  function Roomy(f: Framer): (g: Framer)
    requires f.Valid()
    ensures g.Valid() && |g.buffer| < g.packetSize && g.buffer == f.buffer && g.net == f.net
  {
    if |f.buffer| >= f.packetSize then f.(packetSize := f.packetSize + PACKET_SIZE) else f
  }

  /** One `read` fills what is free of the packet. */
  function Fetch(f: Framer): (Fetched, Framer)
    requires f.Valid()
  {
    var g := Roomy(f);
    var room := g.packetSize - |g.buffer|;
    if g.net == [] then (Ended, g)
    else match g.net[0]
      case Data(piece) =>
        if |piece| <= room then (Got, g.(buffer := g.buffer + piece, net := g.net[1..]))
        else (Got, g.(buffer := g.buffer + piece[..room], net := [Data(piece[room..])] + g.net[1..]))
      case Again => (TryAgain, g.(net := g.net[1..]))
      case _ => (Ended, g)
  }

  /** What is kept behind a code: `strlen` and `memmove` stop at the first NUL. */
  function Cut(f: Framer, k: nat): Framer
    requires k < |f.buffer|
  {
    f.(buffer := UpToNul(f.buffer[k + 1..]))
  }

  function HandOut(f: Framer, k: nat): (int, Option<string>, Framer)
    requires k < |f.buffer|
  {
    (0, Some(f.buffer[..k + 1]), Cut(f, k))
  }

  /** `lirc_nextcode` */
  function Next(f: Framer): (int, Option<string>, Framer)
    requires f.Valid()
  {
    if LineEnd(f.buffer).Some? then HandOut(f, LineEnd(f.buffer).value)
    else
      var (fetched, g) := Fetch(f);
      match fetched
      case Ended => (-1, None, g)
      case TryAgain => (0, None, g)
      case Got => if LineEnd(g.buffer).Some? then HandOut(g, LineEnd(g.buffer).value) else (0, None, g)
  }

  /** Fetching keeps every byte and uses up some of what the daemon has in store, or finds its end. */
  lemma FetchKeeps(f: Framer)
    requires f.Valid()
    ensures
      var (fetched, g) := Fetch(f);
      && g.Valid() && g.Future() == f.Future() && f.buffer <= g.buffer
      && (if fetched.Ended? then Arriving(g.net) == "" && g.buffer == f.buffer else Weight(g.net) < Weight(f.net))
  {
    hide Roomy, FirstNewline;
    if f.net != [] && f.net[0].Data? {
      var g := Roomy(f);
      var piece, later, room := f.net[0].bytes, f.net[1..], g.packetSize - |g.buffer|;
      assert f.net == [Data(piece)] + later;
      hide Arriving, Weight;
      DataFirst(piece, later);
      if |piece| <= room {
        Reassociate(f.buffer, piece, Arriving(later));
      } else {
        PartKeeps(f.buffer, piece, room, later);
      }
    }
  }

  lemma PartKeeps(buffer: string, piece: Bytes, room: nat, later: seq<NetEvent>)
    requires 0 < room < |piece|
    ensures
      var net, net' := [Data(piece)] + later, [Data(piece[room..])] + later;
      (buffer + piece[..room]) + Arriving(net') == buffer + Arriving(net) && Weight(net') < Weight(net)
  {
    hide Arriving, Weight;
    TakePart(piece, room, later);
    Reassociate(buffer, piece[..room], Arriving([Data(piece[room..])] + later));
  }

  function Measure(f: Framer): nat {
    |f.Future()| + Weight(f.net)
  }

  lemma CutShrinks(f: Framer, k: nat)
    requires f.Valid() && k < |f.buffer|
    ensures Cut(f, k).Valid() && Measure(Cut(f, k)) < Measure(f)
  {
  }

  lemma NextProgress(f: Framer)
    requires f.Valid()
    ensures Next(f).2.Valid() && (Next(f).0 == 0 ==> Measure(Next(f).2) < Measure(f))
  {
    hide Fetch, Cut, Arriving, Weight, LineEnd;
    if LineEnd(f.buffer).Some? {
      CutShrinks(f, LineEnd(f.buffer).value);
    } else {
      FetchKeeps(f);
      var g := Fetch(f).1;
      if LineEnd(g.buffer).Some? {
        CutShrinks(g, LineEnd(g.buffer).value);
      }
    }
  }

  /** The bytes a call has in the buffer when it cuts a code off. */
  function Held(f: Framer): Framer
    requires f.Valid()
  {
    if LineEnd(f.buffer).Some? then f else Fetch(f).1
  }

  lemma CutKeepsIff(code: string, behind: string, arriving: string)
    ensures code + (UpToNul(behind) + arriving) == code + (behind + arriving) <==> NulFree(behind)
  {
    if |UpToNul(behind)| < |behind| {
      assert |code + (UpToNul(behind) + arriving)| < |code + (behind + arriving)|;
    }
  }

  /**
    A call that hands out a code keeps the other bytes exactly when no NUL lies behind the line
    end in the buffer; a call that hands out none keeps them all.
   */
  lemma {:induction false} NextConservesIff(f: Framer)
    requires f.Valid()
    ensures
      var (rc, code, f') := Next(f);
      if code.None? then f'.Future() == f.Future()
      else
        var n, held := |code.value|, Held(f).buffer;
        && IsCode(code.value) && n <= |held| && code.value == held[..n]
        && (code.value + f'.Future() == f.Future() <==> NulFree(held[n..]))
  {
    hide Fetch, Arriving, LineEnd, FirstNewline, NulFree, UpToNul;
    FetchKeeps(f);
    var held := Held(f);
    if LineEnd(held.buffer).Some? {
      var k := LineEnd(held.buffer).value;
      var code, behind, arriving := held.buffer[..k + 1], held.buffer[k + 1..], Arriving(held.net);
      FirstNewlineUnique(code, k);
      assert held.buffer == code + behind;
      Reassociate(code, behind, arriving);
      CutKeepsIff(code, behind, arriving);
    }
  }

  /** The bytes behind a NUL are lost, here the `c`. */
  lemma NulLosesBytes()
    ensures
      var f := Framer("", PACKET_SIZE, [Data("a\nb\0c")]);
      && Next(f) == (0, Some("a\n"), Framer("b", PACKET_SIZE, []))
      && f.Future() == "a\nb\0c" && "a\n" + Next(f).2.Future() == "a\nb"
  {
    hide Next, Arriving, UpToNul, FirstNewline;
    var text: Bytes := "a\nb\0c";
    OnePiece(text, 1);
    UpToNulIs(text[1 + 1..], "b");
    assert text[..1 + 1] == "a\n";
  }

  /** A first call that gets one piece with a line end at `k`. */
  lemma OnePiece(text: Bytes, k: nat)
    requires |text| <= PACKET_SIZE && k < |text| && text[k] == '\n' && forall i :: 0 <= i < k ==> text[i] != '\n' && text[i] != '\0'
    ensures
      var f := Framer("", PACKET_SIZE, [Data(text)]);
      && Next(f) == (0, Some(text[..k + 1]), Framer(UpToNul(text[k + 1..]), PACKET_SIZE, []))
      && f.Future() == text && Next(f).2.Future() == UpToNul(text[k + 1..])
  {
    var f := Framer("", PACKET_SIZE, [Data(text)]);
    DataFirst(text, []);
    NothingArrives();
    hide Arriving, UpToNul, FirstNewline, LineEnd;
    assert [Data(text)] + [] == [Data(text)] && f.net[1..] == [] && "" + text == text && text + "" == text;
    assert LineEnd("").None? by { NoLineEnd(""); }
    LineEndIs(text, k);
    assert UpToNul(text[k + 1..]) + "" == UpToNul(text[k + 1..]);
  }

  lemma LineEndIs(s: string, k: nat)
    requires k < |s| && s[k] == '\n' && forall i :: 0 <= i < k ==> s[i] != '\n' && s[i] != '\0'
    ensures LineEnd(s) == Some(k)
  {
    var u := UpToNul(s);
    assert |u| < |s| ==> s[|u|] == '\0';
    assert k < |u|;
    FirstNewlineUnique(u, k);
  }

  lemma NothingArrives()
    ensures Arriving([]) == ""
  {
  }

  lemma UpToNulIs(s: string, u: string)
    requires u <= s && NulFree(u) && (|u| < |s| ==> s[|u|] == '\0')
    ensures UpToNul(s) == u
  {
    var r := UpToNul(s);
    assert forall i :: 0 <= i < |u| ==> s[i] == u[i] != '\0';
    assert forall i :: 0 <= i < |r| ==> s[i] == r[i] != '\0';
  }

  // ---- all calls ---------------------------------------------------------------------------

  /** The codes of all calls, up to the one that finds the connection at its end. */
  function AllCodes(f: Framer): seq<string>
    requires f.Valid()
    decreases Measure(f)
  {
    NextProgress(f);
    var (rc, code, f') := Next(f);
    if rc != 0 then [] else ToSeq(code) + AllCodes(f')
  }

  /** What is left of a stream from its first NUL on. */
  function BehindNul(f: string): string {
    f[|UpToNul(f)|..]
  }

  lemma AllCodesCut(f: Framer, k: nat)
    requires f.Valid() && LineEnd(f.buffer) == Some(k)
    ensures Cut(f, k).Valid() && Measure(Cut(f, k)) < Measure(f)
    ensures AllCodes(f) == [f.buffer[..k + 1]] + AllCodes(Cut(f, k))
  {
    hide Cut, LineEnd, Fetch, Measure;
    CutShrinks(f, k);
  }

  /** A call that has to fetch first goes on like a call that finds the fetched bytes in its buffer. */
  lemma AllCodesFetch(f: Framer)
    requires f.Valid() && LineEnd(f.buffer).None?
    ensures
      var (fetched, g) := Fetch(f);
      g.Valid() && AllCodes(f) == if fetched.Ended? then [] else AllCodes(g)
  {
    hide Cut, LineEnd, Fetch, Measure;
    FetchKeeps(f);
    var (fetched, g) := Fetch(f);
    if LineEnd(g.buffer).Some? {
      AllCodesCut(g, LineEnd(g.buffer).value);
      if fetched.TryAgain? {
        assert false by { SameBuffer(f); }
      }
    } else if !fetched.Ended? {
      assert [] + AllCodes(g) == AllCodes(g);
    }
  }

  lemma SameBuffer(f: Framer)
    requires f.Valid() && Fetch(f).0.TryAgain?
    ensures Fetch(f).1.buffer == f.buffer
  {
  }

  lemma CodesFirst(u: string, rest: string)
    requires FirstNewline(u) < |u|
    ensures var k := FirstNewline(u); Codes(u + rest) == [u[..k + 1]] + Codes(u[k + 1..] + rest)
  {
    hide FirstNewline;
    var k, f := FirstNewline(u), u + rest;
    assert forall i :: 0 <= i <= k ==> f[i] == u[i];
    FirstNewlineUnique(f, k);
    assert f[..k + 1] == u[..k + 1] && f[k + 1..] == u[k + 1..] + rest;
  }

  lemma NoLine(u: string)
    ensures '\n' !in u <==> Codes(u) == []
  {
    hide Codes;
    if '\n' !in u {
      FirstNewlineUnique(u, |u|);
    }
    hide FirstNewline;
    assert Codes(u) == [] <==> FirstNewline(u) == |u| by { CodesEmpty(u); }
  }

  lemma CodesEmpty(u: string)
    ensures Codes(u) == [] <==> FirstNewline(u) == |u|
  {
    hide FirstNewline;
  }

  lemma {:induction false} CodesBefore(u: string, rest: string)
    requires '\n' !in rest
    ensures Codes(u + rest) == Codes(u)
    decreases |u|
  {
    hide Codes, FirstNewline;
    var k := FirstNewline(u);
    if k < |u| {
      CodesFirst(u, rest);
      CodesFirst(u, "");
      assert u + "" == u && u[k + 1..] + "" == u[k + 1..];
      CodesBefore(u[k + 1..], rest);
    } else {
      NoLine(u);
      NoLine(u + rest);
    }
  }

  lemma {:induction false} CodesGrow(u: string, rest: string)
    requires '\n' in rest
    ensures |Codes(u + rest)| > |Codes(u)|
    decreases |u|
  {
    hide Codes, FirstNewline;
    var k := FirstNewline(u);
    if k < |u| {
      CodesFirst(u, rest);
      CodesFirst(u, "");
      assert u + "" == u && u[k + 1..] + "" == u[k + 1..];
      CodesGrow(u[k + 1..], rest);
    } else {
      NoLine(u);
      NoLine(u + rest);
    }
  }

  lemma FirstCode(code: string, rest: string)
    requires IsCode(code)
    ensures Codes(code + rest) == [code] + Codes(rest)
  {
    var f, k := code + rest, |code| - 1;
    FirstNewlineUnique(f, k);
    assert f[..k + 1] == code && f[k + 1..] == rest;
  }

  lemma BehindFirst(u: string, z: string)
    requires NulFree(u) && z != "" && z[0] == '\0'
    ensures BehindNul(u + z) == z
  {
    UpToNulIs(u + z, u);
  }

  /** Dropping what lies behind a NUL in the buffer changes no code if there is no line end behind it. */
  lemma NulSkipped(x: string, arriving: string)
    requires '\n' !in BehindNul(x + arriving)
    ensures Codes(x + arriving) == Codes(UpToNul(x) + arriving) && '\n' !in BehindNul(UpToNul(x) + arriving)
  {
    hide Codes, BehindNul, UpToNul;
    var u := UpToNul(x);
    if u != x {
      var z := x[|u|..];
      assert x == u + z;
      Reassociate(u, z, arriving);
      BehindFirst(u, z + arriving);
      CodesBefore(u, z + arriving);
      assert '\n' !in arriving by { PartLacks(z, arriving); }
      CodesBefore(u, arriving);
      BehindCode(u, arriving);
      assert '\n' !in BehindNul(arriving) by { BehindPart(arriving); }
    }
  }

  lemma PartLacks(z: string, rest: string)
    ensures '\n' !in z + rest ==> '\n' !in rest
  {
    assert '\n' in rest ==> exists i :: 0 <= i < |rest| && (z + rest)[|z| + i] == rest[i] == '\n';
  }

  lemma BehindPart(f: string)
    ensures '\n' !in f ==> '\n' !in BehindNul(f)
  {
  }

  lemma BehindCode(code: string, rest: string)
    requires NulFree(code)
    ensures BehindNul(code + rest) == BehindNul(rest)
  {
    UpToNulIs(code + rest, code + UpToNul(rest));
  }

  /** Without a line end behind a NUL, the calls hand out the codes of the stream, however it is cut. */
  lemma {:induction false} AllCodesExact(f: Framer)
    requires f.Valid() && '\n' !in BehindNul(f.Future())
    ensures AllCodes(f) == Codes(f.Future())
    decreases Measure(f)
  {
    hide Next, Fetch, AllCodes, Codes, LineEnd, BehindNul, Weight, Arriving;
    FetchKeeps(f);
    if LineEnd(f.buffer).Some? {
      var k := LineEnd(f.buffer).value;
      var code, x, arriving := f.buffer[..k + 1], f.buffer[k + 1..], Arriving(f.net);
      FirstNewlineUnique(code, k);
      assert f.buffer == code + x;
      Reassociate(code, x, arriving);
      FirstCode(code, x + arriving);
      BehindCode(code, x + arriving);
      NulSkipped(x, arriving);
      AllCodesCut(f, k);
      AllCodesExact(Cut(f, k));
    } else {
      AllCodesFetch(f);
      if Fetch(f).0.Ended? {
        assert f.Future() == f.buffer + "" == f.buffer;
        NoCodes(f.buffer);
      } else {
        AllCodesExact(Fetch(f).1);
      }
    }
  }

  lemma NoCodes(f: string)
    requires '\n' !in UpToNul(f) && '\n' !in BehindNul(f)
    ensures Codes(f) == []
  {
    assert f == UpToNul(f) + BehindNul(f);
    FirstNewlineUnique(f, |f|);
  }

  // ---- the same stream, byte by byte ---------------------------------------------------------

  function Bytewise(f: string): seq<NetEvent> {
    if f == "" then [] else [Data([f[0]])] + Bytewise(f[1..])
  }

  lemma {:induction false} BytewiseArrives(f: string)
    ensures Arriving(Bytewise(f)) == f
    decreases |f|
  {
    if f != "" {
      BytewiseArrives(f[1..]);
      DataFirst([f[0]], Bytewise(f[1..]));
    }
  }

  /** Behind a NUL in the buffer no line end is found any more. */
  lemma {:induction false} Stuck(f: Framer)
    requires f.Valid() && '\0' in f.buffer && '\n' !in UpToNul(f.buffer)
    ensures AllCodes(f) == []
    decreases Measure(f)
  {
    hide Fetch, AllCodes, Weight, Arriving;
    FetchKeeps(f);
    AllCodesFetch(f);
    var (fetched, g) := Fetch(f);
    if !fetched.Ended? {
      UpToNulIs(g.buffer, UpToNul(f.buffer));
      Stuck(g);
    }
  }

  lemma FetchByte(b: string, packetSize: nat, f: string)
    requires f != "" && 0 < packetSize && |b| <= packetSize
    ensures
      var size := if |b| == packetSize then packetSize + PACKET_SIZE else packetSize;
      Fetch(Framer(b, packetSize, Bytewise(f))) == (Got, Framer(b + [f[0]], size, Bytewise(f[1..])))
  {
    assert ([Data([f[0]])] + Bytewise(f[1..]))[1..] == Bytewise(f[1..]);
  }

  /** A byte that completes a line. */
  lemma BytewiseLine(g: Framer, rest: string)
    requires g.Valid() && IsCode(g.buffer) && NulFree(g.buffer) && g.net == Bytewise(rest)
    requires AllCodes(Framer("", g.packetSize, Bytewise(rest))) == Codes(UpToNul(rest))
    ensures AllCodes(g) == Codes(UpToNul(g.buffer + rest))
  {
    hide AllCodes, Bytewise, Codes, UpToNul, FirstNewline;
    var k := |g.buffer| - 1;
    LineEndIs(g.buffer, k);
    AllCodesCut(g, k);
    assert g.buffer[..k + 1] == g.buffer && g.buffer[k + 1..] == "";
    UpToNulIs("", "");
    UpToNulIs(g.buffer + rest, g.buffer + UpToNul(rest));
    FirstCode(g.buffer, UpToNul(rest));
  }

  /** Byte by byte, the codes before the first NUL come out and no others. */
  lemma {:induction false} BytewiseCodes(b: string, packetSize: nat, f: string)
    requires NulFree(b) && '\n' !in b && 0 < packetSize && |b| <= packetSize
    ensures AllCodes(Framer(b, packetSize, Bytewise(f))) == Codes(UpToNul(b + f))
    decreases |f|
  {
    hide Fetch, AllCodes, Bytewise, Codes, LineEnd, UpToNul, FirstNewline;
    var s := Framer(b, packetSize, Bytewise(f));
    UpToNulIs(b, b);
    NoLineEnd(b);
    BytewiseEnds(b, packetSize);
    AllCodesFetch(s);
    if f == "" {
      assert b + f == b;
    } else {
      FetchByte(b, packetSize, f);
      var g, rest := Fetch(s).1, f[1..];
      assert b + f == g.buffer + rest;
      if f[0] == '\0' {
        UpToNulIs(g.buffer, b);
        UpToNulIs(b + f, b);
        Stuck(g);
      } else if f[0] == '\n' {
        FirstNewlineUnique(g.buffer, |b|);
        assert "" + rest == rest;
        BytewiseCodes("", g.packetSize, rest);
        BytewiseLine(g, rest);
      } else {
        BytewiseCodes(g.buffer, g.packetSize, rest);
      }
    }
  }

  lemma NoLineEnd(b: string)
    requires '\n' !in b
    ensures LineEnd(b).None?
  {
  }

  lemma BytewiseEnds(b: string, packetSize: nat)
    requires '\n' !in b && 0 < packetSize && |b| <= packetSize
    ensures Codes(b) == [] && Fetch(Framer(b, packetSize, Bytewise(""))).0.Ended?
  {
    FirstNewlineUnique(b, |b|);
  }

  /**
    Every way of cutting the stream gives the codes of the stream exactly when no line end lies
    behind its first NUL.
   */
  lemma {:induction false} FramingExactIff(f: string)
    ensures (forall net :: Arriving(net) == f ==> AllCodes(Framer("", PACKET_SIZE, net)) == Codes(f))
        <==> '\n' !in BehindNul(f)
  {
    hide AllCodes, Codes, Arriving, BehindNul, Bytewise;
    if '\n' !in BehindNul(f) {
      forall net | Arriving(net) == f
        ensures AllCodes(Framer("", PACKET_SIZE, net)) == Codes(f)
      {
        assert "" + f == f;
        AllCodesExact(Framer("", PACKET_SIZE, net));
      }
    } else {
      BytewiseArrives(f);
      BytewiseCodes("", PACKET_SIZE, f);
      assert "" + f == f && f == UpToNul(f) + BehindNul(f) by { Behind(f); }
      CodesGrow(UpToNul(f), BehindNul(f));
    }
  }

  lemma Behind(f: string)
    ensures "" + f == f && f == UpToNul(f) + BehindNul(f)
  {
  }

  // ---- the reader ----------------------------------------------------------------------------

  class CodeReader {
    var buffer: string          // lirc_buffer up to end_len
    var packetSize: nat
    var net: seq<NetEvent>      // what the daemon has in store up to the end of the connection

    constructor (net: seq<NetEvent>)
      ensures State() == Framer("", PACKET_SIZE, net) && State().Valid()
    {
      buffer, packetSize, this.net := "", PACKET_SIZE, net;
    }

    function State(): Framer
      reads this
    {
      Framer(buffer, packetSize, net)
    }

    method FindNewline() returns (end: Option<nat>)
      ensures end == LineEnd(buffer)
    {
      var i := 0;
      while i < |buffer| && buffer[i] != '\n' && buffer[i] != '\0'
        invariant i <= |buffer| && '\n' !in buffer[..i] && '\0' !in buffer[..i]
      {
        i := i + 1;
      }
      if i < |buffer| && buffer[i] == '\n' {
        assert i < |UpToNul(buffer)|;
        FirstNewlineUnique(UpToNul(buffer), i);
        return Some(i);
      }
      UpToNulIs(buffer, buffer[..i]);
      FirstNewlineUnique(buffer[..i], i);
      return None;
    }

    /** `read` with room for `packetSize - |buffer|` bytes. */
    method Read() returns (fetched: Fetched)
      requires State().Valid()
      modifies this
      ensures (fetched, State()) == Fetch(old(State()))
    {
      if |buffer| >= packetSize {
        packetSize := packetSize + PACKET_SIZE;
      }
      var room := packetSize - |buffer|;
      if net == [] {
        return Ended;
      }
      match net[0] {
        case Data(piece) =>
          if |piece| <= room {
            buffer := buffer + piece;
            net := net[1..];
          } else {
            buffer := buffer + piece[..room];
            net := [Data(piece[room..])] + net[1..];
          }
          return Got;
        case Again =>
          net := net[1..];
          return TryAgain;
        case _ =>
          return Ended;
      }
    }

    /** `lirc_nextcode`: at most one read, and the next code if it is complete then. */
    method NextCode() returns (rc: int, code: Option<string>)
      requires State().Valid()
      modifies this
      ensures State().Valid() && (rc, code, State()) == Next(old(State()))
    {
      hide Fetch, LineEnd, UpToNul, FirstNewline, Measure, Arriving, NulFree;
      NextProgress(State());
      var end := FindNewline();
      while end.None?
        invariant end == LineEnd(buffer) && (end.None? ==> State() == old(State()))
        invariant State() == old(State()) || (LineEnd(old(buffer)).None? && Fetch(old(State())) == (Got, State()))
        decreases end.None?
      {
        var fetched := Read();
        if !fetched.Got? {
          return if fetched.TryAgain? then 0 else -1, None;
        }
        end := FindNewline();
        if end.None? {
          return 0, None;
        }
      }
      code := Some(buffer[..end.value + 1]);
      buffer := UpToNul(buffer[end.value + 1..]);
      return 0, code;
    }

    /** Poll after poll of `mod_lirc_poll`, until the connection is at its end. */
    method PollAll() returns (codes: seq<string>)
      requires State().Valid()
      modifies this
      ensures codes == AllCodes(old(State()))
      ensures '\n' !in BehindNul(old(State().Future())) ==> codes == Codes(old(State().Future()))
    {
      hide Next, Measure, BehindNul, Codes;
      ghost var all := AllCodes(State());
      if '\n' !in BehindNul(State().Future()) {
        AllCodesExact(State());
      }
      codes := [];
      var rc := 0;
      assert [] + all == all;
      while rc == 0
        invariant State().Valid() && codes + (if rc == 0 then AllCodes(State()) else []) == all
        decreases rc == 0, Measure(State())
      {
        NextProgress(State());
        ghost var before := State();
        var code;
        rc, code := NextCode();
        Reassociate(codes, ToSeq(code), AllCodes(State()));
        if rc == 0 {
          codes := codes + ToSeq(code);
        }
      }
    }
  }
}
