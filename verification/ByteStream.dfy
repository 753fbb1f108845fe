/** Bytes that arrive in pieces: what the network hands over, and what the pieces add up to. */
module ByteStream {

  type Bytes = s: string | s != "" witness "a"

  /** What `select` and `recv` come back with, one after the other. */
  datatype NetEvent =
    | Data(bytes: Bytes)     // these bytes have arrived, in any number of pieces
    | Again                  // `recv` was interrupted or had nothing
    | Closed
    | TimedOut
    | Interrupted            // a signal came while `select` or `read` was waiting

  /** The bytes that arrive before the connection ends, times out or is interrupted. */
  function Arriving(net: seq<NetEvent>): string {
    if net == [] then ""
    else match net[0]
      case Data(bytes) => bytes + Arriving(net[1..])
      case Again => Arriving(net[1..])
      case Closed => ""
      case TimedOut => ""
      case Interrupted => ""
  }

  /** Do the bytes end because the peer closed? Without further events there is a timeout, and so after an interruption. */
  predicate EndsClosed(net: seq<NetEvent>) {
    net != [] &&
    match net[0]
    case Data(_) => EndsClosed(net[1..])
    case Again => EndsClosed(net[1..])
    case Closed => true
    case TimedOut => false
    case Interrupted => false
  }

  /** Bytes and events still to come; what every reading loop uses up. */
  function Weight(net: seq<NetEvent>): nat {
    if net == [] then 0
    else (if net[0].Data? then |net[0].bytes| else 0) + 1 + Weight(net[1..])
  }

  function FirstNewline(f: string): (k: nat)
    ensures k <= |f| && (forall i :: 0 <= i < k ==> f[i] != '\n') && (k < |f| ==> f[k] == '\n')
  {
    if f == "" || f[0] == '\n' then 0 else 1 + FirstNewline(f[1..])
  }

  lemma {:induction false} FirstNewlineUnique(f: string, k: nat)
    requires k <= |f| && (forall i :: 0 <= i < k ==> f[i] != '\n') && (k < |f| ==> f[k] == '\n')
    ensures FirstNewline(f) == k
  {
    if k > 0 {
      FirstNewlineUnique(f[1..], k - 1);
    }
  }

  predicate NulFree(f: string) {
    '\0' !in f
  }

  lemma PartNulFree(part: string, rest: string)
    ensures NulFree(part + rest) <==> NulFree(part) && NulFree(rest)
  {
  }

  lemma DataFirst(bytes: Bytes, later: seq<NetEvent>)
    ensures
      var net := [Data(bytes)] + later;
      && Arriving(net) == bytes + Arriving(later)
      && (EndsClosed(net) <==> EndsClosed(later)) && Weight(net) == |bytes| + 1 + Weight(later)
  {
    assert ([Data(bytes)] + later)[1..] == later;
  }

  /** Taking the first `n` bytes of a piece leaves the same stream behind. */
  lemma TakePart(bytes: Bytes, n: nat, later: seq<NetEvent>)
    requires 0 < n < |bytes|
    ensures
      var net, net' := [Data(bytes)] + later, [Data(bytes[n..])] + later;
      Arriving(net) == bytes[..n] + Arriving(net') && (EndsClosed(net) <==> EndsClosed(net')) && Weight(net) == n + Weight(net')
  {
    hide Arriving, EndsClosed, Weight;
    DataFirst(bytes, later);
    DataFirst(bytes[n..], later);
    assert bytes + Arriving(later) == bytes[..n] + (bytes[n..] + Arriving(later));
  }
}
