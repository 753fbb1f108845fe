/** Escape sequences in config texts: what they stand for, and decoding them in place. */
module Escapes {
  import opened Text
  import opened Arithmetic

  // ---- what a text stands for ------------------------------------------------------------

  predicate IsOctal(c: char) {
    '0' <= c <= '7'
  }

  function OctalDigit(c: char): nat
    requires IsOctal(c)
  {
    c as int - '0' as int
  }

  predicate IsHex(c: char) {
    '0' <= c <= '9' || 'a' <= c <= 'f' || 'A' <= c <= 'F'
  }

  function HexDigit(c: char): (d: nat)
    requires IsHex(c)
    ensures d < 16
  {
    if '0' <= c <= '9' then c as int - '0' as int
    else if 'a' <= c <= 'f' then c as int - 'a' as int + 10
    else c as int - 'A' as int + 10
  }

  /** The unbounded value of octal digits. */
  function OctalValue(digits: string): nat
    requires forall i :: 0 <= i < |digits| ==> IsOctal(digits[i])
  {
    if digits == "" then 0
    else 8 * OctalValue(digits[..|digits| - 1]) + OctalDigit(digits[|digits| - 1])
  }

  /** The unbounded value of hexadecimal digits. */
  function HexValue(digits: string): nat
    requires forall i :: 0 <= i < |digits| ==> IsHex(digits[i])
  {
    if digits == "" then 0
    else 16 * HexValue(digits[..|digits| - 1]) + HexDigit(digits[|digits| - 1])
  }

  /** The end of the octal digits from `p` on, at most `most` of them. */
  function OctalEnd(s: string, p: nat, most: nat): (e: nat)
    requires p <= |s|
    ensures p <= e <= |s| && e - p <= most && (forall i :: p <= i < e ==> IsOctal(s[i]))
    ensures e < |s| && e - p < most ==> !IsOctal(s[e])
    decreases most
  {
    if most > 0 && p < |s| && IsOctal(s[p]) then OctalEnd(s, p + 1, most - 1) else p
  }

  function HexEnd(s: string, p: nat): (e: nat)
    requires p <= |s|
    ensures p <= e <= |s| && (forall i :: p <= i < e ==> IsHex(s[i])) && (e < |s| ==> !IsHex(s[e]))
    decreases |s| - p
  {
    if p < |s| && IsHex(s[p]) then HexEnd(s, p + 1) else p
  }

  function Byte(value: nat): char {
    (value % 256) as char
  }

  function Control(code: nat): char
    requires code < 128
  {
    code as char
  }

  /** The byte for the escape sequence that starts behind the backslash at `p`, and its end. */
  function Escape(s: string, p: nat): (r: (char, nat))
    requires p <= |s|
    ensures p <= r.1 <= |s| && (p < |s| ==> p < r.1)
  {
    if p == |s| then ('\0', p)
    else
      var c := s[p];
      if c == 'a' then (Control(7), p + 1)
      else if c == 'b' then (Control(8), p + 1)
      else if c == 'e' then (Control(27), p + 1)
      else if c == 'f' then (Control(12), p + 1)
      else if c == 'n' then ('\n', p + 1)
      else if c == 'r' then ('\r', p + 1)
      else if c == 't' then ('\t', p + 1)
      else if c == 'v' then (Control(11), p + 1)
      else if c == '\n' then ('\0', p + 1)
      else if IsOctal(c) then
        var e := OctalEnd(s, p, 3);
        (Byte(OctalValue(s[p..e])), e)
      else if c == 'x' then
        var e := HexEnd(s, p + 1);
        (Byte(HexValue(s[p + 1..e])), e)
      else if '@' <= c <= 'Z' then (Control(c as int - '@' as int), p + 1)
      else (c, p + 1)
  }

  /** The bytes that the text from `p` on stands for. */
  function Decode(s: string, p: nat): (r: string)
    requires p <= |s|
    ensures |r| <= |s| - p
    decreases |s| - p
  {
    if p == |s| then ""
    else if s[p] == '\\' then
      var (c, q) := Escape(s, p + 1);
      [c] + Decode(s, q)
    else [s[p]] + Decode(s, p + 1)
  }

  // ---- decoding in place -------------------------------------------------------------------

  const WORD := 0x1_0000_0000      // an unsigned int is reduced modulo this

  /** The terminated string from index `from` on, still to be read. */
  ghost predicate Reads(a: array<char>, text: string, from: nat)
    reads a
  {
    |text| < a.Length && '\0' !in text && a[|text|] == '\0' && forall i :: from <= i < |text| ==> a[i] == text[i]
  }

  lemma HexAppend(s: string, p: nat, e: nat)
    requires p <= e < |s| && forall i :: p <= i <= e ==> IsHex(s[i])
    ensures HexValue(s[p..e + 1]) == 16 * HexValue(s[p..e]) + HexDigit(s[e])
  {
    assert s[p..e + 1][..e - p] == s[p..e];
  }

  lemma OctalAppend(s: string, p: nat, e: nat)
    requires p <= e < |s| && forall i :: p <= i <= e ==> IsOctal(s[i])
    ensures OctalValue(s[p..e + 1]) == 8 * OctalValue(s[p..e]) + OctalDigit(s[e])
  {
    assert s[p..e + 1][..e - p] == s[p..e];
  }

  lemma {:induction false} HexEndUnique(s: string, p: nat, e: nat)
    requires p <= e <= |s| && (forall i :: p <= i < e ==> IsHex(s[i])) && (e < |s| ==> !IsHex(s[e]))
    ensures HexEnd(s, p) == e
    decreases e - p
  {
    if p < e {
      HexEndUnique(s, p + 1, e);
    }
  }

  lemma {:induction false} OctalEndUnique(s: string, p: nat, e: nat, most: nat)
    requires p <= e <= |s| && e - p <= most && (forall i :: p <= i < e ==> IsOctal(s[i]))
    requires e < |s| && e - p < most ==> !IsOctal(s[e])
    ensures OctalEnd(s, p, most) == e
    decreases e - p
  {
    if p < e {
      OctalEndUnique(s, p + 1, e, most - 1);
    }
  }

  /** What the 32-bit number and the overflow flag know about the unbounded value. */
  predicate Tracks(i: nat, overflow: bool, v: nat) {
    i < WORD && i % 256 == v % 256 && if overflow then v >= WORD else i == v
  }

  /** Shifting in a digit loses nothing of the lowest byte. */
  lemma LowByte(i: nat, v: nat, d: nat)
    requires i % 256 == v % 256
    ensures (16 * i + d) % WORD % 256 == (16 * v + d) % 256
  {
    var x, y := 16 * i + d, (16 * i + d) % WORD;
    var q := (16 * v + d) / 256 + 16 * (i / 256 - v / 256) - 0x100_0000 * (x / WORD);
    assert y == 256 * q + (16 * v + d) % 256;
    RemainderUnique(y, 256, q, (16 * v + d) % 256);
  }

  lemma ShiftIn(i: nat, overflow: bool, v: nat, d: nat)
    requires Tracks(i, overflow, v) && d < 16
    ensures Tracks((16 * i + d) % WORD, overflow || i >= 0x1000_0000, 16 * v + d)
  {
    LowByte(i, v, d);
    if i < 0x1000_0000 {
      RemainderUnique(16 * i + d, WORD, 0, 16 * i + d);
    }
  }

  /**
    The hexadecimal branch of `lirc_parse_escape`: any number of digits in 32-bit arithmetic
    gives the unbounded value modulo 256, and the range warning is given exactly when the
    unbounded value is more than a byte.
   */
  method ParseHex(a: array<char>, s: nat, ghost text: string) returns (c: char, s': nat, warned: bool)
    requires s <= |text| && Reads(a, text, s)
    ensures s' == HexEnd(text, s) && c == Byte(HexValue(text[s..s']))
    ensures warned <==> HexValue(text[s..s']) > 255
  {
    var i: nat, overflow := 0, false;
    s' := s;
    while IsHex(a[s'])
      invariant s <= s' <= |text| && forall k :: s <= k < s' ==> IsHex(text[k])
      invariant Tracks(i, overflow, HexValue(text[s..s']))
      decreases |text| - s'
    {
      assert a[s'] == text[s'] && s' < |text|;
      hide HexValue, HexDigit, IsHex, Tracks, Reads;
      HexAppend(text, s, s');
      var digit := HexDigit(a[s']);
      ShiftIn(i, overflow, HexValue(text[s..s']), digit);
      overflow := overflow || i >= 0x1000_0000;
      i := (16 * i + digit) % WORD;
      s' := s' + 1;
    }
    hide HexValue;
    HexEndUnique(text, s, s');
    warned := overflow || i > 255;
    c := (i % 256) as char;
  }

  /** The octal branch: at most three digits, the first of them already read. */
  method ParseOctal(a: array<char>, s: nat, ghost text: string) returns (c: char, s': nat)
    requires s < |text| && Reads(a, text, s) && IsOctal(text[s])
    ensures s' == OctalEnd(text, s, 3) && c == Byte(OctalValue(text[s..s']))
  {
    var i: nat := OctalDigit(a[s]);
    s' := s + 1;
    OctalAppend(text, s, s);
    assert OctalValue(text[s..s]) == 0;
    var count := 1;
    while count < 3 && IsOctal(a[s'])
      invariant 1 <= count <= 3 && s' == s + count <= |text|
      invariant forall k :: s <= k < s' ==> IsOctal(text[k])
      invariant i == OctalValue(text[s..s'])
      decreases 3 - count
    {
      OctalAppend(text, s, s');
      i := 8 * i + OctalDigit(a[s']);
      s' := s' + 1;
      count := count + 1;
    }
    OctalEndUnique(text, s, s', 3);
    c := (i % 256) as char;
  }

  method ParseEscape(a: array<char>, s: nat, ghost text: string) returns (c: char, s': nat)
    requires s <= |text| && Reads(a, text, s)
    ensures (c, s') == Escape(text, s)
  {
    c, s' := a[s], s + 1;
    match c {
      case 'a' => c := 7 as char;
      case 'b' => c := 8 as char;
      case 'e' => c := 27 as char;
      case 'f' => c := 12 as char;
      case 'n' => c := '\n';
      case 'r' => c := '\r';
      case 't' => c := '\t';
      case 'v' => c := 11 as char;
      case '\n' => c := '\0';
      case '\0' => s' := s' - 1;
      case _ =>
        if IsOctal(c) {
          c, s' := ParseOctal(a, s, text);
        } else if c == 'x' {
          var warned;
          c, s', warned := ParseHex(a, s', text);
        } else if '@' <= c <= 'Z' {
          c := (c as int - '@' as int) as char;
        }
    }
  }

  lemma DecodeFirst(text: string, s: nat, done: string)
    requires s < |text|
    ensures
      var (c, q) := if text[s] == '\\' then Escape(text, s + 1) else (text[s], s + 1);
      s < q && done + Decode(text, s) == done + [c] + Decode(text, q)
  {
    hide Escape;
  }

  lemma DecodeEnds(text: string)
    ensures Decode(text, |text|) == ""
  {
  }

  lemma ReadsAt(a: array<char>, text: string, s: nat)
    requires Reads(a, text, s) && s <= |text|
    ensures |text| < a.Length && a[s] == if s < |text| then text[s] else '\0'
    ensures s < |text| ==> text[s] != '\0'
  {
  }

  lemma ReadsOn(a: array<char>, text: string, s: nat, s': nat)
    requires Reads(a, text, s) && s <= s' <= |text|
    ensures Reads(a, text, s')
  {
  }

  /** `*t = c`, behind the reading position. */
  method Put(a: array<char>, t: nat, c: char, s: nat, ghost text: string)
    requires t < s <= |text| && Reads(a, text, s)
    modifies a
    ensures Reads(a, text, s) && a[..t + 1] == old(a[..t]) + [c]
  {
    a[t] := c;
  }

  /** The loop body of `lirc_parse_string`. */
  method DecodeNext(a: array<char>, s: nat, t: nat, ghost text: string) returns (s': nat)
    requires t <= s < |text| && Reads(a, text, s)
    modifies a
    ensures s < s' <= |text| && Reads(a, text, s')
    ensures a[..t + 1] + Decode(text, s') == old(a[..t]) + Decode(text, s)
  {
    hide Escape, Decode, Reads;
    ReadsAt(a, text, s);
    ReadsOn(a, text, s, s + 1);
    ghost var done := a[..t];
    DecodeFirst(text, s, done);
    var c;
    if a[s] == '\\' {
      c, s' := ParseEscape(a, s + 1, text);
    } else {
      c, s' := a[s], s + 1;
    }
    ReadsOn(a, text, s, s');
    ReadsAt(a, text, s');
    assert done + Decode(text, s) == done + [c] + Decode(text, s');
    Put(a, t, c, s', text);
    assert a[..t + 1] == done + [c];
  }

  /**
    `lirc_parse_string`: decoding in place. The write index never passes the read index, so
    what is still to be read is never overwritten, and the result is the pure decoding.
   */
  method ParseString(a: array<char>, ghost text: string) returns (length: nat)
    requires Reads(a, text, 0)
    modifies a
    ensures length == |Decode(text, 0)| <= |text| && a[..length] == Decode(text, 0) && a[length] == '\0'
  {
    hide Decode, Reads;
    var s, t := 0, 0;
    ReadsAt(a, text, s);
    assert a[..t] + Decode(text, s) == Decode(text, 0);
    while a[s] != '\0'
      invariant t <= s <= |text| < a.Length && Reads(a, text, s)
      invariant a[s] == '\0' <==> s == |text|
      invariant a[..t] + Decode(text, s) == Decode(text, 0)
      decreases |text| - s
    {
      s := DecodeNext(a, s, t, text);
      t := t + 1;
      ReadsAt(a, text, s);
    }
    DecodeEnds(text);
    ghost var whole := a[..t];
    assert whole + "" == whole;
    a[t] := '\0';
    length := t;
    assert a[..length] == whole;
  }

  // ---- a canonical way to write a text -----------------------------------------------------

  function Digit8(d: nat): char
    requires d < 8
  {
    (d + '0' as int) as char
  }

  function Octal3(c: char): (r: string)
    requires c < 256 as char
    ensures |r| == 3
  {
    var n := c as int;
    [Digit8(n / 64 % 8), Digit8(n / 8 % 8), Digit8(n % 8)]
  }

  /** Control characters, and blanks at the edges, are written as octal escapes. */
  predicate Escaped(c: char, edge: bool) {
    c < ' ' || (edge && c == ' ')
  }

  function EncodeChar(c: char, edge: bool): string {
    if c == '\\' then "\\\\"
    else if Escaped(c, edge) then "\\" + Octal3(c)
    else [c]
  }

  function Encode(t: string, i: nat): string
    requires i <= |t|
    decreases |t| - i
  {
    if i == |t| then "" else EncodeChar(t[i], i == 0 || i == |t| - 1) + Encode(t, i + 1)
  }

  lemma Octal3Value(s: string, p: nat)
    requires p + 3 <= |s| && IsOctal(s[p]) && IsOctal(s[p + 1]) && IsOctal(s[p + 2])
    ensures OctalEnd(s, p, 3) == p + 3
    ensures OctalValue(s[p..p + 3]) == 64 * OctalDigit(s[p]) + 8 * OctalDigit(s[p + 1]) + OctalDigit(s[p + 2])
  {
    hide OctalValue, OctalDigit, OctalEnd;
    OctalEndUnique(s, p, p + 3, 3);
    assert OctalValue(s[p..p]) == 0 by { NoDigits(s[p..p]); }
    OctalAppend(s, p, p);
    OctalAppend(s, p, p + 1);
    OctalAppend(s, p, p + 2);
  }

  lemma NoDigits(s: string)
    requires s == ""
    ensures OctalValue(s) == 0
  {
  }

  lemma EscapeOctal(s: string, p: nat)
    requires p < |s| && IsOctal(s[p])
    ensures Escape(s, p) == (Byte(OctalValue(s[p..OctalEnd(s, p, 3)])), OctalEnd(s, p, 3))
  {
    hide OctalValue, OctalEnd, Byte;
  }

  lemma Octal3Digits(c: char)
    requires c < 256 as char
    ensures
      var o := Octal3(c);
      && IsOctal(o[0]) && IsOctal(o[1]) && IsOctal(o[2])
      && Byte(64 * OctalDigit(o[0]) + 8 * OctalDigit(o[1]) + OctalDigit(o[2])) == c
  {
    var n := c as int;
    var q := n / 8;
    assert n == 8 * q + n % 8 && q == 8 * (q / 8) + q % 8;
    RemainderUnique(n, 64, q / 8, 8 * (q % 8) + n % 8);
    assert n / 64 == q / 8 && n / 64 < 8;
    RemainderUnique(n / 64, 8, 0, n / 64);
    RemainderUnique(n, 256, 0, n);
  }

  lemma Octal3Decodes(s: string, p: nat, c: char)
    requires c < 256 as char && Stands(s, p, Octal3(c))
    ensures Escape(s, p) == (c, p + 3)
  {
    hide OctalValue, OctalEnd, Escape, Octal3, OctalDigit, Byte;
    var o := Octal3(c);
    assert s[p + 0] == o[0] && s[p + 1] == o[1] && s[p + 2] == o[2];
    Octal3Digits(c);
    Octal3Value(s, p);
    EscapeOctal(s, p);
  }

  lemma BackslashDecodes(s: string, p: nat)
    requires p < |s| && s[p] == '\\'
    ensures Escape(s, p) == ('\\', p + 1)
  {
    hide HexEnd, HexValue, OctalEnd, OctalValue;
  }

  lemma DecodeUnfolds(s: string, p: nat, c: char, q: nat)
    requires p < |s| && q <= |s| && (if s[p] == '\\' then Escape(s, p + 1) == (c, q) else c == s[p] && q == p + 1)
    ensures Decode(s, p) == [c] + Decode(s, q)
  {
    hide Escape;
  }

  lemma CharDecodes(s: string, p: nat, c: char, edge: bool)
    requires c != '\0' && Stands(s, p, EncodeChar(c, edge))
    ensures p < |s| && Decode(s, p) == [c] + Decode(s, p + |EncodeChar(c, edge)|)
  {
    hide Octal3, Escape, Decode;
    var e := EncodeChar(c, edge);
    assert s[p + 0] == e[0];
    if c == '\\' {
      assert s[p + 1] == e[1];
      BackslashDecodes(s, p + 1);
    } else if Escaped(c, edge) {
      StandsConcat(s, p, "\\", Octal3(c));
      Octal3Decodes(s, p + 1, c);
    }
    DecodeUnfolds(s, p, c, p + |e|);
  }

  lemma {:induction false} EncodeDecodes(t: string, i: nat, s: string, p: nat)
    requires '\0' !in t && i <= |t| && Stands(s, p, Encode(t, i)) && |s| == p + |Encode(t, i)|
    ensures Decode(s, p) == t[i..]
    decreases |t| - i
  {
    hide EncodeChar, Decode, Stands;
    if i == |t| {
      assert Decode(s, p) == "" by { NothingLeft(s); }
    } else {
      var e, tail := EncodeChar(t[i], i == 0 || i == |t| - 1), Encode(t, i + 1);
      StandsConcat(s, p, e, tail);
      CharDecodes(s, p, t[i], i == 0 || i == |t| - 1);
      EncodeDecodes(t, i + 1, s, p + |e|);
      assert t[i..] == [t[i]] + t[i + 1..];
    }
  }

  lemma NothingLeft(s: string)
    ensures Decode(s, |s|) == ""
  {
  }

  /** Decoding the canonical form of any text without a terminator returns the text. */
  lemma EscapeRoundTrip(t: string)
    requires '\0' !in t
    ensures Decode(Encode(t, 0), 0) == t
  {
    hide Decode, Encode;
    EncodeDecodes(t, 0, Encode(t, 0), 0);
    assert t[0..] == t;
  }
}
