/** What each escape sequence stands for, sequence by sequence. */
module EscapeLaws {
  import opened Escapes

  const LETTERS := "abefnrtv"
  const MEANINGS := [7, 8, 27, 12, 10, 13, 9, 11]      // bell, backspace, escape, form feed, line feed, ...

  /** A backslash and a letter of the C language, or `e`. */
  lemma {:induction false} LetterEscapes(s: string, p: nat, k: nat)
    requires k < |LETTERS| && p + 1 < |s| && s[p] == '\\' && s[p + 1] == LETTERS[k]
    ensures Decode(s, p) == [MEANINGS[k] as char] + Decode(s, p + 2)
  {
    hide HexEnd, HexValue, OctalEnd, OctalValue, Decode;
    DecodeUnfolds(s, p, MEANINGS[k] as char, p + 2);
  }

  /** A backslash and one of the characters from `@` to `Z`: the control character 64 below. */
  lemma {:induction false} ControlEscapes(s: string, p: nat)
    requires p + 1 < |s| && s[p] == '\\' && '@' <= s[p + 1] <= 'Z'
    ensures Decode(s, p) == [(s[p + 1] as int - 64) as char] + Decode(s, p + 2)
  {
    hide HexEnd, HexValue, OctalEnd, OctalValue, Decode;
    DecodeUnfolds(s, p, (s[p + 1] as int - 64) as char, p + 2);
  }

  /** Any other character stands for itself behind a backslash, but a line end gives a terminator. */
  lemma {:induction false} OtherEscapes(s: string, p: nat)
    requires p + 1 < |s| && s[p] == '\\' && s[p + 1] !in LETTERS && s[p + 1] !in "x01234567" && !('@' <= s[p + 1] <= 'Z')
    ensures Decode(s, p) == [if s[p + 1] == '\n' then '\0' else s[p + 1]] + Decode(s, p + 2)
  {
    hide HexEnd, HexValue, OctalEnd, OctalValue, Decode;
    assert forall k :: 0 <= k < |LETTERS| ==> s[p + 1] != LETTERS[k];
    assert forall k :: 0 <= k < |"x01234567"| ==> s[p + 1] != "x01234567"[k];
    DecodeUnfolds(s, p, if s[p + 1] == '\n' then '\0' else s[p + 1], p + 2);
  }

  /** A backslash at the very end gives a terminator, and characters without one stand for themselves. */
  lemma {:induction false} PlainCharacters(s: string, p: nat)
    requires p < |s| && (s[p] == '\\' ==> p + 1 == |s|)
    ensures Decode(s, p) == [if s[p] == '\\' then '\0' else s[p]] + Decode(s, p + 1)
  {
    hide Decode;
    DecodeUnfolds(s, p, if s[p] == '\\' then '\0' else s[p], p + 1);
  }

  const LOWER_DIGITS := "0123456789abcdef"
  const UPPER_DIGITS := "0123456789ABCDEF"

  /** A number in hexadecimal digits, each in capital or lower-case letters as `upper` says. */
  function HexWritten(n: nat, upper: nat -> bool): (r: string)
    ensures r != ""
  {
    var digit := [(if upper(n) then UPPER_DIGITS else LOWER_DIGITS)[n % 16]];
    if n < 16 then digit else HexWritten(n / 16, upper) + digit
  }

  lemma DigitIs(d: nat)
    requires d < 16
    ensures IsHex(LOWER_DIGITS[d]) && HexDigit(LOWER_DIGITS[d]) == d
    ensures IsHex(UPPER_DIGITS[d]) && HexDigit(UPPER_DIGITS[d]) == d
  {
  }

  lemma IsHexIff(c: char)
    ensures IsHex(c) <==> c in LOWER_DIGITS || c in UPPER_DIGITS
  {
    if '0' <= c <= '9' {
      assert c == LOWER_DIGITS[c as int - 48];
    } else if 'a' <= c <= 'f' {
      assert c == LOWER_DIGITS[c as int - 87];
    } else if 'A' <= c <= 'F' {
      assert c == UPPER_DIGITS[c as int - 55];
    }
  }

  predicate AllHex(s: string) {
    forall i :: 0 <= i < |s| ==> IsHex(s[i])
  }

  lemma ValueLast(s: string, c: char)
    requires AllHex(s) && IsHex(c)
    ensures AllHex(s + [c]) && HexValue(s + [c]) == 16 * HexValue(s) + HexDigit(c)
  {
    assert (s + [c])[..|s|] == s;
  }

  lemma NoValue()
    ensures HexValue("") == 0
  {
  }

  lemma {:induction false} WrittenValue(n: nat, upper: nat -> bool)
    ensures AllHex(HexWritten(n, upper)) && HexValue(HexWritten(n, upper)) == n
    decreases n
  {
    hide HexValue, HexDigit, IsHex;
    var q, r := n / 16, n % 16;
    assert n == 16 * q + r && r < 16;
    DigitIs(r);
    var digit := (if upper(n) then UPPER_DIGITS else LOWER_DIGITS)[r];
    if n < 16 {
      NoValue();
      assert "" + [digit] == [digit];
      ValueLast("", digit);
    } else {
      WrittenValue(q, upper);
      ValueLast(HexWritten(q, upper), digit);
    }
  }

  /** A number of any size, written in hexadecimal behind a backslash and `x`, gives its lowest byte and ends with its digits. */
  lemma {:induction false} HexEscapeIs(before: string, n: nat, upper: nat -> bool, after: string)
    requires after != "" ==> after[0] !in LOWER_DIGITS && after[0] !in UPPER_DIGITS
    ensures
      var s, p := before + "\\x" + HexWritten(n, upper) + after, |before|;
      Decode(s, p) == [(n % 256) as char] + Decode(s, p + 2 + |HexWritten(n, upper)|)
  {
    hide HexValue, HexDigit, IsHex, Decode, HexWritten;
    var digits := HexWritten(n, upper);
    var s, p := before + "\\x" + digits + after, |before|;
    var e := p + 2 + |digits|;
    WrittenValue(n, upper);
    assert s[p] == '\\' && s[p + 1] == 'x' && s[p + 2..e] == digits;
    assert forall i :: p + 2 <= i < e ==> s[i] == digits[i - p - 2];
    assert e < |s| ==> s[e] == after[0];
    if after != "" {
      IsHexIff(after[0]);
    }
    HexEndUnique(s, p + 2, e);
    EscapeHex(s, p + 1);
    DecodeUnfolds(s, p, (n % 256) as char, e);
  }

  lemma EscapeHex(s: string, p: nat)
    requires p < |s| && s[p] == 'x'
    ensures var e := HexEnd(s, p + 1); Escape(s, p) == (Byte(HexValue(s[p + 1..e])), e)
  {
    hide HexEnd, HexValue, OctalEnd, OctalValue, Byte;
  }

  // ---- octal digits ------------------------------------------------------------------------

  const OCTAL_DIGITS := "01234567"

  lemma OctalDigitIs(d: nat)
    requires d < 8
    ensures IsOctal(OCTAL_DIGITS[d]) && OctalDigit(OCTAL_DIGITS[d]) == d
  {
  }

  lemma IsOctalIff(c: char)
    ensures IsOctal(c) <==> c in OCTAL_DIGITS
  {
    if '0' <= c <= '7' {
      assert c == OCTAL_DIGITS[c as int - 48];
    }
  }

  function OctalWritten(digits: seq<nat>): (r: string)
    requires forall i :: 0 <= i < |digits| ==> digits[i] < 8
    ensures |r| == |digits| && forall i :: 0 <= i < |digits| ==> r[i] == OCTAL_DIGITS[digits[i]]
  {
    if digits == [] then "" else [OCTAL_DIGITS[digits[0]]] + OctalWritten(digits[1..])
  }

  function Positional(digits: seq<nat>): nat {
    if digits == [] then 0 else 8 * Positional(digits[..|digits| - 1]) + digits[|digits| - 1]
  }

  predicate AllOctal(s: string) {
    forall i :: 0 <= i < |s| ==> IsOctal(s[i])
  }

  lemma {:induction false} OctalWrittenValue(digits: seq<nat>)
    requires forall i :: 0 <= i < |digits| ==> digits[i] < 8
    ensures AllOctal(OctalWritten(digits)) && OctalValue(OctalWritten(digits)) == Positional(digits)
    decreases |digits|
  {
    forall i | 0 <= i < |digits|
      ensures IsOctal(OctalWritten(digits)[i]) && OctalDigit(OctalWritten(digits)[i]) == digits[i]
    {
      OctalDigitIs(digits[i]);
    }
    if digits != [] {
      var n := |digits| - 1;
      OctalWrittenValue(digits[..n]);
      assert OctalWritten(digits)[..n] == OctalWritten(digits[..n]);
    }
  }

  lemma OctalAt(s: string, p: nat, digits: seq<nat>)
    requires 1 <= |digits| <= 3 && forall i :: 0 <= i < |digits| ==> digits[i] < 8
    requires p + 1 + |digits| <= |s| && s[p] == '\\' && s[p + 1..p + 1 + |digits|] == OctalWritten(digits)
    requires var e := p + 1 + |digits|; |digits| < 3 && e < |s| ==> s[e] !in OCTAL_DIGITS
    ensures Decode(s, p) == [(Positional(digits) % 256) as char] + Decode(s, p + 1 + |digits|)
  {
    hide OctalValue, OctalDigit, IsOctal, Decode, Positional, Escape, OctalEnd;
    var written, e := OctalWritten(digits), p + 1 + |digits|;
    OctalWrittenValue(digits);
    assert forall i :: p + 1 <= i < e ==> s[i] == s[p + 1..e][i - p - 1];
    if e < |s| {
      IsOctalIff(s[e]);
    }
    OctalEndUnique(s, p + 1, e, 3);
    EscapeOctal(s, p + 1);
    DecodeUnfolds(s, p, (Positional(digits) % 256) as char, e);
  }

  /** One to three octal digits give the lowest byte of their value; a fourth digit is a character of its own. */
  lemma {:induction false} OctalEscapeIs(before: string, digits: seq<nat>, after: string)
    requires 1 <= |digits| <= 3 && forall i :: 0 <= i < |digits| ==> digits[i] < 8
    requires |digits| < 3 && after != "" ==> after[0] !in OCTAL_DIGITS
    ensures
      var s, p := before + "\\" + OctalWritten(digits) + after, |before|;
      Decode(s, p) == [(Positional(digits) % 256) as char] + Decode(s, p + 1 + |digits|)
  {
    hide Decode, Positional, OctalWritten;
    var written := OctalWritten(digits);
    var s, p := before + "\\" + written + after, |before|;
    var e := p + 1 + |digits|;
    assert s[p] == '\\' && s[p + 1..e] == written && s[e..] == after;
    assert e < |s| ==> s[e] == after[0];
    OctalAt(s, p, digits);
  }
}
