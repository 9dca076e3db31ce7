/** C-style escaping of byte strings (lib/abseil-cpp-master/absl/strings/escaping.cc). */
module CEscape {
  import opened Powers
  import opened Wrappers

  // A byte, as the character that it encodes.
  type ByteChar = c: char | c as int < 256

  function ToByte(x: int): (c: ByteChar)
    requires 0 <= x < 256
    ensures c as int == x
  {
    x as char
  }

  predicate IsPrint(c: ByteChar) {
    0x20 <= c as int < 0x7F
  }

  predicate IsOctalDigit(c: ByteChar) {
    '0' <= c <= '7'
  }

  predicate IsHexDigit(c: ByteChar) {
    '0' <= c <= '9' || 'A' <= c <= 'F' || 'a' <= c <= 'f'
  }

  // kHexChar
  function HexChar(d: nat): ByteChar
    requires d < 16
  {
    if d < 10 then ToByte('0' as int + d) else ToByte('a' as int + d - 10)
  }

  // hex_digit_to_int
  function HexDigit(c: ByteChar): (d: nat)
    ensures d < 16
  {
    (if c > '9' then c as int + 9 else c as int) % 16
  }

  lemma HexDigits(d: nat)
    requires d < 16
    ensures IsHexDigit(HexChar(d)) && HexDigit(HexChar(d)) == d
  {
  }

  // --- Escaping --------------------------------------------------------------------------------------------

  // The letter of a two-character escape sequence, if the byte has one.
  function Letter(c: ByteChar): Option<ByteChar> {
    if c == '\n' then Some('n') else if c == '\r' then Some('r') else if c == '\t' then Some('t')
    else if c == '\"' then Some('\"') else if c == '\'' then Some('\'') else if c == '\\' then Some('\\') else None
  }

  predicate NeedsCode(c: ByteChar, utf8Safe: bool, lastHex: bool) {
    (!utf8Safe || c as int < 0x80) && (!IsPrint(c) || (lastHex && IsHexDigit(c)))
  }

  function HexCode(c: ByteChar): seq<ByteChar> {
    ['\\', 'x', HexChar(c as int / 16), HexChar(c as int % 16)]
  }

  function OctalCode(c: ByteChar): seq<ByteChar> {
    ['\\', HexChar(c as int / 64), HexChar(c as int % 64 / 8), HexChar(c as int % 8)]
  }

  // What a byte is escaped to, and the escaped form of a string. A hexadecimal digit right behind a hexadecimal
  // escape is escaped too.
  function EscapedByte(c: ByteChar, useHex: bool, utf8Safe: bool, lastHex: bool): seq<ByteChar> {
    if Letter(c).Some? then ['\\', Letter(c).value]
    else if NeedsCode(c, utf8Safe, lastHex) then if useHex then HexCode(c) else OctalCode(c)
    else [c]
  }

  predicate IsHexEscape(c: ByteChar, useHex: bool, utf8Safe: bool, lastHex: bool) {
    Letter(c).None? && NeedsCode(c, utf8Safe, lastHex) && useHex
  }

  function Escaped(src: seq<ByteChar>, useHex: bool, utf8Safe: bool, lastHex: bool): seq<ByteChar> {
    if src == [] then []
    else EscapedByte(src[0], useHex, utf8Safe, lastHex)
         + Escaped(src[1..], useHex, utf8Safe, IsHexEscape(src[0], useHex, utf8Safe, lastHex))
  }

  // --- Unescaping ------------------------------------------------------------------------------------------

  // What an escape sequence stands for, and how many bytes it has behind the backslash.
  datatype Sequence = Bad | Sequence(output: seq<ByteChar>, length: nat)

  function SimpleEscape(c: ByteChar): Option<ByteChar> {
    if c == 'a' then Some(ToByte(7)) else if c == 'b' then Some(ToByte(8)) else if c == 'f' then Some(ToByte(12))
    else if c == 'n' then Some('\n') else if c == 'r' then Some('\r') else if c == 't' then Some('\t')
    else if c == 'v' then Some(ToByte(11)) else if c == '\\' then Some('\\') else if c == '?' then Some('?')
    else if c == '\'' then Some('\'') else if c == '\"' then Some('\"') else None
  }

  // One to three octal digits.
  function OctalSequence(t: seq<ByteChar>): Sequence
    requires t != [] && IsOctalDigit(t[0])
  {
    var v0 := OctalDigit(t[0]);
    if |t| < 2 || !IsOctalDigit(t[1]) then Sequence([ToByte(v0)], 1)
    else
      var v1 := v0 * 8 + OctalDigit(t[1]);
      if |t| < 3 || !IsOctalDigit(t[2]) then Sequence([ToByte(v1)], 2)
      else
        var v2 := v1 * 8 + OctalDigit(t[2]);
        if v2 > 0xFF then Bad else Sequence([ToByte(v2)], 3)
  }

  function OctalDigit(c: ByteChar): (d: nat)
    requires IsOctalDigit(c)
    ensures d < 8
  {
    c as int - '0' as int
  }

  // How many hexadecimal digits there are at the front.
  function HexRun(t: seq<ByteChar>): (n: nat)
    ensures n <= |t| && (forall i :: 0 <= i < n ==> IsHexDigit(t[i])) && (n == |t| || !IsHexDigit(t[n]))
  {
    if t == [] || !IsHexDigit(t[0]) then 0 else 1 + HexRun(t[1..])
  }

  // The number of hexadecimal digits.
  function HexNumber(t: seq<ByteChar>): nat {
    if t == [] then 0 else HexNumber(t[..|t| - 1]) * 16 + HexDigit(t[|t| - 1])
  }

  // x or X, and arbitrarily many digits, whose number is taken modulo 2^32.
  function HexSequence(t: seq<ByteChar>): Sequence
    requires t != []
  {
    var n := HexRun(t[1..]);
    var ch := HexNumber(t[1..n + 1]) % TWO_TO_THE_32;
    if n == 0 || ch > 0xFF then Bad else Sequence([ToByte(ch)], n + 1)
  }

  // u and four digits or U and eight, for a code point in UTF-8.
  function RuneSequence(t: seq<ByteChar>, digits: nat): Sequence
    requires t != []
  {
    if |t| <= digits || HexRun(t[1..]) < digits then Bad
    else
      var rune := HexNumber(t[1..digits + 1]);
      if rune > 0x10FFFF || 0xD800 <= rune <= 0xDFFF then Bad else Sequence(Utf8(rune), digits + 1)
  }

  // EncodeUTF8Char (lib/abseil-cpp-master/absl/strings/internal/utf8.cc)
  function Utf8(rune: nat): (bytes: seq<ByteChar>)
    requires rune <= 0x10FFFF
    ensures 1 <= |bytes| <= 4
  {
    if rune <= 0x7F then [ToByte(rune)]
    else if rune <= 0x7FF then [ToByte(0xC0 + rune / 0x40), ToByte(0x80 + rune % 0x40)]
    else if rune <= 0xFFFF then
      [ToByte(0xE0 + rune / 0x1000), ToByte(0x80 + rune / 0x40 % 0x40), ToByte(0x80 + rune % 0x40)]
    else
      [ToByte(0xF0 + rune / 0x4_0000), ToByte(0x80 + rune / 0x1000 % 0x40), ToByte(0x80 + rune / 0x40 % 0x40),
       ToByte(0x80 + rune % 0x40)]
  }

  // The code point that UTF-8 bytes stand for: what the first byte leaves of its marker, and six bits of each other.
  function CodePoint(bytes: seq<ByteChar>): int {
    if |bytes| == 1 then bytes[0] as int
    else if |bytes| == 2 then (bytes[0] as int - 0xC0) * 0x40 + (bytes[1] as int - 0x80)
    else if |bytes| == 3 then
      ((bytes[0] as int - 0xE0) * 0x40 + (bytes[1] as int - 0x80)) * 0x40 + (bytes[2] as int - 0x80)
    else if |bytes| == 4 then
      (((bytes[0] as int - 0xF0) * 0x40 + (bytes[1] as int - 0x80)) * 0x40 + (bytes[2] as int - 0x80)) * 0x40
      + (bytes[3] as int - 0x80)
    else -1
  }

  lemma Utf8Meaning(rune: nat)
    requires rune <= 0x10FFFF
    ensures CodePoint(Utf8(rune)) == rune
    ensures forall i :: 0 < i < |Utf8(rune)| ==> 0x80 <= Utf8(rune)[i] as int < 0xC0
    ensures |Utf8(rune)| == if rune < 0x80 then 1 else if rune < 0x800 then 2 else if rune < 0x1_0000 then 3 else 4
    ensures var first := Utf8(rune)[0] as int;
            if rune < 0x80 then first < 0x80 else if rune < 0x800 then 0xC0 <= first < 0xE0
            else if rune < 0x1_0000 then 0xE0 <= first < 0xF0 else 0xF0 <= first < 0xF8
  {
    assert rune == rune / 0x40 * 0x40 + rune % 0x40;
    assert rune / 0x40 == rune / 0x1000 * 0x40 + rune / 0x40 % 0x40;
    assert rune / 0x1000 == rune / 0x4_0000 * 0x40 + rune / 0x1000 % 0x40;
  }

  function SequenceOf(t: seq<ByteChar>): Sequence
    requires t != []
  {
    if SimpleEscape(t[0]).Some? then Sequence([SimpleEscape(t[0]).value], 1)
    else if IsOctalDigit(t[0]) then OctalSequence(t)
    else if t[0] == 'x' || t[0] == 'X' then HexSequence(t)
    else if t[0] == 'u' then RuneSequence(t, 4)
    else if t[0] == 'U' then RuneSequence(t, 8)
    else Bad
  }

  // No escape sequence stands for more bytes than it has.
  lemma SequenceFits(t: seq<ByteChar>)
    requires t != [] && SequenceOf(t) != Bad
    ensures 1 <= |SequenceOf(t).output| <= SequenceOf(t).length <= |t|
  {
  }

  function Prepended(front: seq<ByteChar>, rest: Option<seq<ByteChar>>): Option<seq<ByteChar>> {
    if rest.None? then None else Some(front + rest.value)
  }

  function Unescaped(source: seq<ByteChar>): Option<seq<ByteChar>> {
    if source == [] then Some([])
    else if source[0] != '\\' then Prepended([source[0]], Unescaped(source[1..]))
    else if |source| == 1 || SequenceOf(source[1..]) == Bad then None
    else
      var sequence := SequenceOf(source[1..]);
      SequenceFits(source[1..]);
      Prepended(sequence.output, Unescaped(source[1 + sequence.length..]))
  }

  // --- Round trip ------------------------------------------------------------------------------------------

  // Behind a hexadecimal escape, the escaped text does not go on with a hexadecimal digit.
  lemma NoDigitBehindHex(src: seq<ByteChar>, useHex: bool, utf8Safe: bool)
    ensures var text := Escaped(src, useHex, utf8Safe, true); text != [] ==> !IsHexDigit(text[0])
  {
  }

  lemma PlainUnescapes(c: ByteChar, text: seq<ByteChar>)
    requires c != '\\'
    ensures Unescaped([c] + text) == Prepended([c], Unescaped(text))
  {
    assert ([c] + text)[1..] == text;
  }

  lemma SequenceUnescapes(code: seq<ByteChar>, text: seq<ByteChar>, output: seq<ByteChar>)
    requires |code| >= 2 && code[0] == '\\' && SequenceOf(code[1..] + text) == Sequence(output, |code| - 1)
    ensures Unescaped(code + text) == Prepended(output, Unescaped(text))
  {
    assert (code + text)[1..] == code[1..] + text;
    assert (code + text)[|code|..] == text;
  }

  lemma LetterSequence(c: ByteChar, text: seq<ByteChar>)
    requires Letter(c).Some?
    ensures SequenceOf([Letter(c).value] + text) == Sequence([c], 1)
  {
  }

  lemma OctalCodeSequence(c: ByteChar, text: seq<ByteChar>)
    ensures SequenceOf(OctalCode(c)[1..] + text) == Sequence([c], 3)
  {
    var v := c as int;
    var t := OctalCode(c)[1..] + text;
    assert t[0] == HexChar(v / 64) && t[1] == HexChar(v % 64 / 8) && t[2] == HexChar(v % 8);
    assert (v / 64 * 8 + v % 64 / 8) * 8 + v % 8 == v;
  }

  lemma HexCodeSequence(c: ByteChar, text: seq<ByteChar>)
    requires text != [] ==> !IsHexDigit(text[0])
    ensures SequenceOf(HexCode(c)[1..] + text) == Sequence([c], 3)
  {
    var v := c as int;
    var t := HexCode(c)[1..] + text;
    HexDigits(v / 16);
    HexDigits(v % 16);
    assert t[0] == 'x' && t[1] == HexChar(v / 16) && t[2] == HexChar(v % 16);
    assert t[1..][2..] == text;
    var n := HexRun(t[1..]);
    assert n == 2;
    var digits := t[1..n + 1];
    assert digits == [HexChar(v / 16), HexChar(v % 16)];
    TwoDigits(HexChar(v / 16), HexChar(v % 16));
  }

  lemma TwoDigits(a: ByteChar, b: ByteChar)
    ensures HexNumber([a, b]) == HexDigit(a) * 16 + HexDigit(b)
  {
    var both, first := [a, b], [a];
    assert both[..1] == first && first[..0] == [];
    assert HexNumber(first) == HexNumber([]) * 16 + HexDigit(a);
  }

  // --- What each kind of escape sequence stands for -----------------------------------------------------------

  lemma HexDigitMeaning(c: ByteChar, i: nat)
    requires i < 16
    ensures IsHexDigit(c) && HexDigit(c) == i <==> c == "0123456789abcdef"[i] || c == "0123456789ABCDEF"[i]
  {
  }

  // The eleven sequences of two characters.
  lemma SimpleMeaning(c: ByteChar, text: seq<ByteChar>)
    ensures var source, rest := ['\\', c] + text, Unescaped(text);
            && (c == 'a' ==> Unescaped(source) == Prepended([ToByte(7)], rest))
            && (c == 'b' ==> Unescaped(source) == Prepended([ToByte(8)], rest))
            && (c == 't' ==> Unescaped(source) == Prepended([ToByte(9)], rest))
            && (c == 'n' ==> Unescaped(source) == Prepended([ToByte(10)], rest))
            && (c == 'v' ==> Unescaped(source) == Prepended([ToByte(11)], rest))
            && (c == 'f' ==> Unescaped(source) == Prepended([ToByte(12)], rest))
            && (c == 'r' ==> Unescaped(source) == Prepended([ToByte(13)], rest))
            && (c in ['\\', '?', '\'', '\"'] ==> Unescaped(source) == Prepended([c], rest))
  {
    if SimpleEscape(c).Some? {
      SimpleSequence(c, text);
      hide SequenceOf;
      SequenceUnescapes(['\\', c], text, [SimpleEscape(c).value]);
    }
  }

  lemma SimpleSequence(c: ByteChar, text: seq<ByteChar>)
    requires SimpleEscape(c).Some?
    ensures SequenceOf(['\\', c][1..] + text) == Sequence([SimpleEscape(c).value], 1)
  {
    hide SimpleEscape, OctalSequence, HexSequence, RuneSequence;
    assert (['\\', c][1..] + text)[0] == c;
  }

  // No other character may follow a backslash, apart from those that begin the longer sequences, and one has to.
  lemma OthersAreRefused(c: ByteChar, text: seq<ByteChar>)
    requires c !in ['a', 'b', 't', 'n', 'v', 'f', 'r', '\\', '?', '\'', '\"', 'x', 'X', 'u', 'U'] && !('0' <= c <= '7')
    ensures Unescaped(['\\', c] + text) == None && Unescaped(['\\']) == None
  {
    assert (['\\', c] + text)[1..] == [c] + text;
  }

  // One, two or three octal digits, as many as there are, with their value in base eight.
  lemma OctalMeaning(digits: seq<ByteChar>, text: seq<ByteChar>)
    requires 1 <= |digits| <= 3 && forall d :: d in digits ==> '0' <= d <= '7'
    requires |digits| < 3 && text != [] ==> !('0' <= text[0] <= '7')
    ensures var d := seq(|digits|, i requires 0 <= i < |digits| => digits[i] as int - '0' as int);
            var value := if |d| == 1 then d[0] else if |d| == 2 then 8 * d[0] + d[1] else 64 * d[0] + 8 * d[1] + d[2];
            && value >= 0
            && Unescaped(['\\'] + digits + text) ==
               if value > 0xFF then None else Prepended([ToByte(value)], Unescaped(text))
  {
    var code := ['\\'] + digits;
    assert code[1..] == digits;
    OctalDigits(digits, text);
    hide SequenceOf;
    WholeSequence(code, text);
  }

  lemma OctalDigits(digits: seq<ByteChar>, text: seq<ByteChar>)
    requires 1 <= |digits| <= 3 && forall d :: d in digits ==> IsOctalDigit(d)
    requires |digits| < 3 && text != [] ==> !IsOctalDigit(text[0])
    ensures var d := seq(|digits|, i requires 0 <= i < |digits| => OctalDigit(digits[i]));
            var value := if |d| == 1 then d[0] else if |d| == 2 then 8 * d[0] + d[1] else 64 * d[0] + 8 * d[1] + d[2];
            SequenceOf(digits + text) == if value > 0xFF then Bad else Sequence([ToByte(value)], |digits|)
  {
    var t := digits + text;
    assert forall i :: 0 <= i < |digits| ==> digits[i] in digits;
    assert SimpleEscape(t[0]) == None && t[0] == digits[0];
    assert |digits| >= 2 ==> t[1] == digits[1];
    assert |digits| == 3 ==> t[2] == digits[2];
    assert |digits| < 3 && text != [] ==> t[|digits|] == text[0];
  }

  // A text that begins with an escape sequence, good or bad.
  lemma WholeSequence(code: seq<ByteChar>, text: seq<ByteChar>)
    requires |code| >= 2 && code[0] == '\\'
    ensures SequenceOf(code[1..] + text) == Bad ==> Unescaped(code + text) == None
    ensures SequenceOf(code[1..] + text) != Bad && SequenceOf(code[1..] + text).length == |code| - 1 ==>
              Unescaped(code + text) == Prepended(SequenceOf(code[1..] + text).output, Unescaped(text))
  {
    hide SequenceOf;
    assert (code + text)[1..] == code[1..] + text;
    if SequenceOf(code[1..] + text) != Bad && SequenceOf(code[1..] + text).length == |code| - 1 {
      SequenceUnescapes(code, text, SequenceOf(code[1..] + text).output);
    }
  }

  // u with four hexadecimal digits, or U with eight: the bytes of the code point with that number.
  lemma RuneMeaning(c: ByteChar, digits: seq<ByteChar>, text: seq<ByteChar>)
    requires (c == 'u' && |digits| == 4) || (c == 'U' && |digits| == 8)
    ensures var rune := HexNumber(digits);
            Unescaped(['\\', c] + digits + text) ==
            if (exists i :: 0 <= i < |digits| && !IsHexDigit(digits[i])) || rune > 0x10FFFF || 0xD800 <= rune <= 0xDFFF
            then None else Prepended(Utf8(rune), Unescaped(text))
  {
    var code := ['\\', c] + digits;
    assert code[1..] == [c] + digits;
    RuneDigits(c, digits, text);
    hide SequenceOf, Utf8, HexNumber;
    WholeSequence(code, text);
  }

  lemma RuneDigits(c: ByteChar, digits: seq<ByteChar>, text: seq<ByteChar>)
    requires (c == 'u' && |digits| == 4) || (c == 'U' && |digits| == 8)
    ensures var rune := HexNumber(digits);
            SequenceOf([c] + digits + text) ==
            if (exists i :: 0 <= i < |digits| && !IsHexDigit(digits[i])) || rune > 0x10FFFF || 0xD800 <= rune <= 0xDFFF
            then Bad else Sequence(Utf8(rune), |digits| + 1)
  {
    hide OctalSequence, HexSequence, Utf8, HexNumber, IsHexDigit;
    var t := [c] + digits + text;
    assert t[1..] == digits + text && t[1..|digits| + 1] == digits;
    var n := HexRun(t[1..]);
    if n < |digits| {
      assert !IsHexDigit(digits[n]);
    } else {
      assert forall i :: 0 <= i < |digits| ==> t[1..][i] == digits[i];
    }
  }

  // With fewer characters left than that, the text is refused.
  lemma RuneIsCutOff(c: ByteChar, digits: seq<ByteChar>)
    requires (c == 'u' && |digits| < 4) || (c == 'U' && |digits| < 8)
    ensures Unescaped(['\\', c] + digits) == None
  {
    hide OctalSequence, HexSequence, Utf8;
    assert (['\\', c] + digits)[1..] == [c] + digits;
  }

  // The number of a text of hexadecimal digits, from its last digit on.
  lemma HexNumberMeaning(t: seq<ByteChar>, c: ByteChar)
    ensures HexNumber([]) == 0 && HexNumber(t + [c]) == 16 * HexNumber(t) + HexDigit(c)
  {
    assert (t + [c])[..|t|] == t;
  }

  // --- Escaped text ----------------------------------------------------------------------------------------

  // Escaped text is printable, apart from the bytes of other characters that it is to leave alone.
  lemma {:induction false} EscapedIsPrintable(src: seq<ByteChar>, useHex: bool, utf8Safe: bool, lastHex: bool)
    ensures forall c :: c in Escaped(src, useHex, utf8Safe, lastHex) ==>
                          0x20 <= c as int <= 0x7E || (utf8Safe && c as int >= 0x80)
    decreases |src|
  {
    if src != [] {
      EscapedByteIsPrintable(src[0], useHex, utf8Safe, lastHex);
      EscapedIsPrintable(src[1..], useHex, utf8Safe, IsHexEscape(src[0], useHex, utf8Safe, lastHex));
    }
  }

  lemma EscapedByteIsPrintable(c: ByteChar, useHex: bool, utf8Safe: bool, lastHex: bool)
    ensures forall d :: d in EscapedByte(c, useHex, utf8Safe, lastHex) ==>
                          0x20 <= d as int <= 0x7E || (utf8Safe && d as int >= 0x80)
  {
  }

  // Unescaping gives back every byte string, whichever of the four ways it was escaped.
  lemma {:induction false} EscapedUnescapes(src: seq<ByteChar>, useHex: bool, utf8Safe: bool, lastHex: bool)
    ensures Unescaped(Escaped(src, useHex, utf8Safe, lastHex)) == Some(src)
    decreases |src|
  {
    hide SequenceOf;
    if src != [] {
      var c, isHex := src[0], IsHexEscape(src[0], useHex, utf8Safe, lastHex);
      var text := Escaped(src[1..], useHex, utf8Safe, isHex);
      EscapedUnescapes(src[1..], useHex, utf8Safe, isHex);
      assert src == [c] + src[1..];
      if Letter(c).Some? {
        LetterSequence(c, text);
        SequenceUnescapes(['\\', Letter(c).value], text, [c]);
      } else if !NeedsCode(c, utf8Safe, lastHex) {
        PlainUnescapes(c, text);
      } else if useHex {
        NoDigitBehindHex(src[1..], useHex, utf8Safe);
        HexCodeSequence(c, text);
        SequenceUnescapes(HexCode(c), text, [c]);
      } else {
        OctalCodeSequence(c, text);
        SequenceUnescapes(OctalCode(c), text, [c]);
      }
    }
  }

  // The number of a hexadecimal escape is only looked at modulo 2^32: a number above 0xff is refused exactly when
  // what is left of it is above 0xff.
  lemma HexEscapeIsModular(digits: seq<ByteChar>)
    requires digits != [] && HexRun(digits) == |digits|
    ensures Unescaped(['\\', 'x'] + digits) ==
            var ch := HexNumber(digits) % TWO_TO_THE_32; if ch <= 0xFF then Some([ToByte(ch)]) else None
  {
    var code := ['\\', 'x'] + digits;
    var t := code[1..];
    assert t == ['x'] + digits && t[1..] == digits;
    XSequence(t, digits);
    hide SequenceOf, HexNumber;
    OnlySequence(code);
  }

  lemma OnlySequence(code: seq<ByteChar>)
    requires |code| >= 2 && code[0] == '\\'
    ensures SequenceOf(code[1..]) == Bad ==> Unescaped(code) == None
    ensures SequenceOf(code[1..]) != Bad && SequenceOf(code[1..]).length == |code| - 1 ==>
              Unescaped(code) == Some(SequenceOf(code[1..]).output)
  {
    hide SequenceOf;
    if SequenceOf(code[1..]) != Bad && SequenceOf(code[1..]).length == |code| - 1 {
      var output := SequenceOf(code[1..]).output;
      assert code[|code|..] == [] && output + [] == output;
    }
  }

  lemma XSequence(t: seq<ByteChar>, digits: seq<ByteChar>)
    requires t == ['x'] + digits && digits != [] && HexRun(digits) == |digits|
    ensures var ch := HexNumber(digits) % TWO_TO_THE_32;
            SequenceOf(t) == if ch > 0xFF then Bad else Sequence([ToByte(ch)], |digits| + 1)
  {
    assert t[0] == 'x' && t[1..] == digits && t[1..|digits| + 1] == digits;
    hide HexRun, HexNumber;
    XIsHex(t);
    hide SequenceOf;
  }

  lemma XIsHex(t: seq<ByteChar>)
    requires t != [] && t[0] == 'x'
    ensures SequenceOf(t) == HexSequence(t)
  {
    hide OctalSequence, HexSequence, RuneSequence;
  }

  // A number of nine digits, far above 0xff, that is not refused.
  lemma HexEscapeWraps()
    ensures var digits: seq<ByteChar> := ['1', '0', '0', '0', '0', '0', '0', '4', '1'];
            HexNumber(digits) > 0xFF && Unescaped(['\\', 'x'] + digits) == Some(['A'])
  {
    var digits: seq<ByteChar> := ['1', '0', '0', '0', '0', '0', '0', '4', '1'];
    NumberOfNine(digits);
    HexEscapeIsModular(digits);
  }

  lemma NumberOfNine(digits: seq<ByteChar>)
    requires digits == ['1', '0', '0', '0', '0', '0', '0', '4', '1']
    ensures HexNumber(digits) == 0x1_0000_0041 && HexRun(digits) == 9
  {
    var n := 0;
    while n < 9
      invariant 0 <= n <= 9
      invariant HexNumber(digits[..n]) == [0, 1, 0x10, 0x100, 0x1000, 0x1_0000, 0x10_0000, 0x100_0000, 0x1000_0004,
                                           0x1_0000_0041][n]
    {
      assert digits[..n + 1][..n] == digits[..n];
      n := n + 1;
    }
    assert digits[..9] == digits;
  }

  // --- The escaping loops ----------------------------------------------------------------------------------

  method CEscapeInternal(src: seq<ByteChar>, useHex: bool, utf8Safe: bool) returns (dest: seq<ByteChar>)
    ensures dest == Escaped(src, useHex, utf8Safe, false)
  {
    hide IsPrint, IsHexDigit, Escaped;
    dest := [];
    var lastHexEscape := false;
    var i := 0;
    assert src[0..] == src;
    while i < |src|
      invariant 0 <= i <= |src|
      invariant dest + Escaped(src[i..], useHex, utf8Safe, lastHexEscape) == Escaped(src, useHex, utf8Safe, false)
    {
      var c := src[i];
      ghost var before := dest;
      EscapeStep(src, i, useHex, utf8Safe, lastHexEscape);
      var isHexEscape := false;
      if c == '\n' {
        dest := dest + ['\\', 'n'];
      } else if c == '\r' {
        dest := dest + ['\\', 'r'];
      } else if c == '\t' {
        dest := dest + ['\\', 't'];
      } else if c == '\"' {
        dest := dest + ['\\', '\"'];
      } else if c == '\'' {
        dest := dest + ['\\', '\''];
      } else if c == '\\' {
        dest := dest + ['\\', '\\'];
      } else if (!utf8Safe || c as int < 0x80) && (!IsPrint(c) || (lastHexEscape && IsHexDigit(c))) {
        if useHex {
          dest := dest + ['\\', 'x'];
          dest := dest + [HexChar(c as int / 16)];
          dest := dest + [HexChar(c as int % 16)];
          isHexEscape := true;
        } else {
          dest := dest + ['\\'];
          dest := dest + [HexChar(c as int / 64)];
          dest := dest + [HexChar(c as int % 64 / 8)];
          dest := dest + [HexChar(c as int % 8)];
        }
      } else {
        dest := dest + [c];
      }
      assert dest == before + EscapedByte(c, useHex, utf8Safe, lastHexEscape);
      lastHexEscape := isHexEscape;
      i := i + 1;
    }
    NothingEscaped(src[i..], useHex, utf8Safe, lastHexEscape);
  }

  lemma EscapeStep(src: seq<ByteChar>, i: nat, useHex: bool, utf8Safe: bool, lastHex: bool)
    requires i < |src|
    ensures var code := EscapedByte(src[i], useHex, utf8Safe, lastHex);
            var rest := Escaped(src[i + 1..], useHex, utf8Safe, IsHexEscape(src[i], useHex, utf8Safe, lastHex));
            && Escaped(src[i..], useHex, utf8Safe, lastHex) == code + rest
            && (forall dest: seq<ByteChar> :: (dest + code) + rest == dest + (code + rest))
  {
    assert src[i..][1..] == src[i + 1..];
  }

  lemma NothingEscaped(src: seq<ByteChar>, useHex: bool, utf8Safe: bool, lastHex: bool)
    requires src == []
    ensures Escaped(src, useHex, utf8Safe, lastHex) == []
  {
  }

  // --- The table-driven form -------------------------------------------------------------------------------

  // c_escaped_len
  function EscapedLen(c: ByteChar): nat {
    if c in ['\t', '\n', '\r', '\"', '\'', '\\'] then 2 else if IsPrint(c) then 1 else 4
  }

  lemma TableMeaning(c: ByteChar)
    ensures EscapedLen(c) == |EscapedByte(c, false, false, false)|
    ensures EscapedLen(c) == 2 <==> Letter(c).Some?
    ensures EscapedLen(c) == 1 ==> EscapedByte(c, false, false, false) == [c]
    ensures EscapedLen(c) == 4 ==>
              EscapedByte(c, false, false, false) == ['\\', ToByte('0' as int + c as int / 64),
                ToByte('0' as int + c as int % 64 / 8), ToByte('0' as int + c as int % 8)]
  {
  }

  // Without hexadecimal escapes, the escaped form is put together byte by byte.
  function Octal(src: seq<ByteChar>): seq<ByteChar> {
    Escaped(src, false, false, false)
  }

  lemma OctalStep(src: seq<ByteChar>, i: nat)
    requires i < |src|
    ensures Octal(src[..i + 1]) == Octal(src[..i]) + EscapedByte(src[i], false, false, false)
  {
    OctalJoins(src[..i], [src[i]]);
    assert src[..i + 1] == src[..i] + [src[i]];
    var one := [src[i]];
    assert one[1..] == [];
    assert Octal(one) == EscapedByte(one[0], false, false, false) + Escaped(one[1..], false, false, false);
  }

  lemma {:induction false} OctalJoins(s: seq<ByteChar>, t: seq<ByteChar>)
    ensures Octal(s + t) == Octal(s) + Octal(t)
  {
    if s == [] {
      assert s + t == t;
    } else {
      assert (s + t)[1..] == s[1..] + t;
      OctalJoins(s[1..], t);
    }
  }

  method CEscapedLength(src: seq<ByteChar>) returns (escapedLen: nat)
    ensures escapedLen == |Octal(src)|
    ensures escapedLen == |src| ==> Octal(src) == src
  {
    hide EscapedLen, Octal, EscapedByte;
    escapedLen := 0;
    NoOctal(src[..0]);
    for i := 0 to |src|
      invariant i <= escapedLen == |Octal(src[..i])|
      invariant escapedLen == i ==> Octal(src[..i]) == src[..i]
    {
      OctalStep(src, i);
      TableMeaning(src[i]);
      SomeLen(src[i]);
      assert src[..i + 1] == src[..i] + [src[i]];
      escapedLen := escapedLen + EscapedLen(src[i]);
    }
    assert src[..|src|] == src;
  }

  lemma NoOctal(src: seq<ByteChar>)
    requires src == []
    ensures Octal(src) == []
  {
  }

  lemma SomeLen(c: ByteChar)
    ensures EscapedLen(c) in {1, 2, 4}
  {
  }

  // Equal to CEscapeInternal without hexadecimal escapes, appended to the destination.
  method CEscapeAndAppendInternal(src: seq<ByteChar>, dest: seq<ByteChar>) returns (dest': seq<ByteChar>)
    ensures dest' == dest + Escaped(src, false, false, false)
  {
    hide EscapedLen, EscapedByte, Escaped;
    var escapedLen := CEscapedLength(src);
    if escapedLen == |src| {
      return dest + src;
    }
    var buffer := new ByteChar[escapedLen];
    var at := 0;
    assert Octal(src[..|src|]) == Octal(src) by {
      assert src[..|src|] == src;
    }
    NothingEscaped(src[..0], false, false, false);
    for i := 0 to |src|
      invariant at == |Octal(src[..i])| <= escapedLen && buffer[..at] == Octal(src[..i])
    {
      OctalStep(src, i);
      OctalPrefix(src, i + 1);
      at := PutEscaped(src[i], buffer, at);
    }
    dest' := dest + buffer[..];
    assert buffer[..at] == buffer[..];
  }

  lemma OctalPrefix(src: seq<ByteChar>, i: nat)
    requires i <= |src|
    ensures |Octal(src[..i])| <= |Octal(src)|
  {
    OctalJoins(src[..i], src[i..]);
    assert src[..i] + src[i..] == src;
  }

  // One byte, by the length that the table gives.
  method PutEscaped(c: ByteChar, buffer: array<ByteChar>, at: nat) returns (end: nat)
    requires at + |EscapedByte(c, false, false, false)| <= buffer.Length
    modifies buffer
    ensures end == at + |EscapedByte(c, false, false, false)|
    ensures buffer[..end] == old(buffer[..at]) + EscapedByte(c, false, false, false)
  {
    TableMeaning(c);
    var charLen := EscapedLen(c);
    if charLen == 1 {
      buffer[at] := c;
      end := at + 1;
    } else if charLen == 2 {
      buffer[at] := '\\';
      buffer[at + 1] := if c == '\n' then 'n' else if c == '\r' then 'r' else if c == '\t' then 't' else c;
      end := at + 2;
    } else {
      SomeLen(c);
      buffer[at] := '\\';
      buffer[at + 1] := ToByte('0' as int + c as int / 64);
      buffer[at + 2] := ToByte('0' as int + c as int % 64 / 8);
      buffer[at + 3] := ToByte('0' as int + c as int % 8);
      end := at + 4;
    }
  }

  // --- Unescaping in place ---------------------------------------------------------------------------------

  method ReadOctal(buffer: array<ByteChar>, p: nat, n: nat) returns (sequence: Sequence)
    requires p < n <= buffer.Length && IsOctalDigit(buffer[p])
    ensures sequence == OctalSequence(buffer[p..n])
  {
    ghost var t := buffer[p..n];
    var q, ch := p, OctalDigit(buffer[p]);
    if q < n - 1 && IsOctalDigit(buffer[q + 1]) {
      q := q + 1;
      ch := ch * 8 + OctalDigit(buffer[q]);
    }
    if q < n - 1 && IsOctalDigit(buffer[q + 1]) {
      q := q + 1;
      ch := ch * 8 + OctalDigit(buffer[q]);
    }
    if ch > 0xFF {
      return Bad;
    }
    sequence := Sequence([ToByte(ch)], q - p + 1);
  }

  // The digits up to the k-th have been read, and more are to follow.
  ghost predicate HexRead(t: seq<ByteChar>, k: nat) {
    k < |t| && HexRun(t[1..]) == k + HexRun(t[k + 1..])
  }

  lemma HexReadOne(t: seq<ByteChar>, k: nat)
    requires HexRead(t, k)
    ensures if k + 1 == |t| || !IsHexDigit(t[k + 1]) then HexRun(t[1..]) == k
            else HexRead(t, k + 1) && HexNumber(t[1..k + 2]) == HexNumber(t[1..k + 1]) * 16 + HexDigit(t[k + 1])
  {
    if k + 1 < |t| && IsHexDigit(t[k + 1]) {
      assert t[k + 1..][1..] == t[k + 2..];
      assert t[1..k + 2][..k] == t[1..k + 1];
    }
  }

  lemma HexReadNone(t: seq<ByteChar>)
    requires t != []
    ensures HexRead(t, 0) && HexNumber(t[1..1]) == 0
  {
  }

  lemma WrapMore(x: nat, d: nat)
    requires d < 16
    ensures (x % TWO_TO_THE_32 * 16 + d) % TWO_TO_THE_32 == (x * 16 + d) % TWO_TO_THE_32
  {
  }

  method ReadHex(buffer: array<ByteChar>, p: nat, n: nat) returns (sequence: Sequence)
    requires p < n <= buffer.Length
    ensures sequence == HexSequence(buffer[p..n])
  {
    hide HexRead, IsHexDigit, HexNumber;
    ghost var t := buffer[p..n];
    HexReadNone(t);
    HexReadOne(t, 0);
    if p >= n - 1 {
      return Bad;
    }
    if !IsHexDigit(buffer[p + 1]) {
      return Bad;
    }
    var ch, q := 0, p;
    while q < n - 1 && IsHexDigit(buffer[q + 1])
      invariant p <= q < n && HexRead(t, q - p) && ch == HexNumber(t[1..q - p + 1]) % TWO_TO_THE_32
      invariant q == p ==> IsHexDigit(buffer[q + 1])
    {
      HexReadOne(t, q - p);
      WrapMore(HexNumber(t[1..q - p + 1]), HexDigit(buffer[q + 1]));
      q := q + 1;
      ch := (ch * 16 + HexDigit(buffer[q])) % TWO_TO_THE_32;
    }
    HexReadOne(t, q - p);
    if ch > 0xFF {
      return Bad;
    }
    sequence := Sequence([ToByte(ch)], q - p + 1);
  }

  lemma {:induction false} HexNumberGrows(t: seq<ByteChar>, k: nat)
    requires k <= |t|
    ensures HexNumber(t[..k]) <= HexNumber(t)
    decreases |t|
  {
    if k < |t| {
      HexNumberGrows(t[..|t| - 1], k);
      assert t[..|t| - 1][..k] == t[..k];
    } else {
      assert t[..k] == t;
    }
  }

  lemma FrontNumber(t: seq<ByteChar>, i: nat, k: nat)
    requires 1 <= i <= k <= |t|
    ensures HexNumber(t[1..i]) <= HexNumber(t[1..k])
  {
    hide HexNumber;
    HexNumberGrows(t[1..k], i - 1);
    assert t[1..k][..i - 1] == t[1..i];
  }

  method ReadRune(buffer: array<ByteChar>, p: nat, n: nat, digits: nat) returns (sequence: Sequence)
    requires p < n <= buffer.Length && digits > 0
    ensures sequence == RuneSequence(buffer[p..n], digits)
  {
    hide HexRead, IsHexDigit, HexNumber, Utf8;
    ghost var t := buffer[p..n];
    if p + digits >= n {
      return Bad;
    }
    HexReadNone(t);
    var rune, q := 0, p;
    for i := 0 to digits
      invariant q == p + i && HexRead(t, i) && rune == HexNumber(t[1..i + 1]) <= 0x10FFFF
    {
      HexReadOne(t, i);
      if IsHexDigit(buffer[q + 1]) {
        q := q + 1;
        var newRune := rune * 16 + HexDigit(buffer[q]);
        if newRune > 0x10FFFF {
          FrontNumber(t, i + 2, digits + 1);
          return Bad;
        }
        rune := newRune;
      } else {
        return Bad;
      }
    }
    HexRunAtLeast(t, digits);
    if 0xD800 <= rune <= 0xDFFF {
      return Bad;
    }
    sequence := Sequence(Utf8(rune), digits + 1);
  }

  lemma HexRunAtLeast(t: seq<ByteChar>, k: nat)
    requires HexRead(t, k)
    ensures HexRun(t[1..]) >= k
  {
  }

  // The switch on the byte behind a backslash.
  method ReadSequence(buffer: array<ByteChar>, p: nat, n: nat) returns (sequence: Sequence)
    requires p < n <= buffer.Length
    ensures sequence == SequenceOf(buffer[p..n])
  {
    hide OctalSequence, HexSequence, RuneSequence;
    var c := buffer[p];
    assert buffer[p..n][0] == c;
    if SimpleEscape(c).Some? {
      sequence := Sequence([SimpleEscape(c).value], 1);
    } else if IsOctalDigit(c) {
      sequence := ReadOctal(buffer, p, n);
    } else if c == 'x' || c == 'X' {
      sequence := ReadHex(buffer, p, n);
    } else if c == 'u' {
      sequence := ReadRune(buffer, p, n, 4);
    } else if c == 'U' {
      sequence := ReadRune(buffer, p, n, 8);
    } else {
      sequence := Bad;
    }
  }

  method PutSequence(buffer: array<ByteChar>, d: nat, output: seq<ByteChar>)
    requires d + |output| <= buffer.Length
    modifies buffer
    ensures buffer[..d + |output|] == old(buffer[..d]) + output
    ensures forall j :: d + |output| <= j < buffer.Length ==> buffer[j] == old(buffer[j])
  {
    for i := 0 to |output|
      invariant buffer[..d + i] == old(buffer[..d]) + output[..i]
      invariant forall j :: d + i <= j < buffer.Length ==> buffer[j] == old(buffer[j])
    {
      buffer[d + i] := output[i];
      assert buffer[..d + i + 1] == buffer[..d + i] + [output[i]];
      assert output[..i + 1] == output[..i] + [output[i]];
    }
    assert output[..|output|] == output;
  }

  // --- one step of Unescaped at a position of the source

  lemma NothingBefore(source: seq<ByteChar>)
    ensures Unescaped(source) == Prepended(source[..0], Unescaped(source[0..]))
  {
    assert source[0..] == source;
    if Unescaped(source).Some? {
      assert [] + Unescaped(source).value == Unescaped(source).value;
    }
  }

  lemma PlainStep(source: seq<ByteChar>, p: nat, front: seq<ByteChar>)
    requires p < |source| && source[p] != '\\'
    ensures Prepended(front, Unescaped(source[p..])) == Prepended(front + [source[p]], Unescaped(source[p + 1..]))
  {
    assert source[p..][1..] == source[p + 1..];
    Assembled(front, [source[p]], Unescaped(source[p + 1..]));
  }

  lemma Assembled(front: seq<ByteChar>, middle: seq<ByteChar>, rest: Option<seq<ByteChar>>)
    ensures Prepended(front, Prepended(middle, rest)) == Prepended(front + middle, rest)
  {
    if rest.Some? {
      assert front + (middle + rest.value) == front + middle + rest.value;
    }
  }

  lemma LoneBackslash(source: seq<ByteChar>, front: seq<ByteChar>)
    requires source != [] && source[|source| - 1] == '\\'
    ensures Prepended(front, Unescaped(source[|source| - 1..])) == None
  {
  }

  lemma SequenceStep(source: seq<ByteChar>, p: nat, front: seq<ByteChar>, sequence: Sequence)
    requires 0 < p < |source| && source[p - 1] == '\\' && sequence == SequenceOf(source[p..])
    ensures sequence == Bad ==> Prepended(front, Unescaped(source[p - 1..])) == None
    ensures sequence != Bad ==>
              && |sequence.output| <= sequence.length && p + sequence.length <= |source|
              && Prepended(front, Unescaped(source[p - 1..]))
                 == Prepended(front + sequence.output, Unescaped(source[p + sequence.length..]))
  {
    hide SequenceOf;
    var rest := source[p - 1..];
    assert rest[1..] == source[p..];
    if sequence != Bad {
      SequenceFits(source[p..]);
      assert rest[1 + sequence.length..] == source[p + sequence.length..];
      Assembled(front, sequence.output, Unescaped(source[p + sequence.length..]));
    }
  }

  lemma EmptyRest(rest: seq<ByteChar>, front: seq<ByteChar>)
    requires rest == []
    ensures Prepended(front, Unescaped(rest)) == Some(front)
  {
    assert front + [] == front;
  }

  // Unescapes the first n bytes of the buffer into the same buffer; what is written never overtakes what is still to
  // be read.
  method CUnescapeInternal(buffer: array<ByteChar>, n: nat) returns (ok: bool, len: nat)
    requires n <= buffer.Length
    modifies buffer
    ensures ok ==> len <= n && Unescaped(old(buffer[..n])) == Some(buffer[..len])
    ensures !ok ==> Unescaped(old(buffer[..n])) == None
    ensures buffer[n..] == old(buffer[n..])
  {
    hide Unescaped, SequenceOf, Prepended;
    ghost var source := buffer[..n];
    var d: nat, p: nat := 0, 0;
    NothingBefore(source);
    while p < n && buffer[p] != '\\'
      invariant d == p <= n && buffer[..] == old(buffer[..])
      invariant Unescaped(source) == Prepended(source[..d], Unescaped(source[p..]))
    {
      PlainStep(source, p, source[..d]);
      assert source[..d + 1] == source[..d] + [source[p]];
      p, d := p + 1, d + 1;
    }
    assert source[..d] == buffer[..d];
    while p < n
      invariant d <= p <= n
      invariant forall j :: p <= j < buffer.Length ==> buffer[j] == old(buffer[j])
      invariant Unescaped(source) == Prepended(buffer[..d], Unescaped(source[p..]))
    {
      ghost var front := buffer[..d];
      if buffer[p] != '\\' {
        PlainStep(source, p, front);
        PutOne(buffer, d, buffer[p]);
        p, d := p + 1, d + 1;
      } else {
        p := p + 1;
        if p > n - 1 {
          LoneBackslash(source, front);
          return false, 0;
        }
        assert buffer[p..n] == source[p..];
        var sequence := ReadSequence(buffer, p, n);
        SequenceStep(source, p, front, sequence);
        if sequence == Bad {
          return false, 0;
        }
        PutSequence(buffer, d, sequence.output);
        p, d := p + sequence.length, d + |sequence.output|;
      }
    }
    EmptyRest(source[p..], buffer[..d]);
    return true, d;
  }

  // *d++ = c
  method PutOne(buffer: array<ByteChar>, d: nat, c: ByteChar)
    requires d < buffer.Length
    modifies buffer
    ensures buffer[..d + 1] == old(buffer[..d]) + [c]
    ensures forall j :: d < j < buffer.Length ==> buffer[j] == old(buffer[j])
  {
    buffer[d] := c;
  }
}
