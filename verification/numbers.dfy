/** Printing and parsing of integers (lib/abseil-cpp-master/absl/strings/numbers.cc). */
module Numbers {
  import opened Ascii
  import opened Powers

  // --- Numerals --------------------------------------------------------------------------------------------

  function DigitChar(d: nat): (c: char)
    requires d < 10
  {
    ('0' as int + d) as char
  }

  // kAsciiToInt: 36 for what is not a digit in any base.
  function DigitOf(c: char): (d: nat)
    ensures d <= 36
  {
    if '0' <= c <= '9' then c as int - '0' as int
    else if 'A' <= c <= 'Z' then c as int - 'A' as int + 10
    else if 'a' <= c <= 'z' then c as int - 'a' as int + 10
    else 36
  }

  lemma DigitMeaning(c: char, d: nat)
    requires d < 36
    ensures DigitOf(c) == d <==> c == ("0123456789" + "abcdefghijklmnopqrstuvwxyz")[d] ||
                                 c == ("0123456789" + "ABCDEFGHIJKLMNOPQRSTUVWXYZ")[d]
  {
    if d < 10 {
      DecimalDigitMeaning(c, d);
    } else {
      LetterMeaning(c, d - 10);
    }
    hide DigitOf;
  }

  lemma DecimalDigitMeaning(c: char, d: nat)
    requires d < 10
    ensures DigitOf(c) == d <==> c == "0123456789"[d]
  {
  }

  lemma LetterMeaning(c: char, d: nat)
    requires d < 26
    ensures DigitOf(c) == 10 + d <==> c == "abcdefghijklmnopqrstuvwxyz"[d] || c == "ABCDEFGHIJKLMNOPQRSTUVWXYZ"[d]
  {
    Lowercase(d);
    Uppercase(d);
  }

  lemma Lowercase(d: nat)
    requires d < 26
    ensures "abcdefghijklmnopqrstuvwxyz"[d] as int == 'a' as int + d
  {
  }

  lemma Uppercase(d: nat)
    requires d < 26
    ensures "ABCDEFGHIJKLMNOPQRSTUVWXYZ"[d] as int == 'A' as int + d
  {
  }

  // The number a text stands for.
  function Number(text: string, base: nat): nat {
    if text == [] then 0 else Number(text[..|text| - 1], base) * base + DigitOf(text[|text| - 1])
  }

  // The longest prefix of digits.
  function Digits(text: string, base: nat): (digits: string)
    ensures digits <= text
    ensures forall j :: 0 <= j < |digits| ==> DigitOf(digits[j]) < base
    ensures digits == text || DigitOf(text[|digits|]) >= base
  {
    if text == [] || DigitOf(text[0]) >= base then []
    else [text[0]] + Digits(text[1..], base)
  }

  // The canonical decimal text of a number.
  function Decimal(n: nat): (text: string)
    ensures text != []
  {
    if n < 10 then [DigitChar(n)] else Decimal(n / 10) + [DigitChar(n % 10)]
  }

  function SignedDecimal(i: int): string {
    if i < 0 then "-" + Decimal(-i) else Decimal(i)
  }

  // The last `width` decimal digits of a number, leading zeros included.
  function Padded(n: nat, width: nat): (text: string)
    ensures |text| == width
  {
    if width == 0 then [] else Padded(n / 10, width - 1) + [DigitChar(n % 10)]
  }

  function Pow10(k: nat): (p: nat)
    ensures p > 0
  {
    if k == 0 then 1 else 10 * Pow10(k - 1)
  }

  // A number without its last k decimal digits, and those digits alone.
  function High(n: nat, k: nat): nat {
    DivideAtMost(n, Pow10(k));
    n / Pow10(k)
  }

  function Low(n: nat, k: nat): nat {
    n % Pow10(k)
  }

  lemma {:induction false} PaddedSplits(n: nat, m: nat, k: nat)
    ensures Padded(n, m + k) == Padded(High(n, k), m) + Padded(Low(n, k), k)
  {
    if k > 0 {
      PaddedSplits(n / 10, m, k - 1);
      DivideByTen(n, Pow10(k - 1));
    }
  }

  lemma {:induction false} DecimalSplits(n: nat, k: nat)
    requires n >= Pow10(k)
    ensures Decimal(n) == Decimal(High(n, k)) + Padded(Low(n, k), k)
  {
    if k > 0 {
      DivideByTen(n, Pow10(k - 1));
      DecimalSplits(n / 10, k - 1);
    }
  }

  // Without a leading zero, the padded text is canonical.
  lemma {:induction false} DecimalIsPadded(n: nat, k: nat)
    requires Pow10(k) <= n < Pow10(k + 1)
    ensures Decimal(n) == Padded(n, k + 1)
    decreases k
  {
    if k > 0 {
      DecimalIsPadded(n / 10, k - 1);
    }
  }

  lemma FirstDigit(n: nat, k: nat)
    requires k > 0 && Pow10(k) <= n < Pow10(k + 1)
    ensures High(n, k) < 10 && Decimal(n) == [DigitChar(High(n, k))] + Padded(Low(n, k), k)
  {
    assert Pow10(k + 1) == 10 * Pow10(k);
    hide Pow10;
    DecimalSplits(n, k);
    QuotientBelow(n, 10, Pow10(k));
  }

  lemma PowersOfTen()
    ensures Pow10(1) == 10 && Pow10(2) == 100 && Pow10(3) == 1000 && Pow10(4) == 10000 && Pow10(5) == 100000
    ensures Pow10(6) == 1000000 && Pow10(7) == 10000000 && Pow10(8) == 100000000 && Pow10(9) == 1000000000
  {
    assert Pow10(5) == 100000;
    assert Pow10(9) == 10 * Pow10(8) == 100 * Pow10(7) == 1000 * Pow10(6);
  }

  lemma DivideByTen(n: nat, p: nat)
    requires p > 0
    ensures n / (10 * p) == n / 10 / p
    ensures n % (10 * p) / 10 == n / 10 % p && n % (10 * p) % 10 == n % 10
    ensures n >= 10 * p ==> n / 10 >= p
  {
    var q, r := n / 10 / p, n / 10 % p;
    assert n / 10 == q * p + r;
    assert n == q * (10 * p) + (10 * r + n % 10);
    QuotientIs(n, 10 * p, q, 10 * r + n % 10);
  }

  // --- Printing --------------------------------------------------------------------------------------------

  // The text stands in the buffer from `start` on, with a terminating zero, and nothing else has changed.
  twostate predicate Wrote(buffer: array<char>, start: nat, text: string)
    reads buffer
  {
    && start + |text| < buffer.Length
    && buffer[start..start + |text|] == text && buffer[start + |text|] == '\0'
    && forall j :: 0 <= j < buffer.Length && !(start <= j <= start + |text|) ==> buffer[j] == old(buffer[j])
  }

  method PutTwoDigits(digits: nat, buffer: array<char>, at: nat)
    requires digits < 100 && at + 1 < buffer.Length
    modifies buffer
    ensures buffer[at..at + 2] == Padded(digits, 2)
    ensures forall j :: 0 <= j < buffer.Length && !(at <= j < at + 2) ==> buffer[j] == old(buffer[j])
  {
    buffer[at] := DigitChar(digits / 10);
    buffer[at + 1] := DigitChar(digits % 10);
    assert Padded(digits, 2) == [DigitChar(digits / 10), DigitChar(digits % 10)] by {
      assert Padded(digits / 10, 1) == Padded(digits / 10 / 10, 0) + [DigitChar(digits / 10 % 10)];
    }
  }

  // lt100: and the steps that lead down to it.
  method Below100(i: nat, buffer: array<char>, at: nat) returns (end: nat)
    requires i < 100 && at + 2 < buffer.Length
    modifies buffer
    ensures end == at + 2 && Wrote(buffer, at, Padded(i, 2))
  {
    PutTwoDigits(i, buffer, at);
    buffer[at + 2] := '\0';
    end := at + 2;
  }

  lemma TextJoins(buffer: array<char>, at: nat, first: string, second: string)
    requires at + |first| + |second| <= buffer.Length
    requires buffer[at..at + |first|] == first
    requires buffer[at + |first|..at + |first| + |second|] == second
    ensures buffer[at..at + |first + second|] == first + second
  {
    var middle, end := at + |first|, at + |first| + |second|;
    assert buffer[at..end] == buffer[at..middle] + buffer[middle..end];
  }

  method Below10000(i: nat, buffer: array<char>, at: nat) returns (end: nat)
    requires i < 10000 && at + 4 < buffer.Length
    modifies buffer
    ensures end == at + 4 && Wrote(buffer, at, Padded(i, 4))
  {
    hide Pow10, Padded;
    PowersOfTen();
    PaddedSplits(i, 2, 2);
    var digits := i / 100;
    PutTwoDigits(digits, buffer, at);
    end := Below100(i - digits * 100, buffer, at + 2);
    TextJoins(buffer, at, Padded(digits, 2), Padded(i - digits * 100, 2));
  }

  method Below1000000(i: nat, buffer: array<char>, at: nat) returns (end: nat)
    requires i < 1000000 && at + 6 < buffer.Length
    modifies buffer
    ensures end == at + 6 && Wrote(buffer, at, Padded(i, 6))
  {
    hide Pow10, Padded;
    PowersOfTen();
    PaddedSplits(i, 2, 4);
    var digits := i / 10000;
    PutTwoDigits(digits, buffer, at);
    end := Below10000(i - digits * 10000, buffer, at + 2);
    TextJoins(buffer, at, Padded(digits, 2), Padded(i - digits * 10000, 4));
  }

  method Below100000000(i: nat, buffer: array<char>, at: nat) returns (end: nat)
    requires i < 100000000 && at + 8 < buffer.Length
    modifies buffer
    ensures end == at + 8 && Wrote(buffer, at, Padded(i, 8))
  {
    hide Pow10, Padded;
    PowersOfTen();
    PaddedSplits(i, 2, 6);
    var digits := i / 1000000;
    PutTwoDigits(digits, buffer, at);
    end := Below1000000(i - digits * 1000000, buffer, at + 2);
    TextJoins(buffer, at, Padded(digits, 2), Padded(i - digits * 1000000, 6));
  }

  // The numbers of one or two digits, of three or four, of five or six, and of seven or eight.
  method UpTo100(i: nat, buffer: array<char>, at: nat) returns (end: nat)
    requires i < 100 && at + |Decimal(i)| < buffer.Length
    modifies buffer
    ensures end == at + |Decimal(i)| && Wrote(buffer, at, Decimal(i))
  {
    hide Pow10, Padded, Decimal;
    PowersOfTen();
    if i >= 10 {
      DecimalIsPadded(i, 1);
      end := Below100(i, buffer, at);
      return;
    }
    OneDigit(i);
    buffer[at] := DigitChar(i);
    buffer[at + 1] := '\0';
    end := at + 1;
  }

  lemma OneDigit(i: nat)
    requires i < 10
    ensures Decimal(i) == [DigitChar(i)]
  {
  }

  method UpTo10000(i: nat, buffer: array<char>, at: nat) returns (end: nat)
    requires 100 <= i < 10000 && at + |Decimal(i)| < buffer.Length
    modifies buffer
    ensures end == at + |Decimal(i)| && Wrote(buffer, at, Decimal(i))
  {
    hide Pow10, Padded, Decimal;
    PowersOfTen();
    if i >= 1000 {
      DecimalIsPadded(i, 3);
      end := Below10000(i, buffer, at);
      return;
    }
    FirstDigit(i, 2);
    var digits := i / 100;
    buffer[at] := DigitChar(digits);
    end := Below100(i - digits * 100, buffer, at + 1);
    TextJoins(buffer, at, [DigitChar(digits)], Padded(i - digits * 100, 2));
  }

  method UpTo1000000(i: nat, buffer: array<char>, at: nat) returns (end: nat)
    requires 10000 <= i < 1000000 && at + |Decimal(i)| < buffer.Length
    modifies buffer
    ensures end == at + |Decimal(i)| && Wrote(buffer, at, Decimal(i))
  {
    hide Pow10, Padded, Decimal;
    PowersOfTen();
    if i >= 100000 {
      DecimalIsPadded(i, 5);
      end := Below1000000(i, buffer, at);
      return;
    }
    FirstDigit(i, 4);
    var digits := i / 10000;
    buffer[at] := DigitChar(digits);
    end := Below10000(i - digits * 10000, buffer, at + 1);
    TextJoins(buffer, at, [DigitChar(digits)], Padded(i - digits * 10000, 4));
  }

  method UpTo100000000(i: nat, buffer: array<char>, at: nat) returns (end: nat)
    requires 1000000 <= i < 100000000 && at + |Decimal(i)| < buffer.Length
    modifies buffer
    ensures end == at + |Decimal(i)| && Wrote(buffer, at, Decimal(i))
  {
    hide Pow10, Padded, Decimal;
    PowersOfTen();
    if i >= 10000000 {
      DecimalIsPadded(i, 7);
      end := Below100000000(i, buffer, at);
      return;
    }
    FirstDigit(i, 6);
    var digits := i / 1000000;
    buffer[at] := DigitChar(digits);
    end := Below1000000(i - digits * 1000000, buffer, at + 1);
    TextJoins(buffer, at, [DigitChar(digits)], Padded(i - digits * 1000000, 6));
  }

  method FastUint32ToBuffer(i: nat, buffer: array<char>, at: nat) returns (end: nat)
    requires i < TWO_TO_THE_32 && at + |Decimal(i)| < buffer.Length
    modifies buffer
    ensures end == at + |Decimal(i)| && Wrote(buffer, at, Decimal(i))
  {
    hide Pow10, Padded, Decimal;
    if i < 100 {
      end := UpTo100(i, buffer, at);
    } else if i < 10000 {
      end := UpTo10000(i, buffer, at);
    } else if i < 1000000 {
      end := UpTo1000000(i, buffer, at);
    } else if i < 100000000 {
      end := UpTo100000000(i, buffer, at);
    } else {
      end := NineOrTenDigits(i, buffer, at);
    }
  }

  method NineOrTenDigits(i: nat, buffer: array<char>, at: nat) returns (end: nat)
    requires 100000000 <= i < TWO_TO_THE_32 && at + |Decimal(i)| < buffer.Length
    modifies buffer
    ensures end == at + |Decimal(i)| && Wrote(buffer, at, Decimal(i))
  {
    hide Pow10, Padded, Decimal;
    PowersOfTen();
    DecimalSplits(i, 8);
    var digits := i / 100000000;
    if i >= 1000000000 {
      DecimalIsPadded(digits, 1);
      PutTwoDigits(digits, buffer, at);
    } else {
      OneDigit(digits);
      buffer[at] := DigitChar(digits);
    }
    var next := if i >= 1000000000 then at + 2 else at + 1;
    end := Below100000000(i - digits * 100000000, buffer, next);
    TextJoins(buffer, at, Decimal(digits), Padded(i - digits * 100000000, 8));
  }

  // Conversion to an unsigned word.
  function ToWord(i: int, modulus: nat): nat
    requires modulus > 0
  {
    i % modulus
  }

  // The conversion of a signed number, and the negation there, are modulo the size of the word.
  lemma UnsignedNegation(i: int, m: nat)
    requires -i < m && i < m
    ensures if i < 0 then ToWord(0 - ToWord(i, m), m) == -i else ToWord(i, m) == i
  {
    if i < 0 {
      QuotientIs(i, m, -1, i + m);
      QuotientIs(-(i + m), m, -1, -i);
    } else {
      QuotientIs(i, m, 0, i);
    }
  }

  method FastInt32ToBuffer(i: int, buffer: array<char>, at: nat) returns (end: nat)
    requires -0x8000_0000 <= i < 0x8000_0000 && at + |SignedDecimal(i)| < buffer.Length
    modifies buffer
    ensures end == at + |SignedDecimal(i)| && Wrote(buffer, at, SignedDecimal(i))
  {
    hide Decimal, ToWord;
    UnsignedNegation(i, TWO_TO_THE_32);
    var u: int, start := ToWord(i, TWO_TO_THE_32), at;
    if i < 0 {
      buffer[start] := '-';
      start := start + 1;
      u := ToWord(0 - u, TWO_TO_THE_32);
    }
    end := FastUint32ToBuffer(u, buffer, start);
    if i < 0 {
      TextJoins(buffer, at, "-", Decimal(u));
    }
  }

  method FastUint64ToBuffer(i: nat, buffer: array<char>, at: nat) returns (end: nat)
    requires i < TWO_TO_THE_64 && at + |Decimal(i)| < buffer.Length
    modifies buffer
    ensures end == at + |Decimal(i)| && Wrote(buffer, at, Decimal(i))
  {
    hide Pow10, Padded, Decimal;
    PowersOfTen();
    var u32 := i % TWO_TO_THE_32;
    if u32 == i {
      end := FastUint32ToBuffer(u32, buffer, at);
      return;
    }
    var top := i / 1000000000;
    DecimalSplits(i, 9);
    SmallModulo(Low(i, 9), TWO_TO_THE_32);
    u32 := (i - top * 1000000000) % TWO_TO_THE_32;
    var next := TopDigits(top, buffer, at);
    end := NineDigits(u32, buffer, next);
    TextJoins(buffer, at, Decimal(top), Padded(u32, 9));
  }

  lemma SmallModulo(x: int, m: nat)
    ensures 0 <= x < m ==> x % m == x
  {
    if 0 <= x < m {
      QuotientIs(x, m, 0, x);
    }
  }

  // The one to eleven digits in front of the last nine.
  method TopDigits(top: nat, buffer: array<char>, at: nat) returns (end: nat)
    requires top < TWO_TO_THE_64 / 1000000000 + 1 && at + |Decimal(top)| < buffer.Length
    modifies buffer
    ensures end == at + |Decimal(top)| && end < buffer.Length && buffer[at..end] == Decimal(top)
    ensures forall j :: 0 <= j < buffer.Length && !(at <= j <= end) ==> buffer[j] == old(buffer[j])
  {
    hide Pow10, Padded, Decimal;
    PowersOfTen();
    var top32 := top % TWO_TO_THE_32;
    if top32 == top {
      end := FastUint32ToBuffer(top32, buffer, at);
    } else {
      DecimalSplits(top, 2);
      var top8to9 := top / 100;
      SmallModulo(top8to9, TWO_TO_THE_32);
      top8to9 := top8to9 % TWO_TO_THE_32;
      var mid2 := top - top8to9 * 100;
      end := FastUint32ToBuffer(top8to9, buffer, at);
      PutTwoDigits(mid2, buffer, end);
      TextJoins(buffer, at, Decimal(top8to9), Padded(mid2, 2));
      end := end + 2;
    }
  }

  method NineDigits(i: nat, buffer: array<char>, at: nat) returns (end: nat)
    requires i < 1000000000 && at + 9 < buffer.Length
    modifies buffer
    ensures end == at + 9 && Wrote(buffer, at, Padded(i, 9))
  {
    hide Pow10, Padded;
    PowersOfTen();
    var u32 := i;
    var digits := u32 / 10000000;
    PaddedSplits(u32, 2, 7);
    u32 := u32 - digits * 10000000;
    PutTwoDigits(digits, buffer, at);
    ghost var text := Padded(digits, 2);
    digits := u32 / 100000;
    PaddedSplits(u32, 2, 5);
    u32 := u32 - digits * 100000;
    PutTwoDigits(digits, buffer, at + 2);
    TextJoins(buffer, at, text, Padded(digits, 2));
    text := text + Padded(digits, 2);
    digits := u32 / 1000;
    PaddedSplits(u32, 2, 3);
    u32 := u32 - digits * 1000;
    PutTwoDigits(digits, buffer, at + 4);
    TextJoins(buffer, at, text, Padded(digits, 2));
    text := text + Padded(digits, 2);
    digits := u32 / 10;
    PaddedSplits(u32, 2, 1);
    u32 := u32 - digits * 10;
    PutTwoDigits(digits, buffer, at + 6);
    TextJoins(buffer, at, text, Padded(digits, 2));
    text := text + Padded(digits, 2);
    PaddedDigit(u32);
    buffer[at + 8] := DigitChar(u32);
    buffer[at + 9] := '\0';
    TextJoins(buffer, at, text, Padded(u32, 1));
    end := at + 9;
  }

  lemma PaddedDigit(i: nat)
    requires i < 10
    ensures Padded(i, 1) == [DigitChar(i)]
  {
    assert Padded(i, 1) == Padded(i / 10, 0) + [DigitChar(i % 10)];
  }

  method FastInt64ToBuffer(i: int, buffer: array<char>, at: nat) returns (end: nat)
    requires -0x8000_0000_0000_0000 <= i < 0x8000_0000_0000_0000 && at + |SignedDecimal(i)| < buffer.Length
    modifies buffer
    ensures end == at + |SignedDecimal(i)| && Wrote(buffer, at, SignedDecimal(i))
  {
    hide Decimal, ToWord;
    UnsignedNegation(i, TWO_TO_THE_64);
    var u: int, start := ToWord(i, TWO_TO_THE_64), at;
    if i < 0 {
      buffer[start] := '-';
      start := start + 1;
      u := ToWord(0 - u, TWO_TO_THE_64);
    }
    end := FastUint64ToBuffer(u, buffer, start);
    if i < 0 {
      TextJoins(buffer, at, "-", Decimal(u));
    }
  }

  // --- Parsing ---------------------------------------------------------------------------------------------

  // The range of an integer type.
  datatype IntType = IntType(min: int, max: int)

  const INT32 := IntType(-0x8000_0000, 0x7FFF_FFFF)
  const UINT32 := IntType(0, 0xFFFF_FFFF)
  const INT64 := IntType(-0x8000_0000_0000_0000, 0x7FFF_FFFF_FFFF_FFFF)
  const UINT64 := IntType(0, 0xFFFF_FFFF_FFFF_FFFF)

  // Two's complement and unsigned words of 32 and 64 bits.
  lemma IntTypeMeaning()
    ensures INT32 == IntType(0 - Pow2(31), Pow2(31) - 1) && UINT32 == IntType(0, Pow2(32) - 1)
    ensures INT64 == IntType(0 - Pow2(63), Pow2(63) - 1) && UINT64 == IntType(0, Pow2(64) - 1)
  {
    assert Pow2(4) == 0x10;
    hide Pow2;
    Pow2Square(4, 0x10);
    Pow2Square(8, 0x100);
    Pow2Square(16, 0x1_0000);
    Pow2Square(32, 0x1_0000_0000);
    Pow2Positive(32);
    Pow2Positive(64);
  }

  // Success, and the value stored.
  type Parsed = (bool, int)

  // What parsing digits is to do: take the longest prefix of digits; if its number is not in range, store the
  // end of the range and fail; otherwise store the number, and succeed if there was nothing else.
  function Saturated(text: string, base: nat, negative: bool, t: IntType): Parsed {
    var digits := Digits(text, base);
    var n := if negative then 0 - Number(digits, base) else Number(digits, base);
    if n > t.max then (false, t.max)
    else if n < t.min then (false, t.min)
    else (digits == text, n)
  }

  // The first n characters of the text are digits, and more of them only make the number larger.
  lemma {:induction false} NumberGrows(text: string, n: nat, base: nat)
    requires n <= |text| && base > 0
    ensures Number(text[..n], base) <= Number(text, base)
    decreases |text|
  {
    if n < |text| {
      var rest := text[..|text| - 1];
      NumberGrows(rest, n, base);
      assert rest[..n] == text[..n];
      TimesAtMost(1, base, Number(rest, base));
    } else {
      assert text[..n] == text;
    }
  }

  lemma {:induction false} DigitsAtLeast(text: string, n: nat, base: nat)
    requires n <= |text| && forall j :: 0 <= j < n ==> DigitOf(text[j]) < base
    ensures n <= |Digits(text, base)|
    decreases n
  {
    if n > 0 {
      DigitsAtLeast(text[1..], n - 1, base);
    }
  }

  // The state of the loop after n digits: those are a prefix of the digits, and nothing was out of range.
  ghost predicate SoFar(text: string, n: nat, base: nat, value: nat) {
    n <= |Digits(text, base)| && Number(text[..n], base) == value
  }

  lemma ReadOne(text: string, n: nat, base: nat, value: nat)
    requires SoFar(text, n, base, value) && n < |text| && base > 0
    ensures var digit := DigitOf(text[n]);
            if digit >= base then Digits(text, base) == text[..n]
            else SoFar(text, n + 1, base, value * base + digit) &&
                 value * base + digit <= Number(Digits(text, base), base)
  {
    var digits := Digits(text, base);
    assert digits[..n] == text[..n];
    assert n < |digits| ==> text[n] == digits[n];
    if DigitOf(text[n]) < base {
      forall j | 0 <= j < n + 1
        ensures DigitOf(text[j]) < base
      {
        assert j < n ==> text[j] == digits[j];
      }
      DigitsAtLeast(text, n + 1, base);
      assert text[..n + 1][..n] == text[..n];
      assert digits[..n + 1] == text[..n + 1];
      NumberGrows(digits, n + 1, base);
    }
  }

  lemma ReadAll(text: string, base: nat, value: nat)
    requires SoFar(text, |text|, base, value)
    ensures Digits(text, base) == text && Number(text, base) == value
  {
    assert text[..|text|] == text;
  }

  // value > bound / base stops before value * base, and then value > bound - digit before adding the digit.
  lemma GuardMeaning(value: nat, base: nat, digit: nat, bound: nat)
    requires base > 0 && digit < base
    ensures value > bound / base || value * base + digit > bound <==> value * base + digit > bound
    ensures value <= bound / base ==> value * base <= bound
  {
    if value > bound / base {
      NextMultiple(bound / base, value, base);
    } else {
      TimesAtMost(value, bound / base, base);
    }
  }

  method SafeParsePositiveInt(text: string, base: nat, t: IntType) returns (ok: bool, value: int)
    requires 2 <= base <= 36 && t.min <= 0 && base <= t.max
    ensures (ok, value) == Saturated(text, base, false, t)
  {
    hide Digits, Number;
    value := 0;
    var vmaxOverBase := t.max / base;
    var start := 0;
    NothingRead(text, base);
    while start < |text|
      invariant 0 <= start <= |text| && 0 <= value <= t.max && SoFar(text, start, base, value)
    {
      var digit := DigitOf(text[start]);
      ReadOne(text, start, base, value);
      if digit >= base {
        return false, value;
      }
      GuardMeaning(value, base, digit, t.max);
      if value > vmaxOverBase {
        return false, t.max;
      }
      value := value * base;
      if value > t.max - digit {
        return false, t.max;
      }
      value := value + digit;
      start := start + 1;
    }
    ReadAll(text, base, value);
    ok := true;
  }

  lemma NothingRead(text: string, base: nat)
    ensures SoFar(text, 0, base, 0)
  {
  }

  // Division and remainder that truncate toward zero.
  function Quotient(x: int, y: nat): int
    requires y > 0
  {
    if x < 0 then -(-x / y) else x / y
  }

  function Remainder(x: int, y: nat): int
    requires y > 0
  {
    x - Quotient(x, y) * y
  }

  method SafeParseNegativeInt(text: string, base: nat, t: IntType) returns (ok: bool, value: int)
    requires 2 <= base <= 36 && t.min + base <= 0 && 0 <= t.max
    ensures (ok, value) == Saturated(text, base, true, t)
  {
    hide Digits, Number;
    value := 0;
    var vminOverBase := Quotient(t.min, base);
    TruncatesTowardZero(t.min, base);
    if Remainder(t.min, base) > 0 {
      vminOverBase := vminOverBase + 1;
    }
    var start := 0;
    NothingRead(text, base);
    while start < |text|
      invariant 0 <= start <= |text| && t.min <= value <= 0 && SoFar(text, start, base, -value)
    {
      var digit := DigitOf(text[start]);
      ReadOne(text, start, base, -value);
      if digit >= base {
        return false, value;
      }
      GuardMeaning(-value, base, digit, -t.min);
      if value < vminOverBase {
        return false, t.min;
      }
      Negation(value, base);
      value := value * base;
      if value < t.min + digit {
        return false, t.min;
      }
      value := value - digit;
      start := start + 1;
    }
    ReadAll(text, base, -value);
    ok := true;
  }

  lemma TruncatesTowardZero(x: int, y: int)
    requires x < 0 && y > 0
    ensures Quotient(x, y) == 0 - (0 - x) / y && Remainder(x, y) <= 0
  {
  }

  lemma Negation(x: int, y: int)
    ensures -x * y == -(x * y)
  {
  }

  // A text of digits only is parsed exactly when its number is in range, and saturates otherwise.
  lemma DigitsParseExactly(text: string, base: nat, negative: bool, t: IntType)
    requires (forall j :: 0 <= j < |text| ==> DigitOf(text[j]) < base) && t.min <= 0 <= t.max
    ensures var n := if negative then 0 - Number(text, base) else Number(text, base);
            && (t.min <= n <= t.max ==> Saturated(text, base, negative, t) == (true, n))
            && (n < t.min ==> Saturated(text, base, negative, t) == (false, t.min))
            && (n > t.max ==> Saturated(text, base, negative, t) == (false, t.max))
  {
    DigitsAtLeast(text, |text|, base);
    assert Digits(text, base) == text;
  }

  // --- Sign, base and spaces -------------------------------------------------------------------------------

  datatype Numeral = Malformed | Numeral(digits: string, base: nat, negative: bool)

  predicate AllSpaces(text: string) {
    forall j :: 0 <= j < |text| ==> IsSpace(text[j])
  }

  function TrimFront(text: string): string {
    if text != [] && IsSpace(text[0]) then TrimFront(text[1..]) else text
  }

  function TrimBack(text: string): string {
    if text != [] && IsSpace(text[|text| - 1]) then TrimBack(text[..|text| - 1]) else text
  }

  predicate HasHexPrefix(text: string) {
    |text| >= 2 && text[0] == '0' && (text[1] == 'x' || text[1] == 'X')
  }

  // An optional sign, then an optional prefix for the base.
  function Signed(text: string, base: int): Numeral {
    if text == [] then Malformed
    else if text[0] == '-' then Unsigned(text[1..], base, true)
    else if text[0] == '+' then Unsigned(text[1..], base, false)
    else Unsigned(text, base, false)
  }

  function Unsigned(text: string, base: int, negative: bool): Numeral {
    if text == [] || !(base == 0 || 2 <= base <= 36) then Malformed
    else if base in {0, 16} && HasHexPrefix(text) then
      if |text| == 2 then Malformed else Numeral(text[2..], 16, negative)
    else if base == 0 then
      if text[0] == '0' then Numeral(text[1..], 8, negative) else Numeral(text, 10, negative)
    else Numeral(text, base, negative)
  }

  // Consumes the spaces at both ends.
  method TrimSpaces(text: string) returns (start: nat, end: nat)
    ensures start <= end <= |text| && text[start..end] == TrimBack(TrimFront(text))
  {
    hide TrimFront, TrimBack, AllSpaces;
    start, end := 0, |text|;
    assert text[0..] == text;
    while start < end && IsSpace(text[start])
      invariant 0 <= start <= end == |text| && TrimFront(text) == TrimFront(text[start..])
    {
      TrimFrontAt(text, start);
      start := start + 1;
    }
    TrimFrontAt(text, start);
    ghost var front := text[start..end];
    assert front == text[start..] == TrimFront(text);
    while start < end && IsSpace(text[end - 1])
      invariant start <= end <= |text| && TrimBack(front) == TrimBack(text[start..end])
    {
      TrimBackAt(text, start, end);
      end := end - 1;
    }
    TrimBackAt(text, start, end);
  }

  lemma TrimFrontAt(text: string, start: nat)
    requires start <= |text|
    ensures TrimFront(text[start..]) == if start < |text| && IsSpace(text[start]) then TrimFront(text[start + 1..])
                                        else text[start..]
  {
    if start < |text| {
      assert text[start..][1..] == text[start + 1..];
    }
  }

  lemma TrimBackAt(text: string, start: nat, end: nat)
    requires start <= end <= |text|
    ensures TrimBack(text[start..end]) == if start < end && IsSpace(text[end - 1]) then TrimBack(text[start..end - 1])
                                          else text[start..end]
  {
    if start < end {
      assert text[start..end][..end - start - 1] == text[start..end - 1];
    }
  }

  method SafeParseSignAndBase(text: string, base: int) returns (numeral: Numeral)
    ensures numeral == Signed(TrimBack(TrimFront(text)), base)
  {
    hide TrimFront, TrimBack, Unsigned;
    var start, end := TrimSpaces(text);
    ghost var trimmed := text[start..end];
    if start >= end {
      return Malformed;
    }
    var negative := text[start] == '-';
    if negative || text[start] == '+' {
      start := start + 1;
      if start >= end {
        assert trimmed[1..] == [];
        NothingLeft(base, negative);
        return Malformed;
      }
      assert text[start..end] == trimmed[1..];
    }
    numeral := ConsumeBase(text, start, end, base, negative);
  }

  lemma NothingLeft(base: int, negative: bool)
    ensures Unsigned([], base, negative) == Malformed
  {
  }

  // The end of the same function: the prefix that depends on the base.
  method ConsumeBase(text: string, first: nat, end: nat, b: int, negative: bool) returns (numeral: Numeral)
    requires first < end <= |text|
    ensures numeral == Unsigned(text[first..end], b, negative)
  {
    var start, base := first, b;
    ghost var unsigned := text[start..end];
    assert end - start >= 2 ==> unsigned[2..] == text[start + 2..end];
    if base == 0 {
      if end - start >= 2 && text[start] == '0' && (text[start + 1] == 'x' || text[start + 1] == 'X') {
        base := 16;
        start := start + 2;
        if start >= end {
          return Malformed;
        }
      } else if end - start >= 1 && text[start] == '0' {
        base := 8;
        start := start + 1;
      } else {
        base := 10;
      }
    } else if base == 16 {
      if end - start >= 2 && text[start] == '0' && (text[start + 1] == 'x' || text[start + 1] == 'X') {
        start := start + 2;
        if start >= end {
          return Malformed;
        }
      }
    } else if 2 <= base <= 36 {
    } else {
      return Malformed;
    }
    numeral := Numeral(text[start..end], base, negative);
  }

  // What the conversions return.
  function Converted(text: string, base: int, t: IntType): Parsed {
    match Signed(TrimBack(TrimFront(text)), base)
    case Malformed => (false, 0)
    case Numeral(digits, b, negative) =>
      if negative && t.min == 0 then (false, 0) else Saturated(digits, b, negative, t)
  }

  method SafeIntInternal(text: string, base: int, t: IntType) returns (ok: bool, value: int)
    requires t.min <= -36 && 36 <= t.max
    ensures (ok, value) == Converted(text, base, t)
  {
    hide Saturated, TrimFront, TrimBack;
    var numeral := SafeParseSignAndBase(text, base);
    match numeral {
      case Malformed => return false, 0;
      case Numeral(digits, b, negative) =>
        if !negative {
          ok, value := SafeParsePositiveInt(digits, b, t);
        } else {
          ok, value := SafeParseNegativeInt(digits, b, t);
        }
    }
  }

  method SafeUintInternal(text: string, base: int, t: IntType) returns (ok: bool, value: int)
    requires t.min == 0 && 36 <= t.max
    ensures (ok, value) == Converted(text, base, t)
  {
    hide Saturated, TrimFront, TrimBack;
    var numeral := SafeParseSignAndBase(text, base);
    if numeral.Malformed? || numeral.negative {
      return false, 0;
    }
    ok, value := SafeParsePositiveInt(numeral.digits, numeral.base, t);
  }

  // --- Round trip ------------------------------------------------------------------------------------------

  lemma {:induction false} DecimalIsNumber(n: nat)
    ensures Number(Decimal(n), 10) == n
    ensures forall j :: 0 <= j < |Decimal(n)| ==> '0' <= Decimal(n)[j] <= '9'
    decreases n
  {
    if n < 10 {
      assert Number(Decimal(n), 10) == Number([], 10) * 10 + DigitOf(DigitChar(n));
    } else {
      DecimalIsNumber(n / 10);
      assert Decimal(n)[..|Decimal(n)| - 1] == Decimal(n / 10);
    }
  }

  // No number but zero begins with a zero.
  lemma {:induction false} DecimalIsCanonical(n: nat)
    ensures |Decimal(n)| > 1 ==> Decimal(n)[0] != '0'
    ensures n > 0 ==> Decimal(n)[0] != '0'
    decreases n
  {
    if n >= 10 {
      DecimalIsCanonical(n / 10);
      assert Decimal(n)[0] == Decimal(n / 10)[0];
    }
  }

  lemma {:induction false} SpacesTrimmed(before: string, text: string, after: string)
    requires AllSpaces(before) && AllSpaces(after)
    requires text != [] && !IsSpace(text[0]) && !IsSpace(text[|text| - 1])
    ensures TrimBack(TrimFront(before + text + after)) == text
    decreases |before| + |after|
  {
    var all := before + text + after;
    if before != [] {
      assert all[1..] == before[1..] + text + after;
      SpacesTrimmed(before[1..], text, after);
    } else {
      assert TrimFront(all) == all == text + after;
      BackTrimmed(text, after);
    }
  }

  lemma {:induction false} BackTrimmed(text: string, after: string)
    requires AllSpaces(after) && text != [] && !IsSpace(text[|text| - 1])
    ensures TrimBack(text + after) == text
    decreases |after|
  {
    if after == [] {
      assert text + after == text;
    } else {
      assert (text + after)[..|text + after| - 1] == text + after[..|after| - 1];
      BackTrimmed(text, after[..|after| - 1]);
    }
  }

  // Every number of every type, printed and parsed in base ten, comes back, spaces around it or not.
  lemma PrintedIsParsed(i: int, t: IntType, before: string, after: string)
    requires t.min <= i <= t.max && t.min <= 0 <= t.max && AllSpaces(before) && AllSpaces(after)
    ensures Converted(before + SignedDecimal(i) + after, 10, t) == (true, i)
  {
    hide Decimal, TrimFront, TrimBack, Number;
    var n := if i < 0 then -i else i;
    DecimalIsNumber(n);
    SpacesTrimmed(before, SignedDecimal(i), after);
    DigitsParseExactly(Decimal(n), 10, i < 0, t);
  }

  // --- Signs and prefixes ------------------------------------------------------------------------------------

  // Spaces, an optional sign, an optional prefix and digits: 0x is for base 16, asked for or found in base 0, a lone
  // 0 is for base 8 in base 0, and without a prefix base 0 is base 10. The number is stored if it is in range, and
  // the end of the range otherwise; an unsigned type refuses a minus sign.
  lemma ConvertedMeaning(before: string, sign: string, prefix: string, digits: string, after: string, base: int, b: nat,
                         t: IntType)
    requires AllSpaces(before) && AllSpaces(after) && sign in {"", "+", "-"} && t.min <= 0 <= t.max
    requires forall j :: 0 <= j < |digits| ==> DigitOf(digits[j]) < b
    requires || (prefix == "" && 2 <= base <= 36 && b == base && digits != "")
             || (prefix == "" && base == 0 && b == 10 && digits != "" && digits[0] != '0')
             || (prefix == "0" && base == 0 && b == 8)
             || (prefix in {"0x", "0X"} && base in {0, 16} && b == 16 && digits != "")
    ensures var n := if sign == "-" then 0 - Number(digits, b) else Number(digits, b);
            Converted(before + sign + prefix + digits + after, base, t) ==
            if sign == "-" && t.min == 0 then (false, 0)
            else if n > t.max then (false, t.max) else if n < t.min then (false, t.min) else (true, n)
  {
    hide TrimFront, TrimBack, Number, Digits, Saturated;
    var text := sign + prefix + digits;
    assert before + sign + prefix + digits + after == before + text + after;
    DigitIsNoSpace(text, prefix, digits, b);
    SpacesTrimmed(before, text, after);
    SignedText(sign, prefix, digits, base, b);
    DigitsParseExactly(digits, b, sign == "-", t);
  }

  lemma DigitIsNoSpace(text: string, prefix: string, digits: string, b: nat)
    requires text == prefix + digits || text == "+" + prefix + digits || text == "-" + prefix + digits
    requires prefix in {"", "0", "0x", "0X"} && prefix + digits != "" && b <= 36
    requires forall j :: 0 <= j < |digits| ==> DigitOf(digits[j]) < b
    ensures text != "" && !IsSpace(text[0]) && !IsSpace(text[|text| - 1])
  {
    if digits != "" {
      assert text[|text| - 1] == digits[|digits| - 1];
    } else {
      assert text[|text| - 1] == prefix[|prefix| - 1];
    }
    if text == prefix + digits && prefix == "" {
      assert text[0] == digits[0];
    }
  }

  lemma SignedText(sign: string, prefix: string, digits: string, base: int, b: nat)
    requires sign in {"", "+", "-"} && forall j :: 0 <= j < |digits| ==> DigitOf(digits[j]) < b
    requires || (prefix == "" && 2 <= base <= 36 && b == base && digits != "")
             || (prefix == "" && base == 0 && b == 10 && digits != "" && digits[0] != '0')
             || (prefix == "0" && base == 0 && b == 8)
             || (prefix in {"0x", "0X"} && base in {0, 16} && b == 16 && digits != "")
    ensures Signed(sign + prefix + digits, base) == Numeral(digits, b, sign == "-")
  {
    hide Unsigned;
    UnsignedText(prefix, digits, base, b, sign == "-");
    var text := sign + prefix + digits;
    if sign == "" {
      assert text == prefix + digits;
      assert text[0] != '-' && text[0] != '+';
    } else {
      assert text[1..] == prefix + digits;
    }
  }

  lemma UnsignedText(prefix: string, digits: string, base: int, b: nat, negative: bool)
    requires forall j :: 0 <= j < |digits| ==> DigitOf(digits[j]) < b
    requires || (prefix == "" && 2 <= base <= 36 && b == base && digits != "")
             || (prefix == "" && base == 0 && b == 10 && digits != "" && digits[0] != '0')
             || (prefix == "0" && base == 0 && b == 8)
             || (prefix in {"0x", "0X"} && base in {0, 16} && b == 16 && digits != "")
    ensures Unsigned(prefix + digits, base, negative) == Numeral(digits, b, negative)
  {
    var text := prefix + digits;
    if prefix == "" {
      assert text == digits;
    } else {
      assert text[|prefix|..] == digits;
      assert |prefix| == 1 && digits != "" ==> text[1] == digits[0];
    }
  }

  // Nothing but spaces, a sign or a prefix is no number, and no other base is one.
  lemma RefusalMeaning(before: string, sign: string, after: string, text: string, base: int, t: IntType)
    requires AllSpaces(before) && AllSpaces(after) && sign in {"+", "-"}
    ensures Converted(before, base, t) == (false, 0)
    ensures Converted(before + sign + after, base, t) == (false, 0)
    ensures base in {0, 16} ==> Converted(before + "0x" + after, base, t) == (false, 0)
    ensures base < 0 || base == 1 || base > 36 ==> Converted(text, base, t) == (false, 0)
  {
    hide TrimFront, TrimBack, Saturated;
    OnlySpaces(before);
    SpacesTrimmed(before, sign, after);
    assert sign[1..] == "";
    SpacesTrimmed(before, "0x", after);
  }

  lemma {:induction false} OnlySpaces(text: string)
    requires AllSpaces(text)
    ensures TrimBack(TrimFront(text)) == ""
  {
    if text != "" {
      OnlySpaces(text[1..]);
    }
  }
}
