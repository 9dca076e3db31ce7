/** Base64 (lib/abseil-cpp-master/absl/strings/escaping.cc). */
module Base64 {
  import opened Ascii
  import opened Powers
  import opened Wrappers

  type Byte = x: int | 0 <= x < 256
  type Sextet = x: int | 0 <= x < 64

  datatype Alphabet = Standard | WebSafe

  // kBase64Chars and kWebSafeBase64Chars.
  function Base64Char(a: Alphabet, v: Sextet): char {
    if v < 26 then ('A' as int + v) as char
    else if v < 52 then ('a' as int + v - 26) as char
    else if v < 62 then ('0' as int + v - 52) as char
    else if v == 62 then (if a == Standard then '+' else '-')
    else if a == Standard then '/' else '_'
  }

  // kUnBase64 and kUnWebSafeBase64.
  function UnBase64(a: Alphabet, c: char): (v: int)
    ensures -1 <= v < 64
  {
    if 'A' <= c <= 'Z' then c as int - 'A' as int
    else if 'a' <= c <= 'z' then c as int - 'a' as int + 26
    else if '0' <= c <= '9' then c as int - '0' as int + 52
    else if c == (if a == Standard then '+' else '-') then 62
    else if c == (if a == Standard then '/' else '_') then 63
    else -1
  }

  // Tables 1 and 2 of RFC 4648, character by character.
  lemma AlphabetIsTable(a: Alphabet, v: Sextet)
    ensures var table := "ABCDEFGHIJKLMNOPQRSTUVWXYZ" + "abcdefghijklmnopqrstuvwxyz" + "0123456789" +
                         (if a == Standard then "+/" else "-_");
            |table| == 64 && Base64Char(a, v) == table[v]
  {
    LettersOfTable(a, v);
    hide Base64Char;
  }

  lemma LettersOfTable(a: Alphabet, v: Sextet)
    ensures v < 26 ==> Base64Char(a, v) == "ABCDEFGHIJKLMNOPQRSTUVWXYZ"[v]
    ensures 26 <= v < 52 ==> Base64Char(a, v) == "abcdefghijklmnopqrstuvwxyz"[v - 26]
    ensures 52 <= v < 62 ==> Base64Char(a, v) == "0123456789"[v - 52]
    ensures 62 <= v ==> Base64Char(a, v) == (if a == Standard then "+/" else "-_")[v - 62]
  {
  }

  // The decoding table gives each character of the alphabet its place there, and no other character one.
  lemma DecoderIsTable(a: Alphabet, c: char)
    ensures var table := "ABCDEFGHIJKLMNOPQRSTUVWXYZ" + "abcdefghijklmnopqrstuvwxyz" + "0123456789" +
                         (if a == Standard then "+/" else "-_");
            && |table| == 64
            && (forall v :: 0 <= v < 64 ==> (UnBase64(a, c) == v <==> c == table[v]))
            && (UnBase64(a, c) == -1 <==> c !in table)
  {
    hide Base64Char, UnBase64;
    var table := "ABCDEFGHIJKLMNOPQRSTUVWXYZ" + "abcdefghijklmnopqrstuvwxyz" + "0123456789" +
                 (if a == Standard then "+/" else "-_");
    forall v | 0 <= v < 64
      ensures |table| == 64 && (UnBase64(a, c) == v <==> c == table[v])
    {
      TablesInvert(a, c, v);
      AlphabetIsTable(a, v);
    }
    InTable(table, UnBase64(a, c), c);
  }

  lemma InTable(table: string, v: int, c: char)
    requires |table| == 64 && -1 <= v < 64 && forall i :: 0 <= i < 64 ==> (v == i <==> c == table[i])
    ensures v == -1 <==> c !in table
  {
    if v >= 0 {
      assert c == table[v];
    }
  }

  lemma TablesInvert(a: Alphabet, c: char, v: Sextet)
    ensures UnBase64(a, c) == v <==> c == Base64Char(a, v)
  {
  }

  predicate IsPad(c: char) {
    c == '=' || c == '.'
  }

  // --- Sections 4 and 5 of RFC 4648 ------------------------------------------------------------------------

  // Three bytes make four sextets; one or two bytes at the end are filled up with zero bits.
  function Sextets(data: seq<Byte>): seq<Sextet> {
    if data == [] then []
    else if |data| == 1 then [data[0] / 4, data[0] % 4 * 16]
    else if |data| == 2 then Pair(data[0], data[1])
    else Triple(data[0], data[1], data[2]) + Sextets(data[3..])
  }

  function Pair(b0: Byte, b1: Byte): seq<Sextet> {
    [b0 / 4, b0 % 4 * 16 + b1 / 16, b1 % 16 * 4]
  }

  function Triple(b0: Byte, b1: Byte, b2: Byte): (s: seq<Sextet>)
    ensures |s| == 4
  {
    [b0 / 4, b0 % 4 * 16 + b1 / 16, b1 % 16 * 4 + b2 / 64, b2 % 64]
  }

  function Text(s: seq<Sextet>, a: Alphabet): (text: string)
    ensures |text| == |s|
  {
    seq(|s|, i requires 0 <= i < |s| => Base64Char(a, s[i]))
  }

  function Padding(n: nat): string {
    if n % 3 == 1 then "==" else if n % 3 == 2 then "=" else ""
  }

  function Escaped(data: seq<Byte>, a: Alphabet, doPadding: bool): string {
    Text(Sextets(data), a) + if doPadding then Padding(|data|) else ""
  }

  // Four sextets make three bytes; two or three sextets at the end make one or two.
  function Octets(s: seq<Sextet>): (data: seq<Byte>)
    ensures |data| == |s| / 4 * 3 + (if |s| % 4 == 0 then 0 else |s| % 4 - 1)
  {
    if |s| < 2 then []
    else if |s| == 2 then [First(s[0], s[1])]
    else if |s| == 3 then [First(s[0], s[1]), Second(s[1], s[2])]
    else [First(s[0], s[1]), Second(s[1], s[2]), Third(s[2], s[3])] + Octets(s[4..])
  }

  function First(x: Sextet, y: Sextet): Byte {
    (x as int) * 4 + y / 16
  }

  function Second(x: Sextet, y: Sextet): Byte {
    (x % 16 as int) * 16 + y / 4
  }

  function Third(x: Sextet, y: Sextet): Byte {
    (x % 4 as int) * 64 + y
  }

  lemma {:induction false} OctetsOfSextets(data: seq<Byte>)
    ensures Octets(Sextets(data)) == data && |Sextets(data)| % 4 != 1
    ensures |Sextets(data)| == |data| / 3 * 4 + (if |data| % 3 == 0 then 0 else |data| % 3 + 1)
  {
    if |data| < 3 {
      FewBytes(data);
    } else {
      OctetsOfSextets(data[3..]);
      FrontGroup(data, Sextets(data[3..]));
    }
  }

  lemma FrontGroup(data: seq<Byte>, rest: seq<Sextet>)
    requires |data| >= 3
    ensures Octets(Triple(data[0], data[1], data[2]) + rest) == data[..3] + Octets(rest)
  {
    hide First, Second, Third, Triple;
    TripleBack(data[0], data[1], data[2]);
    var s := Triple(data[0], data[1], data[2]) + rest;
    assert s[4..] == rest;
    assert data[..3] == [data[0], data[1], data[2]];
  }

  lemma FewBytes(data: seq<Byte>)
    requires |data| < 3
    ensures Octets(Sextets(data)) == data && |Sextets(data)| == if data == [] then 0 else |data| + 1
  {
    if |data| == 1 {
      TripleBack(data[0], 0, 0);
    } else if |data| == 2 {
      TripleBack(data[0], data[1], 0);
    }
  }

  lemma TripleBack(b0: Byte, b1: Byte, b2: Byte)
    ensures var s := Triple(b0, b1, b2);
            |s| == 4 && [First(s[0], s[1]), Second(s[1], s[2]), Third(s[2], s[3])] == [b0, b1, b2]
  {
  }

  // --- Groups of 24 bits -------------------------------------------------------------------------------------

  // Each three bytes and the four sextets for them are the same 24 bits, read as one number from the most
  // significant byte or sextet on; where the data ends, zero bits follow.
  lemma {:induction false} GroupIsWord(data: seq<Byte>, g: nat)
    requires 3 * g < |data|
    ensures var s := Sextets(data);
            var b1 := if 3 * g + 1 < |data| then data[3 * g + 1] else 0;
            var b2 := if 3 * g + 2 < |data| then data[3 * g + 2] else 0;
            var s2 := if 4 * g + 2 < |s| then s[4 * g + 2] else 0;
            var s3 := if 4 * g + 3 < |s| then s[4 * g + 3] else 0;
            && 4 * g + 1 < |s|
            && (data[3 * g] as int) * 0x1_0000 + (b1 as int) * 0x100 + b2
               == (s[4 * g] as int) * 0x4_0000 + (s[4 * g + 1] as int) * 0x1000 + (s2 as int) * 0x40 + s3
    decreases g
  {
    hide Pair, Triple;
    if |data| >= 3 {
      TripleIsWord(data[0], data[1], data[2]);
      if g > 0 {
        GroupIsWord(data[3..], g - 1);
        assert forall i :: 4 <= i < |Sextets(data)| ==> Sextets(data)[i] == Sextets(data[3..])[i - 4];
      }
    } else if |data| == 2 {
      PairIsWord(data[0], data[1]);
    }
  }

  // The other way about, for any sextets: four of them are the bits of three bytes, and the first bits of two or
  // three left over are the bits of one or two bytes, whatever the bits behind them.
  lemma WordIsGroup(s: seq<Sextet>, g: nat)
    requires 4 * g + 1 < |s|
    ensures var data := Octets(s);
            && 3 * g < |data|
            && (|s| == 4 * g + 2 ==>
                  |data| == 3 * g + 1 && data[3 * g] == ((s[4 * g] as int) * 0x40 + s[4 * g + 1]) / 0x10)
            && (|s| == 4 * g + 3 ==>
                  && |data| == 3 * g + 2
                  && (data[3 * g] as int) * 0x100 + data[3 * g + 1]
                     == ((s[4 * g] as int) * 0x1000 + (s[4 * g + 1] as int) * 0x40 + s[4 * g + 2]) / 4)
            && (|s| > 4 * g + 3 ==>
                  && |data| >= 3 * g + 3
                  && (data[3 * g] as int) * 0x1_0000 + (data[3 * g + 1] as int) * 0x100 + data[3 * g + 2]
                     == (s[4 * g] as int) * 0x4_0000 + (s[4 * g + 1] as int) * 0x1000 + (s[4 * g + 2] as int) * 0x40
                        + s[4 * g + 3])
  {
    OctetsAt(s, g);
    OctetsCount(s, g);
    hide First, Second, Third, Octets;
    if |s| == 4 * g + 2 {
      OneByteIsWord(s[4 * g], s[4 * g + 1]);
    } else if |s| == 4 * g + 3 {
      TwoBytesAreWord(s[4 * g], s[4 * g + 1], s[4 * g + 2]);
    } else {
      ThreeBytesAreWord(s[4 * g], s[4 * g + 1], s[4 * g + 2], s[4 * g + 3]);
    }
  }

  lemma OctetsCount(s: seq<Sextet>, g: nat)
    requires 4 * g + 1 < |s|
    ensures |s| == 4 * g + 2 ==> |Octets(s)| == 3 * g + 1
    ensures |s| == 4 * g + 3 ==> |Octets(s)| == 3 * g + 2
    ensures |s| > 4 * g + 3 ==> |Octets(s)| >= 3 * g + 3
  {
    hide Octets;
  }

  lemma OctetsAt(s: seq<Sextet>, g: nat)
    requires 4 * g + 1 < |s|
    ensures var data := Octets(s);
            && 3 * g < |data| && data[3 * g] == First(s[4 * g], s[4 * g + 1])
            && (4 * g + 2 < |s| ==> 3 * g + 1 < |data| && data[3 * g + 1] == Second(s[4 * g + 1], s[4 * g + 2]))
            && (4 * g + 3 < |s| ==> 3 * g + 2 < |data| && data[3 * g + 2] == Third(s[4 * g + 2], s[4 * g + 3]))
  {
    hide First, Second, Third, Octets;
    var front, tail := s[..4 * g], s[4 * g..];
    assert s == front + tail;
    OctetsJoin(front, tail);
    FirstOctets(tail);
    assert |Octets(front)| == 3 * g;
  }

  lemma FirstOctets(s: seq<Sextet>)
    requires |s| > 1
    ensures var data := Octets(s);
            && 0 < |data| && data[0] == First(s[0], s[1])
            && (2 < |s| ==> 1 < |data| && data[1] == Second(s[1], s[2]))
            && (3 < |s| ==> 2 < |data| && data[2] == Third(s[2], s[3]))
  {
    hide First, Second, Third;
  }

  lemma OneByteIsWord(s0: Sextet, s1: Sextet)
    ensures First(s0, s1) == ((s0 as int) * 0x40 + s1) / 0x10
  {
  }

  lemma TwoBytesAreWord(s0: Sextet, s1: Sextet, s2: Sextet)
    ensures (First(s0, s1) as int) * 0x100 + Second(s1, s2)
            == ((s0 as int) * 0x1000 + (s1 as int) * 0x40 + s2) / 4
  {
  }

  lemma ThreeBytesAreWord(s0: Sextet, s1: Sextet, s2: Sextet, s3: Sextet)
    ensures (First(s0, s1) as int) * 0x1_0000 + (Second(s1, s2) as int) * 0x100 + Third(s2, s3)
            == (s0 as int) * 0x4_0000 + (s1 as int) * 0x1000 + (s2 as int) * 0x40 + s3
  {
  }

  lemma TripleIsWord(b0: Byte, b1: Byte, b2: Byte)
    ensures var s := Triple(b0, b1, b2);
            (s[0] as int) * 0x4_0000 + (s[1] as int) * 0x1000 + (s[2] as int) * 0x40 + s[3]
            == (b0 as int) * 0x1_0000 + (b1 as int) * 0x100 + b2
  {
  }

  lemma PairIsWord(b0: Byte, b1: Byte)
    ensures var s := Pair(b0, b1);
            && |s| == 3
            && (s[0] as int) * 0x4_0000 + (s[1] as int) * 0x1000 + (s[2] as int) * 0x40
               == (b0 as int) * 0x1_0000 + (b1 as int) * 0x100
  {
  }

  // With padding, the text is filled up with equals signs to whole groups of four characters.
  lemma PaddingFills(data: seq<Byte>, a: Alphabet)
    ensures var text, bare := Escaped(data, a, true), Escaped(data, a, false);
            && bare == Text(Sextets(data), a) && bare <= text && |text| % 4 == 0 && |text| < |bare| + 4
            && forall i :: |bare| <= i < |text| ==> text[i] == '='
  {
    OctetsOfSextets(data);
    hide Text, Sextets;
    assert Text(Sextets(data), a) + "" == Text(Sextets(data), a);
  }

  // --- Decoding, the text read from the left ---------------------------------------------------------------

  // The data in front of the first character that is neither data nor a space, and what starts there.
  function DataOf(text: string, a: Alphabet): seq<Sextet> {
    if text == [] then []
    else if UnBase64(a, text[0]) >= 0 then [UnBase64(a, text[0])] + DataOf(text[1..], a)
    else if IsSpace(text[0]) then DataOf(text[1..], a)
    else []
  }

  function RestOf(text: string, a: Alphabet): string {
    if text == [] then []
    else if UnBase64(a, text[0]) >= 0 || IsSpace(text[0]) then RestOf(text[1..], a)
    else text
  }

  predicate OnlyPads(text: string) {
    forall i :: 0 <= i < |text| ==> IsPad(text[i]) || IsSpace(text[i])
  }

  function Pads(text: string): nat {
    if text == [] then 0 else (if IsPad(text[0]) then 1 else 0) + Pads(text[1..])
  }

  function ExpectedPads(n: nat): nat {
    if n % 4 == 2 then 2 else if n % 4 == 3 then 1 else 0
  }

  function Unescaped(text: string, a: Alphabet): Option<seq<Byte>> {
    var s, rest := DataOf(text, a), RestOf(text, a);
    if |s| % 4 == 1 || !OnlyPads(rest) then None
    else if Pads(rest) == 0 || Pads(rest) == ExpectedPads(|s|) then Some(Octets(s))
    else None
  }

  // --- Round trip ------------------------------------------------------------------------------------------

  function Stripped(text: string): string {
    if text == [] then [] else (if IsSpace(text[0]) then [] else [text[0]]) + Stripped(text[1..])
  }

  lemma AlphabetsInvert(a: Alphabet, v: Sextet)
    ensures UnBase64(a, Base64Char(a, v)) == v && !IsSpace(Base64Char(a, v)) && !IsPad(Base64Char(a, v))
  {
  }

  lemma SpacesAndPads(a: Alphabet, c: char)
    ensures IsSpace(c) || IsPad(c) ==> UnBase64(a, c) == -1
    ensures !(IsSpace(c) && IsPad(c))
  {
  }

  lemma {:induction false} TextScans(text: string, s: seq<Sextet>, a: Alphabet, padding: string)
    requires Stripped(text) == Text(s, a) + padding && padding in {"", "=", "=="}
    ensures DataOf(text, a) == s && OnlyPads(RestOf(text, a)) && Pads(RestOf(text, a)) == |padding|
    decreases |text|
  {
    hide Base64Char, UnBase64, IsSpace, IsPad, OnlyPads;
    if text == [] {
      NoPads();
    } else {
      SpacesAndPads(a, text[0]);
      if IsSpace(text[0]) {
        TextScans(text[1..], s, a, padding);
      } else if s != [] {
        AlphabetsInvert(a, s[0]);
        assert text[0] == (Text(s, a) + padding)[0] == Base64Char(a, s[0]);
        TextTail(s, a, padding);
        TextScans(text[1..], s[1..], a, padding);
      } else {
        assert Stripped(text)[0] == padding[0] == '=';
        EqualsIsPad();
        assert Text(s, a) + padding == padding;
        PadsScan(text, padding);
      }
    }
  }

  lemma EqualsIsPad()
    ensures IsPad('=')
  {
  }

  lemma NoPads()
    ensures OnlyPads("") && Pads("") == 0
  {
  }

  lemma TextTail(s: seq<Sextet>, a: Alphabet, padding: string)
    requires s != []
    ensures (Text(s, a) + padding)[1..] == Text(s[1..], a) + padding
  {
  }

  lemma {:induction false} PadsScan(text: string, padding: string)
    requires Stripped(text) == padding && padding in {"", "=", "=="}
    ensures OnlyPads(text) && Pads(text) == |padding|
    decreases |text|
  {
    if text != [] {
      assert text == [text[0]] + text[1..];
      if IsSpace(text[0]) {
        PadsScan(text[1..], padding);
      } else {
        assert padding[0] == text[0] == '=';
        PadsScan(text[1..], padding[1..]);
      }
    }
  }

  // Whatever spaces are put into the escaped text, unescaping gives the data back.
  lemma EscapedUnescapes(data: seq<Byte>, a: Alphabet, doPadding: bool, text: string)
    requires Stripped(text) == Escaped(data, a, doPadding)
    ensures Unescaped(text, a) == Some(data)
  {
    OctetsOfSextets(data);
    TextScans(text, Sextets(data), a, if doPadding then Padding(|data|) else "");
  }

  // --- The encoder -----------------------------------------------------------------------------------------

  // big_endian::Load16 and Load32.
  function Load16(b: seq<Byte>): nat
    requires |b| >= 2
  {
    (b[0] as int) * 0x100 + b[1]
  }

  function Load32(b: seq<Byte>): nat
    requires |b| >= 4
  {
    (Load16(b) as int) * 0x1_0000 + Load16(b[2..])
  }

  // The four sextets of a word of 24 bits, by shifts and masks.
  function FourOf(word: nat): (four: seq<Sextet>)
    requires word < 0x100_0000
    ensures |four| == 4
  {
    [word / 0x4_0000, word % 0x4_0000 / 0x1000, word % 0x4_0000 % 0x1000 / 0x40, word % 0x4_0000 % 0x1000 % 0x40]
  }

  lemma TripleWord(b0: int, b1: int, b2: int)
    requires 0 <= b0 < 256 && 0 <= b1 < 256 && 0 <= b2 < 256
    ensures FourOf(b0 * 0x1_0000 + b1 * 0x100 + b2) == Triple(b0, b1, b2)
  {
    var word := b0 * 0x1_0000 + b1 * 0x100 + b2;
    QuotientIs(word, 0x4_0000, b0 / 4, b0 % 4 * 0x1_0000 + b1 * 0x100 + b2);
    QuotientIs(word % 0x4_0000, 0x1000, b0 % 4 * 16 + b1 / 16, b1 % 16 * 0x100 + b2);
    QuotientIs(word % 0x4_0000 % 0x1000, 0x40, b1 % 16 * 4 + b2 / 64, b2 % 64);
  }

  function ThreeOf(word: nat): seq<Sextet>
    requires word < 0x1_0000
  {
    [word / 0x400, word % 0x400 / 0x10, word % 0x400 % 0x10 * 4]
  }

  lemma PairWord(b0: int, b1: int)
    requires 0 <= b0 < 256 && 0 <= b1 < 256
    ensures ThreeOf(b0 * 0x100 + b1) == Pair(b0, b1)
  {
    var word := b0 * 0x100 + b1;
    QuotientIs(word, 0x400, b0 / 4, b0 % 4 * 0x100 + b1);
    QuotientIs(word % 0x400, 0x10, b0 % 4 * 16 + b1 / 16, b1 % 16);
  }

  // The sextets so far are in the buffer, and the rest of the data is to follow.
  ghost predicate Encoded(src: seq<Byte>, at: nat, text: seq<char>, a: Alphabet, done: seq<Sextet>) {
    && at <= |src| && at % 3 == 0 && |done| == at / 3 * 4
    && Sextets(src) == done + Sextets(src[at..]) && text == Text(done, a)
  }

  lemma EncodeMore(src: seq<Byte>, at: nat, text: seq<char>, a: Alphabet, done: seq<Sextet>)
    requires Encoded(src, at, text, a, done) && at + 3 <= |src|
    ensures var four := Triple(src[at], src[at + 1], src[at + 2]);
            Encoded(src, at + 3, text + Text(four, a), a, done + four)
  {
    hide Base64Char;
    var four := Triple(src[at], src[at + 1], src[at + 2]);
    assert src[at..][3..] == src[at + 3..];
    assert Sextets(src[at..]) == four + Sextets(src[at + 3..]);
    assert done + (four + Sextets(src[at + 3..])) == done + four + Sextets(src[at + 3..]);
    TextJoins(done, four, a);
  }

  lemma TextJoins(s: seq<Sextet>, t: seq<Sextet>, a: Alphabet)
    ensures Text(s + t, a) == Text(s, a) + Text(t, a)
  {
  }

  method CalculateBase64EscapedLen(inputLen: nat, doPadding: bool) returns (len: nat)
    ensures forall data: seq<Byte>, a :: |data| == inputLen ==> len == |Escaped(data, a, doPadding)|
  {
    len := inputLen / 3 * 4;
    if inputLen % 3 == 0 {
    } else if inputLen % 3 == 1 {
      len := len + 2;
      if doPadding {
        len := len + 2;
      }
    } else {
      len := len + 3;
      if doPadding {
        len := len + 1;
      }
    }
    forall data: seq<Byte>, a | |data| == inputLen
      ensures len == |Escaped(data, a, doPadding)|
    {
      OctetsOfSextets(data);
    }
  }

  method PutFour(dest: array<char>, at: nat, four: seq<Sextet>, a: Alphabet)
    requires |four| == 4 && at + 4 <= dest.Length
    modifies dest
    ensures dest[..at + 4] == old(dest[..at]) + Text(four, a)
  {
    dest[at] := Base64Char(a, four[0]);
    dest[at + 1] := Base64Char(a, four[1]);
    dest[at + 2] := Base64Char(a, four[2]);
    dest[at + 3] := Base64Char(a, four[3]);
  }

  method Base64EscapeInternal(src: seq<Byte>, dest: array<char>, a: Alphabet, doPadding: bool) returns (n: nat)
    modifies dest
    ensures n == if |Escaped(src, a, doPadding)| <= dest.Length then |Escaped(src, a, doPadding)| else 0
    ensures |Escaped(src, a, doPadding)| <= dest.Length ==> dest[..n] == Escaped(src, a, doPadding)
  {
    hide Base64Char, Sextets, Escaped, FourOf, Load32, Triple, Encoded;
    EscapedLength(src, a, doPadding);
    if |src| * 4 > dest.Length * 3 {
      return 0;
    }
    var curDest, curSrc := 0, 0;
    ghost var done: seq<Sextet> := [];
    EncodedNothing(src, dest[..0], a);
    if |src| >= 3 {
      while curSrc < |src| - 3
        invariant 0 <= curSrc <= |src| && curDest == curSrc / 3 * 4 <= dest.Length && curSrc % 3 == 0
        invariant Encoded(src, curSrc, dest[..curDest], a, done)
      {
        EncodeMore(src, curSrc, dest[..curDest], a, done);
        LoadThree(src[curSrc..]);
        TripleWord(src[curSrc], src[curSrc + 1], src[curSrc + 2]);
        var word := Load32(src[curSrc..]) / 0x100;
        PutFour(dest, curDest, FourOf(word), a);
        done := done + FourOf(word);
        curDest := curDest + 4;
        curSrc := curSrc + 3;
      }
    }
    n := EscapeTail(src, curSrc, dest, curDest, a, doPadding, done);
  }

  lemma EscapedLength(src: seq<Byte>, a: Alphabet, doPadding: bool)
    ensures |Escaped(src, a, doPadding)| * 3 >= |src| * 4
  {
    OctetsOfSextets(src);
  }

  lemma EncodedNothing(src: seq<Byte>, text: seq<char>, a: Alphabet)
    requires text == []
    ensures Encoded(src, 0, text, a, [])
  {
    assert src[0..] == src;
  }

  lemma LoadThree(b: seq<Byte>)
    requires |b| >= 4
    ensures Load32(b) / 0x100 == (b[0] as int) * 0x1_0000 + (b[1] as int) * 0x100 + b[2] < 0x100_0000
  {
  }

  // The last three bytes or fewer.
  method EscapeTail(src: seq<Byte>, curSrc: nat, dest: array<char>, curDest: nat, a: Alphabet, doPadding: bool,
                    ghost done: seq<Sextet>)
    returns (n: nat)
    requires curDest == curSrc / 3 * 4 && curSrc <= |src| <= curSrc + 3 && curDest <= dest.Length
    requires Encoded(src, curSrc, dest[..curDest], a, done)
    requires |src| * 4 <= dest.Length * 3
    modifies dest
    ensures n == if |Escaped(src, a, doPadding)| <= dest.Length then |Escaped(src, a, doPadding)| else 0
    ensures |Escaped(src, a, doPadding)| <= dest.Length ==> dest[..n] == Escaped(src, a, doPadding)
  {
    hide Base64Char, Sextets, Escaped;
    ghost var last := Sextets(src[curSrc..]);
    var szsrc := |src| - curSrc;
    TailSextets(src, curSrc);
    TextJoins(done, last, a);
    n := curDest;
    if szsrc == 1 {
      var b := src[curSrc];
      dest[n] := Base64Char(a, b / 4);
      dest[n + 1] := Base64Char(a, b % 4 * 16);
      n := n + 2;
    } else if szsrc == 2 {
      PairWord(src[curSrc], src[curSrc + 1]);
      var three := ThreeOf(Load16(src[curSrc..]));
      dest[n] := Base64Char(a, three[0]);
      dest[n + 1] := Base64Char(a, three[1]);
      dest[n + 2] := Base64Char(a, three[2]);
      n := n + 3;
    } else if szsrc == 3 {
      TripleWord(src[curSrc], src[curSrc + 1], src[curSrc + 2]);
      PutFour(dest, n, FourOf((src[curSrc] as int) * 0x1_0000 + Load16(src[curSrc + 1..])), a);
      n := n + 4;
    }
    assert dest[..n] == Text(Sextets(src), a);
    n := Pad(src, dest, n, a, doPadding);
  }

  lemma TailSextets(src: seq<Byte>, at: nat)
    requires at <= |src| <= at + 3
    ensures var n := |src| - at;
            Sextets(src[at..]) == if n == 0 then [] else if n == 1 then [src[at] / 4, src[at] % 4 * 16]
                                  else if n == 2 then Pair(src[at], src[at + 1])
                                  else Triple(src[at], src[at + 1], src[at + 2])
  {
    if |src| == at + 3 {
      assert src[at..][3..] == [];
    }
  }

  // The pad characters, where the switch adds them.
  method Pad(src: seq<Byte>, dest: array<char>, at: nat, a: Alphabet, doPadding: bool) returns (n: nat)
    requires at <= dest.Length && dest[..at] == Text(Sextets(src), a)
    modifies dest
    ensures n == if |Escaped(src, a, doPadding)| <= dest.Length then |Escaped(src, a, doPadding)| else 0
    ensures |Escaped(src, a, doPadding)| <= dest.Length ==> dest[..n] == Escaped(src, a, doPadding)
  {
    hide Base64Char, Sextets;
    n := at;
    if doPadding && |src| % 3 == 1 {
      if dest.Length - n < 2 {
        return 0;
      }
      dest[n], dest[n + 1] := '=', '=';
      n := n + 2;
      assert dest[..n] == dest[..at] + "==";
    } else if doPadding && |src| % 3 == 2 {
      if dest.Length - n < 1 {
        return 0;
      }
      dest[n] := '=';
      n := n + 1;
      assert dest[..n] == dest[..at] + "=";
    }
  }

  // Both alphabets, in a buffer of the calculated length.
  method Base64Escape(src: seq<Byte>, a: Alphabet, doPadding: bool) returns (text: string)
    ensures text == Escaped(src, a, doPadding)
  {
    hide Escaped;
    var size := CalculateBase64EscapedLen(|src|, doPadding);
    assert size == |Escaped(src, a, doPadding)|;
    var dest := new char[size];
    var n := Base64EscapeInternal(src, dest, a, doPadding);
    text := dest[..n];
  }

  // --- The decoder -----------------------------------------------------------------------------------------

  // What is left to read is the text from `at` on, and the data before it is `sofar`.
  ghost predicate Ahead(text: string, a: Alphabet, at: nat, sofar: seq<Sextet>) {
    && at <= |text|
    && DataOf(text, a) == sofar + DataOf(text[at..], a) && RestOf(text, a) == RestOf(text[at..], a)
  }

  // All of the data has been read, and the rest starts at `at`.
  ghost predicate AtRest(text: string, a: Alphabet, at: nat, sofar: seq<Sextet>) {
    && at <= |text| && DataOf(text, a) == sofar && RestOf(text, a) == text[at..]
  }

  lemma ReadOne(text: string, a: Alphabet, at: nat, sofar: seq<Sextet>)
    requires Ahead(text, a, at, sofar) && at < |text|
    ensures var v := UnBase64(a, text[at]);
            if v >= 0 then Ahead(text, a, at + 1, sofar + [v])
            else if IsSpace(text[at]) then Ahead(text, a, at + 1, sofar)
            else AtRest(text, a, at, sofar)
  {
    assert text[at..][1..] == text[at + 1..];
    var v := UnBase64(a, text[at]);
    if v >= 0 {
      assert sofar + ([v] + DataOf(text[at + 1..], a)) == sofar + [v] + DataOf(text[at + 1..], a);
    }
  }

  lemma AllRead(text: string, a: Alphabet, sofar: seq<Sextet>)
    requires Ahead(text, a, |text|, sofar)
    ensures AtRest(text, a, |text|, sofar)
  {
  }

  // Where a GET_INPUT has stopped: at a space with too little after it, or behind a character that is no data.
  ghost predicate Stopped(text: string, a: Alphabet, at: nat, ch: char, decode: int, sofar: seq<Sextet>) {
    if decode < 0 && !IsSpace(ch) then 0 < at <= |text| && AtRest(text, a, at - 1, sofar) && text[at - 1] == ch
    else Ahead(text, a, at, sofar) && !IsPad(ch)
  }

  // GET_INPUT(label, remain): the next data character, spaces skipped while enough is left.
  method GetInput(text: string, a: Alphabet, at: nat, remain: nat, ghost sofar: seq<Sextet>)
    returns (at': nat, ch: char, decode: int)
    requires Ahead(text, a, at, sofar) && 1 <= remain <= 4 && |text| - at >= remain
    ensures at < at' <= |text| && decode == UnBase64(a, ch)
    ensures if decode >= 0 then Ahead(text, a, at', sofar + [decode]) && |text| - at' >= remain - 1
            else Stopped(text, a, at', ch, decode, sofar)
  {
    hide Ahead, AtRest, UnBase64, IsSpace, IsPad;
    at', ch, decode := at, text[at], 0;
    while true
      invariant at <= at' <= |text| && |text| - at' >= remain && Ahead(text, a, at', sofar)
      decreases |text| - at'
    {
      ReadOne(text, a, at', sofar);
      ch := text[at'];
      at' := at' + 1;
      decode := UnBase64(a, ch);
      if decode >= 0 {
        return;
      }
      SpacesAndPads(a, ch);
      if !(IsSpace(ch) && |text| - at' >= remain) {
        return;
      }
    }
  }

  // The number that the sextets of a part stand for, and its modulus.
  function Joined(part: seq<Sextet>): nat {
    if part == [] then 0 else Joined(part[..|part| - 1]) * 64 + part[|part| - 1]
  }

  function Modulus(n: nat): nat
    requires n <= 4
  {
    if n == 0 then 1 else if n == 1 then 0x40 else if n == 2 then 0x1000 else if n == 3 then 0x4_0000 else 0x100_0000
  }

  // The low bits of temp are the part read; nothing is said of the others.
  ghost predicate Holds(temp: nat, part: seq<Sextet>) {
    temp < TWO_TO_THE_32 && |part| <= 4 && temp % Modulus(|part|) == Joined(part)
  }

  // (temp << 6) | decode
  function Shifted(temp: nat, decode: Sextet): nat {
    BitOr(temp * 64 % TWO_TO_THE_32, decode)
  }

  lemma HoldsMore(temp: nat, part: seq<Sextet>, decode: Sextet)
    requires Holds(temp, part) && |part| < 4
    ensures Holds(Shifted(temp, decode), part + [decode])
  {
    var high := temp % 0x400_0000;
    assert (part + [decode])[..|part|] == part;
    ShiftedSum(temp, decode);
    var n := |part|;
    LowBits(high * 64 + decode, temp, n, decode);
  }

  lemma ShiftedSum(temp: nat, decode: Sextet)
    requires temp < TWO_TO_THE_32
    ensures Shifted(temp, decode) == temp % 0x400_0000 * 64 + decode < TWO_TO_THE_32
  {
    hide BitOr;
    var high := temp % 0x400_0000;
    QuotientIs(temp * 64, TWO_TO_THE_32, temp / 0x400_0000, high * 64);
    assert Pow2(6) == 64;
    OrIsSum(high, decode, 6);
  }

  lemma LowBits(shifted: nat, temp: nat, n: nat, decode: Sextet)
    requires n < 4 && shifted == temp % 0x400_0000 * 64 + decode
    ensures shifted % Modulus(n + 1) == temp % Modulus(n) * 64 + decode
  {
  }

  // unsigned(unbase64[c]) << bits, where unit is 2^bits.
  function Placed(a: Alphabet, c: char, unit: nat): nat {
    UnBase64(a, c) % TWO_TO_THE_32 * unit % TWO_TO_THE_32
  }

  // The optimistic decoding of four characters at once.
  function QuadWord(a: Alphabet, c0: char, c1: char, c2: char, c3: char): nat {
    BitOr(BitOr(BitOr(Placed(a, c0, 0x4_0000), Placed(a, c1, 0x1000)), Placed(a, c2, 0x40)), Placed(a, c3, 1))
  }

  // Its high bit is set exactly when one of the four is no data; otherwise it is the number of the four.
  lemma QuadMeaning(a: Alphabet, c0: char, c1: char, c2: char, c3: char)
    ensures var word := QuadWord(a, c0, c1, c2, c3);
            var v0, v1, v2, v3 := UnBase64(a, c0), UnBase64(a, c1), UnBase64(a, c2), UnBase64(a, c3);
            && word < TWO_TO_THE_32
            && (word / 0x8000_0000 % 2 == 1 <==> v0 < 0 || v1 < 0 || v2 < 0 || v3 < 0)
            && (word < 0x8000_0000 ==> word == ((v0 * 64 + v1) * 64 + v2) * 64 + v3)
  {
    hide BitOr, Placed, UnBase64;
    PlacedMeaning(a, c0, 0x4_0000);
    PlacedMeaning(a, c1, 0x1000);
    PlacedMeaning(a, c2, 0x40);
    PlacedMeaning(a, c3, 1);
    var x, y, z, w := Placed(a, c0, 0x4_0000), Placed(a, c1, 0x1000), Placed(a, c2, 0x40), Placed(a, c3, 1);
    HighBit(x, y);
    HighBit(BitOr(x, y), z);
    HighBit(BitOr(BitOr(x, y), z), w);
    var v0, v1, v2, v3 := UnBase64(a, c0), UnBase64(a, c1), UnBase64(a, c2), UnBase64(a, c3);
    if v0 >= 0 && v1 >= 0 && v2 >= 0 && v3 >= 0 {
      SumOfPlaces(v0, v1, v2, v3);
    }
  }

  lemma PlacedMeaning(a: Alphabet, c: char, unit: nat)
    requires unit in {1, 0x40, 0x1000, 0x4_0000}
    ensures var v := UnBase64(a, c);
            if v >= 0 then Placed(a, c, unit) == v * unit < 0x8000_0000
            else 0x8000_0000 <= Placed(a, c, unit) < TWO_TO_THE_32
  {
    hide UnBase64;
    var v := UnBase64(a, c);
    if v >= 0 {
      QuotientIs(v, TWO_TO_THE_32, 0, v);
      QuotientIs(v * unit, TWO_TO_THE_32, 0, v * unit);
    } else {
      QuotientIs(v, TWO_TO_THE_32, -1, TWO_TO_THE_32 - 1);
      QuotientIs((TWO_TO_THE_32 - 1) * unit, TWO_TO_THE_32, unit - 1, TWO_TO_THE_32 - unit);
    }
  }

  lemma SumOfPlaces(v0: Sextet, v1: Sextet, v2: Sextet, v3: Sextet)
    ensures BitOr(BitOr(BitOr(v0 * 0x4_0000, v1 * 0x1000), v2 * 0x40), v3 * 1)
            == v0 * 0x4_0000 + v1 * 0x1000 + v2 * 0x40 + v3
  {
    assert Pow2(6) == 0x40 && Pow2(12) == 0x1000 && Pow2(18) == 0x4_0000;
    hide BitOr, Pow2;
    OrIsSum(v0, v1 * 0x1000, 18);
    OrIsSum(v0 * 0x40 + v1, v2 * 0x40, 12);
    OrIsSum(v0 * 0x1000 + v1 * 0x40 + v2, v3, 6);
  }

  lemma HighBit(x: nat, y: nat)
    requires x < TWO_TO_THE_32 && y < TWO_TO_THE_32
    ensures BitOr(x, y) < TWO_TO_THE_32
    ensures BitOr(x, y) >= 0x8000_0000 <==> x >= 0x8000_0000 || y >= 0x8000_0000
  {
    assert Pow2(4) == 0x10;
    hide BitOr, Pow2;
    Pow2Square(4, 0x10);
    Pow2Square(8, 0x100);
    Pow2Square(16, 0x1_0000);
    Pow2Positive(32);
    OrHighBit(x, y, 31);
  }

  // --- Bytes out -------------------------------------------------------------------------------------------

  lemma {:induction false} OctetsJoin(s: seq<Sextet>, t: seq<Sextet>)
    requires |s| % 4 == 0
    ensures Octets(s + t) == Octets(s) + Octets(t)
  {
    hide First, Second, Third;
    if s == [] {
      assert s + t == t;
    } else {
      assert (s + t)[4..] == s[4..] + t;
      OctetsJoin(s[4..], t);
    }
  }

  lemma JoinedOfUpToFour(part: seq<Sextet>)
    ensures |part| == 2 ==> Joined(part) == (part[0] as int) * 0x40 + part[1]
    ensures |part| == 3 ==> Joined(part) == (part[0] as int) * 0x1000 + (part[1] as int) * 0x40 + part[2]
    ensures |part| == 4 ==>
              Joined(part) ==
              (part[0] as int) * 0x4_0000 + (part[1] as int) * 0x1000 + (part[2] as int) * 0x40 + part[3]
  {
    if 2 <= |part| <= 4 {
      var shorter := part[..|part| - 1];
      JoinedOfUpToFour(shorter);
      if |part| == 2 {
        assert shorter[..0] == [];
      }
    }
  }

  // The bytes that temp is written out as, by conversions to char and shifts.
  lemma BytesOfFour(temp: nat, part: seq<Sextet>)
    requires Holds(temp, part) && |part| == 4
    ensures [temp / 0x1_0000 % 0x100, temp / 0x100 % 0x100, temp % 0x100] == Octets(part)
  {
    JoinedOfUpToFour(part);
    hide Joined;
    assert part[4..] == [];
    FourBytes(temp / 0x100_0000, part[0], part[1], part[2], part[3], temp);
  }

  lemma FourBytes(q: nat, s0: Sextet, s1: Sextet, s2: Sextet, s3: Sextet, temp: nat)
    requires temp == q * 0x100_0000 + (s0 as int) * 0x4_0000 + (s1 as int) * 0x1000 + (s2 as int) * 0x40 + s3
    ensures temp / 0x1_0000 % 0x100 == First(s0, s1) && temp / 0x100 % 0x100 == Second(s1, s2)
    ensures temp % 0x100 == Third(s2, s3)
  {
    var high, low := s1 / 16, s1 % 16;
    QuotientIs(temp, 0x100, q * 0x1_0000 + (s0 as int) * 0x400 + (s1 as int) * 0x10 + s2 / 4, Third(s2, s3));
    QuotientIs(temp / 0x100, 0x100, q * 0x100 + (s0 as int) * 4 + high, Second(s1, s2));
    QuotientIs(temp, 0x1_0000, q * 0x100 + (s0 as int) * 4 + high, (low as int) * 0x1000 + (s2 as int) * 0x40 + s3);
    QuotientIs(temp / 0x1_0000, 0x100, q, First(s0, s1));
  }

  lemma BytesOfThree(temp: nat, part: seq<Sextet>)
    requires Holds(temp, part) && |part| == 3
    ensures [temp / 4 / 0x100 % 0x100, temp / 4 % 0x100] == Octets(part)
  {
    JoinedOfUpToFour(part);
    hide Joined;
    ThreeBytes(temp / 0x4_0000, part[0], part[1], part[2], temp);
  }

  lemma ThreeBytes(q: nat, s0: Sextet, s1: Sextet, s2: Sextet, temp: nat)
    requires temp == q * 0x4_0000 + (s0 as int) * 0x1000 + (s1 as int) * 0x40 + s2
    ensures temp / 4 / 0x100 % 0x100 == First(s0, s1) && temp / 4 % 0x100 == Second(s1, s2)
  {
    QuotientIs(temp, 4, q * 0x1_0000 + (s0 as int) * 0x400 + (s1 as int) * 0x10 + s2 / 4, s2 % 4);
    QuotientIs(temp / 4, 0x100, q * 0x100 + (s0 as int) * 4 + s1 / 16, Second(s1, s2));
    QuotientIs(temp / 4 / 0x100, 0x100, q, First(s0, s1));
  }

  lemma BytesOfTwo(temp: nat, part: seq<Sextet>)
    requires Holds(temp, part) && |part| == 2
    ensures [temp / 0x10 % 0x100] == Octets(part)
  {
    JoinedOfUpToFour(part);
    hide Joined;
    var q, s0, s1 := temp / 0x1000, part[0], part[1];
    QuotientIs(temp, 0x10, q * 0x100 + (s0 as int) * 4 + s1 / 16, s1 % 16);
    QuotientIs(temp / 0x10, 0x100, q, First(s0, s1));
  }

  // The whole groups of the data are in the buffer.
  ghost predicate Written(bytes: seq<Byte>, done: seq<Sextet>) {
    |done| % 4 == 0 && bytes == Octets(done)
  }

  method PutThree(dest: array<Byte>, destidx: nat, word: nat, ghost done: seq<Sextet>, ghost part: seq<Sextet>)
    returns (temp: nat)
    requires destidx + 3 <= dest.Length && Written(dest[..destidx], done) && Holds(word, part) && |part| == 4
    modifies dest
    ensures Written(dest[..destidx + 3], done + part) && temp < TWO_TO_THE_32
  {
    hide Octets, Holds;
    BytesOfFour(word, part);
    OctetsJoin(done, part);
    assert word < TWO_TO_THE_32 by {
      HoldsWord(word, part);
    }
    temp := word;
    dest[destidx + 2] := temp % 0x100;
    temp := temp / 0x100;
    dest[destidx + 1] := temp % 0x100;
    temp := temp / 0x100;
    dest[destidx] := temp % 0x100;
    assert temp == word / 0x1_0000;
    assert dest[..destidx + 3] == dest[..destidx] + [dest[destidx], dest[destidx + 1], dest[destidx + 2]];
  }

  lemma HoldsWord(temp: nat, part: seq<Sextet>)
    requires Holds(temp, part)
    ensures temp < TWO_TO_THE_32
  {
  }

  // The four GET_INPUTs of one slow round.
  method ReadQuad(text: string, a: Alphabet, at: nat, word: nat, ghost sofar: seq<Sextet>)
    returns (stopped: bool, at': nat, ch: char, decode: int, state: nat, temp: nat, ghost part: seq<Sextet>)
    requires Ahead(text, a, at, sofar) && |text| - at >= 4 && word < TWO_TO_THE_32
    ensures at < at' <= |text| && Holds(temp, part)
    ensures if stopped then state == |part| < 4 && decode < 0 && Stopped(text, a, at', ch, decode, sofar + part)
            else |part| == 4 && decode == UnBase64(a, ch) >= 0 && Ahead(text, a, at', sofar + part)
  {
    hide Ahead, Stopped, Shifted, Joined;
    state, temp, part := 0, word, [];
    HoldsNothing(temp);
    at', ch, decode := GetInput(text, a, at, 4, sofar);
    assert sofar + part == sofar;
    if decode < 0 {
      return true, at', ch, decode, state, temp, part;
    }
    temp := decode;
    part := [decode];
    HoldsOne(decode);
    at', ch, decode := GetInput(text, a, at', 3, sofar + part);
    if decode < 0 {
      return true, at', ch, decode, 1, temp, part;
    }
    temp, part := Accept(temp, decode, sofar, part);
    at', ch, decode := GetInput(text, a, at', 2, sofar + part);
    if decode < 0 {
      return true, at', ch, decode, 2, temp, part;
    }
    temp, part := Accept(temp, decode, sofar, part);
    at', ch, decode := GetInput(text, a, at', 1, sofar + part);
    if decode < 0 {
      return true, at', ch, decode, 3, temp, part;
    }
    temp, part := Accept(temp, decode, sofar, part);
    stopped := false;
  }

  // temp = (temp << 6) | decode
  method Accept(temp: nat, decode: Sextet, ghost sofar: seq<Sextet>, ghost part: seq<Sextet>)
    returns (temp': nat, ghost part': seq<Sextet>)
    requires Holds(temp, part) && |part| < 4
    ensures part' == part + [decode] && Holds(temp', part') && sofar + part' == sofar + part + [decode]
  {
    HoldsMore(temp, part, decode);
    temp' := Shifted(temp, decode);
    part' := part + [decode];
  }

  lemma HoldsNothing(temp: nat)
    requires temp < TWO_TO_THE_32
    ensures Holds(temp, [])
  {
  }

  lemma HoldsOne(decode: Sextet)
    ensures Holds(decode, [decode])
  {
    assert [decode][..0] == [];
  }

  // The data is more than the buffer can take.
  ghost predicate TooLong(text: string, a: Alphabet, room: nat) {
    |Octets(DataOf(text, a))| > room
  }

  lemma NoRoom(text: string, a: Alphabet, at: nat, sofar: seq<Sextet>, room: nat)
    requires Ahead(text, a, at, sofar) || AtRest(text, a, at, sofar)
    requires |Octets(sofar)| > room
    ensures TooLong(text, a, room)
  {
    hide Octets;
  }

  // The first loop: four characters a round, fast when they are all data.
  method DecodeQuads(text: string, dest: array<Byte>, a: Alphabet)
    returns (ok: bool, at: nat, destidx: nat, state: nat, temp: nat, ch: char, decode: int,
             ghost done: seq<Sextet>, ghost part: seq<Sextet>)
    modifies dest
    ensures !ok ==> TooLong(text, a, dest.Length)
    ensures ok ==> destidx <= dest.Length && Written(dest[..destidx], done) && state == |part| < 4 && Holds(temp, part)
    ensures ok ==> Stopped(text, a, at, ch, decode, done + part)
  {
    hide Ahead, AtRest, Stopped, Holds, Written, Octets, TooLong, QuadWord, UnBase64;
    ok, at, destidx, state, temp, ch, decode, done, part := true, 0, 0, 0, 0, '\0', 0, [], [];
    NothingYet(text, a, dest[..0]);
    while |text| - at >= 4
      invariant at <= |text| && destidx <= dest.Length && Written(dest[..destidx], done) && temp < TWO_TO_THE_32
      invariant Ahead(text, a, at, done) && !IsPad(ch) && decode >= 0 && part == [] && state == 0
    {
      var c0, c1, c2, c3 := text[at], text[at + 1], text[at + 2], text[at + 3];
      QuadMeaning(a, c0, c1, c2, c3);
      NullIsNoData(a);
      if c0 != '\0' && c1 != '\0' && c2 != '\0' {
        temp := QuadWord(a, c0, c1, c2, c3);
      }
      if c0 == '\0' || c1 == '\0' || c2 == '\0' || temp / 0x8000_0000 % 2 == 1 {
        var stopped;
        stopped, at, ch, decode, state, temp, part := ReadQuad(text, a, at, temp, done);
        if stopped {
          return;
        }
        SpacesAndPads(a, ch);
      } else {
        part := [UnBase64(a, c0), UnBase64(a, c1), UnBase64(a, c2), UnBase64(a, c3)];
        FourRead(text, a, at, done, part);
        QuadHolds(temp, part);
        at := at + 4;
      }
      if destidx + 3 > dest.Length {
        WrittenLength(dest[..destidx], done, part);
        NoRoom(text, a, at, done + part, dest.Length);
        ok := false;
        return;
      }
      temp := PutThree(dest, destidx, temp, done, part);
      destidx := destidx + 3;
      done, part, state := done + part, [], 0;
    }
    HoldsNothing(temp);
    assert done + part == done;
    NotStopped(text, a, at, ch, decode, done);
  }

  lemma NothingYet(text: string, a: Alphabet, bytes: seq<Byte>)
    requires bytes == []
    ensures Ahead(text, a, 0, []) && Written(bytes, [])
  {
    assert text[0..] == text;
  }

  lemma NullIsNoData(a: Alphabet)
    ensures UnBase64(a, '\0') == -1 && !IsPad('\0')
  {
  }

  lemma FourRead(text: string, a: Alphabet, at: nat, sofar: seq<Sextet>, part: seq<Sextet>)
    requires Ahead(text, a, at, sofar) && at + 4 <= |text| && |part| == 4
    requires forall i :: 0 <= i < 4 ==> part[i] == UnBase64(a, text[at + i])
    ensures Ahead(text, a, at + 4, sofar + part)
  {
    hide Ahead, AtRest, UnBase64;
    ReadOne(text, a, at, sofar);
    ReadOne(text, a, at + 1, sofar + [part[0]]);
    ReadOne(text, a, at + 2, sofar + [part[0]] + [part[1]]);
    ReadOne(text, a, at + 3, sofar + [part[0]] + [part[1]] + [part[2]]);
    assert sofar + [part[0]] + [part[1]] + [part[2]] + [part[3]] == sofar + part;
  }

  lemma QuadHolds(temp: nat, part: seq<Sextet>)
    requires |part| == 4
    requires temp == (((part[0] as int) * 64 + part[1]) * 64 + part[2]) * 64 + part[3]
    ensures Holds(temp, part)
  {
    JoinedOfUpToFour(part);
  }

  lemma WrittenLength(bytes: seq<Byte>, done: seq<Sextet>, part: seq<Sextet>)
    requires Written(bytes, done) && |part| == 4
    ensures |Octets(done + part)| == |bytes| + 3
  {
  }

  lemma NotStopped(text: string, a: Alphabet, at: nat, ch: char, decode: int, sofar: seq<Sextet>)
    requires Ahead(text, a, at, sofar) && !IsPad(ch) && decode >= 0
    ensures Stopped(text, a, at, ch, decode, sofar)
  {
  }

  // How a loop may end: at the end of the data, at a character that has no place in the text, or out of room.
  datatype Ending = AtEnd | BadCharacter | OutOfRoom

  // The second loop: what the first has left, one character a round.
  method DecodeRest(text: string, dest: array<Byte>, a: Alphabet, at0: nat, destidx0: nat, state0: nat, temp0: nat,
                    ghost done0: seq<Sextet>, ghost part0: seq<Sextet>)
    returns (ending: Ending, at: nat, destidx: nat, state: nat, temp: nat,
             ghost done: seq<Sextet>, ghost part: seq<Sextet>)
    requires destidx0 <= dest.Length && Written(dest[..destidx0], done0) && state0 == |part0| < 4 && Holds(temp0, part0)
    requires Ahead(text, a, at0, done0 + part0)
    modifies dest
    ensures ending == OutOfRoom ==> TooLong(text, a, dest.Length)
    ensures ending == BadCharacter ==> Unescaped(text, a) == None
    ensures ending == AtEnd ==>
              && destidx <= dest.Length && Written(dest[..destidx], done) && state == |part| < 4 && Holds(temp, part)
              && AtRest(text, a, at, done + part)
  {
    hide Ahead, AtRest, Holds, Written, Octets, TooLong, UnBase64, Unescaped;
    at, destidx, state, temp, done, part := at0, destidx0, state0, temp0, done0, part0;
    AheadInside(text, a, at, done + part);
    while at < |text|
      invariant at <= |text| && destidx <= dest.Length && Written(dest[..destidx], done)
      invariant state == |part| < 4 && Holds(temp, part) && Ahead(text, a, at, done + part)
    {
      var ch := text[at];
      ReadOne(text, a, at, done + part);
      SpacesAndPads(a, ch);
      at := at + 1;
      var decode := UnBase64(a, ch);
      if decode < 0 {
        if IsSpace(ch) {
          continue;
        } else if IsPad(ch) {
          return AtEnd, at - 1, destidx, state, temp, done, part;
        } else {
          BadRest(text, a, at - 1, done + part);
          ending := BadCharacter;
          return;
        }
      }
      temp, part := Accept(temp, decode, done, part);
      state := state + 1;
      if state == 4 {
        if destidx + 3 > dest.Length {
          WrittenLength(dest[..destidx], done, part);
          NoRoom(text, a, at, done + part, dest.Length);
          ending := OutOfRoom;
          return;
        }
        temp := PutThree(dest, destidx, temp, done, part);
        destidx := destidx + 3;
        done, part := done + part, [];
        state, temp := 0, 0;
        HoldsNothing(temp);
        assert done + part == done;
      }
    }
    AllRead(text, a, done + part);
    ending := AtEnd;
  }

  lemma AheadInside(text: string, a: Alphabet, at: nat, sofar: seq<Sextet>)
    requires Ahead(text, a, at, sofar)
    ensures at <= |text|
  {
  }

  lemma BadRest(text: string, a: Alphabet, at: nat, sofar: seq<Sextet>)
    requires AtRest(text, a, at, sofar) && at < |text| && !IsPad(text[at]) && !IsSpace(text[at])
    ensures Unescaped(text, a) == None
  {
    assert !OnlyPads(text[at..]) by {
      assert text[at..][0] == text[at];
    }
  }

  // The data left over in temp: none, one byte from two characters, or two from three.
  method Leftover(text: string, dest: array<Byte>, a: Alphabet, at: nat, destidx0: nat, state: nat, temp0: nat,
                  ghost done: seq<Sextet>, ghost part: seq<Sextet>)
    returns (ending: Ending, destidx: nat, expectedEquals: nat)
    requires destidx0 <= dest.Length && Written(dest[..destidx0], done) && state == |part| < 4 && Holds(temp0, part)
    requires AtRest(text, a, at, done + part)
    modifies dest
    ensures ending == OutOfRoom ==> TooLong(text, a, dest.Length)
    ensures ending == BadCharacter ==> Unescaped(text, a) == None
    ensures ending == AtEnd ==>
              && destidx <= dest.Length && dest[..destidx] == Octets(done + part)
              && |done + part| % 4 != 1 && expectedEquals == ExpectedPads(|done + part|)
  {
    hide AtRest, Holds, TooLong, Octets;
    OctetsJoin(done, part);
    ending, destidx, expectedEquals := AtEnd, destidx0, 0;
    var temp := temp0;
    if state == 0 {
      NoOctets();
    } else if state == 1 {
      OddOne(text, a, at, done + part);
      ending := BadCharacter;
    } else if state == 2 {
      if destidx + 1 > dest.Length {
        NoRoom(text, a, at, done + part, dest.Length);
        return OutOfRoom, destidx, 0;
      }
      BytesOfTwo(temp, part);
      temp := temp / 0x10;
      dest[destidx] := temp % 0x100;
      assert dest[..destidx + 1] == dest[..destidx] + [dest[destidx]];
      destidx := destidx + 1;
      expectedEquals := 2;
    } else {
      if destidx + 2 > dest.Length {
        NoRoom(text, a, at, done + part, dest.Length);
        return OutOfRoom, destidx, 0;
      }
      BytesOfThree(temp, part);
      temp := temp / 4;
      dest[destidx + 1] := temp % 0x100;
      temp := temp / 0x100;
      dest[destidx] := temp % 0x100;
      assert dest[..destidx + 2] == dest[..destidx] + [dest[destidx], dest[destidx + 1]];
      destidx := destidx + 2;
      expectedEquals := 1;
    }
  }

  lemma NoOctets()
    ensures Octets([]) == []
  {
  }

  lemma OddOne(text: string, a: Alphabet, at: nat, sofar: seq<Sextet>)
    requires AtRest(text, a, at, sofar) && |sofar| % 4 == 1
    ensures Unescaped(text, a) == None
  {
  }

  // The end of the text: only spaces, and no pad characters or exactly as many as expected.
  method CountEquals(text: string, at0: nat, expectedEquals: nat) returns (ok: bool)
    requires at0 <= |text|
    ensures ok <==> OnlyPads(text[at0..]) && Pads(text[at0..]) in {0, expectedEquals}
  {
    hide IsPad, IsSpace;
    var at, equals := at0, 0;
    while at < |text|
      invariant at0 <= at <= |text|
      invariant equals + Pads(text[at..]) == Pads(text[at0..])
      invariant forall i :: at0 <= i < at ==> IsPad(text[i]) || IsSpace(text[i])
    {
      assert text[at..][1..] == text[at + 1..];
      if IsPad(text[at]) {
        equals := equals + 1;
      } else if !IsSpace(text[at]) {
        assert text[at0..][at - at0] == text[at];
        return false;
      }
      at := at + 1;
    }
    ok := equals == 0 || equals == expectedEquals;
  }

  // Decodes exactly the texts that stand for data, as long as the buffer can take the data.
  method Base64UnescapeInternal(text: string, dest: array<Byte>, a: Alphabet) returns (ok: bool, len: nat)
    modifies dest
    ensures ok ==> len <= dest.Length && Unescaped(text, a) == Some(dest[..len])
    ensures !ok ==> Unescaped(text, a) == None || |Unescaped(text, a).value| > dest.Length
  {
    hide Ahead, Holds, Written, Octets, UnBase64, TooLong, Unescaped, OnlyPads;
    var at, destidx, state, temp, ch, decode;
    ghost var done, part;
    ok, at, destidx, state, temp, ch, decode, done, part := DecodeQuads(text, dest, a);
    if !ok {
      TooLongFails(text, a, dest.Length);
      return false, 0;
    }
    if decode < 0 && !IsPad(ch) && !IsSpace(ch) {
      BadRest(text, a, at - 1, done + part);
      return false, 0;
    }
    SpaceIsNoPad(ch);
    if IsPad(ch) {
      at := at - 1;
    } else {
      var ending;
      ending, at, destidx, state, temp, done, part := DecodeRest(text, dest, a, at, destidx, state, temp, done, part);
      if ending != AtEnd {
        TooLongFails(text, a, dest.Length);
        return false, 0;
      }
    }
    var ending, expectedEquals;
    ending, destidx, expectedEquals := Leftover(text, dest, a, at, destidx, state, temp, done, part);
    if ending != AtEnd {
      TooLongFails(text, a, dest.Length);
      return false, 0;
    }
    ok := CountEquals(text, at, expectedEquals);
    len := destidx;
    Concludes(text, a, at, done + part);
  }

  lemma SpaceIsNoPad(c: char)
    ensures !(IsSpace(c) && IsPad(c))
  {
  }

  lemma TooLongFails(text: string, a: Alphabet, room: nat)
    ensures TooLong(text, a, room) ==> Unescaped(text, a) == None || |Unescaped(text, a).value| > room
  {
  }

  lemma Concludes(text: string, a: Alphabet, at: nat, s: seq<Sextet>)
    requires AtRest(text, a, at, s) && |s| % 4 != 1
    ensures Unescaped(text, a) ==
            if OnlyPads(text[at..]) && Pads(text[at..]) in {0, ExpectedPads(|s|)} then Some(Octets(s)) else None
  {
  }

  // With the length that the string version allots there is always room.
  method Base64Unescape(text: string, a: Alphabet) returns (data: Option<seq<Byte>>)
    ensures data == Unescaped(text, a)
  {
    hide Unescaped;
    var dest := new Byte[3 * (|text| / 4) + |text| % 4];
    var ok, len := Base64UnescapeInternal(text, dest, a);
    RoomEnough(text, a);
    if ok {
      data := Some(dest[..len]);
    } else {
      data := None;
    }
  }

  lemma RoomEnough(text: string, a: Alphabet)
    ensures Unescaped(text, a) != None ==> |Unescaped(text, a).value| <= 3 * (|text| / 4) + |text| % 4
  {
    DataFits(text, a);
  }

  lemma {:induction false} DataFits(text: string, a: Alphabet)
    ensures |DataOf(text, a)| <= |text|
  {
    if text != [] {
      DataFits(text[1..], a);
    }
  }
}
