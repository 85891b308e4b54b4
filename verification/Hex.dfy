/** Hexadecimal text: the record printer of the data scanner and the byte parser of the DID laboratory. */
module Hex {
  import opened Words

  type nibble = x: int | 0 <= x < 16

  function Digit(n: nibble): char {
    "0123456789ABCDEF"[n]
  }

  function NibbleOf(c: char): Option<nibble> {
    if '0' <= c <= '9' then Some(c as int - '0' as int)
    else if 'a' <= c <= 'f' then Some(c as int - 'a' as int + 10)
    else if 'A' <= c <= 'F' then Some(c as int - 'A' as int + 10)
    else None
  }

  /** What a digit stands for, in either case. */
  lemma NibbleOfDigit(n: nibble)
    ensures NibbleOf("0123456789ABCDEF"[n]) == NibbleOf("0123456789abcdef"[n]) == Some(n)
  {
    if n >= 10 {
      assert "0123456789ABCDEF"[n] as int == 'A' as int + n - 10;
      assert "0123456789abcdef"[n] as int == 'a' as int + n - 10;
    } else {
      assert "0123456789ABCDEF"[n] as int == '0' as int + n;
      assert "0123456789abcdef"[n] as int == '0' as int + n;
    }
  }

  predicate IsHexDigit(c: char) {
    NibbleOf(c).Some?
  }

  predicate IsSeparator(c: char) {
    c == ' ' || 9 as char <= c <= 13 as char || c == ':' || c == '-'
  }

  // ---------------------------------------------------------------------
  // Printing
  // ---------------------------------------------------------------------

  /** What `%0<width>X` prints. */
  function Padded(width: nat, v: nat): string
    decreases v, width
  {
    if v < 16 && width <= 1 then [Digit(v)]
    else Padded(if width == 0 then 0 else width - 1, v / 16) + [Digit(v % 16)]
  }

  /** Two digits for each byte. */
  function Printed(data: seq<byte>): (s: string)
    ensures |s| == 2 * |data|
  {
    if data == [] then []
    else Printed(data[..|data| - 1]) + Padded2(data[|data| - 1])
  }

  function Padded2(b: byte): (s: string)
    ensures |s| == 2
    ensures NibbleOf(s[0]) == Some(b / 16) && NibbleOf(s[1]) == Some(b % 16)
  {
    [Digit(b / 16), Digit(b % 16)]
  }

  lemma PaddedIsPadded2(b: byte)
    ensures Padded(2, b) == Padded2(b)
  {
    assert Padded(1, b / 16) == [Digit(b / 16)];
  }

  lemma PaddedStep(width: nat, v: nat)
    requires width >= 2
    ensures Padded(width, v) == Padded(width - 1, v / 16) + [Digit(v % 16)]
  {
  }

  lemma FourDigits(v: uint16)
    ensures v / 16 / 16 == v / 0x100
    ensures v / 16 % 16 == v % 0x100 / 16
    ensures v % 16 == v % 0x100 % 16
  {
  }

  lemma PaddedFour(v: uint16)
    ensures Padded(4, v) == Padded2(v / 0x100) + Padded2(v % 0x100)
  {
    FourDigits(v);
    PaddedStep(4, v);
    PaddedStep(3, v / 16);
    PaddedIsPadded2(v / 0x100);
  }

  /** Print a record's bytes into a caller buffer, always leaving it terminated. */
  method FormatRecord(data: seq<byte>, buffer: array<char>) returns (ok: bool)
    modifies buffer
    ensures ok <==> buffer.Length >= 1 && (data == [] || buffer.Length >= 2 * |data| + 1)
    ensures ok ==> buffer[..2 * |data|] == Printed(data) && buffer[2 * |data|] == NUL
    ensures !ok && buffer.Length >= 1 ==> buffer[0] == NUL
  {
    if buffer.Length == 0 {
      return false;
    }
    var offset := 0;
    buffer[0] := NUL;
    for index := 0 to |data|
      invariant offset == 2 * index < buffer.Length
      invariant buffer[..offset] == Printed(data[..index])
      invariant buffer[offset] == NUL
    {
      if offset + 3 > buffer.Length {
        buffer[0] := NUL;
        return false;
      }
      var digits := Padded2(data[index]);
      buffer[offset], buffer[offset + 1], buffer[offset + 2] := digits[0], digits[1], NUL;
      offset := offset + 2;
      assert data[..index + 1][..index] == data[..index];
      assert buffer[..offset] == buffer[..offset - 2] + digits;
    }
    assert data[..|data|] == data;
    return true;
  }

  // ---------------------------------------------------------------------
  // Parsing
  // ---------------------------------------------------------------------

  /** The digits of a text, or nothing when it holds a character that is neither digit nor separator. */
  function Nibbles(text: string): Option<seq<nibble>> {
    if text == [] then Some([])
    else
      var last := text[|text| - 1];
      match Nibbles(text[..|text| - 1])
      case None => None
      case Some(front) =>
        if NibbleOf(last).Some? then Some(front + [NibbleOf(last).value])
        else if IsSeparator(last) then Some(front)
        else None
  }

  predicate Reads(text: string, ns: seq<nibble>) {
    Nibbles(text).Some? && Nibbles(text).value == ns
  }

  function Joined(high: nibble, low: nibble): byte {
    16 * high + low
  }

  function Pair(ns: seq<nibble>): (bytes: seq<byte>)
    requires |ns| % 2 == 0
    ensures 2 * |bytes| == |ns|
  {
    if ns == [] then []
    else Pair(ns[..|ns| - 2]) + [Joined(ns[|ns| - 2], ns[|ns| - 1])]
  }

  lemma PairExtend(ns: seq<nibble>, high: nibble, low: nibble)
    requires |ns| % 2 == 0
    ensures Pair(ns + [high, low]) == Pair(ns) + [Joined(high, low)]
  {
    assert (ns + [high, low])[..|ns|] == ns;
  }

  /** The bytes a text denotes: an even, nonzero number of digits with separators anywhere. */
  function Parsed(text: string): Option<seq<byte>> {
    match Nibbles(text)
    case None => None
    case Some(ns) => if |ns| == 0 || |ns| % 2 == 1 then None else Some(Pair(ns))
  }

  lemma {:induction false} DigitCountGrows(text: string, i: nat)
    requires i <= |text|
    ensures Nibbles(text[..i]).None? ==> Nibbles(text).None?
    ensures Nibbles(text).Some? ==> |Nibbles(text[..i]).value| <= |Nibbles(text).value|
  {
    if i < |text| {
      assert text[..|text| - 1][..i] == text[..i];
      DigitCountGrows(text[..|text| - 1], i);
    } else {
      assert text[..i] == text;
    }
  }

  /** What one more character does to the digits read so far. */
  lemma NextCharacter(text: string, i: nat, ns: seq<nibble>)
    requires i < |text| && Reads(text[..i], ns)
    ensures NibbleOf(text[i]).Some? ==> Reads(text[..i + 1], ns + [NibbleOf(text[i]).value])
    ensures NibbleOf(text[i]).None? && IsSeparator(text[i]) ==> Reads(text[..i + 1], ns)
    ensures NibbleOf(text[i]).None? && !IsSeparator(text[i]) ==> Parsed(text).None?
    ensures Parsed(text).Some? && NibbleOf(text[i]).Some? ==> 2 * |Parsed(text).value| > |ns|
  {
    assert text[..i + 1][..i] == text[..i];
    DigitCountGrows(text, i + 1);
  }

  method ParseHexBytes(text: string, buffer: array<byte>) returns (ok: bool, written: nat)
    modifies buffer
    ensures ok <==> Parsed(text).Some? && |Parsed(text).value| <= buffer.Length
    ensures ok ==> written == |Parsed(text).value| && buffer[..written] == Parsed(text).value
  {
    var high: int := -1;
    var count := 0;
    ghost var even: seq<nibble> := [];
    written := 0;
    for index := 0 to |text|
      invariant -1 <= high < 16
      invariant Reads(text[..index], if high < 0 then even else even + [high])
      invariant count <= buffer.Length && |even| == 2 * count
      invariant buffer[..count] == Pair(even)
    {
      NextCharacter(text, index, if high < 0 then even else even + [high]);
      var digit := NibbleOf(text[index]);
      if digit.None? {
        if IsSeparator(text[index]) {
          continue;
        }
        return false, 0;
      }
      if high < 0 {
        high := digit.value;
      } else {
        if count >= buffer.Length {
          return false, 0;
        }
        PairExtend(even, high, digit.value);
        assert even + [high] + [digit.value] == even + [high, digit.value];
        even := even + [high, digit.value];
        buffer[count] := Joined(high, digit.value);
        count := count + 1;
        high := -1;
      }
    }
    assert text[..|text|] == text;
    if high >= 0 || count == 0 {
      return false, 0;
    }
    return true, count;
  }

  // ---------------------------------------------------------------------
  // Which texts parse
  // ---------------------------------------------------------------------

  predicate IsDigitChar(c: char) {
    c in "0123456789abcdefABCDEF"
  }

  /** White space of the C locale, colon and dash. */
  predicate IsGapChar(c: char) {
    c == ' ' || c == ':' || c == '-' || c as int in {9, 10, 11, 12, 13}
  }

  function DigitsOf(text: string): string {
    if text == [] then []
    else DigitsOf(text[..|text| - 1]) + (if IsDigitChar(text[|text| - 1]) then [text[|text| - 1]] else [])
  }

  lemma DigitCharIff(c: char)
    ensures IsDigitChar(c) <==> NibbleOf(c).Some?
  {
    var all := "0123456789abcdefABCDEF";
    if '0' <= c <= '9' {
      assert all[c as int - '0' as int] == c;
    } else if 'a' <= c <= 'f' {
      assert all[10 + c as int - 'a' as int] == c;
    } else if 'A' <= c <= 'F' {
      assert all[16 + c as int - 'A' as int] == c;
    }
  }

  lemma {:induction false} NibblesIff(text: string)
    ensures Nibbles(text).Some? <==> forall i :: 0 <= i < |text| ==> IsDigitChar(text[i]) || IsGapChar(text[i])
    ensures Nibbles(text).Some? ==> |Nibbles(text).value| == |DigitsOf(text)|
  {
    if text != [] {
      NibblesIff(text[..|text| - 1]);
      DigitCharIff(text[|text| - 1]);
    }
  }

  /** A text denotes bytes exactly when it is an even, nonzero number of digits with nothing but gaps around them. */
  lemma ParsedIff(text: string)
    ensures Parsed(text).Some? <==>
            && (forall i :: 0 <= i < |text| ==> IsDigitChar(text[i]) || IsGapChar(text[i]))
            && |DigitsOf(text)| % 2 == 0 && |DigitsOf(text)| > 0
    ensures Parsed(text).Some? ==> 2 * |Parsed(text).value| == |DigitsOf(text)|
  {
    NibblesIff(text);
  }

  // ---------------------------------------------------------------------
  // Round trip and separators
  // ---------------------------------------------------------------------

  lemma {:induction false} NibblesConcat(a: string, b: string)
    ensures Nibbles(a).None? || Nibbles(b).None? ==> Nibbles(a + b).None?
    ensures Nibbles(a).Some? && Nibbles(b).Some? ==> Reads(a + b, Nibbles(a).value + Nibbles(b).value)
  {
    if b == [] {
      assert a + b == a;
    } else {
      var front, last := b[..|b| - 1], NibbleOf(b[|b| - 1]);
      NibblesConcat(a, front);
      assert (a + b)[..|a + b| - 1] == a + front;
      if Nibbles(a).Some? && Nibbles(front).Some? && last.Some? {
        assert Nibbles(a).value + (Nibbles(front).value + [last.value])
            == Nibbles(a).value + Nibbles(front).value + [last.value];
      }
    }
  }

  lemma TwoNibbles(digits: string)
    requires |digits| == 2 && NibbleOf(digits[0]).Some? && NibbleOf(digits[1]).Some?
    ensures Reads(digits, [NibbleOf(digits[0]).value, NibbleOf(digits[1]).value])
  {
    assert Reads(digits[..0], []);
    NextCharacter(digits, 0, []);
    NextCharacter(digits, 1, [NibbleOf(digits[0]).value]);
    assert digits[..2] == digits;
  }

  lemma SplitJoins(b: byte)
    ensures Joined(b / 16, b % 16) == b
  {
  }

  predicate Denotes(text: string, data: seq<byte>) {
    Nibbles(text).Some? && |Nibbles(text).value| % 2 == 0 && Pair(Nibbles(text).value) == data
  }

  lemma DenotesOneMore(text: string, data: seq<byte>, last: byte)
    requires Denotes(text, data)
    ensures Denotes(text + Padded2(last), data + [last])
  {
    var before := Nibbles(text).value;
    TwoNibbles(Padded2(last));
    NibblesConcat(text, Padded2(last));
    SplitJoins(last);
    PairExtend(before, last / 16, last % 16);
    assert Reads(text + Padded2(last), before + [last / 16, last % 16]);
  }

  lemma {:induction false} PrintedDenotes(data: seq<byte>)
    ensures Denotes(Printed(data), data)
  {
    if data != [] {
      PrintedDenotes(data[..|data| - 1]);
      DenotesOneMore(Printed(data[..|data| - 1]), data[..|data| - 1], data[|data| - 1]);
      assert data == data[..|data| - 1] + [data[|data| - 1]];
    }
  }

  /** Parsing what the printer wrote gives back exactly the bytes. */
  lemma PrintParseRoundTrip(data: seq<byte>)
    requires data != []
    ensures Parsed(Printed(data)).Some? && Parsed(Printed(data)).value == data
  {
    PrintedDenotes(data);
  }

  /** The printed form has upper-case digits only. */
  lemma {:induction false} PrintedIsUpper(data: seq<byte>, i: nat)
    requires i < 2 * |data|
    ensures Printed(data)[i] in "0123456789ABCDEF"
  {
    if i < 2 * |data| - 2 {
      PrintedIsUpper(data[..|data| - 1], i);
    }
  }

  /** No two payloads print alike. */
  lemma PrintedIsInjective(a: seq<byte>, b: seq<byte>)
    requires Printed(a) == Printed(b)
    ensures a == b
  {
    PrintedDenotes(a);
    PrintedDenotes(b);
  }

  /** Separators inserted anywhere, even between the two digits of a byte, never change the parse. */
  lemma SeparatorsDoNotMatter(before: string, separators: string, after: string)
    requires forall i :: 0 <= i < |separators| ==> IsSeparator(separators[i])
    ensures Parsed(before + separators + after) == Parsed(before + after)
  {
    SeparatorsAreEmpty(separators);
    NibblesConcat(before, separators);
    NibblesConcat(before + separators, after);
    NibblesConcat(before, after);
    if Nibbles(before).Some? {
      assert Nibbles(before).value + [] == Nibbles(before).value;
    }
  }

  lemma {:induction false} SeparatorsAreEmpty(separators: string)
    requires forall i :: 0 <= i < |separators| ==> IsSeparator(separators[i])
    ensures Reads(separators, [])
  {
    if separators != [] {
      SeparatorsAreEmpty(separators[..|separators| - 1]);
    }
  }
}
