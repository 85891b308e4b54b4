/** The console's bounded output line: decimal and hexadecimal printing, and the lines each command emits. */
module ConsoleLine {
  import opened Words
  import Hex

  const CAPACITY := 192
  const CRLF := "\r\n"

  // ---------------------------------------------------------------------
  // Decimal text
  // ---------------------------------------------------------------------

  type digit = x: int | 0 <= x < 10

  function DigitChar(d: digit): char {
    (d + '0' as int) as char
  }

  /** Canonical decimal form. */
  function Decimal(v: nat): (s: string)
    ensures s != []
  {
    if v < 10 then [DigitChar(v)] else Decimal(v / 10) + [DigitChar(v % 10)]
  }

  /** The number that a digit string denotes, read from the left. */
  function DecimalValue(s: string): int {
    if s == [] then 0 else 10 * DecimalValue(s[..|s| - 1]) + (s[|s| - 1] as int - '0' as int)
  }

  predicate IsDecimal(s: string) {
    forall i :: 0 <= i < |s| ==> '0' <= s[i] <= '9'
  }

  /** The form reads back to the value, is made of digits, and has no leading zero. */
  lemma {:induction false} DecimalIsCanonical(v: nat)
    ensures DecimalValue(Decimal(v)) == v && IsDecimal(Decimal(v))
    ensures Decimal(v)[0] == '0' <==> v == 0
    ensures v == 0 ==> |Decimal(v)| == 1
  {
    if v >= 10 {
      DecimalIsCanonical(v / 10);
      assert Decimal(v)[..|Decimal(v)| - 1] == Decimal(v / 10);
    } else {
      assert Decimal(v)[..0] == [];
    }
  }

  function Pow10(n: nat): (p: nat)
    ensures p >= 1
  {
    if n == 0 then 1 else 10 * Pow10(n - 1)
  }

  lemma {:induction false} DecimalLength(v: nat, n: nat)
    requires n >= 1 && v < Pow10(n)
    ensures |Decimal(v)| <= n
  {
    if v >= 10 {
      assert n >= 2;
      DecimalLength(v / 10, n - 1);
    }
  }

  lemma Pow10Of10()
    ensures Pow10(10) == 10_000_000_000
  {
    assert Pow10(5) == 100_000;
  }

  /** Ten digits are enough for every 32-bit value. */
  lemma WordDecimalLength(v: uint32)
    ensures |Decimal(v)| <= 10
  {
    Pow10Of10();
    DecimalLength(v, 10);
  }

  // ---------------------------------------------------------------------
  // A line that stops growing when it is full
  // ---------------------------------------------------------------------

  /** What a line holds after `text` was put into it: as much as fits. */
  function Filled(text: string): string {
    text[..Min(|text|, CAPACITY - 1)]
  }

  lemma FilledGrows(text: string, more: string)
    ensures Filled(text + more) == if |text + more| < CAPACITY then text + more
                                   else if |text| >= CAPACITY - 1 then Filled(text)
                                   else text + more[..CAPACITY - 1 - |text|]
  {
    if |text| >= CAPACITY - 1 {
      assert (text + more)[..CAPACITY - 1] == text[..CAPACITY - 1];
    }
  }

  function Hex8(v: byte): string {
    Hex.Padded2(v)
  }

  function Hex24(v: uint32): string {
    Hex8(v / 0x1_0000 % 0x100) + Hex8(v / 0x100 % 0x100) + Hex8(v % 0x100)
  }

  function Hex32(v: uint32): string {
    Hex8(v / 0x100_0000 % 0x100) + Hex8(v / 0x1_0000 % 0x100) + Hex8(v / 0x100 % 0x100) + Hex8(v % 0x100)
  }

  lemma Hex24IsPrinted(v: uint32)
    ensures Hex24(v) == Hex.Printed([v / 0x1_0000 % 0x100, v / 0x100 % 0x100, v % 0x100])
  {
    var b: seq<byte> := [v / 0x1_0000 % 0x100, v / 0x100 % 0x100, v % 0x100];
    assert b[..2][..1] == [b[0]] && [b[0]][..0] == [];
    assert Hex.Printed(b[..2][..1]) == Hex8(b[0]);
    assert b[..2] == [b[0], b[1]];
    assert Hex.Printed(b[..2]) == Hex8(b[0]) + Hex8(b[1]);
  }

  /** The six digits are the three low bytes, most significant first. */
  lemma Hex24ReadsBack(v: uint32)
    ensures Hex.Parsed(Hex24(v)) == Some([v / 0x1_0000 % 0x100, v / 0x100 % 0x100, v % 0x100])
    ensures BigEndian32(0, v / 0x1_0000 % 0x100, v / 0x100 % 0x100, v % 0x100) == v % 0x100_0000
  {
    Hex24IsPrinted(v);
    Hex.PrintParseRoundTrip([v / 0x1_0000 % 0x100, v / 0x100 % 0x100, v % 0x100]);
    LowBytesOfWord(v);
  }

  lemma LowBytesOfWord(v: uint32)
    ensures BigEndian32(0, v / 0x1_0000 % 0x100, v / 0x100 % 0x100, v % 0x100) == v % 0x100_0000
  {
    BytesOfWord(v);
    assert v % 0x100_0000 == v - 0x100_0000 * (v / 0x100_0000 % 0x100) by {
      assert v / 0x100_0000 < 0x100;
    }
  }

  lemma ShortIdIsPrinted(v: uint32)
    requires v <= 0x7ff
    ensures "0" + CanDigits(v) == Hex.Printed([v / 0x100, v % 0x100])
  {
    var b: seq<byte> := [v / 0x100, v % 0x100];
    assert b[..1] == [b[0]] && [b[0]][..0] == [];
    assert Hex.Printed([b[0]]) == Hex8(b[0]);
  }

  /** The digits of an identifier: three that read back to it up to 7FF, and above that its eight. */
  lemma CanDigitsReadBack(v: uint32)
    ensures v <= 0x7ff ==> |CanDigits(v)| == 3 && Hex.Parsed("0" + CanDigits(v)) == Some([v / 0x100, v % 0x100])
    ensures v > 0x7ff ==> CanDigits(v) == Hex32(v)
  {
    if v <= 0x7ff {
      ShortIdIsPrinted(v);
      Hex.PrintParseRoundTrip([v / 0x100, v % 0x100]);
    }
  }

  /** Three digits for an 11-bit identifier, eight for a longer one. */
  function CanDigits(v: uint32): string {
    if v <= 0x7ff then [Hex.Digit(v / 0x100 % 16)] + Hex8(v % 0x100) else Hex32(v)
  }

  function CanId(v: uint32): string {
    "0x" + CanDigits(v)
  }

  function Backwards(s: string): (b: string)
    ensures |b| == |s|
    ensures forall i :: 0 <= i < |s| ==> b[i] == s[|s| - 1 - i]
  {
    seq(|s|, i requires 0 <= i < |s| => s[|s| - 1 - i])
  }

  /** The eight digits are the four bytes of the word, most significant first. */
  lemma Hex32IsBigEndian(v: uint32)
    ensures Hex.Parsed(Hex32(v)).Some?
    ensures var b := Hex.Parsed(Hex32(v)).value;
            |b| == 4 && BigEndian32(b[0], b[1], b[2], b[3]) == v
  {
    var b: seq<byte> := [v / 0x100_0000 % 0x100, v / 0x1_0000 % 0x100, v / 0x100 % 0x100, v % 0x100];
    assert b[..3][..2][..1] == [b[0]] && [b[0]][..0] == [];
    assert Hex.Printed(b[..3][..2][..1]) == Hex8(b[0]);
    assert b[..3][..2] == [b[0], b[1]];
    assert Hex.Printed(b[..3][..2]) == Hex8(b[0]) + Hex8(b[1]);
    assert Hex.Printed(b[..3]) == Hex8(b[0]) + Hex8(b[1]) + Hex8(b[2]);
    assert Hex.Printed(b) == Hex32(v);
    Hex.PrintParseRoundTrip(b);
    BytesOfWord(v);
  }

  function BigEndian32(a: byte, b: byte, c: byte, d: byte): int {
    0x1_0000 * BigEndian16(a, b) + BigEndian16(c, d)
  }

  lemma BytesOfWord(v: uint32)
    ensures BigEndian32(v / 0x100_0000 % 0x100, v / 0x1_0000 % 0x100, v / 0x100 % 0x100, v % 0x100) == v
  {
    var a, b, c := v / 0x100, v / 0x100 / 0x100, v / 0x100 / 0x100 / 0x100;
    assert v / 0x1_0000 == b && v / 0x100_0000 == c && c < 0x100;
  }

  class LineBuffer {
    const bytes: array<char>
    var length: nat
    /** Everything that was put since the last reset, whether it fitted or not. */
    ghost var asked: string

    ghost predicate Valid()
      reads this, bytes
    {
      bytes.Length == CAPACITY && length < CAPACITY && bytes[length] == NUL && bytes[..length] == Filled(asked)
    }

    constructor ()
      ensures Valid() && fresh(bytes) && asked == ""
    {
      bytes := new char[CAPACITY](_ => NUL);
      length := 0;
      asked := "";
    }

    method Reset()
      requires bytes.Length == CAPACITY
      modifies this, bytes
      ensures Valid() && asked == ""
    {
      length := 0;
      bytes[0] := NUL;
      asked := "";
    }

    method PutChar(value: char) returns (ok: bool)
      requires Valid()
      modifies this, bytes
      ensures Valid() && asked == old(asked) + [value]
      ensures ok <==> |asked| < CAPACITY
    {
      FilledGrows(asked, [value]);
      asked := asked + [value];
      if length + 1 >= bytes.Length {
        return false;
      }
      bytes[length] := value;
      length := length + 1;
      bytes[length] := NUL;
      assert bytes[..length] == old(bytes[..length]) + [value];
      return true;
    }

    /** Account for text that follows something which did not fit. */
    ghost method Skip(more: string)
      requires Valid() && |asked| >= CAPACITY
      modifies `asked
      ensures Valid() && asked == old(asked) + more
    {
      FilledGrows(asked, more);
      asked := asked + more;
    }

    method PutText(text: string) returns (ok: bool)
      requires Valid()
      modifies this, bytes
      ensures Valid() && asked == old(asked) + text
      ensures ok <==> text == "" || |asked| < CAPACITY
    {
      ghost var held := asked;
      assert held + text[..0] == held;
      ok := true;
      for index := 0 to |text|
        invariant Valid() && asked == held + text[..index]
        invariant index > 0 ==> |asked| < CAPACITY
      {
        assert held + text[..index] + [text[index]] == held + text[..index + 1];
        var put := PutChar(text[index]);
        if !put {
          assert held + text[..index + 1] + text[index + 1..] == held + text;
          Skip(text[index + 1..]);
          return false;
        }
      }
      assert text[..|text|] == text;
    }

    method PutHex8(value: byte) returns (ok: bool)
      requires Valid()
      modifies this, bytes
      ensures Valid() && asked == old(asked) + Hex8(value)
      ensures ok <==> |asked| < CAPACITY
    {
      var high, low := Hex.Digit(value / 16), Hex.Digit(value % 16);
      ok := PutChar(high);
      if ok {
        ok := PutChar(low);
      } else {
        Skip([low]);
      }
      assert asked == old(asked) + Hex8(value);
    }

    method PutHex24(value: uint32) returns (ok: bool)
      requires Valid()
      modifies this, bytes
      ensures Valid() && asked == old(asked) + Hex24(value)
      ensures ok <==> |asked| < CAPACITY
    {
      ok := PutHex8(value / 0x1_0000 % 0x100);
      if ok {
        ok := PutHex8(value / 0x100 % 0x100);
      } else {
        Skip(Hex8(value / 0x100 % 0x100));
      }
      if ok {
        ok := PutHex8(value % 0x100);
      } else {
        Skip(Hex8(value % 0x100));
      }
      assert asked == old(asked) + Hex24(value);
    }

    method PutHex32(value: uint32) returns (ok: bool)
      requires Valid()
      modifies this, bytes
      ensures Valid() && asked == old(asked) + Hex32(value)
      ensures ok <==> |asked| < CAPACITY
    {
      ok := PutHex8(value / 0x100_0000 % 0x100);
      if ok {
        ok := PutHex8(value / 0x1_0000 % 0x100);
      } else {
        Skip(Hex8(value / 0x1_0000 % 0x100));
      }
      if ok {
        ok := PutHex8(value / 0x100 % 0x100);
      } else {
        Skip(Hex8(value / 0x100 % 0x100));
      }
      if ok {
        ok := PutHex8(value % 0x100);
      } else {
        Skip(Hex8(value % 0x100));
      }
      assert asked == old(asked) + Hex32(value);
    }

    method PutCanId(value: uint32) returns (ok: bool)
      requires Valid()
      modifies this, bytes
      ensures Valid() && asked == old(asked) + CanId(value)
      ensures ok <==> |asked| < CAPACITY
    {
      ok := PutText("0x");
      if !ok {
        Skip(CanDigits(value));
      } else if value <= 0x7ff {
        ok := PutShortId(value);
      } else {
        ok := PutHex32(value);
      }
      assert asked == old(asked) + ("0x" + CanDigits(value));
    }

    method PutShortId(value: uint32) returns (ok: bool)
      requires Valid() && value <= 0x7ff
      modifies this, bytes
      ensures Valid() && asked == old(asked) + CanDigits(value)
      ensures ok <==> |asked| < CAPACITY
    {
      var nibble := Hex.Digit(value / 0x100 % 16);
      ok := PutChar(nibble);
      if ok {
        ok := PutHex8(value % 0x100);
      } else {
        Skip(Hex8(value % 0x100));
      }
      assert asked == old(asked) + CanDigits(value);
    }

    method PutU32(value: uint32) returns (ok: bool)
      requires Valid()
      modifies this, bytes
      ensures Valid() && asked == old(asked) + Decimal(value)
      ensures ok <==> |asked| < CAPACITY
    {
      if value == 0 {
        ok := PutChar('0');
        return;
      }
      var reversed: array<char> := new char[10];
      var count, left := 0, value;
      WordDecimalLength(value);
      while left != 0 && count < reversed.Length
        invariant 0 <= count <= 10
        invariant left == 0 ==> Backwards(reversed[..count]) == Decimal(value)
        invariant left != 0 ==> Decimal(left) + Backwards(reversed[..count]) == Decimal(value)
        decreases left
        modifies reversed
      {
        ghost var before := reversed[..count];
        var c := DigitChar(left % 10);
        reversed[count] := c;
        count := count + 1;
        assert reversed[..count] == before + [c];
        assert Backwards(before + [c]) == [c] + Backwards(before);
        ghost var text := Decimal(left);
        left := left / 10;
        assert text == (if left == 0 then [c] else Decimal(left) + [c]);
        if left != 0 {
          assert Decimal(left) + [c] + Backwards(before) == Decimal(left) + ([c] + Backwards(before));
        }
      }
      assert |Backwards(reversed[..count])| == count;
      assert left == 0;
      ok := PutBackwards(reversed[..count]);
    }

    /** The second loop of the decimal printer: the collected digits from the last to the first. */
    method PutBackwards(reversed: string) returns (ok: bool)
      requires Valid() && reversed != ""
      modifies this, bytes
      ensures Valid() && asked == old(asked) + Backwards(reversed)
      ensures ok <==> |asked| < CAPACITY
    {
      ghost var held := asked;
      ghost var all := Backwards(reversed);
      var count := |reversed|;
      ok := true;
      while count != 0
        invariant 0 <= count <= |reversed|
        invariant Valid() && asked == held + all[..|reversed| - count]
        invariant count < |reversed| ==> |asked| < CAPACITY
      {
        ghost var done := |reversed| - count;
        count := count - 1;
        assert held + all[..done] + [reversed[count]] == held + all[..done + 1];
        var put := PutChar(reversed[count]);
        if !put {
          assert held + all[..done + 1] + all[done + 1..] == held + all;
          Skip(all[done + 1..]);
          return false;
        }
      }
      assert all[..|reversed|] == all;
    }
  }

  // ---------------------------------------------------------------------
  // The emitted lines
  // ---------------------------------------------------------------------

  datatype DtcRecord = DtcRecord(code: uint32, status: byte)

  datatype Snapshot = Snapshot(
    productVersion: Option<string>, linkVersion: Option<string>, vin: Option<string>,
    requestCanId: uint32, responseCanId: uint32, canOnline: bool,
    udsSession: byte, lastService: byte, lastNrc: byte,
    requestCount: uint32, positiveCount: uint32, negativeCount: uint32, suppressedCount: uint32,
    completedCount: uint32, canDropped: uint32, deferredDropped: uint32,
    dtcs: seq<DtcRecord>, resetPending: bool, resetType: byte)

  /** A finished line goes out with its CR LF, or not at all when they do not fit behind it. */
  method EmitLine(line: LineBuffer, ghost text: string) returns (out: seq<string>)
    requires line.Valid() && line.asked == text
    modifies line, line.bytes
    ensures out == if |text| < 190 then [text + "\r\n"] else []
  {
    var ok := line.PutText(CRLF);
    if ok {
      FilledGrows(text, CRLF);
      return [line.bytes[..line.length]];
    }
    return [];
  }

  function RequestsLine(s: Snapshot): string {
    "" + "UDS requests=" + Decimal(s.requestCount) + " positive=" + Decimal(s.positiveCount)
    + " negative=" + Decimal(s.negativeCount) + " suppressed=" + Decimal(s.suppressedCount)
  }

  function TransportLine(s: Snapshot): string {
    "" + "Transport completed=" + Decimal(s.completedCount) + " CAN-dropped=" + Decimal(s.canDropped)
    + " deferred-dropped=" + Decimal(s.deferredDropped)
  }

  function CanLine(s: Snapshot): string {
    "" + "CAN: " + (if s.canOnline then "ONLINE" else "OFFLINE")
    + " request=" + CanId(s.requestCanId) + " response=" + CanId(s.responseCanId)
  }

  function ResetText(s: Snapshot, none: string): string {
    if s.resetPending then "pending type=0x" + Hex8(s.resetType) else none
  }

  function SessionLine(s: Snapshot): string {
    "" + "UDS session=0x" + Hex8(s.udsSession) + " reset=" + ResetText(s, "none")
  }

  function ResetLine(s: Snapshot): string {
    "" + "Reset: " + ResetText(s, "none pending")
  }

  function LastLine(s: Snapshot): string {
    "" + "Last service=0x" + Hex8(s.lastService) + " NRC=0x" + Hex8(s.lastNrc)
  }

  function DtcLine(r: DtcRecord): string {
    "" + Hex24(r.code) + " status=0x" + Hex8(r.status)
  }

  /** Every line built from snapshot numbers is at most 87 characters, whatever the numbers. */
  lemma LinesAreShort(s: Snapshot)
    ensures |RequestsLine(s)| <= 87 && |TransportLine(s)| <= 81
    ensures |CanLine(s)| <= 51 && |SessionLine(s)| <= 40 && |ResetLine(s)| <= 24 && |LastLine(s)| <= 26
  {
    WordDecimalLength(s.requestCount);
    WordDecimalLength(s.positiveCount);
    WordDecimalLength(s.negativeCount);
    WordDecimalLength(s.suppressedCount);
    WordDecimalLength(s.completedCount);
    WordDecimalLength(s.canDropped);
    WordDecimalLength(s.deferredDropped);
  }

  method EmitRequests(s: Snapshot) returns (out: seq<string>)
    ensures out == [RequestsLine(s) + CRLF]
  {
    LinesAreShort(s);
    var line := new LineBuffer();
    var _ := line.PutText("UDS requests=");
    var _ := line.PutU32(s.requestCount);
    var _ := line.PutText(" positive=");
    var _ := line.PutU32(s.positiveCount);
    var _ := line.PutText(" negative=");
    var _ := line.PutU32(s.negativeCount);
    var _ := line.PutText(" suppressed=");
    var _ := line.PutU32(s.suppressedCount);
    out := EmitLine(line, RequestsLine(s));
  }

  method EmitTransport(s: Snapshot) returns (out: seq<string>)
    ensures out == [TransportLine(s) + CRLF]
  {
    LinesAreShort(s);
    var line := new LineBuffer();
    var _ := line.PutText("Transport completed=");
    var _ := line.PutU32(s.completedCount);
    var _ := line.PutText(" CAN-dropped=");
    var _ := line.PutU32(s.canDropped);
    var _ := line.PutText(" deferred-dropped=");
    var _ := line.PutU32(s.deferredDropped);
    out := EmitLine(line, TransportLine(s));
  }

  /** Both statistics lines are emitted whole for all counter values. */
  method EmitStats(s: Snapshot) returns (out: seq<string>)
    ensures |out| == 2
    ensures out[0] == "" + "UDS requests=" + Decimal(s.requestCount) + " positive=" + Decimal(s.positiveCount)
                      + " negative=" + Decimal(s.negativeCount) + " suppressed=" + Decimal(s.suppressedCount) + "\r\n"
    ensures out[1] == "" + "Transport completed=" + Decimal(s.completedCount) + " CAN-dropped=" + Decimal(s.canDropped)
                      + " deferred-dropped=" + Decimal(s.deferredDropped) + "\r\n"
  {
    var first := EmitRequests(s);
    var second := EmitTransport(s);
    out := first + second;
  }

  method EmitCan(s: Snapshot) returns (out: seq<string>)
    ensures out == [CanLine(s) + CRLF]
  {
    LinesAreShort(s);
    var line := new LineBuffer();
    var _ := line.PutText("CAN: ");
    var _ := line.PutText(if s.canOnline then "ONLINE" else "OFFLINE");
    var _ := line.PutText(" request=");
    var _ := line.PutCanId(s.requestCanId);
    var _ := line.PutText(" response=");
    var _ := line.PutCanId(s.responseCanId);
    out := EmitLine(line, CanLine(s));
  }

  method EmitSession(s: Snapshot) returns (out: seq<string>)
    ensures out == [SessionLine(s) + CRLF]
  {
    LinesAreShort(s);
    var line := new LineBuffer();
    var _ := line.PutText("UDS session=0x");
    var _ := line.PutHex8(s.udsSession);
    var _ := line.PutText(" reset=");
    PutReset(line, s, "none");
    out := EmitLine(line, SessionLine(s));
  }

  /** Both status lines are emitted whole for all identifiers and states. */
  method EmitStatus(s: Snapshot) returns (out: seq<string>)
    ensures |out| == 2
    ensures out[0] == "" + "CAN: " + (if s.canOnline then "ONLINE" else "OFFLINE")
                      + " request=" + ("0x" + CanDigits(s.requestCanId))
                      + " response=" + ("0x" + CanDigits(s.responseCanId)) + "\r\n"
    ensures out[1] == "" + "UDS session=0x" + Hex8(s.udsSession) + " reset="
                      + (if s.resetPending then "pending type=0x" + Hex8(s.resetType) else "none") + "\r\n"
  {
    var first := EmitCan(s);
    var second := EmitSession(s);
    out := first + second;
  }

  method PutReset(line: LineBuffer, s: Snapshot, none: string)
    requires line.Valid()
    modifies line, line.bytes
    ensures line.Valid() && line.asked == old(line.asked) + ResetText(s, none)
  {
    if s.resetPending {
      var _ := line.PutText("pending type=0x");
      var _ := line.PutHex8(s.resetType);
      assert line.asked == old(line.asked) + ("pending type=0x" + Hex8(s.resetType));
    } else {
      var _ := line.PutText(none);
    }
  }

  method EmitReset(s: Snapshot) returns (out: seq<string>)
    ensures out == ["" + "Reset: "
                    + (if s.resetPending then "pending type=0x" + Hex8(s.resetType) else "none pending") + "\r\n"]
  {
    LinesAreShort(s);
    var line := new LineBuffer();
    var _ := line.PutText("Reset: ");
    PutReset(line, s, "none pending");
    out := EmitLine(line, ResetLine(s));
  }

  method EmitLast(s: Snapshot) returns (out: seq<string>)
    ensures out == ["" + "Last service=0x" + Hex8(s.lastService) + " NRC=0x" + Hex8(s.lastNrc) + "\r\n"]
  {
    LinesAreShort(s);
    var line := new LineBuffer();
    var _ := line.PutText("Last service=0x");
    var _ := line.PutHex8(s.lastService);
    var _ := line.PutText(" NRC=0x");
    var _ := line.PutHex8(s.lastNrc);
    out := EmitLine(line, LastLine(s));
  }

  /** One line for each trouble code, in order. */
  function DtcLines(dtcs: seq<DtcRecord>): (lines: seq<string>)
    ensures |lines| == |dtcs|
  {
    if dtcs == [] then [] else DtcLines(dtcs[..|dtcs| - 1]) + [DtcLine(dtcs[|dtcs| - 1]) + CRLF]
  }

  lemma {:induction false} DtcLinesAt(dtcs: seq<DtcRecord>, i: nat)
    requires i < |dtcs|
    ensures DtcLines(dtcs)[i] == "" + Hex24(dtcs[i].code) + " status=0x" + Hex8(dtcs[i].status) + "\r\n"
  {
    if i < |dtcs| - 1 {
      DtcLinesAt(dtcs[..|dtcs| - 1], i);
    }
  }

  /** A whole line for every trouble code, or the notice that there is none. */
  method EmitDtcs(s: Snapshot) returns (out: seq<string>)
    ensures out == if s.dtcs == [] then ["No DTC records\r\n"] else DtcLines(s.dtcs)
  {
    if s.dtcs == [] {
      return ["No DTC records\r\n"];
    }
    out := [];
    for index := 0 to |s.dtcs|
      invariant out == DtcLines(s.dtcs[..index])
    {
      var text := EmitDtc(s.dtcs[index]);
      assert s.dtcs[..index + 1][..index] == s.dtcs[..index];
      out := out + text;
    }
    assert s.dtcs[..|s.dtcs|] == s.dtcs;
  }

  method EmitDtc(r: DtcRecord) returns (out: seq<string>)
    ensures out == [DtcLine(r) + CRLF]
  {
    var line := new LineBuffer();
    var _ := line.PutHex24(r.code);
    var _ := line.PutText(" status=0x");
    var _ := line.PutHex8(r.status);
    out := EmitLine(line, DtcLine(r));
  }

  function VinLine(s: Snapshot): string {
    "" + "VIN: " + (if s.vin.Some? then s.vin.value else "unavailable")
  }

  /** A VIN of any length is emitted whole or not at all. */
  method EmitVin(s: Snapshot) returns (out: seq<string>)
    ensures var text := "" + "VIN: " + (if s.vin.Some? then s.vin.value else "unavailable");
            out == if |text| <= 189 then [text + "\r\n"] else []
  {
    var line := new LineBuffer();
    var _ := line.PutText("VIN: ");
    if s.vin.Some? {
      var _ := line.PutText(s.vin.value);
    } else {
      var _ := line.PutText("unavailable");
    }
    out := EmitLine(line, VinLine(s));
  }

  function VersionLine(s: Snapshot): string {
    var name := "" + "MBLink STM32C092";
    var product := if s.productVersion.Some? then name + " v" + s.productVersion.value else name;
    if s.linkVersion.Some? then product + " / Link v" + s.linkVersion.value else product
  }

  /** Version texts of any length: the line is whole or missing, never cut. */
  method EmitVersion(s: Snapshot) returns (out: seq<string>)
    ensures var name := "" + "MBLink STM32C092";
            var product := if s.productVersion.Some? then name + " v" + s.productVersion.value else name;
            var text := if s.linkVersion.Some? then product + " / Link v" + s.linkVersion.value else product;
            out == if |text| <= 189 then [text + "\r\n"] else []
  {
    var line := new LineBuffer();
    var _ := line.PutText("MBLink STM32C092");
    if s.productVersion.Some? {
      var _ := line.PutText(" v");
      var _ := line.PutText(s.productVersion.value);
    }
    if s.linkVersion.Some? {
      var _ := line.PutText(" / Link v");
      var _ := line.PutText(s.linkVersion.value);
    }
    out := EmitLine(line, VersionLine(s));
  }
}
