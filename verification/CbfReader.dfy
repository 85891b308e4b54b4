/**
 * The CBF file reader: a cursor over bytes whose records store only the fields that a flag word announces.
 * The parsers read field after field; here every field has a place that follows from the flag word alone.
 */
module CbfReader {
  import opened Words
  import opened BitField

  type int16 = x: int | -0x8000 <= x < 0x8000
  type int32 = x: int | -0x8000_0000 <= x < 0x8000_0000
  type int64 = x: int | -0x8000_0000_0000_0000 <= x < 0x8000_0000_0000_0000

  const UINT32_MAX: int := 0xffff_ffff
  const INT64_MAX: int := 0x7fff_ffff_ffff_ffff
  const STUB_SIZE: nat := 0x410

  // ---------------------------------------------------------------------
  // Numbers and strings in a byte string
  // ---------------------------------------------------------------------

  function Signed16(v: uint16): int16 {
    if v < 0x8000 then v else v - 0x1_0000
  }

  function Signed32(v: uint32): int32 {
    if v < 0x8000_0000 then v else v - 0x1_0000_0000
  }

  function Little16(data: seq<byte>, at: nat): uint16
    requires at + 2 <= |data|
  {
    BigEndian16(data[at + 1], data[at])
  }

  function Little32(data: seq<byte>, at: nat): uint32
    requires at + 4 <= |data|
  {
    var high: int := Little16(data, at + 2);
    0x1_0000 * high + Little16(data, at)
  }

  /** Numbers are stored low byte first, and signed ones in two's complement. */
  lemma NumbersAreLittleEndian(data: seq<byte>, at: nat)
    ensures at + 2 <= |data| ==> Little16(data, at) == data[at] + 0x100 * data[at + 1] as int
    ensures at + 4 <= |data| ==>
      Little32(data, at) == data[at] as int + 0x100 * data[at + 1] as int + 0x1_0000 * data[at + 2] as int
                            + 0x100_0000 * data[at + 3] as int
    ensures forall v: uint16 :: Signed16(v) % 0x1_0000 == v
    ensures forall v: uint32 :: Signed32(v) % 0x1_0000_0000 == v
  {
  }

  /** The first zero byte at or after an offset, or the end of the data. */
  function FirstZero(data: seq<byte>, offset: nat): (z: nat)
    requires offset <= |data|
    ensures offset <= z <= |data| && 0 !in data[offset..z]
    ensures z < |data| ==> data[z] == 0
    decreases |data| - offset
  {
    if offset == |data| || data[offset] == 0 then offset
    else
      var z := FirstZero(data, offset + 1);
      assert data[offset..z] == [data[offset]] + data[offset + 1..z];
      z
  }

  /** A text is terminated inside the file; otherwise there is none. */
  function TextAt(data: seq<byte>, offset: nat): (text: Option<seq<byte>>)
    ensures text.Some? <==> offset < |data| && 0 in data[offset..]
    ensures text.Some? ==> 0 !in text.value && offset + |text.value| < |data|
    ensures text.Some? ==> data[offset..offset + |text.value|] == text.value && data[offset + |text.value|] == 0
  {
    if offset >= |data| then None
    else
      var z := FirstZero(data, offset);
      if z == |data| then None
      else
        assert data[offset..][z - offset] == 0;
        Some(data[offset..z])
  }

  /** Where a signed offset from a base leads, when that is inside the file or its end. */
  function Absolute(base: nat, relative: int32, limit: nat): Option<nat> {
    if base > INT64_MAX || base + relative < 0 || base + relative > limit then None else Some(base + relative)
  }

  // ---------------------------------------------------------------------
  // Records whose fields are announced by a flag word
  // ---------------------------------------------------------------------

  datatype Kind = Long | Half | Text

  /** A record: its possible fields, its flag word, where the stored fields begin, and the base of its text offsets. */
  datatype Plan = Plan(layout: seq<Kind>, word: uint32, begin: nat, base: uint32)

  function Width(kind: Kind): nat {
    if kind.Half? then 2 else 4
  }

  /** Bit `k` of the flag word announces field `k`. */
  predicate Stored(word: nat, k: nat) {
    ShiftRight(word, k) % 2 == 1
  }

  lemma StoredIsBit(word: nat, k: nat)
    ensures Stored(word, k) <==> word / Pow2(k) % 2 == 1
  {
    ShiftRightIsQuotient(word, k);
  }

  /** Field `k` lies behind exactly the announced fields before it. */
  function Place(p: Plan, k: nat): (at: nat)
    requires k <= |p.layout|
    ensures at >= p.begin
  {
    if k == 0 then p.begin else Place(p, k - 1) + (if Stored(p.word, k - 1) then Width(p.layout[k - 1]) else 0)
  }

  /** Field `k`, if announced, lies in the file, and if it is a text offset it does not lead before the file. */
  predicate FieldFits(data: seq<byte>, p: Plan, k: nat)
    requires k < |p.layout|
  {
    Stored(p.word, k) ==>
      Place(p, k) + Width(p.layout[k]) <= |data|
      && (p.layout[k].Text? ==> p.base + Signed32(Little32(data, Place(p, k))) >= 0)
  }

  predicate Fits(data: seq<byte>, p: Plan, n: nat)
    requires n <= |p.layout|
  {
    n == 0 || (Fits(data, p, n - 1) && FieldFits(data, p, n - 1))
  }

  function LongValue(data: seq<byte>, p: Plan, k: nat, fallback: int32): int32
    requires k < |p.layout| && p.layout[k].Long? && FieldFits(data, p, k)
  {
    if Stored(p.word, k) then Signed32(Little32(data, Place(p, k))) else fallback
  }

  function HalfValue(data: seq<byte>, p: Plan, k: nat, fallback: uint16): uint16
    requires k < |p.layout| && p.layout[k].Half? && FieldFits(data, p, k)
  {
    if Stored(p.word, k) then Little16(data, Place(p, k)) else fallback
  }

  function TextValue(data: seq<byte>, p: Plan, k: nat): Option<seq<byte>>
    requires k < |p.layout| && p.layout[k].Text? && FieldFits(data, p, k)
  {
    if Stored(p.word, k) then TextAt(data, p.base + Signed32(Little32(data, Place(p, k)))) else None
  }

  lemma {:induction false} FitsUpTo(data: seq<byte>, p: Plan, n: nat, k: nat)
    requires k < n <= |p.layout| && Fits(data, p, n)
    ensures FieldFits(data, p, k)
  {
    if k < n - 1 {
      FitsUpTo(data, p, n - 1, k);
    }
  }

  // ---------------------------------------------------------------------
  // Encoding a record and reading it back
  // ---------------------------------------------------------------------

  /** The flag word that announces the given fields. */
  function Announced(values: seq<Option<uint32>>): nat {
    if values == [] then 0 else (if values[0].Some? then 1 else 0) + 2 * Announced(values[1..])
  }

  function FieldBytes(kind: Kind, value: Option<uint32>): (b: seq<byte>)
    ensures |b| == if value.Some? then Width(kind) else 0
  {
    if value.None? then []
    else if kind.Half? then [value.value % 0x100, value.value / 0x100 % 0x100]
    else [value.value % 0x100, value.value / 0x100 % 0x100, value.value / 0x1_0000 % 0x100, value.value / 0x100_0000]
  }

  function Body(layout: seq<Kind>, values: seq<Option<uint32>>): seq<byte>
    requires |values| <= |layout|
  {
    if values == [] then []
    else Body(layout, values[..|values| - 1]) + FieldBytes(layout[|values| - 1], values[|values| - 1])
  }

  lemma {:induction false} ShiftRightOnce(v: nat, k: nat)
    ensures ShiftRight(v, k + 1) == ShiftRight(v / 2, k)
  {
    if k > 0 {
      ShiftRightOnce(v, k - 1);
    } else {
      assert ShiftRight(v, 0) == v;
    }
  }

  lemma {:induction false} AnnouncedBits(values: seq<Option<uint32>>, k: nat)
    requires k < |values|
    ensures Stored(Announced(values), k) <==> values[k].Some?
  {
    if k > 0 {
      ShiftRightOnce(Announced(values), k - 1);
      AnnouncedBits(values[1..], k - 1);
    }
  }

  /** A stored number, by the width of its field. */
  function Raw(data: seq<byte>, kind: Kind, at: nat): uint32
    requires at + Width(kind) <= |data|
  {
    if kind.Half? then Little16(data, at) else Little32(data, at)
  }

  lemma FieldReadsBack(data: seq<byte>, kind: Kind, at: nat, v: uint32)
    requires HoldsAt(data, at, FieldBytes(kind, Some(v)))
    requires kind.Half? ==> v < 0x1_0000
    ensures at + Width(kind) <= |data| && Raw(data, kind, at) == v
  {
    var b := FieldBytes(kind, Some(v));
    assert data[at] == data[at..at + Width(kind)][0] == b[0];
    assert data[at + 1] == data[at..at + Width(kind)][1] == b[1];
    if kind.Half? {
      assert v / 0x100 < 0x100;
    } else {
      assert data[at + 2] == data[at..at + Width(kind)][2] == b[2];
      assert data[at + 3] == data[at..at + Width(kind)][3] == b[3];
      WordFromBytes(v);
    }
  }

  lemma WordFromBytes(v: uint32)
    ensures v % 0x100 + 0x100 * (v / 0x100 % 0x100)
            + 0x1_0000 * (v / 0x1_0000 % 0x100) + 0x100_0000 * (v / 0x100_0000) == v
  {
    var a, b, c := v / 0x100, v / 0x100 / 0x100, v / 0x100 / 0x100 / 0x100;
    assert v / 0x1_0000 == b && v / 0x100_0000 == c;
  }

  /** The places of the fields of an encoded record are the lengths of the encoded prefixes. */
  lemma {:induction false} PlacesOfBody(p: Plan, values: seq<Option<uint32>>, n: nat)
    requires n <= |values| <= |p.layout| && p.word == Announced(values)
    ensures Place(p, n) == p.begin + |Body(p.layout, values[..n])|
  {
    if n > 0 {
      PlacesOfBody(p, values, n - 1);
      AnnouncedBits(values, n - 1);
      assert values[..n][..n - 1] == values[..n - 1];
    }
  }

  lemma {:induction false} BodyPrefix(layout: seq<Kind>, values: seq<Option<uint32>>, n: nat)
    requires n <= |values| <= |layout|
    ensures |Body(layout, values[..n])| <= |Body(layout, values)|
    ensures Body(layout, values)[..|Body(layout, values[..n])|] == Body(layout, values[..n])
  {
    if n == |values| {
      assert values[..n] == values;
    } else {
      var front := values[..|values| - 1];
      BodyPrefix(layout, front, n);
      assert front[..n] == values[..n];
    }
  }

  predicate HoldsAt(data: seq<byte>, begin: nat, part: seq<byte>) {
    begin + |part| <= |data| && data[begin..begin + |part|] == part
  }

  lemma PartOfPart(data: seq<byte>, begin: nat, whole: seq<byte>, at: nat, part: seq<byte>)
    requires HoldsAt(data, begin, whole) && HoldsAt(whole, at, part)
    ensures HoldsAt(data, begin + at, part)
  {
    forall i | 0 <= i < |part|
      ensures data[begin + at + i] == part[i]
    {
      assert data[begin..begin + |whole|][at + i] == data[begin + at + i];
      assert whole[at..at + |part|][i] == whole[at + i];
    }
  }

  /** The bytes of one announced field, inside the encoded record. */
  lemma FieldInBody(layout: seq<Kind>, values: seq<Option<uint32>>, k: nat)
    requires k < |values| <= |layout|
    ensures HoldsAt(Body(layout, values), |Body(layout, values[..k])|, FieldBytes(layout[k], values[k]))
  {
    var body, before, bytes := Body(layout, values), Body(layout, values[..k]), FieldBytes(layout[k], values[k]);
    BodyPrefix(layout, values, k + 1);
    assert values[..k + 1][..k] == values[..k];
    var both := Body(layout, values[..k + 1]);
    assert both == before + bytes;
    assert body[..|both|][|before|..] == body[|before|..|both|];
  }

  lemma BodyInFile(data: seq<byte>, p: Plan, values: seq<Option<uint32>>, k: nat)
    requires k < |values| == |p.layout| && p.word == Announced(values)
    requires HoldsAt(data, p.begin, Body(p.layout, values))
    ensures HoldsAt(data, Place(p, k), FieldBytes(p.layout[k], values[k]))
  {
    var at, part := |Body(p.layout, values[..k])|, FieldBytes(p.layout[k], values[k]);
    PlacesOfBody(p, values, k);
    assert HoldsAt(data, p.begin + at, part) by {
      FieldInBody(p.layout, values, k);
      PartOfPart(data, p.begin, Body(p.layout, values), at, part);
    }
  }

  /**
   * Whatever stands before and behind an encoded record, each field reads back to the value it was given,
   * and a field that was left out is not announced.
   */
  lemma RecordRoundTrip(data: seq<byte>, p: Plan, values: seq<Option<uint32>>, k: nat)
    requires k < |values| == |p.layout| && p.word == Announced(values)
    requires HoldsAt(data, p.begin, Body(p.layout, values))
    requires p.layout[k].Half? && values[k].Some? ==> values[k].value < 0x1_0000
    ensures Stored(p.word, k) <==> values[k].Some?
    ensures values[k].Some? ==>
              Place(p, k) + Width(p.layout[k]) <= |data| && Raw(data, p.layout[k], Place(p, k)) == values[k].value
  {
    AnnouncedBits(values, k);
    BodyInFile(data, p, values, k);
    if values[k].Some? {
      FieldReadsBack(data, p.layout[k], Place(p, k), values[k].value);
    }
  }

  /** A value fits its field: half words have 16 bits, and text offsets do not lead before the file. */
  predicate Encodable(p: Plan, values: seq<Option<uint32>>)
    requires |values| == |p.layout|
  {
    forall k :: 0 <= k < |values| && values[k].Some? ==>
      && (p.layout[k].Half? ==> values[k].value < 0x1_0000)
      && (p.layout[k].Text? ==> p.base + Signed32(values[k].value) >= 0)
  }

  /** The file holds the record with exactly the given fields stored. */
  predicate HoldsRecord(data: seq<byte>, p: Plan, values: seq<Option<uint32>>) {
    && |values| == |p.layout| && p.word == Announced(values) && Encodable(p, values)
    && HoldsAt(data, p.begin, Body(p.layout, values))
  }

  /** Every encoded record parses. */
  lemma {:induction false} EncodedRecordFits(data: seq<byte>, p: Plan, values: seq<Option<uint32>>, n: nat)
    requires HoldsRecord(data, p, values) && n <= |p.layout|
    ensures Fits(data, p, n)
  {
    if n > 0 {
      EncodedRecordFits(data, p, values, n - 1);
      RecordRoundTrip(data, p, values, n - 1);
    }
  }

  /** The value of a number field: zero when it is not stored. */
  function Given(value: Option<uint32>): uint32 {
    if value.Some? then value.value else 0
  }

  lemma HalfReadsBack(data: seq<byte>, p: Plan, values: seq<Option<uint32>>, k: nat)
    requires HoldsRecord(data, p, values) && k < |p.layout| && p.layout[k].Half?
    ensures FieldFits(data, p, k) && HalfValue(data, p, k, 0) == Given(values[k])
  {
    RecordRoundTrip(data, p, values, k);
  }

  lemma LongReadsBack(data: seq<byte>, p: Plan, values: seq<Option<uint32>>, k: nat)
    requires HoldsRecord(data, p, values) && k < |p.layout| && p.layout[k].Long?
    ensures FieldFits(data, p, k) && LongValue(data, p, k, 0) == Signed32(Given(values[k]))
  {
    RecordRoundTrip(data, p, values, k);
  }

  /** The text that a stored offset leads to. */
  function Named(data: seq<byte>, p: Plan, value: Option<uint32>): Option<seq<byte>>
    requires value.Some? ==> p.base + Signed32(value.value) >= 0
  {
    if value.Some? then TextAt(data, p.base + Signed32(value.value)) else None
  }

  lemma OffsetReadsBack(data: seq<byte>, p: Plan, values: seq<Option<uint32>>, k: nat)
    requires HoldsRecord(data, p, values) && k < |p.layout| && p.layout[k].Text?
    ensures FieldFits(data, p, k) && (Stored(p.word, k) <==> values[k].Some?)
    ensures values[k].Some? ==> Little32(data, Place(p, k)) == values[k].value
  {
    RecordRoundTrip(data, p, values, k);
  }

  lemma TextReadsBack(data: seq<byte>, p: Plan, values: seq<Option<uint32>>, k: nat)
    requires HoldsRecord(data, p, values) && k < |p.layout| && p.layout[k].Text?
    ensures FieldFits(data, p, k) && TextValue(data, p, k) == Named(data, p, values[k])
  {
    OffsetReadsBack(data, p, values, k);
  }

  // ---------------------------------------------------------------------
  // The cursor
  // ---------------------------------------------------------------------

  class Reader {
    const data: seq<byte>
    var pos: nat
    var ok: bool
    /** The record being read, how many of its possible fields are behind the cursor, and `ok` at its begin. */
    ghost var plan: Plan
    ghost var count: nat
    ghost var sound: bool

    constructor (data: seq<byte>)
      ensures Valid() && this.data == data && ok && pos == 0
    {
      this.data := data;
      pos := 0;
      ok := true;
    }

    /** The cursor never passes the end of the file. */
    ghost predicate Valid()
      reads this`pos
    {
      pos <= |data|
    }

    /** Inside a record: the cursor stands at the place of the next field, unless some field did not fit. */
    ghost predicate InRecord(flags: uint32)
      reads this
    {
      && Valid()
      && count <= |plan.layout|
      && flags == ShiftRight(plan.word, count)
      && (ok <==> sound && Fits(data, plan, count))
      && (ok ==> pos == Place(plan, count))
    }

    predicate CanRead(n: nat)
      reads this`pos, this`ok
    {
      ok && pos <= |data| && n <= |data| - pos
    }

    method ReadU16() returns (value: uint16)
      requires Valid()
      modifies this`pos, this`ok
      ensures Valid() && ok == old(CanRead(2))
      ensures ok ==> pos == old(pos) + 2 && value == Little16(data, old(pos))
      ensures !ok ==> pos == old(pos) && value == 0
    {
      if !CanRead(2) {
        ok := false;
        return 0;
      }
      value := Little16(data, pos);
      pos := pos + 2;
    }

    method ReadI16() returns (value: int16)
      requires Valid()
      modifies this`pos, this`ok
      ensures Valid() && ok == old(CanRead(2))
      ensures ok ==> pos == old(pos) + 2 && value == Signed16(Little16(data, old(pos)))
      ensures !ok ==> pos == old(pos) && value == 0
    {
      var raw := ReadU16();
      value := Signed16(raw);
    }

    method ReadU32() returns (value: uint32)
      requires Valid()
      modifies this`pos, this`ok
      ensures Valid() && ok == old(CanRead(4))
      ensures ok ==> pos == old(pos) + 4 && value == Little32(data, old(pos))
      ensures !ok ==> pos == old(pos) && value == 0
    {
      if !CanRead(4) {
        ok := false;
        return 0;
      }
      value := Little32(data, pos);
      pos := pos + 4;
    }

    method ReadI32() returns (value: int32)
      requires Valid()
      modifies this`pos, this`ok
      ensures Valid() && ok == old(CanRead(4))
      ensures ok ==> pos == old(pos) + 4 && value == Signed32(Little32(data, old(pos)))
      ensures !ok ==> pos == old(pos) && value == 0
    {
      var raw := ReadU32();
      value := Signed32(raw);
    }

    method SeekTo(offset: nat) returns (done: bool)
      requires Valid()
      modifies this`pos, this`ok
      ensures Valid() && (done <==> offset <= |data|)
      ensures if done then pos == offset && ok == old(ok) else pos == old(pos) && !ok
    {
      if offset > |data| {
        ok := false;
        return false;
      }
      pos := offset;
      return true;
    }

    method StringAt(offset: nat) returns (text: Option<seq<byte>>)
      ensures text == TextAt(data, offset)
    {
      if offset >= |data| {
        return None;
      }
      var index := offset;
      while index < |data|
        invariant offset <= index <= |data|
        invariant FirstZero(data, index) == FirstZero(data, offset)
      {
        if data[index] == 0 {
          return Some(data[offset..index]);
        }
        index := index + 1;
      }
      return None;
    }

    /** From here on the fields of a record are read. */
    ghost method Open(layout: seq<Kind>, word: uint32, base: uint32)
      requires Valid()
      modifies this`plan, this`count, this`sound
      ensures InRecord(word) && plan == Plan(layout, word, pos, base) && count == 0 && sound == ok
    {
      plan, count, sound := Plan(layout, word, pos, base), 0, ok;
    }

    method NextFlag(flags: uint32) returns (announced: bool, rest: uint32)
      requires InRecord(flags)
      ensures announced <==> Stored(plan.word, count)
      ensures rest == ShiftRight(plan.word, count + 1)
    {
      announced := flags % 2 == 1;
      rest := flags / 2;
    }

    method ReadFlagI32(flags: uint32, fallback: int32) returns (value: int32, rest: uint32)
      requires InRecord(flags) && count < |plan.layout| && plan.layout[count].Long?
      modifies this`pos, this`ok, this`count
      ensures InRecord(rest) && count == old(count) + 1
      ensures ok ==> old(ok) && FieldFits(data, plan, old(count))
      ensures ok ==> value == LongValue(data, plan, old(count), fallback)
    {
      var announced;
      announced, rest := NextFlag(flags);
      value := fallback;
      if announced {
        value := ReadI32();
      }
      count := count + 1;
    }

    method ReadFlagU16(flags: uint32, fallback: uint16) returns (value: uint16, rest: uint32)
      requires InRecord(flags) && count < |plan.layout| && plan.layout[count].Half?
      modifies this`pos, this`ok, this`count
      ensures InRecord(rest) && count == old(count) + 1
      ensures ok ==> old(ok) && FieldFits(data, plan, old(count))
      ensures ok ==> value == HalfValue(data, plan, old(count), fallback)
    {
      var announced;
      announced, rest := NextFlag(flags);
      value := fallback;
      if announced {
        value := ReadU16();
      }
      count := count + 1;
    }

    /** Every signed half-word field of these records has fallback zero. */
    method ReadFlagI16(flags: uint32) returns (value: int16, rest: uint32)
      requires InRecord(flags) && count < |plan.layout| && plan.layout[count].Half?
      modifies this`pos, this`ok, this`count
      ensures InRecord(rest) && count == old(count) + 1
      ensures ok ==> old(ok) && FieldFits(data, plan, old(count))
      ensures ok ==> value == Signed16(HalfValue(data, plan, old(count), 0))
    {
      var announced;
      announced, rest := NextFlag(flags);
      value := 0;
      if announced {
        value := ReadI16();
      }
      count := count + 1;
    }

    method ReadFlagString(flags: uint32, base: uint32) returns (text: Option<seq<byte>>, rest: uint32)
      requires InRecord(flags) && count < |plan.layout| && plan.layout[count].Text? && plan.base == base
      modifies this`pos, this`ok, this`count
      ensures InRecord(rest) && count == old(count) + 1
      ensures ok ==> old(ok) && FieldFits(data, plan, old(count))
      ensures ok ==> text == TextValue(data, plan, old(count))
    {
      var announced;
      announced, rest := NextFlag(flags);
      text := None;
      if announced {
        var relative := ReadI32();
        var absolute: int64 := base + relative;
        if !ok || absolute < 0 {
          ok := false;
        } else {
          text := StringAt(absolute);
        }
      }
      count := count + 1;
    }
  }
}
