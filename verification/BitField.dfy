/** The EGS51 signal decoder: two ways of cutting an unsigned field out of a big-endian payload. */
module BitField {
  import opened Words

  // ---------------------------------------------------------------------
  // Shifts by one bit at a time, and what they mean as arithmetic
  // ---------------------------------------------------------------------

  function Pow2(n: nat): (p: nat)
    ensures p >= 1
  {
    if n == 0 then 1 else 2 * Pow2(n - 1)
  }

  /** `v >> k` */
  function ShiftRight(v: nat, k: nat): (r: nat)
    ensures r <= v
  {
    if k == 0 then v else ShiftRight(v, k - 1) / 2
  }

  /** `v << k`, unbounded */
  function ShiftLeft(v: nat, k: nat): nat {
    if k == 0 then v else 2 * ShiftLeft(v, k - 1)
  }

  /** The `k` lowest bits of `v`. */
  function LowBits(v: nat, k: nat): (r: nat)
    ensures r < Pow2(k)
  {
    if k == 0 then 0 else 2 * LowBits(v / 2, k - 1) + v % 2
  }

  lemma ProductBounds(x: int, d: int)
    requires d > 0
    ensures x >= 1 ==> x * d >= d
    ensures x <= -1 ==> x * d <= -d
  {
    assert x * d == (x - 1) * d + d;
    assert x * d == (x + 1) * d - d;
  }

  lemma QuotientUnique(a: int, d: int, q: int, r: int)
    requires d > 0 && 0 <= r < d && a == q * d + r
    ensures a / d == q && a % d == r
  {
    var q', r' := a / d, a % d;
    assert a == q' * d + r';
    assert (q' - q) * d == q' * d - q * d;
    ProductBounds(q' - q, d);
  }

  lemma QuotientBy2d(a: nat, d: int)
    requires d > 0
    ensures a / (2 * d) == a / d / 2
  {
    var q, r := a / d, a % d;
    var h := q / 2;
    assert a == q * d + r;
    assert q * d == h * (2 * d) + (q % 2) * d;
    assert (q % 2) * d == if q % 2 == 1 then d else 0;
    QuotientUnique(a, 2 * d, h, (q % 2) * d + r);
  }

  lemma RemainderBy2d(a: nat, d: int)
    requires d > 0
    ensures a % (2 * d) == 2 * (a / 2 % d) + a % 2
  {
    var q, r := a / 2 / d, a / 2 % d;
    assert a / 2 == q * d + r;
    assert q * (2 * d) == 2 * (q * d);
    QuotientUnique(a, 2 * d, q, 2 * r + a % 2);
  }

  lemma {:induction false} ShiftRightIsQuotient(v: nat, k: nat)
    ensures ShiftRight(v, k) == v / Pow2(k)
  {
    if k > 0 {
      ShiftRightIsQuotient(v, k - 1);
      QuotientBy2d(v, Pow2(k - 1));
    }
  }

  lemma {:induction false} LowBitsAreRemainder(v: nat, k: nat)
    ensures LowBits(v, k) == v % Pow2(k)
  {
    if k > 0 {
      LowBitsAreRemainder(v / 2, k - 1);
      RemainderBy2d(v, Pow2(k - 1));
    }
  }

  lemma {:induction false} ShiftLeftIsProduct(v: nat, k: nat)
    ensures ShiftLeft(v, k) == v * Pow2(k)
  {
    if k > 0 {
      ShiftLeftIsProduct(v, k - 1);
      assert v * (2 * Pow2(k - 1)) == 2 * (v * Pow2(k - 1));
    }
  }

  lemma {:induction false} ShiftRightTwice(v: nat, a: nat, b: nat)
    ensures ShiftRight(v, a + b) == ShiftRight(ShiftRight(v, a), b)
  {
    if b > 0 {
      ShiftRightTwice(v, a, b - 1);
    }
  }

  lemma {:induction false} Pow2Monotone(a: nat, b: nat)
    requires a <= b
    ensures Pow2(a) <= Pow2(b)
  {
    if a < b {
      Pow2Monotone(a, b - 1);
    }
  }

  // ---------------------------------------------------------------------
  // The reference meaning: one number, divided and reduced
  // ---------------------------------------------------------------------

  function BigEndian(p: seq<byte>): nat {
    if p == [] then 0 else BigEndian(p[..|p| - 1]) * 0x100 + p[|p| - 1]
  }

  /** `len` bits from bit `off` of the payload read as one big-endian number. */
  function Field(p: seq<byte>, off: nat, len: nat): nat
    requires off + len <= 8 * |p|
  {
    LowBits(ShiftRight(BigEndian(p), 8 * |p| - off - len), len)
  }

  /** A field is a quotient and a remainder of the payload's number. */
  lemma FieldIsDivMod(p: seq<byte>, off: nat, len: nat)
    requires off + len <= 8 * |p|
    ensures Field(p, off, len) == BigEndian(p) / Pow2(8 * |p| - off - len) % Pow2(len)
  {
    ShiftRightIsQuotient(BigEndian(p), 8 * |p| - off - len);
    LowBitsAreRemainder(ShiftRight(BigEndian(p), 8 * |p| - off - len), len);
  }

  /** Bit number `i` of the payload, the most significant bit of the first byte being bit 0. */
  function BitAt(p: seq<byte>, i: nat): (b: nat)
    requires i < 8 * |p|
    ensures b < 2
  {
    ShiftRight(p[i / 8], 7 - i % 8) % 2
  }

  lemma {:induction false} ShiftOutHigh(high: nat, low: nat, k: nat)
    ensures ShiftRight(ShiftLeft(high, k + 1) + low, k) % 2 == ShiftRight(low, k) % 2
  {
    if k > 0 {
      ShiftOutHigh(high, low / 2, k - 1);
      ShiftRightTwice(low, 1, k - 1);
      ShiftRightTwice(ShiftLeft(high, k + 1) + low, 1, k - 1);
      assert ShiftRight(low, 1) == low / 2;
      assert ShiftRight(ShiftLeft(high, k + 1) + low, 1) == ShiftLeft(high, k) + low / 2;
    }
  }

  lemma {:induction false} ShiftLeftTwice(v: nat, a: nat, b: nat)
    ensures ShiftLeft(v, a + b) == ShiftLeft(ShiftLeft(v, a), b)
  {
    if b > 0 {
      ShiftLeftTwice(v, a, b - 1);
    }
  }

  lemma EightLeft(v: nat)
    ensures ShiftLeft(v, 8) == v * 0x100
  {
    ShiftLeftIsProduct(v, 8);
    assert Pow2(8) == 0x100;
  }

  lemma EightRight(high: nat, last: byte)
    ensures ShiftRight(high * 0x100 + last, 8) == high
  {
    ShiftRightIsQuotient(high * 0x100 + last, 8);
    assert Pow2(8) == 0x100;
  }

  lemma {:induction false} BitOfNumber(p: seq<byte>, i: nat)
    requires i < 8 * |p|
    ensures BitAt(p, i) == ShiftRight(BigEndian(p), 8 * |p| - 1 - i) % 2
  {
    var front, last := p[..|p| - 1], p[|p| - 1];
    var high := BigEndian(front);
    if i < 8 * |front| {
      BitOfNumber(front, i);
      EightRight(high, last);
      ShiftRightTwice(BigEndian(p), 8, 8 * |front| - 1 - i);
    } else {
      var j := i - 8 * |front|;
      EightLeft(high);
      ShiftLeftTwice(high, j, 8 - j);
      ShiftOutHigh(ShiftLeft(high, j), last, 7 - j);
    }
  }

  /** The window as a bit string, read from its first bit. */
  function Bits(p: seq<byte>, off: nat, len: nat): nat
    requires off + len <= 8 * |p|
  {
    if len == 0 then 0 else 2 * Bits(p, off, len - 1) + BitAt(p, off + len - 1)
  }

  lemma {:induction false} BitsAreField(p: seq<byte>, off: nat, len: nat)
    requires off + len <= 8 * |p|
    ensures Bits(p, off, len) == Field(p, off, len)
  {
    if len > 0 {
      BitsAreField(p, off, len - 1);
      BitOfNumber(p, off + len - 1);
      ShiftRightTwice(BigEndian(p), 8 * |p| - off - len, 1);
    }
  }

  lemma {:induction false} BitsConcatenate(p: seq<byte>, off: nat, first: nat, second: nat)
    requires off + first + second <= 8 * |p|
    ensures Bits(p, off, first + second) == ShiftLeft(Bits(p, off, first), second) + Bits(p, off + first, second)
  {
    if second > 0 {
      BitsConcatenate(p, off, first, second - 1);
    }
  }

  /** Adjacent fields concatenate. */
  lemma FieldsConcatenate(p: seq<byte>, off: nat, first: nat, second: nat)
    requires off + first + second <= 8 * |p|
    ensures Field(p, off, first + second) == ShiftLeft(Field(p, off, first), second) + Field(p, off + first, second)
  {
    BitsConcatenate(p, off, first, second);
    BitsAreField(p, off, first + second);
    BitsAreField(p, off, first);
    BitsAreField(p, off + first, second);
  }

  lemma {:induction false} BitsReadTheirWindow(p: seq<byte>, q: seq<byte>, off: nat, len: nat)
    requires off + len <= 8 * |p| && off + len <= 8 * |q|
    requires forall i :: off <= i < off + len ==> BitAt(p, i) == BitAt(q, i)
    ensures Bits(p, off, len) == Bits(q, off, len)
  {
    if len > 0 {
      BitsReadTheirWindow(p, q, off, len - 1);
    }
  }

  /** A field depends on the bits of its own window and on nothing else, not even the payload's length. */
  lemma FieldReadsItsWindow(p: seq<byte>, q: seq<byte>, off: nat, len: nat)
    requires off + len <= 8 * |p| && off + len <= 8 * |q|
    requires forall i :: off <= i < off + len ==> BitAt(p, i) == BitAt(q, i)
    ensures Field(p, off, len) == Field(q, off, len)
  {
    BitsReadTheirWindow(p, q, off, len);
    BitsAreField(p, off, len);
    BitsAreField(q, off, len);
  }

  // ---------------------------------------------------------------------
  // The two extractors
  // ---------------------------------------------------------------------

  datatype SignalType = Bool | Number | Enum | Char | IsoTp

  /** What a row of an enumeration says about its raw value. */
  datatype Meaning = Meaning(name: string, description: string)

  datatype EnumValue = EnumValue(raw: uint64, meaning: Meaning)

  datatype Signal = Signal(
    name: string, bitOffset: uint16, bitLength: uint16,
    masked: bool, mask: uint64, maskWidth: byte,
    kind: SignalType, multiplier: real, offset: real, unit: string, values: seq<EnumValue>)

  lemma {:induction false} Pow2Shifted(k: nat, n: nat)
    ensures Pow2(k + n) == ShiftLeft(Pow2(k), n)
  {
    if n > 0 {
      Pow2Shifted(k, n - 1);
    }
  }

  lemma TimesPow2Of8(k: nat)
    ensures Pow2(k + 8) == 0x100 * Pow2(k)
  {
    Pow2Shifted(k, 8);
    EightLeft(Pow2(k));
  }

  lemma Pow2Of64()
    ensures Pow2(64) == TWO_64
  {
    TimesPow2Of8(0);
    TimesPow2Of8(8);
    TimesPow2Of8(16);
    TimesPow2Of8(24);
    TimesPow2Of8(32);
    TimesPow2Of8(40);
    TimesPow2Of8(48);
    TimesPow2Of8(56);
  }

  lemma {:induction false} BitsFit(p: seq<byte>, off: nat, len: nat)
    requires off + len <= 8 * |p| && len <= 64
    ensures Bits(p, off, len) < Pow2(len) <= TWO_64
  {
    if len > 0 {
      BitsFit(p, off, len - 1);
    }
    Pow2Of64();
    Pow2Monotone(len, 64);
  }

  lemma NoBitIsLost(p: seq<byte>, off: nat, b: nat)
    requires off + b < 8 * |p| && b < 64
    ensures 2 * Bits(p, off, b) % TWO_64 + BitAt(p, off + b) == Bits(p, off, b + 1) < TWO_64
  {
    BitsFit(p, off, b + 1);
  }

  /** Bit at a time, in a 64-bit accumulator. */
  method Plain(p: seq<byte>, off: uint16, len: uint16) returns (ok: bool, v: uint64)
    ensures ok <==> 1 <= len <= 64 && off + len <= 8 * |p|
    ensures ok ==> v == Field(p, off, len)
  {
    v := 0;
    if len == 0 || len > 64 || off + len > |p| * 8 {
      return false, 0;
    }
    for b := 0 to len
      invariant v == Bits(p, off, b)
    {
      var one := BitAt(p, off + b);
      NoBitIsLost(p, off, b);
      v := 2 * v % TWO_64 + one;
    }
    BitsAreField(p, off, len);
    return true, v;
  }

  /** `a & b` */
  function BitAnd(a: nat, b: nat): (r: nat)
    ensures r <= a
  {
    if a == 0 || b == 0 then 0 else 2 * BitAnd(a / 2, b / 2) + (if a % 2 == 1 && b % 2 == 1 then 1 else 0)
  }

  lemma {:induction false} AllOnesMask(a: nat, k: nat)
    ensures BitAnd(a, Pow2(k) - 1) == LowBits(a, k)
  {
    if k == 0 {
    } else if a == 0 {
      AllOnesMask(0, k - 1);
    } else {
      AllOnesMask(a / 2, k - 1);
      assert (Pow2(k) - 1) / 2 == Pow2(k - 1) - 1 && (Pow2(k) - 1) % 2 == 1;
    }
  }

  /** Each bit of the conjunction is set exactly when both operands have it. */
  lemma {:induction false} BitsOfAnd(a: nat, b: nat, k: nat)
    ensures ShiftRight(BitAnd(a, b), k) == BitAnd(ShiftRight(a, k), ShiftRight(b, k))
    ensures ShiftRight(BitAnd(a, b), k) % 2 == 1 <==> ShiftRight(a, k) % 2 == 1 && ShiftRight(b, k) % 2 == 1
  {
    if k > 0 {
      BitsOfAnd(a, b, k - 1);
      HalfOfAnd(ShiftRight(a, k - 1), ShiftRight(b, k - 1));
    }
  }

  lemma HalfOfAnd(a: nat, b: nat)
    ensures BitAnd(a, b) / 2 == BitAnd(a / 2, b / 2)
    ensures BitAnd(a / 2, b / 2) % 2 == 1 <==> a / 2 % 2 == 1 && b / 2 % 2 == 1
  {
  }

  /** When the masked extractor answers: an eight-byte frame and a mask that stays inside it. */
  predicate MaskedApplies(s: Signal, n: nat) {
    && n == 8 && s.masked && 1 <= s.maskWidth <= 64
    && s.bitOffset + s.bitLength <= 64
    && 64 - (s.bitOffset + s.bitLength) + s.maskWidth <= 64
  }

  lemma {:induction false} FrameFits(p: seq<byte>)
    requires |p| <= 8
    ensures BigEndian(p) < Pow2(8 * |p|) <= TWO_64
  {
    if p != [] {
      FrameFits(p[..|p| - 1]);
      TimesPow2Of8(8 * |p| - 8);
    }
    Pow2Of64();
    Pow2Monotone(8 * |p|, 64);
  }

  /** Shift and mask of one 64-bit frame. */
  method Masked(s: Signal, p: seq<byte>) returns (ok: bool, v: uint64)
    ensures ok <==> |p| == 8 && s.masked && 1 <= s.maskWidth <= s.bitOffset + s.bitLength <= 64
    ensures ok ==> v == BitAnd(ShiftRight(BigEndian(p), 64 - s.bitOffset - s.bitLength), s.mask)
    ensures ok && s.mask == Pow2(s.bitLength) - 1 ==> v == Field(p, s.bitOffset, s.bitLength)
  {
    if |p| != 8 || !s.masked || s.maskWidth == 0 || s.maskWidth > 64 {
      return false, 0;
    }
    if s.bitOffset + s.bitLength > 64 {
      return false, 0;
    }
    var frame: uint64 := 0;
    for i := 0 to 8
      invariant frame == BigEndian(p[..i])
    {
      assert p[..i + 1][..i] == p[..i];
      FrameFits(p[..i + 1]);
      frame := frame * 0x100 % TWO_64 + p[i];
    }
    assert p[..8] == p;
    var shift := 64 - (s.bitOffset + s.bitLength);
    if shift + s.maskWidth > 64 {
      return false, 0;
    }
    assert shift < 64;
    AllOnesMask(ShiftRight(frame, shift), s.bitLength);
    return true, BitAnd(ShiftRight(frame, shift), s.mask);
  }

  /** Both extractors cut the same field whenever both apply and the mask is full width. */
  lemma MaskedAgreesWithPlain(s: Signal, p: seq<byte>)
    requires MaskedApplies(s, |p|) && s.mask == Pow2(s.bitLength) - 1
    ensures BitAnd(ShiftRight(BigEndian(p), 64 - s.bitOffset - s.bitLength), s.mask)
         == BigEndian(p) / Pow2(64 - s.bitOffset - s.bitLength) % Pow2(s.bitLength)
  {
    AllOnesMask(ShiftRight(BigEndian(p), 64 - s.bitOffset - s.bitLength), s.bitLength);
    FieldIsDivMod(p, s.bitOffset, s.bitLength);
  }

  // ---------------------------------------------------------------------
  // What a raw value means
  // ---------------------------------------------------------------------

  datatype Decoded = Decoded(
    raw: uint64, unavailable: bool, unit: string,
    boolean: Option<bool>, physical: Option<real>, enumeration: Option<Meaning>, character: Option<byte>)

  const CELSIUS := "\U{B0}C"
  const INJECTED := "\U{B5}L/250ms"

  predicate IsTemperature(name: string) {
    name == "T_MOT" || name == "T_OEL" || name == "T_LUFT"
  }

  predicate IsTorque(name: string) {
    name == "IND_TORQUE" || name == "MIN_TORQUE" || name == "MAX_TORQUE" || name == "M_ESP"
  }

  /** Raw values that this controller family reserves for "signal not available". */
  predicate NotAvailable(name: string, raw: uint64) {
    || ((IsTemperature(name) || IsTorque(name)) && raw == 0xff)
    || ((name == "DHR" || name == "DHL") && raw == 0x3fff)
    || (name == "PW" && raw > 250)
  }

  predicate SameRawNamed(s: Signal, raw: uint64, meaning: Meaning) {
    exists i :: 0 <= i < |s.values| && s.values[i] == EnumValue(raw, meaning)
             && forall j :: 0 <= j < i ==> s.values[j].raw != raw
  }

  /** The value in the signal's own unit; floating point is modelled as exact arithmetic. */
  function Scaled(raw: uint64, multiplier: real, offset: real): real {
    raw as real * multiplier + offset
  }

  /** Scaling is the straight line through the offset that rises by the multiplier. */
  lemma ScaledIsLine(raw: nat, multiplier: real, offset: real)
    requires raw < TWO_64
    ensures Scaled(0, multiplier, offset) == offset
    ensures raw > 0 ==> Scaled(raw, multiplier, offset) == Scaled(raw - 1, multiplier, offset) + multiplier
  {
    if raw > 0 {
      assert raw as real == (raw - 1) as real + 1.0;
    }
  }

  predicate HasOwnScaling(name: string) {
    IsTemperature(name) || name == "VB"
  }

  /** An unavailable signal carries no value, an available one at most one kind of value. */
  predicate AtMostOneReading(d: Decoded) {
    && (d.unavailable ==> d.boolean.None? && d.physical.None? && d.enumeration.None? && d.character.None?)
    && (d.boolean.Some? ==> d.physical.None? && d.enumeration.None? && d.character.None?)
    && (d.physical.Some? ==> d.enumeration.None? && d.character.None?)
    && (d.enumeration.Some? ==> d.character.None?)
  }

  method DecodeSignal(s: Signal, p: seq<byte>) returns (ok: bool, d: Decoded)
    ensures ok <==> if s.masked then |p| == 8 && 1 <= s.maskWidth <= s.bitOffset + s.bitLength <= 64
                    else 1 <= s.bitLength <= 64 && s.bitOffset + s.bitLength <= 8 * |p|
    ensures ok && (s.masked ==> s.mask == Pow2(s.bitLength) - 1) ==> d.raw == Field(p, s.bitOffset, s.bitLength)
    ensures ok && s.masked ==>
              d.raw == BitAnd(ShiftRight(BigEndian(p), 64 - s.bitOffset - s.bitLength), s.mask)
    // the raw values that this controller family reserves
    ensures ok ==> (d.unavailable <==>
                    || (d.raw == 0xff && (s.name == "T_MOT" || s.name == "T_OEL" || s.name == "T_LUFT"
                                          || s.name == "IND_TORQUE" || s.name == "MIN_TORQUE" || s.name == "MAX_TORQUE"
                                          || s.name == "M_ESP"))
                    || (d.raw == 0x3fff && (s.name == "DHR" || s.name == "DHL"))
                    || (d.raw > 250 && s.name == "PW"))
    ensures ok ==> AtMostOneReading(d)
    // temperatures and the injected volume have their own scaling and unit, whatever the table says
    ensures ok && !d.unavailable && (s.name == "T_MOT" || s.name == "T_OEL" || s.name == "T_LUFT") ==>
              d.physical == Some(d.raw as real - 40.0) && d.unit == "\U{B0}C"
    ensures ok && !d.unavailable && s.name == "VB" ==>
              d.physical == Some(d.raw as real * 0.868) && d.unit == "\U{B5}L/250ms"
    ensures ok && (d.unavailable || !HasOwnScaling(s.name)) ==> d.unit == s.unit
    ensures ok && !d.unavailable && !HasOwnScaling(s.name) ==>
              match s.kind
              case Bool => d.boolean == Some(d.raw != 0)
              case Number => d.physical == Some(Scaled(d.raw, s.multiplier, s.offset))
              case Enum => if d.enumeration.None? then forall i :: 0 <= i < |s.values| ==> s.values[i].raw != d.raw
                           else exists i :: 0 <= i < |s.values| && s.values[i] == EnumValue(d.raw, d.enumeration.value)
                                            && forall j :: 0 <= j < i ==> s.values[j].raw != d.raw
              case Char => d.character == if d.raw < 256 then Some(d.raw) else None
              case IsoTp => d.boolean.None? && d.physical.None? && d.enumeration.None? && d.character.None?
    ensures HasOwnScaling(s.name) <==> s.name == "T_MOT" || s.name == "T_OEL" || s.name == "T_LUFT" || s.name == "VB"
  {
    var raw: uint64;
    if s.masked {
      ok, raw := Masked(s, p);
    } else {
      ok, raw := Plain(p, s.bitOffset, s.bitLength);
    }
    d := Interpret(s, raw);
  }

  /** What an available signal's reading must be, given its name, its type and its rows. */
  predicate ReadingOf(s: Signal, d: Decoded) {
    !d.unavailable ==>
      // a name with its own scaling overrides the table's type, multiplier and offset
      && (IsTemperature(s.name) ==> d.physical == Some(Scaled(d.raw, 1.0, -40.0)))
      && (s.name == "VB" ==> d.physical == Some(Scaled(d.raw, 0.868, 0.0)))
      && (!HasOwnScaling(s.name) ==>
            match s.kind
            case Bool => d.boolean == Some(d.raw != 0)
            case Number => d.physical == Some(Scaled(d.raw, s.multiplier, s.offset))
            // an enumeration is named by its first matching row, and only when there is one
            case Enum => if d.enumeration.Some? then SameRawNamed(s, d.raw, d.enumeration.value)
                         else forall i :: 0 <= i < |s.values| ==> s.values[i].raw != d.raw
            case Char => d.character == if d.raw <= 0xff then Some(d.raw) else None
            case IsoTp => d.boolean.None? && d.physical.None? && d.enumeration.None? && d.character.None?)
  }

  /** The unit is the table's, except for an available value whose name has its own scaling. */
  predicate UnitOf(s: Signal, d: Decoded) {
    if d.unavailable || !HasOwnScaling(s.name) then d.unit == s.unit
    else d.unit == if IsTemperature(s.name) then CELSIUS else INJECTED
  }

  method Interpret(s: Signal, raw: uint64) returns (d: Decoded)
    ensures d.raw == raw
    ensures AtMostOneReading(d) && (d.unavailable <==> NotAvailable(s.name, raw))
    ensures ReadingOf(s, d) && UnitOf(s, d)
  {
    d := Decoded(raw, false, s.unit, None, None, None, None);
    if IsTemperature(s.name) && raw == 255 {
      d := d.(unavailable := true);
      return;
    }
    if (s.name == "DHR" || s.name == "DHL") && raw == 0x3fff {
      d := d.(unavailable := true);
      return;
    }
    if s.name == "PW" && raw > 250 {
      d := d.(unavailable := true);
      return;
    }
    if IsTorque(s.name) && raw == 255 {
      d := d.(unavailable := true);
      return;
    }
    if IsTemperature(s.name) {
      d := d.(physical := Some(Scaled(raw, 1.0, -40.0)), unit := CELSIUS);
      return;
    }
    if s.name == "VB" {
      d := d.(physical := Some(Scaled(raw, 0.868, 0.0)), unit := INJECTED);
      return;
    }
    match s.kind
    case Bool =>
      d := d.(boolean := Some(raw != 0));
    case Number =>
      d := d.(physical := Some(Scaled(raw, s.multiplier, s.offset)));
    case Enum =>
      for i := 0 to |s.values|
        invariant d == Decoded(raw, false, s.unit, None, None, None, None)
        invariant forall j :: 0 <= j < i ==> s.values[j].raw != raw
      {
        if s.values[i].raw == raw {
          d := d.(enumeration := Some(s.values[i].meaning));
          break;
        }
      }
    case Char =>
      if raw <= 0xff {
        d := d.(character := Some(raw));
      }
    case IsoTp =>
  }
}
