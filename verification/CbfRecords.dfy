/** The three records the extractor needs: the file header, an ECU and a diagnostic service. */
module CbfRecords {
  import opened Words
  import opened BitField
  import opened CbfReader

  const CFF_LAYOUT: seq<Kind> :=
    [Long, Long, Long, Long, Long, Long, Long, Long, Long, Text, Text]

  const ECU_LAYOUT: seq<Kind> :=
    [Text,
     Long, Long, Text, Long, Long, Long, Long, Text, Text, Text, Half, Half, Half, Long, Half, Long,
     Long, Long, Long, Long,
     Long, Long, Long, Long]

  const SERVICE_LAYOUT: seq<Kind> :=
    [Text, Long, Long, Half, Half, Half, Half,
     Long, Long, Long, Long, Long, Long, Text, Long, Long, Long, Long,
     Half, Long]

  datatype CffHeader = CffHeader(
    cffSize: uint32, base: uint32, version: int32, ecuCount: int32, ecuOffset: int32, stringPoolSize: int32)

  datatype EcuHeader = EcuHeader(qualifier: seq<byte>, diagBlock: uint32, diagCount: int32, diagEntrySize: int32)

  datatype DiagService = DiagService(
    qualifier: seq<byte>, kind: uint16, executable: uint16, clientAccess: uint16, securityAccess: uint16,
    requestCount: int16, requestOffset: int32)

  lemma {:induction false} FitsPrefix(data: seq<byte>, p: Plan, n: nat, k: nat)
    requires k <= n <= |p.layout| && Fits(data, p, n)
    ensures Fits(data, p, k)
  {
    if k < n {
      FitsPrefix(data, p, n - 1, k);
    }
  }

  // ---------------------------------------------------------------------
  // What the records say, field by field
  // ---------------------------------------------------------------------

  function CffPlan(data: seq<byte>): Plan
    requires STUB_SIZE + 6 <= |data|
  {
    Plan(CFF_LAYOUT, Little16(data, STUB_SIZE + 4), STUB_SIZE + 6, STUB_SIZE + 4)
  }

  predicate CffIsUsable(h: CffHeader) {
    h.version >= 400 && 0 < h.ecuCount < 4096 && h.ecuOffset > 0 && h.stringPoolSize > 0
  }

  function CffFields(data: seq<byte>): CffHeader
    requires STUB_SIZE + 6 <= |data| && Fits(data, CffPlan(data), |CffPlan(data).layout|)
  {
    var p := CffPlan(data);
    FitsUpTo(data, p, |p.layout|, 0);
    FitsUpTo(data, p, |p.layout|, 2);
    FitsUpTo(data, p, |p.layout|, 3);
    FitsUpTo(data, p, |p.layout|, 5);
    CffHeader(Little32(data, STUB_SIZE), STUB_SIZE + 4, LongValue(data, p, 0, 0), LongValue(data, p, 2, 0),
              LongValue(data, p, 3, 0), LongValue(data, p, 5, 0))
  }

  function CffRecord(data: seq<byte>): (h: Option<CffHeader>)
    ensures h.Some? ==> CffIsUsable(h.value)
  {
    if |data| < STUB_SIZE + 6 || !Fits(data, CffPlan(data), |CffPlan(data).layout|) then None
    else
      var h := CffFields(data);
      if CffIsUsable(h) then Some(h) else None
  }

  function EcuPlan(data: seq<byte>, base: uint32): Plan
    requires base + 10 <= |data|
  {
    Plan(ECU_LAYOUT, Little32(data, base), base + 10, base)
  }

  /** Where the data pools of the file begin. */
  function DataBase(cff: CffHeader): int {
    cff.stringPoolSize + STUB_SIZE + cff.cffSize + 4
  }

  /** An ECU header: it needs a named qualifier, a service block in the file and a usable entry size. */
  function EcuFrom(qualifier: Option<seq<byte>>, block: Option<nat>, count: int32, entrySize: int32)
    : Option<EcuHeader>
  {
    if count < 0 || entrySize < 14 || block.None? || block.value > UINT32_MAX || qualifier.None? then None
    else Some(EcuHeader(qualifier.value, block.value, count, entrySize))
  }

  function EcuFields(data: seq<byte>, p: Plan, dataBase: uint32): Option<EcuHeader>
    requires p.layout == ECU_LAYOUT && Fits(data, p, |p.layout|)
  {
    FitsUpTo(data, p, |p.layout|, 0);
    FitsUpTo(data, p, |p.layout|, 21);
    FitsUpTo(data, p, |p.layout|, 22);
    FitsUpTo(data, p, |p.layout|, 23);
    EcuFrom(TextValue(data, p, 0), Absolute(dataBase, LongValue(data, p, 21, 0), |data|),
            LongValue(data, p, 22, 0), LongValue(data, p, 23, 0))
  }

  function EcuRecord(data: seq<byte>, base: uint32, cff: CffHeader): (h: Option<EcuHeader>)
    requires cff.stringPoolSize > 0
    ensures h.Some? ==> h.value.diagCount >= 0 && h.value.diagEntrySize >= 14
  {
    if base + 10 > |data| || DataBase(cff) > UINT32_MAX then None
    else if !Fits(data, EcuPlan(data, base), |EcuPlan(data, base).layout|) then None
    else EcuFields(data, EcuPlan(data, base), DataBase(cff))
  }

  function ServicePlan(data: seq<byte>, base: uint32): Plan
    requires base + 8 <= |data|
  {
    Plan(SERVICE_LAYOUT, Little32(data, base), base + 8, base)
  }

  function ServiceFields(data: seq<byte>, p: Plan): Option<DiagService>
    requires p.layout == SERVICE_LAYOUT && Fits(data, p, |p.layout|)
  {
    FitsUpTo(data, p, |p.layout|, 0);
    FitsUpTo(data, p, |p.layout|, 3);
    FitsUpTo(data, p, |p.layout|, 4);
    FitsUpTo(data, p, |p.layout|, 5);
    FitsUpTo(data, p, |p.layout|, 6);
    FitsUpTo(data, p, |p.layout|, 18);
    FitsUpTo(data, p, |p.layout|, 19);
    var qualifier := TextValue(data, p, 0);
    if qualifier.None? then None
    else Some(DiagService(qualifier.value, HalfValue(data, p, 3, 0), HalfValue(data, p, 4, 0),
                          HalfValue(data, p, 5, 0), HalfValue(data, p, 6, 0),
                          Signed16(HalfValue(data, p, 18, 0)), LongValue(data, p, 19, 0)))
  }

  function ServiceRecord(data: seq<byte>, base: uint32): Option<DiagService> {
    if base + 8 > |data| || !Fits(data, ServicePlan(data, base), |ServicePlan(data, base).layout|) then None
    else ServiceFields(data, ServicePlan(data, base))
  }

  // ---------------------------------------------------------------------
  // Encoded records read back
  // ---------------------------------------------------------------------

  /** A file header written with any choice of stored fields reads back as written, absent numbers as zero. */
  lemma EncodedCffReadsBack(data: seq<byte>, values: seq<Option<uint32>>)
    requires STUB_SIZE + 6 <= |data| && HoldsRecord(data, CffPlan(data), values)
    ensures var h := CffHeader(Little32(data, STUB_SIZE), STUB_SIZE + 4, Signed32(Given(values[0])),
                               Signed32(Given(values[2])), Signed32(Given(values[3])), Signed32(Given(values[5])));
            CffRecord(data) == if h.version >= 400 && 0 < h.ecuCount < 4096 && h.ecuOffset > 0 && h.stringPoolSize > 0
                               then Some(h) else None
  {
    var p := CffPlan(data);
    EncodedRecordFits(data, p, values, |p.layout|);
    LongReadsBack(data, p, values, 0);
    LongReadsBack(data, p, values, 2);
    LongReadsBack(data, p, values, 3);
    LongReadsBack(data, p, values, 5);
  }

  lemma EcuFieldsReadBack(data: seq<byte>, p: Plan, values: seq<Option<uint32>>, dataBase: uint32)
    requires p.layout == ECU_LAYOUT && HoldsRecord(data, p, values) && Fits(data, p, |p.layout|)
    ensures EcuFields(data, p, dataBase) ==
            EcuFrom(Named(data, p, values[0]), Absolute(dataBase, Signed32(Given(values[21])), |data|),
                    Signed32(Given(values[22])), Signed32(Given(values[23])))
  {
    TextReadsBack(data, p, values, 0);
    LongReadsBack(data, p, values, 21);
    LongReadsBack(data, p, values, 22);
    LongReadsBack(data, p, values, 23);
  }

  /** An ECU record written with any choice of stored fields reads back as written. */
  lemma EncodedEcuReadsBack(data: seq<byte>, base: uint32, cff: CffHeader, values: seq<Option<uint32>>)
    requires base + 10 <= |data| && HoldsRecord(data, EcuPlan(data, base), values)
    requires cff.stringPoolSize > 0 && DataBase(cff) <= UINT32_MAX
    ensures DataBase(cff) == 0x414 + cff.cffSize + cff.stringPoolSize
    ensures EcuRecord(data, base, cff) ==
            EcuFrom(Named(data, EcuPlan(data, base), values[0]),
                    Absolute(DataBase(cff), Signed32(Given(values[21])), |data|),
                    Signed32(Given(values[22])), Signed32(Given(values[23])))
  {
    EncodedRecordFits(data, EcuPlan(data, base), values, 25);
    EcuFieldsReadBack(data, EcuPlan(data, base), values, DataBase(cff));
  }

  /** At `base` stands a service record: its flag word, four further bytes, and exactly the fields that are given. */
  predicate HoldsService(data: seq<byte>, base: uint32, values: seq<Option<uint32>>) {
    base + 8 <= |data| && HoldsRecord(data, ServicePlan(data, base), values)
  }

  /** What a stored service record says: absent numbers are zero, and without a named qualifier there is no service. */
  function ServiceOf(data: seq<byte>, base: uint32, values: seq<Option<uint32>>): Option<DiagService>
    requires HoldsService(data, base, values)
  {
    match Named(data, ServicePlan(data, base), values[0])
    case None => None
    case Some(name) =>
      Some(DiagService(name, Given(values[3]), Given(values[4]), Given(values[5]), Given(values[6]),
                       Signed16(Given(values[18])), Signed32(Given(values[19]))))
  }

  /** A service record written with any choice of stored fields reads back as written. */
  lemma EncodedServiceReadsBack(data: seq<byte>, base: uint32, values: seq<Option<uint32>>)
    requires HoldsService(data, base, values)
    ensures ServiceRecord(data, base) == ServiceOf(data, base, values)
  {
    var p := ServicePlan(data, base);
    EncodedRecordFits(data, p, values, |p.layout|);
    TextReadsBack(data, p, values, 0);
    HalfReadsBack(data, p, values, 3);
    HalfReadsBack(data, p, values, 4);
    HalfReadsBack(data, p, values, 5);
    HalfReadsBack(data, p, values, 6);
    HalfReadsBack(data, p, values, 18);
    LongReadsBack(data, p, values, 19);
  }

  // ---------------------------------------------------------------------
  // The parsers
  // ---------------------------------------------------------------------

  /** The signed sum of an offset and its base; the caller keeps it inside 64 bits. */
  method AddRelativeOffset(base: uint64, relative: int32, limit: nat) returns (absolute: Option<nat>)
    requires base <= INT64_MAX ==> base + relative <= INT64_MAX
    ensures absolute == Absolute(base, relative, limit)
  {
    if base > INT64_MAX {
      return None;
    }
    var resolved: int64 := base + relative;
    if resolved < 0 || resolved > limit {
      return None;
    }
    return Some(resolved);
  }

  /** Inside a record of the given layout, before field `k`. */
  ghost predicate AtField(reader: Reader, layout: seq<Kind>, base: uint32, flags: uint32, k: nat)
    reads reader
  {
    reader.InRecord(flags) && reader.plan.layout == layout && reader.plan.base == base && reader.count == k
  }

  method ReadCffCounts(reader: Reader, flags: uint32, base: uint32)
    returns (version: int32, ecuCount: int32, ecuOffset: int32, stringPoolSize: int32, rest: uint32)
    requires AtField(reader, CFF_LAYOUT, base, flags, 0)
    modifies reader`pos, reader`ok, reader`count
    ensures AtField(reader, CFF_LAYOUT, base, rest, 6) && (reader.ok ==> old(reader.ok))
    ensures reader.ok ==> forall k :: k in {0, 2, 3, 5} ==> FieldFits(reader.data, reader.plan, k)
    ensures reader.ok ==> version == LongValue(reader.data, reader.plan, 0, 0)
    ensures reader.ok ==> ecuCount == LongValue(reader.data, reader.plan, 2, 0)
    ensures reader.ok ==> ecuOffset == LongValue(reader.data, reader.plan, 3, 0)
    ensures reader.ok ==> stringPoolSize == LongValue(reader.data, reader.plan, 5, 0)
  {
    var skipped;
    version, rest := reader.ReadFlagI32(flags, 0);
    skipped, rest := reader.ReadFlagI32(rest, 0);
    ecuCount, rest := reader.ReadFlagI32(rest, 0);
    ecuOffset, rest := reader.ReadFlagI32(rest, 0);
    skipped, rest := reader.ReadFlagI32(rest, 0);
    stringPoolSize, rest := reader.ReadFlagI32(rest, 0);
  }

  method SkipCffTables(reader: Reader, flags: uint32, base: uint32) returns (rest: uint32)
    requires AtField(reader, CFF_LAYOUT, base, flags, 6)
    modifies reader`pos, reader`ok, reader`count
    ensures AtField(reader, CFF_LAYOUT, base, rest, 11) && (reader.ok ==> old(reader.ok))
  {
    var skipped, text;
    skipped, rest := reader.ReadFlagI32(flags, 0);
    skipped, rest := reader.ReadFlagI32(rest, 0);
    skipped, rest := reader.ReadFlagI32(rest, 0);
    text, rest := reader.ReadFlagString(rest, base);
    text, rest := reader.ReadFlagString(rest, base);
  }

  method ParseCffHeader(reader: Reader) returns (header: Option<CffHeader>)
    requires reader.Valid()
    modifies reader
    ensures reader.Valid() && (reader.ok ==> old(reader.ok)) && (header.Some? ==> reader.ok)
    ensures header == if old(reader.ok) then CffRecord(reader.data) else None
  {
    var found := reader.SeekTo(STUB_SIZE);
    if !found {
      return None;
    }
    var cffSize := reader.ReadU32();
    var base: uint32 := reader.pos;
    var flags: uint32;
    flags := reader.ReadU16();
    reader.Open(CFF_LAYOUT, flags, base);
    var version, ecuCount, ecuOffset, stringPoolSize;
    version, ecuCount, ecuOffset, stringPoolSize, flags := ReadCffCounts(reader, flags, base);
    flags := SkipCffTables(reader, flags, base);
    var h := CffHeader(cffSize, base, version, ecuCount, ecuOffset, stringPoolSize);
    if reader.ok && CffIsUsable(h) {
      return Some(h);
    }
    return None;
  }

  method SkipEcuNames(reader: Reader, flags: uint32, base: uint32) returns (rest: uint32)
    requires AtField(reader, ECU_LAYOUT, base, flags, 1)
    modifies reader`pos, reader`ok, reader`count
    ensures AtField(reader, ECU_LAYOUT, base, rest, 4) && (reader.ok ==> old(reader.ok))
  {
    var long, text;
    long, rest := reader.ReadFlagI32(flags, -1);
    long, rest := reader.ReadFlagI32(rest, -1);
    text, rest := reader.ReadFlagString(rest, base);
  }

  method SkipEcuTables(reader: Reader, flags: uint32, base: uint32) returns (rest: uint32)
    requires AtField(reader, ECU_LAYOUT, base, flags, 4)
    modifies reader`pos, reader`ok, reader`count
    ensures AtField(reader, ECU_LAYOUT, base, rest, 8) && (reader.ok ==> old(reader.ok))
  {
    var long;
    long, rest := reader.ReadFlagI32(flags, 0);
    long, rest := reader.ReadFlagI32(rest, 0);
    long, rest := reader.ReadFlagI32(rest, 0);
    long, rest := reader.ReadFlagI32(rest, 0);
  }

  method SkipEcuClasses(reader: Reader, flags: uint32, base: uint32) returns (rest: uint32)
    requires AtField(reader, ECU_LAYOUT, base, flags, 8)
    modifies reader`pos, reader`ok, reader`count
    ensures AtField(reader, ECU_LAYOUT, base, rest, 17) && (reader.ok ==> old(reader.ok))
  {
    var long, half, text;
    text, rest := reader.ReadFlagString(flags, base);
    text, rest := reader.ReadFlagString(rest, base);
    text, rest := reader.ReadFlagString(rest, base);
    half, rest := reader.ReadFlagI16(rest);
    half, rest := reader.ReadFlagI16(rest);
    half, rest := reader.ReadFlagI16(rest);
    long, rest := reader.ReadFlagI32(rest, 0);
    half, rest := reader.ReadFlagI16(rest);
    long, rest := reader.ReadFlagI32(rest, 0);
  }

  method SkipEcuPrefix(reader: Reader, flags: uint32, base: uint32) returns (fine: bool, rest: uint32)
    requires AtField(reader, ECU_LAYOUT, base, flags, 1)
    modifies reader`pos, reader`ok, reader`count
    ensures AtField(reader, ECU_LAYOUT, base, rest, 17)
    ensures fine == reader.ok && (reader.ok ==> old(reader.ok))
  {
    rest := SkipEcuNames(reader, flags, base);
    rest := SkipEcuTables(reader, rest, base);
    rest := SkipEcuClasses(reader, rest, base);
    fine := reader.ok;
  }

  /** The variant pool is skipped, then the pool of diagnostic services is located. */
  method ReadEcuPools(reader: Reader, flags: uint32, base: uint32)
    returns (relative: int32, entries: int32, entrySize: int32)
    requires AtField(reader, ECU_LAYOUT, base, flags, 17)
    modifies reader`pos, reader`ok, reader`count
    ensures AtField(reader, ECU_LAYOUT, base, ShiftRight(reader.plan.word, 25), 25) && (reader.ok ==> old(reader.ok))
    ensures reader.ok ==> forall k :: 21 <= k <= 23 ==> FieldFits(reader.data, reader.plan, k)
    ensures reader.ok ==> relative == LongValue(reader.data, reader.plan, 21, 0)
    ensures reader.ok ==> entries == LongValue(reader.data, reader.plan, 22, 0)
    ensures reader.ok ==> entrySize == LongValue(reader.data, reader.plan, 23, 0)
  {
    var skipped, rest;
    skipped, rest := reader.ReadFlagI32(flags, 0);
    skipped, rest := reader.ReadFlagI32(rest, 0);
    skipped, rest := reader.ReadFlagI32(rest, 0);
    skipped, rest := reader.ReadFlagI32(rest, 0);
    relative, rest := reader.ReadFlagI32(rest, 0);
    entries, rest := reader.ReadFlagI32(rest, 0);
    entrySize, rest := reader.ReadFlagI32(rest, 0);
    skipped, rest := reader.ReadFlagI32(rest, 0);
  }

  method ReadEcu(reader: Reader, flags: uint32, base: uint32, cff: CffHeader) returns (header: Option<EcuHeader>)
    requires AtField(reader, ECU_LAYOUT, base, flags, 0) && cff.stringPoolSize > 0
    modifies reader`pos, reader`ok, reader`count
    ensures reader.Valid() && (reader.ok ==> old(reader.ok)) && (header.Some? ==> reader.ok)
    ensures header == if reader.sound && DataBase(cff) <= UINT32_MAX
                         && Fits(reader.data, reader.plan, |reader.plan.layout|)
                      then EcuFields(reader.data, reader.plan, DataBase(cff)) else None
  {
    var qualifier, rest, fine;
    qualifier, rest := reader.ReadFlagString(flags, base);
    fine, rest := SkipEcuPrefix(reader, rest, base);
    if !fine {
      if reader.sound && Fits(reader.data, reader.plan, |reader.plan.layout|) {
        FitsPrefix(reader.data, reader.plan, |reader.plan.layout|, 17);
        assert false;
      }
      return None;
    }
    var dataBase: uint64 := DataBase(cff);
    if dataBase > UINT32_MAX {
      return None;
    }
    var relative, entries, entrySize := ReadEcuPools(reader, rest, base);
    if !reader.ok || entries < 0 || entrySize < 14 {
      return None;
    }
    var diagBlock := AddRelativeOffset(dataBase, relative, |reader.data|);
    if diagBlock.None? || diagBlock.value > UINT32_MAX || qualifier.None? {
      return None;
    }
    return Some(EcuHeader(qualifier.value, diagBlock.value, entries, entrySize));
  }

  method ParseEcuHeader(reader: Reader, base: uint32, cff: CffHeader) returns (header: Option<EcuHeader>)
    requires reader.Valid() && cff.stringPoolSize > 0
    modifies reader
    ensures reader.Valid() && (reader.ok ==> old(reader.ok)) && (header.Some? ==> reader.ok)
    ensures header == if old(reader.ok) then EcuRecord(reader.data, base, cff) else None
  {
    var found := reader.SeekTo(base);
    if !found {
      return None;
    }
    var flags := reader.ReadU32();
    var _ := reader.ReadU16();
    var _ := reader.ReadI32();
    reader.Open(ECU_LAYOUT, flags, base);
    assert reader.sound <==> old(reader.ok) && base + 10 <= |reader.data|;
    assert reader.sound ==> reader.plan == EcuPlan(reader.data, base);
    header := ReadEcu(reader, flags, base, cff);
  }

  method SkipServiceNames(reader: Reader, flags: uint32, base: uint32) returns (rest: uint32)
    requires AtField(reader, SERVICE_LAYOUT, base, flags, 1)
    modifies reader`pos, reader`ok, reader`count
    ensures AtField(reader, SERVICE_LAYOUT, base, rest, 3) && (reader.ok ==> old(reader.ok))
  {
    var long;
    long, rest := reader.ReadFlagI32(flags, -1);
    long, rest := reader.ReadFlagI32(rest, -1);
  }

  method ReadServiceClass(reader: Reader, flags: uint32, base: uint32)
    returns (kind: uint16, executable: uint16, rest: uint32)
    requires AtField(reader, SERVICE_LAYOUT, base, flags, 3)
    modifies reader`pos, reader`ok, reader`count
    ensures AtField(reader, SERVICE_LAYOUT, base, rest, 5) && (reader.ok ==> old(reader.ok))
    ensures reader.ok ==> FieldFits(reader.data, reader.plan, 3) && kind == HalfValue(reader.data, reader.plan, 3, 0)
    ensures reader.ok ==>
              FieldFits(reader.data, reader.plan, 4) && executable == HalfValue(reader.data, reader.plan, 4, 0)
  {
    kind, rest := reader.ReadFlagU16(flags, 0);
    executable, rest := reader.ReadFlagU16(rest, 0);
  }

  method ReadServiceAccess(reader: Reader, flags: uint32, base: uint32)
    returns (clientAccess: uint16, securityAccess: uint16, rest: uint32)
    requires AtField(reader, SERVICE_LAYOUT, base, flags, 5)
    modifies reader`pos, reader`ok, reader`count
    ensures AtField(reader, SERVICE_LAYOUT, base, rest, 7) && (reader.ok ==> old(reader.ok))
    ensures reader.ok ==>
              FieldFits(reader.data, reader.plan, 5) && clientAccess == HalfValue(reader.data, reader.plan, 5, 0)
    ensures reader.ok ==>
              FieldFits(reader.data, reader.plan, 6) && securityAccess == HalfValue(reader.data, reader.plan, 6, 0)
  {
    clientAccess, rest := reader.ReadFlagU16(flags, 0);
    securityAccess, rest := reader.ReadFlagU16(rest, 0);
  }

  method SkipServiceTables(reader: Reader, flags: uint32, base: uint32) returns (rest: uint32)
    requires AtField(reader, SERVICE_LAYOUT, base, flags, 7)
    modifies reader`pos, reader`ok, reader`count
    ensures AtField(reader, SERVICE_LAYOUT, base, rest, 18) && (reader.ok ==> old(reader.ok))
  {
    var skipped, text;
    skipped, rest := reader.ReadFlagI32(flags, 0);
    skipped, rest := reader.ReadFlagI32(rest, 0);
    skipped, rest := reader.ReadFlagI32(rest, 0);
    skipped, rest := reader.ReadFlagI32(rest, 0);
    skipped, rest := reader.ReadFlagI32(rest, 0);
    skipped, rest := reader.ReadFlagI32(rest, 0);
    text, rest := reader.ReadFlagString(rest, base);
    skipped, rest := reader.ReadFlagI32(rest, 0);
    skipped, rest := reader.ReadFlagI32(rest, 0);
    skipped, rest := reader.ReadFlagI32(rest, 0);
    skipped, rest := reader.ReadFlagI32(rest, 0);
  }

  method ReadServiceRequest(reader: Reader, flags: uint32, base: uint32) returns (size: int16, offset: int32)
    requires AtField(reader, SERVICE_LAYOUT, base, flags, 18)
    modifies reader`pos, reader`ok, reader`count
    ensures AtField(reader, SERVICE_LAYOUT, base, ShiftRight(reader.plan.word, 20), 20)
    ensures reader.ok ==> old(reader.ok)
    ensures reader.ok ==> forall k :: 18 <= k <= 19 ==> FieldFits(reader.data, reader.plan, k)
    ensures reader.ok ==> size == Signed16(HalfValue(reader.data, reader.plan, 18, 0))
    ensures reader.ok ==> offset == LongValue(reader.data, reader.plan, 19, 0)
  {
    var rest;
    size, rest := reader.ReadFlagI16(flags);
    offset, rest := reader.ReadFlagI32(rest, 0);
  }

  method ReadService(reader: Reader, flags: uint32, base: uint32) returns (service: Option<DiagService>)
    requires AtField(reader, SERVICE_LAYOUT, base, flags, 0)
    modifies reader`pos, reader`ok, reader`count
    ensures reader.Valid() && (reader.ok ==> old(reader.ok)) && (service.Some? ==> reader.ok)
    ensures service == if reader.sound && Fits(reader.data, reader.plan, |reader.plan.layout|)
                       then ServiceFields(reader.data, reader.plan) else None
  {
    var qualifier, kind, executable, clientAccess, securityAccess, rest;
    qualifier, rest := reader.ReadFlagString(flags, base);
    rest := SkipServiceNames(reader, rest, base);
    kind, executable, rest := ReadServiceClass(reader, rest, base);
    clientAccess, securityAccess, rest := ReadServiceAccess(reader, rest, base);
    rest := SkipServiceTables(reader, rest, base);
    var size, offset := ReadServiceRequest(reader, rest, base);
    if reader.ok && qualifier.Some? {
      return Some(DiagService(qualifier.value, kind, executable, clientAccess, securityAccess, size, offset));
    }
    return None;
  }

  method ParseService(reader: Reader, base: uint32) returns (service: Option<DiagService>)
    requires reader.Valid()
    modifies reader
    ensures reader.Valid() && (reader.ok ==> old(reader.ok)) && (service.Some? ==> reader.ok)
    ensures service == if old(reader.ok) then ServiceRecord(reader.data, base) else None
  {
    var found := reader.SeekTo(base);
    if !found {
      return None;
    }
    var flags := reader.ReadU32();
    var _ := reader.ReadU32();
    reader.Open(SERVICE_LAYOUT, flags, base);
    assert reader.sound <==> old(reader.ok) && base + 8 <= |reader.data|;
    assert reader.sound ==> reader.plan == ServicePlan(reader.data, base);
    service := ReadService(reader, flags, base);
  }
}
