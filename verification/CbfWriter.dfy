/**
 * A writer of CBF files: any number of ECUs with any number of services, each record with any choice of stored fields.
 * Extracting a written file gives back the reads that its services ask for, in order.
 */
module CbfWriter {
  import opened Words
  import opened BitField
  import opened CbfReader
  import opened CbfRecords
  import opened CbfExtract
  import opened CbfPlain
  import opened Requests

  // ---------------------------------------------------------------------
  // What is written
  // ---------------------------------------------------------------------

  function Absent(n: nat): (values: seq<Option<uint32>>)
    ensures |values| == n && forall k :: 0 <= k < n ==> values[k] == None
  {
    seq(n, _ => None)
  }

  function Zeros(n: nat): (z: seq<byte>)
    ensures |z| == n
  {
    seq(n, _ => 0)
  }

  /** Half words have 16 bits, and text offsets lead forward. */
  predicate FieldsFit(layout: seq<Kind>, fields: seq<Option<uint32>>) {
    && |fields| == |layout|
    && forall k :: 0 <= k < |fields| && fields[k].Some? ==>
         && (layout[k].Half? ==> fields[k].value < 0x1_0000)
         && (layout[k].Text? ==> fields[k].value < 0x8000_0000)
  }

  type Name = name: seq<byte> | 0 !in name
  type Message = m: seq<byte> | |m| < 0x8000
  type EntrySize = n: int | 14 <= n < 0x8000_0000 witness 14
  type Stub = s: seq<byte> | |s| == 0x410 witness Zeros(0x410)
  type Pool = p: seq<byte> | p != [] witness [0]
  type ServiceFields = v: seq<Option<uint32>> | FieldsFit(SERVICE_LAYOUT, v) witness Absent(20)
  type EcuFields = v: seq<Option<uint32>> | FieldsFit(ECU_LAYOUT, v) witness Absent(25)
  type CffFields = v: seq<Option<uint32>> |
    FieldsFit(CFF_LAYOUT, v) && v[0].Some? && 400 <= v[0].value < 0x8000_0000 witness Absent(11)[0 := Some(400)]

  /** A service; `fields` are its stored fields, those for name and request aside. */
  datatype Service = Service(name: Name, fields: ServiceFields, request: Message)

  /** An ECU; `fields` are its stored fields, those for name and service table aside. */
  datatype Ecu = Ecu(name: Name, fields: EcuFields, entrySize: EntrySize, services: seq<Service>)

  /** A file; `fields` are the stored fields of its header, those for the ECU table and the string pool aside. */
  datatype File = File(stub: Stub, fields: CffFields, ecus: seq<Ecu>, pool: Pool)

  // ---------------------------------------------------------------------
  // The reads of a file
  // ---------------------------------------------------------------------

  /** The row that a service of class 5 adds, if it is executable and its request is a read. */
  function RowOf(ecu: seq<byte>, s: Service): (rows: seq<Row>)
  {
    if s.fields[3] == Some(5) && Given(s.fields[4]) != 0 && WireRead(s.request).Some? then
      [Row(ecu, WireRead(s.request).value, s.name, Given(s.fields[5]), Given(s.fields[6]))]
    else []
  }

  function ServiceRows(ecu: seq<byte>, services: seq<Service>): seq<Row>
  {
    if services == [] then []
    else ServiceRows(ecu, services[..|services| - 1]) + RowOf(ecu, services[|services| - 1])
  }

  function FileRows(ecus: seq<Ecu>): seq<Row>
  {
    if ecus == [] then []
    else
      var last := ecus[|ecus| - 1];
      FileRows(ecus[..|ecus| - 1]) + ServiceRows(last.name, last.services)
  }

  // ---------------------------------------------------------------------
  // Bytes
  // ---------------------------------------------------------------------

  /** A number as a field holds it. */
  function Number(v: nat): Option<uint32> {
    Some(if v < TWO_32 then v else 0)
  }

  function Word(v: nat): (b: seq<byte>)
    ensures |b| == 4
  {
    FieldBytes(Long, Number(v))
  }

  lemma WordReads(data: seq<byte>, at: nat, b: seq<byte>, v: nat)
    requires HoldsAt(data, at, b) && b == Word(v) && v < TWO_32
    ensures at + |b| <= |data| && Raw(data, Long, at) == v
  {
    FieldReadsBack(data, Long, at, v);
  }

  lemma {:induction false} BodyBound(layout: seq<Kind>, values: seq<Option<uint32>>)
    requires |values| <= |layout|
    ensures |Body(layout, values)| <= 4 * |values|
  {
    if values != [] {
      BodyBound(layout, values[..|values| - 1]);
    }
  }

  /** Which fields are stored decides how long the body is. */
  lemma {:induction false} SameLength(layout: seq<Kind>, a: seq<Option<uint32>>, b: seq<Option<uint32>>)
    requires |a| == |b| <= |layout| && forall k :: 0 <= k < |a| ==> (a[k].Some? <==> b[k].Some?)
    ensures |Body(layout, a)| == |Body(layout, b)|
  {
    if a != [] {
      SameLength(layout, a[..|a| - 1], b[..|b| - 1]);
    }
  }

  lemma {:induction false} AnnouncedBound(values: seq<Option<uint32>>)
    ensures Announced(values) < Pow2(|values|)
  {
    if values != [] {
      AnnouncedBound(values[1..]);
    }
  }

  lemma WordSizes()
    ensures Pow2(16) == 0x1_0000 && Pow2(32) == TWO_32
  {
    TimesPow2Of8(0);
    TimesPow2Of8(8);
    TimesPow2Of8(16);
    TimesPow2Of8(24);
  }

  lemma FlagsFit(values: seq<Option<uint32>>)
    ensures |values| <= 16 ==> Announced(values) < 0x1_0000
    ensures |values| <= 32 ==> Announced(values) < TWO_32
  {
    AnnouncedBound(values);
    WordSizes();
    if |values| <= 16 {
      Pow2Monotone(|values|, 16);
    }
    if |values| <= 32 {
      Pow2Monotone(|values|, 32);
    }
  }

  // ---------------------------------------------------------------------
  // Parts
  // ---------------------------------------------------------------------

  lemma HoldsLonger(data: seq<byte>, more: seq<byte>, at: nat, part: seq<byte>)
    requires HoldsAt(data, at, part)
    ensures HoldsAt(data + more, at, part)
  {
    assert (data + more)[at..at + |part|] == data[at..at + |part|];
  }

  lemma {:induction false} FlatHolds(parts: seq<seq<byte>>, k: nat)
    requires k < |parts|
    ensures HoldsAt(Flat(parts), |Flat(parts[..k])|, parts[k])
  {
    var front, last := parts[..|parts| - 1], parts[|parts| - 1];
    if k == |parts| - 1 {
      assert (Flat(front) + last)[|Flat(front)|..] == last;
    } else {
      FlatHolds(front, k);
      assert front[..k] == parts[..k];
      HoldsLonger(Flat(front), last, |Flat(parts[..k])|, parts[k]);
    }
  }

  /** A part of a section of the file. */
  lemma PartHolds(data: seq<byte>, at: nat, parts: seq<seq<byte>>, k: nat)
    requires HoldsAt(data, at, Flat(parts)) && k < |parts|
    ensures HoldsAt(data, at + |Flat(parts[..k])|, parts[k])
  {
    FlatHolds(parts, k);
    PartOfPart(data, at, Flat(parts), |Flat(parts[..k])|, parts[k]);
  }

  lemma PartStands(data: seq<byte>, at: nat, parts: seq<seq<byte>>, k: nat, place: nat, part: seq<byte>)
    requires HoldsAt(data, at, Flat(parts)) && k < |parts| && part == parts[k] && place == at + |Flat(parts[..k])|
    ensures HoldsAt(data, place, part)
  {
    PartHolds(data, at, parts, k);
  }

  lemma PrefixLengths(a: seq<byte>, b: seq<byte>, c: seq<byte>, d: seq<byte>, e: seq<byte>)
    ensures var p := [a, b, c, d, e];
            && |Flat(p[..0])| == 0 && |Flat(p[..1])| == |a| && |Flat(p[..2])| == |a| + |b|
            && |Flat(p[..3])| == |a| + |b| + |c| && |Flat(p[..4])| == |a| + |b| + |c| + |d|
  {
    var p := [a, b, c, d, e];
    assert p[..0] == [];
    FlatNext(p, 0);
    FlatNext(p, 1);
    FlatNext(p, 2);
    FlatNext(p, 3);
  }

  /** Where each of five parts begins. */
  lemma FivePartsStand(data: seq<byte>, at: nat, a: seq<byte>, b: seq<byte>, c: seq<byte>, d: seq<byte>, e: seq<byte>)
    requires HoldsAt(data, at, Flat([a, b, c, d, e]))
    ensures HoldsAt(data, at, a) && HoldsAt(data, at + |a|, b) && HoldsAt(data, at + |a| + |b|, c)
    ensures HoldsAt(data, at + |a| + |b| + |c|, d) && HoldsAt(data, at + |a| + |b| + |c| + |d|, e)
  {
    var p := [a, b, c, d, e];
    PrefixLengths(a, b, c, d, e);
    PartStands(data, at, p, 0, at, a);
    PartStands(data, at, p, 1, at + |a|, b);
    PartStands(data, at, p, 2, at + |a| + |b|, c);
    PartStands(data, at, p, 3, at + |a| + |b| + |c|, d);
    PartStands(data, at, p, 4, at + |a| + |b| + |c| + |d|, e);
  }

  lemma FiveLengths(a: seq<byte>, b: seq<byte>, c: seq<byte>, d: seq<byte>, e: seq<byte>)
    ensures |Flat([a, b, c, d, e])| == |a| + |b| + |c| + |d| + |e|
  {
    var p := [a, b, c, d, e];
    PrefixLengths(a, b, c, d, e);
    FlatNext(p, 4);
    assert p[..5] == p;
  }

  // ---------------------------------------------------------------------
  // Names
  // ---------------------------------------------------------------------

  lemma {:induction false} FirstZeroIs(data: seq<byte>, at: nat, end: nat)
    requires at <= end < |data| && data[end] == 0 && forall i :: at <= i < end ==> data[i] != 0
    ensures FirstZero(data, at) == end
    decreases end - at
  {
    if at < end {
      FirstZeroIs(data, at + 1, end);
    }
  }

  lemma NameReads(data: seq<byte>, at: nat, name: seq<byte>)
    requires HoldsAt(data, at, name + [0]) && 0 !in name
    ensures TextAt(data, at) == Some(name)
  {
    var text := data[at..at + |name| + 1];
    assert data[at + |name|] == text[|name|] == 0;
    forall i | at <= i < at + |name|
      ensures data[i] == name[i - at]
    {
      assert data[i] == text[i - at] == (name + [0])[i - at];
    }
    FirstZeroIs(data, at, at + |name|);
    assert data[at..at + |name|] == name;
  }

  // ---------------------------------------------------------------------
  // Records
  // ---------------------------------------------------------------------

  /** A record: its flag word, some further bytes, the stored fields, and two things behind them. */
  function RecordBytes(layout: seq<Kind>, values: seq<Option<uint32>>, gap: nat, first: seq<byte>, second: seq<byte>)
    : seq<byte>
    requires |values| == |layout|
  {
    Flat([Word(Announced(values)), Zeros(gap), Body(layout, values), first, second])
  }

  lemma RecordStands(data: seq<byte>, base: nat, layout: seq<Kind>, values: seq<Option<uint32>>, gap: nat,
                     first: seq<byte>, second: seq<byte>)
    requires |values| == |layout|
    requires HoldsAt(data, base, RecordBytes(layout, values, gap, first, second))
    ensures base + 4 + gap <= |data| && HoldsAt(data, base, Word(Announced(values)))
    ensures HoldsAt(data, base + 4 + gap, Body(layout, values))
    ensures HoldsAt(data, base + 4 + gap + |Body(layout, values)|, first)
    ensures HoldsAt(data, base + 4 + gap + |Body(layout, values)| + |first|, second)
  {
    FivePartsStand(data, base, Word(Announced(values)), Zeros(gap), Body(layout, values), first, second);
  }

  lemma RecordIsHeld(data: seq<byte>, p: Plan, values: seq<Option<uint32>>)
    requires FieldsFit(p.layout, values) && p.word == Announced(values)
    requires HoldsAt(data, p.begin, Body(p.layout, values))
    ensures HoldsRecord(data, p, values)
  {
  }

  /** The text offset leads forward to the name. */
  predicate NameStands(data: seq<byte>, base: nat, value: Option<uint32>, name: seq<byte>) {
    value.Some? && value.value < 0x8000_0000 && 0 !in name && HoldsAt(data, base + value.value, name + [0])
  }

  lemma NamedReads(data: seq<byte>, p: Plan, value: Option<uint32>, name: seq<byte>)
    requires NameStands(data, p.base, value, name)
    ensures Named(data, p, value) == Some(name)
  {
    NameReads(data, p.base + value.value, name);
  }

  // ---------------------------------------------------------------------
  // Services
  // ---------------------------------------------------------------------

  /** Where the request stands in the record: behind the stored fields. */
  function RequestPlace(s: Service): (at: nat)
    ensures at <= 88
  {
    BodyBound(SERVICE_LAYOUT, s.fields[0 := Some(0)][18 := Some(0)][19 := Some(0)]);
    8 + |Body(SERVICE_LAYOUT, s.fields[0 := Some(0)][18 := Some(0)][19 := Some(0)])|
  }

  /** The fields as stored: the name stands behind the request. */
  function ServiceValues(s: Service): (values: seq<Option<uint32>>)
    ensures |values| == 20
  {
    var at := RequestPlace(s);
    s.fields[0 := Number(at + |s.request|)][18 := Number(|s.request|)][19 := Number(at)]
  }

  function ServiceBytes(s: Service): seq<byte>
  {
    RecordBytes(SERVICE_LAYOUT, ServiceValues(s), 4, s.request, s.name + [0])
  }

  lemma RequestPlaceIs(s: Service)
    ensures RequestPlace(s) == 8 + |Body(SERVICE_LAYOUT, ServiceValues(s))|
  {
    SameLength(SERVICE_LAYOUT, s.fields[0 := Some(0)][18 := Some(0)][19 := Some(0)], ServiceValues(s));
  }

  lemma ServiceValuesFit(s: Service)
    ensures FieldsFit(SERVICE_LAYOUT, ServiceValues(s))
  {
  }

  lemma ServiceStands(data: seq<byte>, base: nat, s: Service)
    requires HoldsAt(data, base, ServiceBytes(s))
    ensures base + 8 <= |data| && HoldsAt(data, base, Word(Announced(ServiceValues(s))))
    ensures HoldsAt(data, base + 8, Body(SERVICE_LAYOUT, ServiceValues(s)))
    ensures HoldsAt(data, base + RequestPlace(s), s.request)
    ensures HoldsAt(data, base + RequestPlace(s) + |s.request|, s.name + [0])
  {
    RequestPlaceIs(s);
    RecordStands(data, base, SERVICE_LAYOUT, ServiceValues(s), 4, s.request, s.name + [0]);
  }

  lemma ServiceIsStored(data: seq<byte>, base: uint32, s: Service)
    requires HoldsAt(data, base, ServiceBytes(s))
    ensures HoldsService(data, base, ServiceValues(s))
  {
    ServiceStands(data, base, s);
    FlagsFit(ServiceValues(s));
    WordReads(data, base, Word(Announced(ServiceValues(s))), Announced(ServiceValues(s)));
    ServiceValuesFit(s);
    RecordIsHeld(data, ServicePlan(data, base), ServiceValues(s));
  }

  /** A written service as the parser sees it. */
  function ServiceRead(s: Service): DiagService
  {
    DiagService(s.name, Given(s.fields[3]), Given(s.fields[4]), Given(s.fields[5]), Given(s.fields[6]),
                |s.request|, RequestPlace(s))
  }

  lemma ServiceValuesAre(s: Service)
    ensures var v := ServiceValues(s);
            && v[0] == Some(RequestPlace(s) + |s.request|)
            && v[18] == Some(|s.request|) && v[19] == Some(RequestPlace(s))
            && v[3] == s.fields[3] && v[4] == s.fields[4] && v[5] == s.fields[5] && v[6] == s.fields[6]
  {
  }

  lemma ServiceNameStands(data: seq<byte>, base: uint32, s: Service)
    requires HoldsAt(data, base + RequestPlace(s) + |s.request|, s.name + [0])
    ensures NameStands(data, base, ServiceValues(s)[0], s.name)
  {
    ServiceValuesAre(s);
  }

  lemma StoredServiceIsRead(data: seq<byte>, base: uint32, s: Service)
    requires HoldsService(data, base, ServiceValues(s))
    requires NameStands(data, base, ServiceValues(s)[0], s.name)
    ensures ServiceRecord(data, base) == Some(ServiceRead(s))
  {
    EncodedServiceReadsBack(data, base, ServiceValues(s));
    NamedReads(data, ServicePlan(data, base), ServiceValues(s)[0], s.name);
    ServiceValuesAre(s);
  }

  /** A written service reads back whole, whatever else is stored in its record. */
  lemma ServiceIsRead(data: seq<byte>, base: uint32, s: Service)
    requires HoldsAt(data, base, ServiceBytes(s))
    ensures ServiceRecord(data, base) == Some(ServiceRead(s))
  {
    ServiceStands(data, base, s);
    ServiceIsStored(data, base, s);
    ServiceNameStands(data, base, s);
    StoredServiceIsRead(data, base, s);
  }

  /** What a written service adds to the extraction. */
  function VerdictOf(ecu: seq<byte>, s: Service): Verdict
  {
    var rows := RowOf(ecu, s);
    if rows == [] then Pass else Read(rows[0])
  }

  lemma RequestIsFound(data: seq<byte>, base: uint32, s: Service)
    requires s.request != [] && HoldsAt(data, base + RequestPlace(s), s.request)
    ensures RequestAt(data, base, ServiceRead(s)) == Some(base + RequestPlace(s))
  {
  }

  lemma RequestIsJudged(data: seq<byte>, ecu: EcuHeader, base: uint32, s: Service)
    requires HoldsAt(data, base + RequestPlace(s), s.request)
    ensures RequestVerdict(data, ecu, base, ServiceRead(s)) == VerdictOf(ecu.qualifier, s)
  {
    if s.request != [] {
      RequestIsFound(data, base, s);
    }
  }

  // ---------------------------------------------------------------------
  // Tables
  // ---------------------------------------------------------------------

  lemma {:induction false} EqualPartsBegin(parts: seq<seq<byte>>, size: nat, j: nat)
    requires j <= |parts| && forall k :: 0 <= k < |parts| ==> |parts[k]| == size
    ensures |Flat(parts[..j])| == j * size
  {
    if j == 0 {
      assert parts[..0] == [];
    } else {
      EqualPartsBegin(parts, size, j - 1);
      FlatNext(parts, j - 1);
      assert (j - 1) * size + size == j * size;
    }
  }

  /** A signed offset from a place in the file, resolved to a place in the file that 32 bits can hold. */
  function Led(data: seq<byte>, from: nat, relative: uint32): Option<uint32> {
    var place := from + if relative < 0x8000_0000 then relative else relative - 0x1_0000_0000;
    if 0 <= place <= |data| && place < 0x1_0000_0000 then Some(place) else None
  }

  lemma ResolvedIsLed(data: seq<byte>, from: nat, relative: uint32)
    requires from <= INT64_MAX
    ensures InWord(Absolute(from, Signed32(relative), |data|)) == Led(data, from, relative)
  {
  }

  /** The entries of a table, each beginning with an offset. */
  predicate IsTable(entries: seq<seq<byte>>, offsets: seq<uint32>, size: nat) {
    && |entries| == |offsets|
    && forall k :: 0 <= k < |entries| ==> |entries[k]| == size >= 4 && entries[k][..4] == Word(offsets[k])
  }

  lemma EntryStarts(data: seq<byte>, at: nat, entry: seq<byte>, offset: uint32)
    requires HoldsAt(data, at, entry) && |entry| >= 4 && entry[..4] == Word(offset)
    ensures at + 4 <= |data| && Little32(data, at) == offset
  {
    assert HoldsAt(entry, 0, Word(offset));
    PartOfPart(data, at, entry, 0, Word(offset));
    WordReads(data, at, Word(offset), offset);
  }

  lemma EntryReads(data: seq<byte>, table: nat, entries: seq<seq<byte>>, offsets: seq<uint32>, size: nat, j: nat)
    requires IsTable(entries, offsets, size) && HoldsAt(data, table, Flat(entries)) && j < |entries|
    ensures table + j * size + size <= |data| && Little32(data, table + j * size) == offsets[j]
  {
    EqualPartsBegin(entries, size, j);
    PartHolds(data, table, entries, j);
    EntryStarts(data, table + j * size, entries[j], offsets[j]);
  }

  lemma EcuBaseIs(data: seq<byte>, cff: CffHeader, i: nat, table: nat, relative: uint32)
    requires CffIsUsable(cff) && table == cff.base + cff.ecuOffset && table + 4 * i + 4 <= |data|
    requires Little32(data, table + 4 * i) == relative
    ensures EcuBase(data, cff, i) == Led(data, table, relative)
  {
    ResolvedIsLed(data, table, relative);
  }

  /** Entry `i` of an ECU table, however long the table is, leads where its own offset says. */
  lemma EcuEntryLeads(data: seq<byte>, cff: CffHeader, entries: seq<seq<byte>>, offsets: seq<uint32>, i: nat)
    requires CffIsUsable(cff) && IsTable(entries, offsets, 4) && i < |entries|
    requires HoldsAt(data, cff.base + cff.ecuOffset, Flat(entries))
    ensures EcuBase(data, cff, i) == Led(data, cff.base + cff.ecuOffset, offsets[i])
  {
    EntryReads(data, cff.base + cff.ecuOffset, entries, offsets, 4, i);
    EcuBaseIs(data, cff, i, cff.base + cff.ecuOffset, offsets[i]);
  }

  /** The same for a service table, whose entries may be longer than the 14 bytes that are read. */
  lemma ServiceEntryLeads(data: seq<byte>, ecu: EcuHeader, entries: seq<seq<byte>>, offsets: seq<uint32>, j: nat)
    requires ecu.diagEntrySize >= 14 && IsTable(entries, offsets, ecu.diagEntrySize) && j < |entries|
    requires HoldsAt(data, ecu.diagBlock, Flat(entries))
    ensures ServiceAt(data, ecu, j) == Led(data, ecu.diagBlock, offsets[j])
  {
    EntryReads(data, ecu.diagBlock, entries, offsets, ecu.diagEntrySize, j);
    ResolvedIsLed(data, ecu.diagBlock, offsets[j]);
  }

  // ---------------------------------------------------------------------
  // Things behind their table
  // ---------------------------------------------------------------------

  /** Where the parts begin, counted from the table before them. */
  function Offsets(parts: seq<seq<byte>>, size: nat): (offsets: seq<uint32>)
    ensures |offsets| == |parts|
  {
    seq(|parts|, k requires 0 <= k < |parts| => Number(|parts| * size + |Flat(parts[..k])|).value)
  }

  function TableOf(parts: seq<seq<byte>>, size: nat): (entries: seq<seq<byte>>)
    requires size >= 4
    ensures IsTable(entries, Offsets(parts, size), size)
  {
    seq(|parts|, k requires 0 <= k < |parts| => Word(Offsets(parts, size)[k]) + Zeros(size - 4))
  }

  function Tabled(parts: seq<seq<byte>>, size: nat): seq<byte>
    requires size >= 4
  {
    Flat(TableOf(parts, size)) + Flat(parts)
  }

  lemma PairStands(data: seq<byte>, at: nat, a: seq<byte>, b: seq<byte>)
    requires HoldsAt(data, at, a + b)
    ensures HoldsAt(data, at, a) && HoldsAt(data, at + |a|, b)
  {
    PartOfPart(data, at, a + b, 0, a);
    PartOfPart(data, at, a + b, |a|, b);
  }

  lemma TableSize(parts: seq<seq<byte>>, size: nat)
    requires size >= 4
    ensures |Flat(TableOf(parts, size))| == |parts| * size
  {
    var table := TableOf(parts, size);
    EqualPartsBegin(table, size, |parts|);
    assert table[..|parts|] == table;
  }

  lemma ForwardIsLed(data: seq<byte>, from: nat, offset: nat)
    requires from + offset <= |data| < 0x8000_0000
    ensures Led(data, from, Number(offset).value) == Some(from + offset)
  {
  }

  /** Where part `k` stands behind the table. */
  function PartPlace(at: nat, parts: seq<seq<byte>>, size: nat, k: nat): nat
    requires size >= 4 && k < |parts|
  {
    at + |Flat(TableOf(parts, size))| + |Flat(parts[..k])|
  }

  /** Each entry of the table leads to its own part. */
  lemma TabledLeads(data: seq<byte>, at: nat, parts: seq<seq<byte>>, size: nat, k: nat)
    requires size >= 4 && HoldsAt(data, at, Tabled(parts, size)) && |data| < 0x8000_0000 && k < |parts|
    ensures HoldsAt(data, at, Flat(TableOf(parts, size)))
    ensures HoldsAt(data, PartPlace(at, parts, size, k), parts[k])
    ensures Led(data, at, Offsets(parts, size)[k]) == Some(PartPlace(at, parts, size, k))
  {
    PairStands(data, at, Flat(TableOf(parts, size)), Flat(parts));
    PartHolds(data, at + |Flat(TableOf(parts, size))|, parts, k);
    TableSize(parts, size);
    ForwardIsLed(data, at, |parts| * size + |Flat(parts[..k])|);
  }

  // ---------------------------------------------------------------------
  // ECUs
  // ---------------------------------------------------------------------

  function Records(services: seq<Service>): (parts: seq<seq<byte>>)
    ensures |parts| == |services| && forall j :: 0 <= j < |parts| ==> parts[j] == ServiceBytes(services[j])
  {
    seq(|services|, j requires 0 <= j < |services| => ServiceBytes(services[j]))
  }

  /** The service table of an ECU and the services behind it. */
  function Block(e: Ecu): seq<byte>
  {
    Tabled(Records(e.services), e.entrySize)
  }

  /** Each entry of a written service table yields its service. */
  lemma ServiceIsJudged(data: seq<byte>, ecu: EcuHeader, e: Ecu, j: nat)
    requires j < |e.services| && |data| < 0x8000_0000
    requires ecu.diagEntrySize == e.entrySize && HoldsAt(data, ecu.diagBlock, Block(e))
    ensures ServiceVerdict(data, ecu, j) == VerdictOf(ecu.qualifier, e.services[j])
  {
    var parts, s := Records(e.services), e.services[j];
    TabledLeads(data, ecu.diagBlock, parts, e.entrySize, j);
    ServiceEntryLeads(data, ecu, TableOf(parts, e.entrySize), Offsets(parts, e.entrySize), j);
    var base := PartPlace(ecu.diagBlock, parts, e.entrySize, j);
    ServiceIsRead(data, base, s);
    ServiceStands(data, base, s);
    RequestIsJudged(data, ecu, base, s);
    VerdictOfService(data, ecu, j, base, ServiceRead(s));
  }

  /** Where the name stands in the record: behind the stored fields. */
  function NamePlace(e: Ecu): (at: nat)
    ensures at <= 110
  {
    BodyBound(ECU_LAYOUT, e.fields[0 := Some(0)][21 := Some(0)][22 := Some(0)][23 := Some(0)]);
    10 + |Body(ECU_LAYOUT, e.fields[0 := Some(0)][21 := Some(0)][22 := Some(0)][23 := Some(0)])|
  }

  /** The fields as stored, for a service table `block` bytes behind the data base. */
  function EcuValues(e: Ecu, block: nat): (values: seq<Option<uint32>>)
    ensures |values| == 25
  {
    e.fields[0 := Number(NamePlace(e))][21 := Number(block)][22 := Number(|e.services|)][23 := Number(e.entrySize)]
  }

  function EcuBytes(e: Ecu, block: nat): seq<byte>
  {
    RecordBytes(ECU_LAYOUT, EcuValues(e, block), 6, [], e.name + [0])
  }

  lemma NamePlaceIs(e: Ecu, block: nat)
    ensures NamePlace(e) == 10 + |Body(ECU_LAYOUT, EcuValues(e, block))|
  {
    SameLength(ECU_LAYOUT, e.fields[0 := Some(0)][21 := Some(0)][22 := Some(0)][23 := Some(0)], EcuValues(e, block));
  }

  lemma EcuValuesFit(e: Ecu, block: nat)
    ensures FieldsFit(ECU_LAYOUT, EcuValues(e, block))
  {
  }

  lemma EcuValuesAre(e: Ecu, block: nat)
    requires block < TWO_32 && |e.services| < TWO_32 && e.entrySize < TWO_32
    ensures var v := EcuValues(e, block);
            && v[0] == Some(NamePlace(e)) && v[21] == Some(block)
            && v[22] == Some(|e.services|) && v[23] == Some(e.entrySize)
  {
  }

  lemma EcuStands(data: seq<byte>, base: nat, e: Ecu, block: nat)
    requires HoldsAt(data, base, EcuBytes(e, block))
    ensures base + 10 <= |data| && HoldsAt(data, base, Word(Announced(EcuValues(e, block))))
    ensures HoldsAt(data, base + 10, Body(ECU_LAYOUT, EcuValues(e, block)))
    ensures HoldsAt(data, base + NamePlace(e), e.name + [0])
  {
    NamePlaceIs(e, block);
    RecordStands(data, base, ECU_LAYOUT, EcuValues(e, block), 6, [], e.name + [0]);
  }

  lemma EcuIsStored(data: seq<byte>, base: uint32, values: seq<Option<uint32>>)
    requires FieldsFit(ECU_LAYOUT, values) && base + 10 <= |data| && Raw(data, Long, base) == Announced(values)
    requires HoldsAt(data, base + 10, Body(ECU_LAYOUT, values))
    ensures HoldsRecord(data, EcuPlan(data, base), values)
  {
    RecordIsHeld(data, EcuPlan(data, base), values);
  }

  lemma EcuNameStands(data: seq<byte>, base: uint32, e: Ecu, block: nat)
    requires HoldsAt(data, base + NamePlace(e), e.name + [0])
    ensures NameStands(data, base, EcuValues(e, block)[0], e.name)
  {
  }

  /** The numbers in a written ECU record resolve to its service table, its services and their entries' size. */
  lemma EcuNumbersRead(e: Ecu, block: nat, from: nat, limit: nat)
    requires from + block <= limit < 0x8000_0000 && |e.services| < 0x8000_0000
    ensures var v := EcuValues(e, block);
            && Absolute(from, Signed32(Given(v[21])), limit) == Some(from + block)
            && Signed32(Given(v[22])) == |e.services| && Signed32(Given(v[23])) == e.entrySize
  {
    EcuValuesAre(e, block);
  }

  lemma EcuFromFields(qualifier: Option<seq<byte>>, block: Option<nat>, count: int32, entrySize: int32, h: EcuHeader)
    requires qualifier == Some(h.qualifier) && block == Some(h.diagBlock)
    requires count == h.diagCount >= 0 && entrySize == h.diagEntrySize >= 14
    ensures EcuFrom(qualifier, block, count, entrySize) == Some(h)
  {
  }

  lemma StoredEcuIsRead(data: seq<byte>, base: uint32, cff: CffHeader, values: seq<Option<uint32>>, h: EcuHeader)
    requires base + 10 <= |data| && HoldsRecord(data, EcuPlan(data, base), values)
    requires cff.stringPoolSize > 0 && DataBase(cff) <= UINT32_MAX
    requires NameStands(data, base, values[0], h.qualifier)
    requires Absolute(DataBase(cff), Signed32(Given(values[21])), |data|) == Some(h.diagBlock)
    requires Signed32(Given(values[22])) == h.diagCount >= 0 && Signed32(Given(values[23])) == h.diagEntrySize >= 14
    ensures EcuRecord(data, base, cff) == Some(h)
  {
    NamedReads(data, EcuPlan(data, base), values[0], h.qualifier);
    EcuFromFields(Named(data, EcuPlan(data, base), values[0]),
                  Absolute(DataBase(cff), Signed32(Given(values[21])), |data|),
                  Signed32(Given(values[22])), Signed32(Given(values[23])), h);
    EncodedEcuReadsBack(data, base, cff, values);
  }

  lemma StandingEcuIsRead(data: seq<byte>, base: uint32, cff: CffHeader, values: seq<Option<uint32>>, word: seq<byte>,
                          h: EcuHeader)
    requires FieldsFit(ECU_LAYOUT, values) && HoldsAt(data, base, word) && word == Word(Announced(values))
    requires base + 10 <= |data| && HoldsAt(data, base + 10, Body(ECU_LAYOUT, values))
    requires cff.stringPoolSize > 0 && DataBase(cff) <= UINT32_MAX
    requires NameStands(data, base, values[0], h.qualifier)
    requires Absolute(DataBase(cff), Signed32(Given(values[21])), |data|) == Some(h.diagBlock)
    requires Signed32(Given(values[22])) == h.diagCount >= 0 && Signed32(Given(values[23])) == h.diagEntrySize >= 14
    ensures EcuRecord(data, base, cff) == Some(h)
  {
    FlagsFit(values);
    WordReads(data, base, word, Announced(values));
    EcuIsStored(data, base, values);
    StoredEcuIsRead(data, base, cff, values, h);
  }

  /** A written ECU record reads back: its name, its service table and how many entries that has. */
  lemma EcuIsRead(data: seq<byte>, base: uint32, cff: CffHeader, e: Ecu, block: nat, h: EcuHeader)
    requires HoldsAt(data, base, EcuBytes(e, block)) && |data| < 0x8000_0000
    requires cff.stringPoolSize > 0 && DataBase(cff) + block <= |data| && |e.services| < 0x8000_0000
    requires h == EcuHeader(e.name, DataBase(cff) + block, |e.services|, e.entrySize)
    ensures EcuRecord(data, base, cff) == Some(h)
  {
    EcuStands(data, base, e, block);
    EcuValuesFit(e, block);
    EcuNameStands(data, base, e, block);
    EcuNumbersRead(e, block, DataBase(cff), |data|);
    StandingEcuIsRead(data, base, cff, EcuValues(e, block), Word(Announced(EcuValues(e, block))), h);
  }

  // ---------------------------------------------------------------------
  // Headers
  // ---------------------------------------------------------------------

  /** A file: the stub, the length of the header block, the header, the rest of that block, a pool, and the data. */
  function Assembled(stub: seq<byte>, values: seq<Option<uint32>>, section: seq<byte>, pool: seq<byte>, rest: seq<byte>)
    : seq<byte>
    requires |values| == 11
  {
    Flat([stub, Word(2 + |Body(CFF_LAYOUT, values)| + |section|), FieldBytes(Half, Number(Announced(values))),
          Body(CFF_LAYOUT, values), section])
    + (pool + rest)
  }

  lemma AssembledStands(stub: seq<byte>, length: seq<byte>, flags: seq<byte>, body: seq<byte>, section: seq<byte>,
                        pool: seq<byte>, rest: seq<byte>)
    requires |stub| == 0x410 && |length| == 4 && |flags| == 2
    ensures var data := Flat([stub, length, flags, body, section]) + (pool + rest);
            && HoldsAt(data, 0x410, length) && HoldsAt(data, 0x414, flags) && HoldsAt(data, 0x416, body)
            && HoldsAt(data, 0x416 + |body|, section) && HoldsAt(data, 0x416 + |body| + |section| + |pool|, rest)
  {
    var head := Flat([stub, length, flags, body, section]);
    var data := head + (pool + rest);
    assert HoldsAt(data, 0, data);
    PairStands(data, 0, head, pool + rest);
    PairStands(data, |head|, pool, rest);
    FivePartsStand(data, 0, stub, length, flags, body, section);
    FiveLengths(stub, length, flags, body, section);
  }

  /** Stored fields of a header with `n` ECUs, whose table stands behind those fields, and a pool of this size. */
  predicate IsHeader(values: seq<Option<uint32>>, n: nat, pool: nat) {
    && FieldsFit(CFF_LAYOUT, values)
    && values[0].Some? && 400 <= values[0].value < 0x8000_0000 && values[2] == Some(n) && 0 < n < 4096
    && values[3] == Some(2 + |Body(CFF_LAYOUT, values)|) && values[5] == Some(pool) && 0 < pool < 0x8000_0000
  }

  function HeaderOf(values: seq<Option<uint32>>, n: nat, section: nat, pool: nat): (h: CffHeader)
    requires IsHeader(values, n, pool) && section < 0x8000_0000
    ensures CffIsUsable(h)
  {
    BodyBound(CFF_LAYOUT, values);
    var table := 2 + |Body(CFF_LAYOUT, values)|;
    CffHeader(table + section, 0x414, values[0].value, n, table, pool)
  }

  lemma HalfReads(data: seq<byte>, at: nat, b: seq<byte>, v: nat)
    requires HoldsAt(data, at, b) && b == FieldBytes(Half, Number(v)) && v < 0x1_0000
    ensures at + |b| <= |data| && Raw(data, Half, at) == v
  {
    FieldReadsBack(data, Half, at, v);
  }

  lemma HeaderIsStored(data: seq<byte>, values: seq<Option<uint32>>)
    requires FieldsFit(CFF_LAYOUT, values) && 0x416 <= |data| && Raw(data, Half, 0x414) == Announced(values)
    requires HoldsAt(data, 0x416, Body(CFF_LAYOUT, values))
    ensures HoldsRecord(data, CffPlan(data), values)
  {
    RecordIsHeld(data, CffPlan(data), values);
  }

  lemma StoredHeaderIsRead(data: seq<byte>, values: seq<Option<uint32>>, n: nat, section: nat, pool: nat)
    requires IsHeader(values, n, pool) && section < 0x8000_0000
    requires 0x416 <= |data| && HoldsRecord(data, CffPlan(data), values)
    requires Little32(data, 0x410) == 2 + |Body(CFF_LAYOUT, values)| + section
    ensures CffRecord(data) == Some(HeaderOf(values, n, section, pool))
  {
    EncodedCffReadsBack(data, values);
  }

  /** A header that stands behind the stub reads back. */
  lemma HeaderIsRead(data: seq<byte>, values: seq<Option<uint32>>, n: nat, section: nat, pool: nat, h: CffHeader)
    requires IsHeader(values, n, pool) && section < 0x8000_0000 && h == HeaderOf(values, n, section, pool)
    requires 0x416 <= |data| && Raw(data, Long, 0x410) == 2 + |Body(CFF_LAYOUT, values)| + section
    requires Raw(data, Half, 0x414) == Announced(values) && HoldsAt(data, 0x416, Body(CFF_LAYOUT, values))
    ensures CffRecord(data) == Some(h)
  {
    HeaderIsStored(data, values);
    StoredHeaderIsRead(data, values, n, section, pool);
  }

  lemma AssembledStandsAs(data: seq<byte>, stub: seq<byte>, values: seq<Option<uint32>>, section: seq<byte>,
                          pool: seq<byte>, rest: seq<byte>)
    requires |stub| == 0x410 && |values| == 11 && data == Assembled(stub, values, section, pool, rest)
    ensures var body := Body(CFF_LAYOUT, values);
            && HoldsAt(data, 0x410, Word(2 + |body| + |section|))
            && HoldsAt(data, 0x414, FieldBytes(Half, Number(Announced(values))))
            && HoldsAt(data, 0x416, body) && HoldsAt(data, 0x416 + |body|, section)
            && HoldsAt(data, 0x416 + |body| + |section| + |pool|, rest)
  {
    AssembledStands(stub, Word(2 + |Body(CFF_LAYOUT, values)| + |section|), FieldBytes(Half, Number(Announced(values))),
                    Body(CFF_LAYOUT, values), section, pool, rest);
  }

  lemma AssembledIsLonger(stub: seq<byte>, values: seq<Option<uint32>>, section: seq<byte>, pool: seq<byte>,
                          rest: seq<byte>)
    requires |stub| == 0x410 && |values| == 11
    ensures |section| + |pool| <= |Assembled(stub, values, section, pool, rest)|
  {
    AssembledStandsAs(Assembled(stub, values, section, pool, rest), stub, values, section, pool, rest);
  }

  /** An assembled file reads back: its header, and what that leads to. */
  lemma AssembledIsRead(data: seq<byte>, stub: seq<byte>, values: seq<Option<uint32>>, section: seq<byte>,
                        pool: seq<byte>, rest: seq<byte>, n: nat, h: CffHeader)
    requires |stub| == 0x410 && IsHeader(values, n, |pool|) && |section| < 0x8000_0000
    requires data == Assembled(stub, values, section, pool, rest) && h == HeaderOf(values, n, |section|, |pool|)
    ensures CffRecord(data) == Some(h) && HoldsAt(data, h.base + h.ecuOffset, section)
    ensures DataBase(h) >= 0 && HoldsAt(data, DataBase(h), rest)
  {
    var body := |Body(CFF_LAYOUT, values)|;
    AssembledStandsAs(data, stub, values, section, pool, rest);
    assert h.base + h.ecuOffset == 0x416 + body && DataBase(h) == 0x416 + body + |section| + |pool|;
    BodyBound(CFF_LAYOUT, values);
    FlagsFit(values);
    WordReads(data, 0x410, Word(2 + body + |section|), 2 + body + |section|);
    HalfReads(data, 0x414, FieldBytes(Half, Number(Announced(values))), Announced(values));
    HeaderIsRead(data, values, n, |section|, |pool|, h);
  }

  // ---------------------------------------------------------------------
  // Files
  // ---------------------------------------------------------------------

  function Blocks(ecus: seq<Ecu>): (parts: seq<seq<byte>>)
    ensures |parts| == |ecus| && forall i :: 0 <= i < |parts| ==> parts[i] == Block(ecus[i])
  {
    seq(|ecus|, i requires 0 <= i < |ecus| => Block(ecus[i]))
  }

  /** How far the service table of ECU `i` lies behind the data base. */
  function BlockOffset(ecus: seq<Ecu>, i: nat): nat
    requires i < |ecus|
  {
    |Flat(Blocks(ecus)[..i])|
  }

  function EcuRecords(ecus: seq<Ecu>): (parts: seq<seq<byte>>)
    ensures |parts| == |ecus|
    ensures forall i :: 0 <= i < |parts| ==> parts[i] == EcuBytes(ecus[i], BlockOffset(ecus, i))
  {
    seq(|ecus|, i requires 0 <= i < |ecus| => EcuBytes(ecus[i], BlockOffset(ecus, i)))
  }

  /** The ECU table and the ECU records behind it. */
  function EcuSection(ecus: seq<Ecu>): seq<byte>
  {
    Tabled(EcuRecords(ecus), 4)
  }

  function CffValues(f: File): (values: seq<Option<uint32>>)
    ensures |values| == 11
  {
    var table := 2 + |Body(CFF_LAYOUT, f.fields[2 := Some(0)][3 := Some(0)][5 := Some(0)])|;
    f.fields[2 := Number(|f.ecus|)][3 := Number(table)][5 := Number(|f.pool|)]
  }

  function Written(f: File): seq<byte>
  {
    Assembled(f.stub, CffValues(f), EcuSection(f.ecus), f.pool, Flat(Blocks(f.ecus)))
  }

  lemma CffValuesAreHeader(f: File)
    requires 0 < |f.ecus| < 4096 && |f.pool| < 0x8000_0000
    ensures IsHeader(CffValues(f), |f.ecus|, |f.pool|)
  {
    SameLength(CFF_LAYOUT, f.fields[2 := Some(0)][3 := Some(0)][5 := Some(0)], CffValues(f));
    BodyBound(CFF_LAYOUT, CffValues(f));
  }

  lemma ServicesAreFew(data: seq<byte>, at: nat, e: Ecu)
    requires HoldsAt(data, at, Block(e))
    ensures at <= |data| && |e.services| <= |data|
  {
    TableSize(Records(e.services), e.entrySize);
    ProductGrows(|e.services|, 1, e.entrySize);
  }

  /** An ECU table leads to the record behind it. */
  lemma TabledEcuLeads(data: seq<byte>, h: CffHeader, parts: seq<seq<byte>>, i: nat) returns (base: uint32)
    requires CffIsUsable(h) && |data| < 0x8000_0000 && i < |parts|
    requires HoldsAt(data, h.base + h.ecuOffset, Tabled(parts, 4))
    ensures EcuBase(data, h, i) == Some(base) && HoldsAt(data, base, parts[i])
  {
    TabledLeads(data, h.base + h.ecuOffset, parts, 4, i);
    EcuEntryLeads(data, h, TableOf(parts, 4), Offsets(parts, 4), i);
    base := PartPlace(h.base + h.ecuOffset, parts, 4, i);
  }

  /** Each entry of a written ECU table yields its ECU. */
  lemma EcuIsParsed(data: seq<byte>, h: CffHeader, parts: seq<seq<byte>>, i: nat, e: Ecu, block: nat, ecu: EcuHeader)
    requires CffIsUsable(h) && |data| < 0x8000_0000 && i < |parts|
    requires HoldsAt(data, h.base + h.ecuOffset, Tabled(parts, 4))
    requires parts[i] == EcuBytes(e, block) && |e.services| < 0x8000_0000
    requires DataBase(h) + block <= |data|
    requires ecu == EcuHeader(e.name, DataBase(h) + block, |e.services|, e.entrySize)
    ensures EcuAt(data, h, i) == Some(ecu)
  {
    var base := TabledEcuLeads(data, h, parts, i);
    EcuIsRead(data, base, h, e, block, ecu);
  }

  // ---------------------------------------------------------------------
  // Extraction
  // ---------------------------------------------------------------------

  function Verdicts(name: seq<byte>, services: seq<Service>): (vs: seq<Verdict>)
    ensures |vs| == |services| && forall j :: 0 <= j < |vs| ==> vs[j] == VerdictOf(name, services[j])
  {
    seq(|services|, j requires 0 <= j < |services| => VerdictOf(name, services[j]))
  }

  /** A written ECU adds its own verdicts. */
  lemma EcuIsJudged(data: seq<byte>, at: nat, ecu: EcuHeader, e: Ecu)
    requires |data| < 0x8000_0000 && HoldsAt(data, at, Block(e))
    requires ecu.qualifier == e.name && ecu.diagBlock == at && ecu.diagEntrySize == e.entrySize
    ensures EcuVerdicts(data, ecu, |e.services|) == Verdicts(e.name, e.services)
  {
    var vs := EcuVerdicts(data, ecu, |e.services|);
    forall j | 0 <= j < |vs|
      ensures vs[j] == Verdicts(e.name, e.services)[j]
    {
      ServiceIsJudged(data, ecu, e, j);
      assert vs[j] == ServiceVerdict(data, ecu, j);
    }
  }

  lemma PartIsJudged(data: seq<byte>, h: CffHeader, i: nat, ecu: EcuHeader, e: Ecu)
    requires CffIsUsable(h) && EcuAt(data, h, i) == Some(ecu) && ecu.diagCount == |e.services|
    requires EcuVerdicts(data, ecu, |e.services|) == Verdicts(e.name, e.services)
    ensures EcuPart(data, h, i) == Verdicts(e.name, e.services)
  {
  }

  /** Each ECU of a written file adds its own verdicts. */
  lemma EcuPartIsWritten(data: seq<byte>, h: CffHeader, parts: seq<seq<byte>>, i: nat, e: Ecu, block: nat, at: nat)
    requires CffIsUsable(h) && |data| < 0x8000_0000 && i < |parts|
    requires HoldsAt(data, h.base + h.ecuOffset, Tabled(parts, 4))
    requires parts[i] == EcuBytes(e, block)
    requires at == DataBase(h) + block && HoldsAt(data, at, Block(e))
    ensures EcuPart(data, h, i) == Verdicts(e.name, e.services)
  {
    ServicesAreFew(data, at, e);
    var ecu := EcuHeader(e.name, at, |e.services|, e.entrySize);
    EcuIsParsed(data, h, parts, i, e, block, ecu);
    EcuIsJudged(data, at, ecu, e);
    PartIsJudged(data, h, i, ecu, e);
  }

  function AllVerdicts(ecus: seq<Ecu>): (parts: seq<seq<Verdict>>)
    ensures |parts| == |ecus| && forall i :: 0 <= i < |parts| ==> parts[i] == Verdicts(ecus[i].name, ecus[i].services)
  {
    seq(|ecus|, i requires 0 <= i < |ecus| => Verdicts(ecus[i].name, ecus[i].services))
  }

  lemma VerdictIsEmitted(name: seq<byte>, s: Service, rows: seq<Row>)
    ensures Applied(None, Extract(true, rows), VerdictOf(name, s)) == Extract(true, rows + RowOf(name, s))
    ensures VerdictOf(name, s) != Stop
  {
    assert rows + [] == rows;
  }

  lemma ServiceIsEmitted(name: seq<byte>, s: Service, before: seq<Verdict>, rows: seq<Row>)
    requires Emitted(None, before) == Extract(true, rows) && Stop !in before
    ensures Emitted(None, before + [VerdictOf(name, s)]) == Extract(true, rows + RowOf(name, s))
    ensures Stop !in before + [VerdictOf(name, s)]
  {
    EmittedOneMore(None, before, VerdictOf(name, s));
    VerdictIsEmitted(name, s, rows);
  }

  lemma VerdictsGrow(name: seq<byte>, services: seq<Service>, s: Service)
    ensures Verdicts(name, services + [s]) == Verdicts(name, services) + [VerdictOf(name, s)]
  {
  }

  lemma {:induction false} ServicesAreEmitted(name: seq<byte>, services: seq<Service>)
    ensures Emitted(None, Verdicts(name, services)) == Extract(true, ServiceRows(name, services))
    ensures Stop !in Verdicts(name, services)
  {
    if services != [] {
      var front, last := services[..|services| - 1], services[|services| - 1];
      ServicesAreEmitted(name, front);
      VerdictsGrow(name, front, last);
      assert front + [last] == services;
      ServiceIsEmitted(name, last, Verdicts(name, front), ServiceRows(name, front));
    }
  }

  lemma VerdictsStep(ecus: seq<Ecu>)
    requires ecus != []
    ensures var last := ecus[|ecus| - 1];
            Flat(AllVerdicts(ecus)) == Flat(AllVerdicts(ecus[..|ecus| - 1])) + Verdicts(last.name, last.services)
  {
    assert AllVerdicts(ecus)[..|ecus| - 1] == AllVerdicts(ecus[..|ecus| - 1]);
  }

  lemma {:induction false} EcusAreEmitted(ecus: seq<Ecu>)
    ensures Emitted(None, Flat(AllVerdicts(ecus))) == Extract(true, FileRows(ecus)) && Stop !in Flat(AllVerdicts(ecus))
  {
    if ecus != [] {
      var front, last := ecus[..|ecus| - 1], ecus[|ecus| - 1];
      EcusAreEmitted(front);
      ServicesAreEmitted(last.name, last.services);
      VerdictsStep(ecus);
      PlainConcat(Flat(AllVerdicts(front)), Verdicts(last.name, last.services));
    }
  }

  /** The service tables, and the ECU records that lead to them. */
  predicate AreWritten(ecus: seq<Ecu>, records: seq<seq<byte>>, blocks: seq<seq<byte>>) {
    && |records| == |blocks| == |ecus|
    && (forall i :: 0 <= i < |ecus| ==> blocks[i] == Block(ecus[i]))
    && (forall i :: 0 <= i < |ecus| ==> records[i] == EcuBytes(ecus[i], |Flat(blocks[..i])|))
  }

  lemma PartIsWritten(data: seq<byte>, h: CffHeader, records: seq<seq<byte>>, blocks: seq<seq<byte>>, i: nat, e: Ecu,
                      from: nat, offset: nat, at: nat)
    requires CffIsUsable(h) && |data| < 0x8000_0000 && i < |records| == |blocks|
    requires HoldsAt(data, h.base + h.ecuOffset, Tabled(records, 4))
    requires from == DataBase(h) && HoldsAt(data, from, Flat(blocks))
    requires offset == |Flat(blocks[..i])| && at == from + offset
    requires blocks[i] == Block(e) && records[i] == EcuBytes(e, offset)
    ensures EcuPart(data, h, i) == Verdicts(e.name, e.services)
  {
    PartStands(data, from, blocks, i, at, Block(e));
    EcuPartIsWritten(data, h, records, i, e, offset, at);
  }

  lemma PartsAreWritten(data: seq<byte>, h: CffHeader, ecus: seq<Ecu>, records: seq<seq<byte>>, blocks: seq<seq<byte>>)
    requires CffIsUsable(h) && h.ecuCount == |ecus| && |data| < 0x8000_0000 && AreWritten(ecus, records, blocks)
    requires HoldsAt(data, h.base + h.ecuOffset, Tabled(records, 4))
    requires DataBase(h) >= 0 && HoldsAt(data, DataBase(h), Flat(blocks))
    ensures FileParts(data, h) == AllVerdicts(ecus)
  {
    var parts := FileParts(data, h);
    forall i | 0 <= i < |parts|
      ensures parts[i] == AllVerdicts(ecus)[i]
    {
      var from, offset := DataBase(h), |Flat(blocks[..i])|;
      PartIsWritten(data, h, records, blocks, i, ecus[i], from, offset, from + offset);
      assert parts[i] == EcuPart(data, h, i);
    }
  }

  lemma StandingIsExtracted(data: seq<byte>, h: CffHeader, ecus: seq<Ecu>, records: seq<seq<byte>>,
                            blocks: seq<seq<byte>>)
    requires CffIsUsable(h) && h.ecuCount == |ecus| && |data| < 0x8000_0000 && AreWritten(ecus, records, blocks)
    requires HoldsAt(data, h.base + h.ecuOffset, Tabled(records, 4))
    requires DataBase(h) >= 0 && HoldsAt(data, DataBase(h), Flat(blocks)) && CffRecord(data) == Some(h)
    ensures Extraction(data, None) == Extract(true, FileRows(ecus))
  {
    PartsAreWritten(data, h, ecus, records, blocks);
    EcusAreEmitted(ecus);
  }

  /** An assembled file whose sections are those of some ECUs is extracted to their reads. */
  lemma AssembledIsExtracted(stub: Stub, values: seq<Option<uint32>>, pool: Pool, ecus: seq<Ecu>,
                             records: seq<seq<byte>>, blocks: seq<seq<byte>>)
    requires |values| == 11 && AreWritten(ecus, records, blocks) && |pool| < 0x8000_0000
    requires IsHeader(values, |ecus|, |pool|)
    ensures var data := Assembled(stub, values, Tabled(records, 4), pool, Flat(blocks));
            |data| < 0x8000_0000 ==> Extraction(data, None) == Extract(true, FileRows(ecus))
  {
    var section, rest := Tabled(records, 4), Flat(blocks);
    var data := Assembled(stub, values, section, pool, rest);
    if |data| < 0x8000_0000 {
      AssembledIsLonger(stub, values, section, pool, rest);
      var h := HeaderOf(values, |ecus|, |section|, |pool|);
      AssembledIsRead(data, stub, values, section, pool, rest, |ecus|, h);
      StandingIsExtracted(data, h, ecus, records, blocks);
    }
  }

  /**
   * Any tree of ECUs and services, written with any choice of stored fields, is extracted to its end, and the rows are
   * exactly the reads that its executable data services ask for, in the order of the two tables.
   */
  lemma WrittenIsExtracted(f: File)
    requires 0 < |f.ecus| < 4096 && |Written(f)| < 0x8000_0000
    ensures Extraction(Written(f), None) == Extract(true, FileRows(f.ecus))
  {
    PoolIsShorter(f);
    CffValuesAreHeader(f);
    AssembledIsExtracted(f.stub, CffValues(f), f.pool, f.ecus, EcuRecords(f.ecus), Blocks(f.ecus));
  }

  lemma PoolIsShorter(f: File)
    ensures |f.pool| <= |Written(f)|
  {
    AssembledIsLonger(f.stub, CffValues(f), EcuSection(f.ecus), f.pool, Flat(Blocks(f.ecus)));
  }

  // ---------------------------------------------------------------------
  // A file with an unsafe read
  // ---------------------------------------------------------------------

  lemma RecordLength(layout: seq<Kind>, values: seq<Option<uint32>>, gap: nat, first: seq<byte>, second: seq<byte>)
    requires |values| == |layout|
    ensures |RecordBytes(layout, values, gap, first, second)| <= 4 + gap + 4 * |layout| + |first| + |second|
  {
    FiveLengths(Word(Announced(values)), Zeros(gap), Body(layout, values), first, second);
    BodyBound(layout, values);
  }

  lemma TabledLength(part: seq<byte>, size: nat)
    requires size >= 4
    ensures |Tabled([part], size)| == size + |part|
  {
    TableSize([part], size);
    FlatOne([part]);
  }

  lemma FlatOne<T>(parts: seq<seq<T>>)
    requires |parts| == 1
    ensures Flat(parts) == parts[0]
  {
    assert parts[..0] == [];
  }

  lemma AssembledLength(stub: seq<byte>, values: seq<Option<uint32>>, section: seq<byte>, pool: seq<byte>,
                        rest: seq<byte>)
    requires |stub| == 0x410 && |values| == 11
    ensures |Assembled(stub, values, section, pool, rest)| <= 0x416 + 44 + |section| + |pool| + |rest|
  {
    FiveLengths(stub, Word(2 + |Body(CFF_LAYOUT, values)| + |section|), FieldBytes(Half, Number(Announced(values))),
                Body(CFF_LAYOUT, values), section);
    BodyBound(CFF_LAYOUT, values);
  }

  /** One nameless executable data service of one nameless ECU, asking for local identifier zero. */
  function ServiceOfZero(): (s: Service)
  {
    Service([], Absent(20)[3 := Some(5)][4 := Some(1)], [0x21, 0])
  }

  function FileOfZero(): (f: File)
  {
    File(Zeros(0x410), Absent(11)[0 := Some(400)], [Ecu([], Absent(25), 14, [ServiceOfZero()])], [0])
  }

  lemma ServiceOfZeroIsShort()
    ensures |ServiceBytes(ServiceOfZero())| <= 91
  {
    var s := ServiceOfZero();
    RecordLength(SERVICE_LAYOUT, ServiceValues(s), 4, s.request, s.name + [0]);
  }

  lemma BlockOfZeroIsShort(e: Ecu)
    requires e.entrySize == 14 && e.services == [ServiceOfZero()]
    ensures |Flat(Blocks([e]))| <= 105
  {
    ServiceOfZeroIsShort();
    assert Records(e.services) == [ServiceBytes(ServiceOfZero())];
    TabledLength(ServiceBytes(ServiceOfZero()), 14);
    FlatOne(Blocks([e]));
  }

  lemma EcuOfZeroIsShort(e: Ecu)
    requires e.name == []
    ensures |EcuSection([e])| <= 115
  {
    RecordLength(ECU_LAYOUT, EcuValues(e, 0), 6, [], e.name + [0]);
    assert Blocks([e])[..0] == [];
    assert EcuRecords([e]) == [EcuBytes(e, 0)];
    TabledLength(EcuBytes(e, 0), 4);
  }

  lemma FileOfZeroIsShort()
    ensures |Written(FileOfZero())| < 0x8000_0000
  {
    var f := FileOfZero();
    BlockOfZeroIsShort(f.ecus[0]);
    EcuOfZeroIsShort(f.ecus[0]);
    AssembledLength(f.stub, CffValues(f), EcuSection(f.ecus), f.pool, Flat(Blocks(f.ecus)));
  }

  lemma RowsOfZero()
    ensures FileRows(FileOfZero().ecus) == [Row([], Request(0x21, 0), [], 0, 0)]
  {
    var e := FileOfZero().ecus[0];
    assert e.services[..0] == [] && [e][..0] == [];
    assert RowOf([], ServiceOfZero()) == [Row([], Request(0x21, 0), [], 0, 0)];
    assert ServiceRows(e.name, e.services) == [] + RowOf([], ServiceOfZero());
    assert FileRows([e]) == [] + ServiceRows(e.name, e.services);
  }

  /** A file from which an unsafe read is extracted, and nothing else. */
  lemma UnsafeReadIsExtracted()
    ensures Extraction(Written(FileOfZero()), None) == Extract(true, [Row([], Request(0x21, 0), [], 0, 0)])
    ensures !IsSafe(Request(0x21, 0))
  {
    FileOfZeroIsShort();
    WrittenIsExtracted(FileOfZero());
    RowsOfZero();
  }
}
