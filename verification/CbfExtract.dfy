/** Extraction of direct reads from a CBF file: which rows are emitted, in which order, and when it gives up. */
module CbfExtract {
  import opened Words
  import opened CbfReader
  import opened CbfRecords
  import opened Requests
  import Hex

  /** In profile mode rows are deduplicated and carry a provenance text built from the source name. */
  datatype Profile = Profile(key: seq<byte>, source: seq<byte>)

  datatype Row = Row(
    ecu: seq<byte>, request: Request, qualifier: seq<byte>, clientAccess: uint16, securityAccess: uint16)

  /** What one service contributes: the end of the extraction, nothing, or a row. */
  datatype Verdict = Stop | Pass | Read(row: Row)

  const DATA_CLASS: uint16 := 5
  const PROVENANCE_CAPACITY: nat := 1024

  function Ascii(text: string): (bytes: seq<byte>)
    requires forall i :: 0 <= i < |text| ==> text[i] as int < 0x80
    ensures |bytes| == |text|
  {
    seq(|text|, i requires 0 <= i < |text| => text[i] as int)
  }

  /** A middle dot between blanks, in UTF-8. */
  const DOT: seq<byte> := [0x20, 0xc2, 0xb7, 0x20]

  /** The provenance text of a row in profile mode. */
  function Provenance(profile: Profile, row: Row): seq<byte> {
    HexIsAscii(row.request);
    Ascii("Mercedes Vediamo ") + profile.source + DOT + Ascii("CBF Data service ") + row.qualifier
    + DOT + Ascii(Hex.Padded(2, row.request.service)) + Ascii(" ") + Ascii(Hex.Padded(4, row.request.identifier))
  }

  lemma HexIsAscii(q: Request)
    ensures |Hex.Padded(2, q.service)| == 2 && |Hex.Padded(4, q.identifier)| == 4
    ensures forall i :: 0 <= i < 2 ==> Hex.Padded(2, q.service)[i] as int < 0x80
    ensures forall i :: 0 <= i < 4 ==> Hex.Padded(4, q.identifier)[i] as int < 0x80
  {
    Hex.PaddedIsPadded2(q.service);
    Hex.PaddedFour(q.identifier);
  }

  lemma ProvenanceLengthIs(profile: Profile, row: Row)
    ensures |Provenance(profile, row)| == ProvenanceLength(profile, row.qualifier)
  {
    HexIsAscii(row.request);
  }

  /** How long that text is. */
  function ProvenanceLength(profile: Profile, qualifier: seq<byte>): nat {
    17 + |profile.source| + 21 + |qualifier| + 4 + 7
  }

  // ---------------------------------------------------------------------
  // The services of a file
  // ---------------------------------------------------------------------

  function EcuTable(cff: CffHeader): nat
    requires CffIsUsable(cff)
  {
    cff.base + cff.ecuOffset
  }

  /** A resolved offset that a 32-bit base can hold. */
  function InWord(offset: Option<nat>): Option<uint32> {
    if offset.Some? && offset.value <= UINT32_MAX then Some(offset.value) else None
  }

  /** Where entry `i` of the ECU table leads. */
  function EcuBase(data: seq<byte>, cff: CffHeader, i: nat): Option<uint32>
    requires CffIsUsable(cff)
  {
    var entry := EcuTable(cff) + 4 * i;
    if entry + 4 > |data| then None
    else InWord(Absolute(EcuTable(cff), Signed32(Little32(data, entry)), |data|))
  }

  function EcuAt(data: seq<byte>, cff: CffHeader, i: nat): (ecu: Option<EcuHeader>)
    requires CffIsUsable(cff)
    ensures ecu.Some? ==> ecu.value.diagCount >= 0 && ecu.value.diagEntrySize >= 14
  {
    match EcuBase(data, cff, i)
    case None => None
    case Some(base) => EcuRecord(data, base, cff)
  }

  function EntryPlace(ecu: EcuHeader, j: nat): nat
    requires ecu.diagEntrySize >= 14
  {
    ecu.diagBlock + j * ecu.diagEntrySize
  }

  lemma {:induction false} ProductGrows(a: nat, b: nat, m: nat)
    requires b <= m
    ensures a * b <= a * m
  {
    if a > 0 {
      ProductGrows(a - 1, b, m);
    }
  }

  /** The place of a table entry is computed without wrapping around 64 bits. */
  lemma EntryPlaceBounds(ecu: EcuHeader, j: nat)
    requires ecu.diagEntrySize >= 14 && j < 0x8000_0000
    ensures ecu.diagBlock <= EntryPlace(ecu, j) <= 0x1_0000_0000 + 0x4000_0000_0000_0000
  {
    ProductGrows(j, ecu.diagEntrySize, 0x8000_0000);
    ProductGrows(j, 0, ecu.diagEntrySize);
  }

  /** Where the record of service `j` begins. */
  function ServiceAt(data: seq<byte>, ecu: EcuHeader, j: nat): Option<uint32>
    requires ecu.diagEntrySize >= 14
  {
    var entry := EntryPlace(ecu, j);
    if entry + 14 > |data| then None
    else InWord(Absolute(ecu.diagBlock, Signed32(Little32(data, entry)), |data|))
  }

  predicate IsExecutableData(s: DiagService) {
    s.kind == DATA_CLASS && s.executable != 0 && s.requestCount > 0
  }

  /** Where the request bytes of a service lie, if they lie in the file. */
  function RequestAt(data: seq<byte>, base: uint32, s: DiagService): (at: Option<nat>)
    requires s.requestCount > 0
    ensures at.Some? ==> at.value + s.requestCount <= |data|
  {
    match Absolute(base, s.requestOffset, |data|)
    case None => None
    case Some(at) => if s.requestCount > |data| - at then None else Some(at)
  }

  function RequestVerdict(data: seq<byte>, ecu: EcuHeader, base: uint32, s: DiagService): Verdict {
    if !IsExecutableData(s) then Pass
    else
      match RequestAt(data, base, s)
      case None => Stop
      case Some(at) =>
        match WireRead(data[at..at + s.requestCount])
        case None => Pass
        case Some(q) => Read(Row(ecu.qualifier, q, s.qualifier, s.clientAccess, s.securityAccess))
  }

  function ServiceVerdict(data: seq<byte>, ecu: EcuHeader, j: nat): Verdict
    requires ecu.diagEntrySize >= 14
  {
    match ServiceAt(data, ecu, j)
    case None => Stop
    case Some(base) =>
      match ServiceRecord(data, base)
      case None => Stop
      case Some(s) => RequestVerdict(data, ecu, base, s)
  }

  predicate AreVerdictsOf(data: seq<byte>, ecu: EcuHeader, vs: seq<Verdict>)
    requires ecu.diagEntrySize >= 14
  {
    forall j {:trigger ServiceVerdict(data, ecu, j)} :: 0 <= j < |vs| ==> vs[j] == ServiceVerdict(data, ecu, j)
  }

  /** What the services of an ECU contribute, in table order. */
  function EcuVerdicts(data: seq<byte>, ecu: EcuHeader, n: nat): (vs: seq<Verdict>)
    requires ecu.diagEntrySize >= 14
    ensures |vs| == n && AreVerdictsOf(data, ecu, vs)
  {
    seq(n, j requires 0 <= j < n => ServiceVerdict(data, ecu, j))
  }

  function EcuPart(data: seq<byte>, cff: CffHeader, i: nat): seq<Verdict>
    requires CffIsUsable(cff)
  {
    match EcuAt(data, cff, i)
    case None => [Stop]
    case Some(ecu) => EcuVerdicts(data, ecu, ecu.diagCount)
  }

  predicate ArePartsOf(data: seq<byte>, cff: CffHeader, parts: seq<seq<Verdict>>)
    requires CffIsUsable(cff)
  {
    && |parts| == cff.ecuCount
    && forall i {:trigger EcuPart(data, cff, i)} :: 0 <= i < |parts| ==> parts[i] == EcuPart(data, cff, i)
  }

  /** What the services of each ECU contribute. */
  function FileParts(data: seq<byte>, cff: CffHeader): (parts: seq<seq<Verdict>>)
    requires CffIsUsable(cff)
    ensures ArePartsOf(data, cff, parts)
  {
    seq(cff.ecuCount, i requires 0 <= i < cff.ecuCount => EcuPart(data, cff, i))
  }

  function Flat<T>(parts: seq<seq<T>>): seq<T> {
    if parts == [] then [] else Flat(parts[..|parts| - 1]) + parts[|parts| - 1]
  }

  // ---------------------------------------------------------------------
  // Emission
  // ---------------------------------------------------------------------

  datatype Extract = Extract(fine: bool, rows: seq<Row>)

  function Requested(rows: seq<Row>): (qs: seq<Request>)
    ensures |qs| == |rows|
  {
    if rows == [] then [] else Requested(rows[..|rows| - 1]) + [rows[|rows| - 1].request]
  }

  function Applied(profile: Option<Profile>, e: Extract, v: Verdict): Extract {
    match v
    case Stop => e.(fine := false)
    case Pass => e
    case Read(row) =>
      if profile.None? then e.(rows := e.rows + [row])
      else if row.request in Requested(e.rows) then e
      else if ProvenanceLength(profile.value, row.qualifier) >= PROVENANCE_CAPACITY then e.(fine := false)
      else e.(rows := e.rows + [row])
  }

  /** The verdicts are followed in order until one of them ends the extraction. */
  function Emitted(profile: Option<Profile>, vs: seq<Verdict>): Extract {
    if vs == [] then Extract(true, [])
    else
      var e := Emitted(profile, vs[..|vs| - 1]);
      if e.fine then Applied(profile, e, vs[|vs| - 1]) else e
  }

  /** The whole extraction, as a function of the file. */
  function Extraction(data: seq<byte>, profile: Option<Profile>): Extract {
    match CffRecord(data)
    case None => Extract(false, [])
    case Some(cff) =>
      if EcuTable(cff) > |data| then Extract(false, [])
      else Emitted(profile, Flat(FileParts(data, cff)))
  }

  lemma EmittedOneMore(profile: Option<Profile>, vs: seq<Verdict>, v: Verdict)
    ensures Emitted(profile, vs + [v]) ==
            if Emitted(profile, vs).fine then Applied(profile, Emitted(profile, vs), v) else Emitted(profile, vs)
  {
    assert (vs + [v])[..|vs|] == vs;
  }

  /** Once an extraction has ended, nothing further is emitted. */
  lemma {:induction false} EndIsFinal(profile: Option<Profile>, vs: seq<Verdict>, more: seq<Verdict>)
    requires !Emitted(profile, vs).fine
    ensures Emitted(profile, vs + more) == Emitted(profile, vs)
  {
    if more == [] {
      assert vs + more == vs;
    } else {
      var front := more[..|more| - 1];
      EndIsFinal(profile, vs, front);
      assert vs + more == (vs + front) + [more[|more| - 1]];
      EmittedOneMore(profile, vs + front, more[|more| - 1]);
    }
  }

  lemma FlatNext<T>(parts: seq<seq<T>>, i: nat)
    requires i < |parts|
    ensures Flat(parts[..i + 1]) == Flat(parts[..i]) + parts[i]
  {
    assert parts[..i + 1][..i] == parts[..i];
  }

  lemma EmittedNext(profile: Option<Profile>, before: seq<Verdict>, all: seq<Verdict>, j: nat)
    requires j < |all|
    ensures var e := Emitted(profile, before + all[..j]);
            Emitted(profile, before + all[..j + 1]) == if e.fine then Applied(profile, e, all[j]) else e
  {
    EmittedOneMore(profile, before + all[..j], all[j]);
    assert before + all[..j] + [all[j]] == before + all[..j + 1];
  }

  /** A pass over verdicts may stop where the extraction ends. */
  lemma EndSkipsTheRest(profile: Option<Profile>, before: seq<Verdict>, all: seq<Verdict>, j: nat)
    requires j <= |all| && (Emitted(profile, before + all[..j]).fine ==> j == |all|)
    ensures Emitted(profile, before + all[..j]) == Emitted(profile, before + all)
  {
    if j == |all| {
      assert all[..j] == all;
    } else {
      EndIsFinal(profile, before + all[..j], all[j..]);
      assert before + all[..j] + all[j..] == before + all;
    }
  }

  lemma {:induction false} EndSkipsLaterParts(profile: Option<Profile>, parts: seq<seq<Verdict>>, i: nat)
    requires i <= |parts| && (Emitted(profile, Flat(parts[..i])).fine ==> i == |parts|)
    ensures Emitted(profile, Flat(parts[..i])) == Emitted(profile, Flat(parts))
  {
    if i == |parts| {
      assert parts[..i] == parts;
    } else {
      var front := parts[..|parts| - 1];
      assert front[..i] == parts[..i];
      EndSkipsLaterParts(profile, front, i);
      EndIsFinal(profile, Flat(front), parts[|parts| - 1]);
    }
  }

  // ---------------------------------------------------------------------
  // What is emitted
  // ---------------------------------------------------------------------

  lemma RequestedOneMore(rows: seq<Row>, row: Row)
    ensures Requested(rows + [row]) == Requested(rows) + [row.request]
  {
    assert (rows + [row])[..|rows|] == rows;
  }

  lemma DistinctGrows(qs: seq<Request>, q: Request)
    requires Distinct(qs) && q !in qs
    ensures Distinct(qs + [q])
  {
    assert forall i :: 0 <= i < |qs| ==> qs[i] in qs;
  }

  /** A row is added in profile mode only when its request is new. */
  lemma AppliedKeepsDistinct(profile: Profile, e: Extract, v: Verdict)
    requires Distinct(Requested(e.rows))
    ensures Distinct(Requested(Applied(Some(profile), e, v).rows))
  {
    if v.Read? && v.row.request !in Requested(e.rows) {
      RequestedOneMore(e.rows, v.row);
      DistinctGrows(Requested(e.rows), v.row.request);
    }
  }

  /** In profile mode no two rows ask for the same service and identifier. */
  lemma {:induction false} ProfileRowsAreDistinct(profile: Profile, vs: seq<Verdict>)
    ensures Distinct(Requested(Emitted(Some(profile), vs).rows))
  {
    if vs != [] {
      var front, v := vs[..|vs| - 1], vs[|vs| - 1];
      ProfileRowsAreDistinct(profile, front);
      AppliedKeepsDistinct(profile, Emitted(Some(profile), front), v);
    }
  }

  lemma {:induction false} RowsComeFromVerdicts(profile: Option<Profile>, vs: seq<Verdict>, row: Row)
    requires row in Emitted(profile, vs).rows
    ensures Read(row) in vs
  {
    var front, v := vs[..|vs| - 1], vs[|vs| - 1];
    if row in Emitted(profile, front).rows {
      RowsComeFromVerdicts(profile, front, row);
    } else {
      assert v == Read(row);
    }
  }

  /** When the extraction reaches the end, no read on the way was lost. */
  lemma {:induction false} NoReadIsLost(profile: Option<Profile>, vs: seq<Verdict>, row: Row)
    requires Emitted(profile, vs).fine && Read(row) in vs
    ensures row.request in Requested(Emitted(profile, vs).rows)
    ensures profile.None? ==> row in Emitted(profile, vs).rows
  {
    var front, v := vs[..|vs| - 1], vs[|vs| - 1];
    var e := Emitted(profile, front);
    if v.Read? {
      RequestedOneMore(e.rows, v.row);
    }
    if v != Read(row) {
      NoReadIsLost(profile, front, row);
    }
  }

  /** Without a profile, the extraction reaches the end exactly when no verdict stops it. */
  lemma {:induction false} PlainIsFineIff(vs: seq<Verdict>)
    ensures Emitted(None, vs).fine <==> Stop !in vs
  {
    if vs != [] {
      var front, v := vs[..|vs| - 1], vs[|vs| - 1];
      PlainIsFineIff(front);
      assert vs == front + [v];
    }
  }

  /** The rows whose request was not requested by an earlier row. */
  function FirstRows(rows: seq<Row>): seq<Row> {
    if rows == [] then []
    else
      var front, last := rows[..|rows| - 1], rows[|rows| - 1];
      if last.request in Requested(front) then FirstRows(front) else FirstRows(front) + [last]
  }

  predicate ProvenanceFits(profile: Profile, rows: seq<Row>) {
    forall row :: row in rows ==> |Provenance(profile, row)| < 1024
  }

  lemma {:induction false} FirstRowsKeepRequests(rows: seq<Row>, q: Request)
    ensures q in Requested(FirstRows(rows)) <==> q in Requested(rows)
  {
    if rows != [] {
      var front, last := rows[..|rows| - 1], rows[|rows| - 1];
      FirstRowsKeepRequests(front, q);
      RequestedOneMore(FirstRows(front), last);
    }
  }

  /**
   * Profile mode emits the first row of each request that the plain mode emits, and reaches the end exactly when
   * the plain mode does and each of those rows has a provenance text that fits.
   */
  lemma {:induction false} ProfileModeIsFirstRows(profile: Profile, vs: seq<Verdict>)
    ensures var plain := Emitted(None, vs);
            Emitted(Some(profile), vs).fine <==> plain.fine && ProvenanceFits(profile, FirstRows(plain.rows))
    ensures Emitted(Some(profile), vs).fine ==> Emitted(Some(profile), vs).rows == FirstRows(Emitted(None, vs).rows)
  {
    if vs != [] {
      var front, v := vs[..|vs| - 1], vs[|vs| - 1];
      ProfileModeIsFirstRows(profile, front);
      var plain := Emitted(None, front);
      if v.Read? && plain.fine {
        var longer := plain.rows + [v.row];
        assert longer[..|plain.rows|] == plain.rows;
        FirstRowsKeepRequests(plain.rows, v.row.request);
        FirstRowsGrow(profile, plain.rows, v.row);
      }
    }
  }

  lemma FirstRowsGrow(profile: Profile, rows: seq<Row>, row: Row)
    ensures ProvenanceFits(profile, FirstRows(rows + [row])) <==>
            ProvenanceFits(profile, FirstRows(rows))
            && (row.request in Requested(rows) || ProvenanceLength(profile, row.qualifier) < PROVENANCE_CAPACITY)
  {
    assert (rows + [row])[..|rows|] == rows;
    ProvenanceLengthIs(profile, row);
    if row.request !in Requested(rows) {
      assert FirstRows(rows + [row]) == FirstRows(rows) + [row];
      assert row in FirstRows(rows) + [row];
    }
  }

  // ---------------------------------------------------------------------
  // Rows and services
  // ---------------------------------------------------------------------

  /** The service is an executable data service whose request is exactly the row's read. */
  predicate RequestIs(data: seq<byte>, ecu: EcuHeader, base: uint32, s: DiagService, row: Row) {
    var at := base + s.requestOffset;
    && s.kind == 5 && s.executable != 0
    && row.ecu == ecu.qualifier && row.qualifier == s.qualifier
    && row.clientAccess == s.clientAccess && row.securityAccess == s.securityAccess
    && 0 <= at && at + s.requestCount <= |data|
    && match s.requestCount
       case 3 => data[at] == 0x22 && row.request == Request(0x22, BigEndian16(data[at + 1], data[at + 2]))
       case 2 => (data[at] == 0x21 || data[at] == 0x1a) && row.request == Request(data[at], data[at + 1])
       case _ => false
  }

  lemma VerdictIsReadIff(data: seq<byte>, ecu: EcuHeader, base: uint32, s: DiagService, row: Row)
    ensures RequestVerdict(data, ecu, base, s) == Read(row) <==> RequestIs(data, ecu, base, s, row)
  {
    if IsExecutableData(s) && RequestAt(data, base, s).Some? {
      var at := RequestAt(data, base, s).value;
      var request := data[at..at + s.requestCount];
      assert |request| == s.requestCount && request[0] == data[at];
      assert |request| >= 2 ==> request[1] == data[at + 1];
      assert |request| >= 3 ==> request[2] == data[at + 2];
    }
  }

  /** Service `j` of an ECU asks for exactly the row's read. */
  predicate AsksFor(data: seq<byte>, ecu: EcuHeader, j: nat, row: Row)
    requires ecu.diagEntrySize >= 14
  {
    match ServiceAt(data, ecu, j)
    case None => false
    case Some(base) =>
      match ServiceRecord(data, base)
      case None => false
      case Some(s) => RequestIs(data, ecu, base, s, row)
  }

  lemma AsksForIff(data: seq<byte>, ecu: EcuHeader, j: nat, row: Row)
    requires ecu.diagEntrySize >= 14
    ensures ServiceVerdict(data, ecu, j) == Read(row) <==> AsksFor(data, ecu, j, row)
  {
    var base := ServiceAt(data, ecu, j);
    if base.Some? {
      var s := ServiceRecord(data, base.value);
      if s.Some? {
        VerdictIsReadIff(data, ecu, base.value, s.value, row);
      }
    }
  }

  lemma {:induction false} FlatHasParts(parts: seq<seq<Verdict>>, i: nat, v: Verdict)
    requires i < |parts| && v in parts[i]
    ensures v in Flat(parts)
  {
    if i < |parts| - 1 {
      FlatHasParts(parts[..|parts| - 1], i, v);
    }
  }

  lemma {:induction false} PartOfFlat(parts: seq<seq<Verdict>>, v: Verdict) returns (i: nat)
    requires v in Flat(parts)
    ensures i < |parts| && v in parts[i]
  {
    if v in parts[|parts| - 1] {
      i := |parts| - 1;
    } else {
      i := PartOfFlat(parts[..|parts| - 1], v);
    }
  }

  predicate HasService(data: seq<byte>, cff: CffHeader, i: nat, j: nat)
    requires CffIsUsable(cff)
  {
    i < cff.ecuCount && EcuAt(data, cff, i).Some? && j < EcuAt(data, cff, i).value.diagCount
  }

  /** Every emitted row is asked for by an executable data service of the file. */
  lemma RowsAreDirectReads(data: seq<byte>, profile: Option<Profile>, row: Row) returns (i: nat, j: nat)
    requires row in Extraction(data, profile).rows
    ensures CffRecord(data).Some? && HasService(data, CffRecord(data).value, i, j)
    ensures AsksFor(data, EcuAt(data, CffRecord(data).value, i).value, j, row)
  {
    var cff := CffRecord(data).value;
    var parts := FileParts(data, cff);
    RowsComeFromVerdicts(profile, Flat(parts), row);
    i := PartOfFlat(parts, Read(row));
    var ecu := EcuAt(data, cff, i).value;
    j :| 0 <= j < ecu.diagCount && EcuVerdicts(data, ecu, ecu.diagCount)[j] == Read(row);
    AsksForIff(data, ecu, j, row);
  }

  /** An extraction that reaches the end has a row for every read that an executable data service asks for. */
  lemma NoDirectReadIsMissed(data: seq<byte>, profile: Option<Profile>, i: nat, j: nat, row: Row)
    ensures CffRecord(data).Some? && Extraction(data, profile).fine && HasService(data, CffRecord(data).value, i, j) &&
            AsksFor(data, EcuAt(data, CffRecord(data).value, i).value, j, row) ==>
              row.request in Requested(Extraction(data, profile).rows)
              && (profile.None? ==> row in Extraction(data, profile).rows)
  {
    if CffRecord(data).Some? && Extraction(data, profile).fine && HasService(data, CffRecord(data).value, i, j) {
      var cff := CffRecord(data).value;
      var ecu := EcuAt(data, cff, i).value;
      AsksForIff(data, ecu, j, row);
      if ServiceVerdict(data, ecu, j) == Read(row) {
        assert EcuVerdicts(data, ecu, ecu.diagCount)[j] == Read(row);
        FlatHasParts(FileParts(data, cff), i, Read(row));
        NoReadIsLost(profile, Flat(FileParts(data, cff)), row);
      }
    }
  }

  lemma RequestedReadIs(data: seq<byte>, ecu: EcuHeader, j: nat, row: Row)
    requires ecu.diagEntrySize >= 14
    ensures AsksFor(data, ecu, j, row) ==>
              row.request.service in {0x22, 0x21, 0x1a}
              && (row.request.service != 0x22 ==> row.request.identifier <= 0xff)
  {
    if AsksFor(data, ecu, j, row) {
      var base := ServiceAt(data, ecu, j).value;
      var s := ServiceRecord(data, base).value;
      assert RequestIs(data, ecu, base, s, row);
    }
  }

  predicate RequestIs2100(data: seq<byte>, at: int) {
    0 <= at && at + 2 <= |data| && data[at] == 0x21 && data[at + 1] == 0
  }

  lemma Request2100IsRead(data: seq<byte>, ecu: EcuHeader, base: uint32, s: DiagService)
    requires IsExecutableData(s) && s.requestCount == 2 && RequestIs2100(data, base + s.requestOffset)
    ensures RequestVerdict(data, ecu, base, s).Read?
    ensures RequestVerdict(data, ecu, base, s).row.request == Request(0x21, 0)
  {
    var at := base + s.requestOffset;
    assert RequestAt(data, base, s) == Some(at);
    assert data[at..at + 2] == [0x21, 0];
  }

  /** At `base` stands the record of an executable type-5 service with a name, whose request is `21 00`. */
  predicate StoresRead2100(data: seq<byte>, base: uint32, values: seq<Option<uint32>>) {
    && HoldsService(data, base, values) && Named(data, ServicePlan(data, base), values[0]).Some?
    && values[3] == Some(5) && Given(values[4]) != 0 && values[18] == Some(2)
    && RequestIs2100(data, base + Signed32(Given(values[19])))
  }

  lemma StoredFields(data: seq<byte>, base: uint32, values: seq<Option<uint32>>) returns (s: DiagService)
    requires StoresRead2100(data, base, values)
    ensures HoldsService(data, base, values) && ServiceOf(data, base, values) == Some(s)
    ensures IsExecutableData(s) && s.requestCount == 2 && RequestIs2100(data, base + s.requestOffset)
  {
    s := ServiceOf(data, base, values).value;
  }

  lemma StoredServiceAsks(data: seq<byte>, base: uint32, values: seq<Option<uint32>>) returns (s: DiagService)
    requires StoresRead2100(data, base, values)
    ensures ServiceRecord(data, base) == Some(s) && IsExecutableData(s) && s.requestCount == 2
    ensures RequestIs2100(data, base + s.requestOffset)
  {
    s := StoredFields(data, base, values);
    EncodedServiceReadsBack(data, base, values);
  }

  lemma VerdictOfService(data: seq<byte>, ecu: EcuHeader, j: nat, base: uint32, s: DiagService)
    requires ecu.diagEntrySize >= 14
    ensures ServiceAt(data, ecu, j) == Some(base) && ServiceRecord(data, base) == Some(s) ==>
              ServiceVerdict(data, ecu, j) == RequestVerdict(data, ecu, base, s)
  {
  }

  /** Such a service is extracted, and its read is one that the catalogue calls unsafe. */
  lemma ZeroIdentifierIsExtracted(data: seq<byte>, ecu: EcuHeader, j: nat, base: uint32, values: seq<Option<uint32>>)
    requires ecu.diagEntrySize >= 14 && ServiceAt(data, ecu, j) == Some(base) && StoresRead2100(data, base, values)
    ensures ServiceVerdict(data, ecu, j).Read? && ServiceVerdict(data, ecu, j).row.request == Request(0x21, 0)
    ensures !IsSafe(Request(0x21, 0))
  {
    var s := StoredServiceAsks(data, base, values);
    VerdictOfService(data, ecu, j, base, s);
    Request2100IsRead(data, ecu, base, s);
  }

  /** Every extracted request is a 22, 21 or 1A read, the latter two with a one-byte identifier. */
  lemma ExtractedReadIs(data: seq<byte>, profile: Option<Profile>, row: Row)
    requires row in Extraction(data, profile).rows
    ensures row.request.service in {0x22, 0x21, 0x1a}
    ensures row.request.service != 0x22 ==> row.request.identifier <= 0xff
  {
    var i, j := RowsAreDirectReads(data, profile, row);
    RequestedReadIs(data, EcuAt(data, CffRecord(data).value, i).value, j, row);
  }

  // ---------------------------------------------------------------------
  // Local identifier zero
  // ---------------------------------------------------------------------

  /** The service is an executable data service with a two-byte request `21 00` or `1A 00` in the file. */
  predicate RequestIsZero(data: seq<byte>, base: uint32, s: DiagService) {
    var at := base + s.requestOffset;
    && s.kind == 5 && s.executable != 0 && s.requestCount == 2
    && 0 <= at && at + 2 <= |data|
    && (data[at] == 0x21 || data[at] == 0x1a) && data[at + 1] == 0
  }

  predicate ServiceAsksForZero(data: seq<byte>, ecu: EcuHeader, j: nat)
    requires ecu.diagEntrySize >= 14
  {
    match ServiceAt(data, ecu, j)
    case None => false
    case Some(base) =>
      match ServiceRecord(data, base)
      case None => false
      case Some(s) => RequestIsZero(data, base, s)
  }

  /** The file has a service `j` of ECU `i` that asks for local identifier zero. */
  predicate AsksForZero(data: seq<byte>, cff: CffHeader, i: nat, j: nat)
    requires CffIsUsable(cff)
  {
    HasService(data, cff, i, j) && ServiceAsksForZero(data, EcuAt(data, cff, i).value, j)
  }

  lemma UnsafeRequestIsZero(data: seq<byte>, ecu: EcuHeader, base: uint32, s: DiagService, row: Row)
    requires RequestIs(data, ecu, base, s, row)
    ensures !IsSafe(row.request) <==> RequestIsZero(data, base, s)
  {
  }

  /** A service's row is unsafe exactly when the service asks for local identifier zero. */
  lemma UnsafeRowIff(data: seq<byte>, ecu: EcuHeader, j: nat, row: Row)
    requires ecu.diagEntrySize >= 14
    ensures AsksFor(data, ecu, j, row) ==> (!IsSafe(row.request) <==> ServiceAsksForZero(data, ecu, j))
  {
    if AsksFor(data, ecu, j, row) {
      var base := ServiceAt(data, ecu, j).value;
      UnsafeRequestIsZero(data, ecu, base, ServiceRecord(data, base).value, row);
    }
  }

  lemma ZeroRequestHasRow(data: seq<byte>, ecu: EcuHeader, base: uint32, s: DiagService) returns (row: Row)
    requires RequestIsZero(data, base, s)
    ensures RequestIs(data, ecu, base, s, row)
  {
    var request := Request(data[base + s.requestOffset], 0);
    row := Row(ecu.qualifier, request, s.qualifier, s.clientAccess, s.securityAccess);
  }

  lemma ZeroServiceHasRow(data: seq<byte>, ecu: EcuHeader, j: nat) returns (row: Row)
    requires ecu.diagEntrySize >= 14
    ensures ServiceAsksForZero(data, ecu, j) ==> AsksFor(data, ecu, j, row)
  {
    row := Row([], Request(0, 0), [], 0, 0);
    if ServiceAsksForZero(data, ecu, j) {
      var base := ServiceAt(data, ecu, j).value;
      row := ZeroRequestHasRow(data, ecu, base, ServiceRecord(data, base).value);
    }
  }

  lemma {:induction false} RequestedHasRow(rows: seq<Row>, q: Request) returns (row: Row)
    requires q in Requested(rows)
    ensures row in rows && row.request == q
  {
    var front, last := rows[..|rows| - 1], rows[|rows| - 1];
    if last.request == q {
      row := last;
    } else {
      row := RequestedHasRow(front, q);
    }
  }

  ghost predicate HasZeroRead(data: seq<byte>) {
    CffRecord(data).Some? && exists i: nat, j: nat :: AsksForZero(data, CffRecord(data).value, i, j)
  }

  predicate AllSafe(rows: seq<Row>) {
    forall row :: row in rows ==> IsSafe(row.request)
  }

  /** An unsafe row comes from a service of the file that asks for local identifier zero. */
  lemma UnsafeRowNeedsZeroRead(data: seq<byte>, profile: Option<Profile>)
    ensures !AllSafe(Extraction(data, profile).rows) ==> HasZeroRead(data)
  {
    if !AllSafe(Extraction(data, profile).rows) {
      var row :| row in Extraction(data, profile).rows && !IsSafe(row.request);
      var i, j := RowsAreDirectReads(data, profile, row);
      UnsafeRowIff(data, EcuAt(data, CffRecord(data).value, i).value, j, row);
      assert AsksForZero(data, CffRecord(data).value, i, j);
    }
  }

  lemma ZeroReadIsExtracted(data: seq<byte>, profile: Option<Profile>, cff: CffHeader, i: nat, j: nat)
    ensures Extraction(data, profile).fine && CffRecord(data) == Some(cff) && AsksForZero(data, cff, i, j) ==>
              !AllSafe(Extraction(data, profile).rows)
  {
    if Extraction(data, profile).fine && CffRecord(data) == Some(cff) && AsksForZero(data, cff, i, j) {
      var ecu := EcuAt(data, cff, i).value;
      var row := ZeroServiceHasRow(data, ecu, j);
      UnsafeRowIff(data, ecu, j, row);
      NoDirectReadIsMissed(data, profile, i, j, row);
      var same := RequestedHasRow(Extraction(data, profile).rows, row.request);
      assert !IsSafe(same.request);
    }
  }

  /** An extraction to the end has only safe rows exactly when no service of the file asks for local identifier zero. */
  lemma ExtractedIsSafeIff(data: seq<byte>, profile: Option<Profile>)
    ensures Extraction(data, profile).fine ==> (AllSafe(Extraction(data, profile).rows) <==> !HasZeroRead(data))
  {
    UnsafeRowNeedsZeroRead(data, profile);
    if Extraction(data, profile).fine && HasZeroRead(data) {
      var cff := CffRecord(data).value;
      var i: nat, j: nat :| AsksForZero(data, cff, i, j);
      ZeroReadIsExtracted(data, profile, cff, i, j);
    }
  }

  // ---------------------------------------------------------------------
  // The extractor
  // ---------------------------------------------------------------------

  const SEEN_COUNT: nat := 0x100 * 0x1_0000

  function SeenIndex(q: Request): (k: nat)
    ensures k < SEEN_COUNT
  {
    q.service * 0x1_0000 + q.identifier
  }

  lemma SeenIndexIsInjective(q: Request, r: Request)
    requires SeenIndex(q) == SeenIndex(r)
    ensures q == r
  {
    assert SeenIndex(q) / 0x1_0000 == q.service && SeenIndex(r) / 0x1_0000 == r.service;
  }

  /** The flat table of the requests seen so far. */
  class SeenTable {
    const marks: array<bool>
    ghost var requests: set<Request>

    ghost predicate Valid()
      reads this, marks
    {
      marks.Length == SEEN_COUNT && forall q: Request {:trigger SeenIndex(q)} :: marks[SeenIndex(q)] <==> q in requests
    }

    constructor ()
      ensures Valid() && fresh(marks) && requests == {}
    {
      marks := new bool[SEEN_COUNT](_ => false);
      requests := {};
    }

    method Mark(q: Request) returns (first: bool)
      requires Valid()
      modifies this, marks
      ensures Valid() && (first <==> q !in old(requests)) && requests == old(requests) + {q}
    {
      var k := SeenIndex(q);
      first := !marks[k];
      marks[k] := true;
      requests := requests + {q};
      forall r: Request
        ensures marks[SeenIndex(r)] <==> r in requests
      {
        if SeenIndex(r) == k {
          SeenIndexIsInjective(r, q);
        } else {
          assert marks[SeenIndex(r)] == old(marks[SeenIndex(r)]);
        }
      }
    }
  }

  method ExtractService(reader: Reader, ecu: EcuHeader, j: int32) returns (v: Verdict)
    requires reader.Valid() && reader.ok && 0 <= j && ecu.diagEntrySize >= 14
    modifies reader
    ensures reader.Valid() && (!v.Stop? ==> reader.ok)
    ensures v == ServiceVerdict(reader.data, ecu, j)
  {
    var data := reader.data;
    EntryPlaceBounds(ecu, j);
    var entry: uint64 := ecu.diagBlock + j * ecu.diagEntrySize;
    if entry + 14 > |data| {
      return Stop;
    }
    var _ := reader.SeekTo(entry);
    var relative := reader.ReadI32();
    var _ := reader.ReadI32();
    var _ := reader.ReadU32();
    var _ := reader.ReadU16();
    var base := AddRelativeOffset(ecu.diagBlock, relative, |data|);
    if !reader.ok || base.None? || base.value > UINT32_MAX {
      return Stop;
    }
    var service := ParseService(reader, base.value);
    if service.None? {
      return Stop;
    }
    v := ExtractRequest(data, ecu, base.value, service.value);
  }

  method ExtractRequest(data: seq<byte>, ecu: EcuHeader, base: uint32, s: DiagService) returns (v: Verdict)
    ensures v == RequestVerdict(data, ecu, base, s)
  {
    if s.kind != 5 || s.executable == 0 || s.requestCount <= 0 {
      return Pass;
    }
    var at := AddRelativeOffset(base, s.requestOffset, |data|);
    if at.None? || at.value > |data| || s.requestCount > |data| - at.value {
      return Stop;
    }
    ghost var request := data[at.value..at.value + s.requestCount];
    assert |request| == s.requestCount && request[0] == data[at.value];
    assert |request| >= 2 ==> request[1] == data[at.value + 1];
    assert |request| >= 3 ==> request[2] == data[at.value + 2];
    var service := data[at.value];
    var identifier: uint16;
    if service == 0x22 && s.requestCount == 3 {
      identifier := BigEndian16(data[at.value + 1], data[at.value + 2]);
    } else if (service == 0x21 || service == 0x1a) && s.requestCount == 2 {
      identifier := data[at.value + 1];
    } else {
      return Pass;
    }
    return Read(Row(ecu.qualifier, Request(service, identifier), s.qualifier, s.clientAccess, s.securityAccess));
  }

  ghost function RequestSet(rows: seq<Row>): set<Request> {
    set q | q in Requested(rows)
  }

  /** In profile mode the table knows the requests of the emitted rows; in plain mode it is not used. */
  ghost predicate Tracks(seen: SeenTable, profile: Option<Profile>, rows: seq<Row>)
    reads seen, seen.marks
  {
    seen.Valid() && (profile.Some? ==> seen.requests == RequestSet(rows))
  }

  method EmitRow(profile: Option<Profile>, seen: SeenTable, rows: seq<Row>, row: Row) returns (e: Extract)
    requires Tracks(seen, profile, rows)
    modifies seen, seen.marks
    ensures e == Applied(profile, Extract(true, rows), Read(row))
    ensures e.fine ==> Tracks(seen, profile, e.rows)
  {
    RequestedOneMore(rows, row);
    assert RequestSet(rows + [row]) == RequestSet(rows) + {row.request};
    if profile.Some? {
      var first := seen.Mark(row.request);
      if !first {
        return Extract(true, rows);
      }
      if ProvenanceLength(profile.value, row.qualifier) >= PROVENANCE_CAPACITY {
        return Extract(false, rows);
      }
    }
    return Extract(true, rows + [row]);
  }

  method EmitService(reader: Reader, ecu: EcuHeader, j: int32, profile: Option<Profile>, seen: SeenTable,
                     rows: seq<Row>)
    returns (e: Extract)
    requires reader.Valid() && reader.ok && 0 <= j && ecu.diagEntrySize >= 14
    requires Tracks(seen, profile, rows)
    modifies reader, seen, seen.marks
    ensures reader.Valid() && (e.fine ==> reader.ok && Tracks(seen, profile, e.rows))
    ensures e == Applied(profile, Extract(true, rows), ServiceVerdict(reader.data, ecu, j))
  {
    var v := ExtractService(reader, ecu, j);
    match v {
      case Stop => e := Extract(false, rows);
      case Pass => e := Extract(true, rows);
      case Read(row) => e := EmitRow(profile, seen, rows, row);
    }
  }

  method EmitEcu(reader: Reader, ecu: EcuHeader, profile: Option<Profile>, seen: SeenTable, before: seq<Row>,
                 ghost verdicts: seq<Verdict>, ghost all: seq<Verdict>)
    returns (e: Extract)
    requires reader.Valid() && reader.ok && ecu.diagEntrySize >= 14
    requires ecu.diagCount == |all| && AreVerdictsOf(reader.data, ecu, all)
    requires Tracks(seen, profile, before) && Emitted(profile, verdicts) == Extract(true, before)
    modifies reader, seen, seen.marks
    ensures reader.Valid() && (e.fine ==> reader.ok && Tracks(seen, profile, e.rows))
    ensures e == Emitted(profile, verdicts + all)
  {
    var j: int32 := 0;
    e := Extract(true, before);
    assert verdicts + all[..0] == verdicts;
    while j < ecu.diagCount && e.fine
      invariant 0 <= j <= ecu.diagCount && reader.Valid()
      invariant e.fine ==> reader.ok && Tracks(seen, profile, e.rows)
      invariant e == Emitted(profile, verdicts + all[..j])
      decreases ecu.diagCount - j
    {
      EmittedNext(profile, verdicts, all, j);
      e := EmitService(reader, ecu, j, profile, seen, e.rows);
      j := j + 1;
    }
    EndSkipsTheRest(profile, verdicts, all, j);
  }

  method FindEcuBase(reader: Reader, cff: CffHeader, i: nat) returns (found: Option<uint32>)
    requires reader.Valid() && reader.ok && CffIsUsable(cff) && i < cff.ecuCount
    modifies reader
    ensures reader.Valid() && (found.Some? ==> reader.ok)
    ensures found == EcuBase(reader.data, cff, i)
  {
    var table: uint64 := cff.base + cff.ecuOffset;
    var inside := reader.SeekTo(table + 4 * i);
    if !inside {
      return None;
    }
    var relative := reader.ReadI32();
    if !reader.ok {
      return None;
    }
    var base := AddRelativeOffset(table, relative, |reader.data|);
    return InWord(base);
  }

  /** The ECU header that entry `i` of the ECU table leads to. */
  method FindEcu(reader: Reader, cff: CffHeader, i: nat) returns (ecu: Option<EcuHeader>)
    requires reader.Valid() && reader.ok && CffIsUsable(cff) && i < cff.ecuCount
    modifies reader
    ensures reader.Valid() && (ecu.Some? ==> reader.ok)
    ensures ecu == EcuAt(reader.data, cff, i)
  {
    var base := FindEcuBase(reader, cff, i);
    if base.None? {
      return None;
    }
    ecu := ParseEcuHeader(reader, base.value, cff);
  }

  /** What entry `i` of the ECU table adds. */
  method EmitEntry(reader: Reader, cff: CffHeader, i: nat, profile: Option<Profile>, seen: SeenTable, before: seq<Row>,
                   ghost parts: seq<seq<Verdict>>)
    returns (e: Extract)
    requires reader.Valid() && reader.ok && CffIsUsable(cff) && i < cff.ecuCount && ArePartsOf(reader.data, cff, parts)
    requires Tracks(seen, profile, before) && Emitted(profile, Flat(parts[..i])) == Extract(true, before)
    modifies reader, seen, seen.marks
    ensures reader.Valid() && (e.fine ==> reader.ok && Tracks(seen, profile, e.rows))
    ensures e == Emitted(profile, Flat(parts[..i + 1]))
  {
    FlatNext(parts, i);
    assert parts[i] == EcuPart(reader.data, cff, i);
    var ecu := FindEcu(reader, cff, i);
    if ecu.None? {
      EmittedOneMore(profile, Flat(parts[..i]), Stop);
      e := Extract(false, before);
    } else {
      e := EmitEcu(reader, ecu.value, profile, seen, before, Flat(parts[..i]), parts[i]);
    }
  }

  method EmitEcus(reader: Reader, cff: CffHeader, profile: Option<Profile>, seen: SeenTable,
                  ghost parts: seq<seq<Verdict>>)
    returns (e: Extract)
    requires reader.Valid() && reader.ok && CffIsUsable(cff) && ArePartsOf(reader.data, cff, parts)
    requires Tracks(seen, profile, [])
    modifies reader, seen, seen.marks
    ensures e == Emitted(profile, Flat(parts))
  {
    var i := 0;
    e := Extract(true, []);
    while i < cff.ecuCount && e.fine
      invariant 0 <= i <= cff.ecuCount && reader.Valid()
      invariant e.fine ==> reader.ok && Tracks(seen, profile, e.rows)
      invariant e == Emitted(profile, Flat(parts[..i]))
      decreases cff.ecuCount - i
    {
      e := EmitEntry(reader, cff, i, profile, seen, e.rows, parts);
      i := i + 1;
    }
    EndSkipsLaterParts(profile, parts, i);
  }

  /** Status 0 at the end of the file, 2 when something does not parse; the rows are those emitted until then. */
  method EmitDirectReadData(data: seq<byte>, profile: Option<Profile>) returns (status: int, rows: seq<Row>)
    ensures status == (if Extraction(data, profile).fine then 0 else 2)
    ensures rows == Extraction(data, profile).rows
  {
    var reader := new Reader(data);
    var header := ParseCffHeader(reader);
    if header.None? {
      return 2, [];
    }
    var cff := header.value;
    if cff.base + cff.ecuOffset > |data| {
      return 2, [];
    }
    var seen := new SeenTable();
    var e := EmitEcus(reader, cff, profile, seen, FileParts(data, cff));
    return if e.fine then 0 else 2, e.rows;
  }
}
