/** Plain extraction in terms of the file alone, for files that it can and cannot follow to the end. */
module CbfPlain {
  import opened Words
  import opened CbfReader
  import opened CbfRecords
  import opened CbfExtract
  import opened Requests

  // ---------------------------------------------------------------------
  // Which verdicts become rows
  // ---------------------------------------------------------------------

  /** Verdict `k` is this row, and nothing before it ends the extraction. */
  predicate EmittedAt(vs: seq<Verdict>, k: nat, row: Row) {
    k < |vs| && vs[k] == Read(row) && Stop !in vs[..k]
  }

  lemma {:induction false} PlainRowsIff(vs: seq<Verdict>, row: Row)
    ensures row in Emitted(None, vs).rows <==> exists k: nat :: EmittedAt(vs, k, row)
  {
    if vs != [] {
      var front, last := vs[..|vs| - 1], vs[|vs| - 1];
      PlainRowsIff(front, row);
      PlainIsFineIff(front);
      assert forall k: nat :: k < |front| ==> vs[..k] == front[..k];
      assert forall k: nat :: k < |front| ==> (EmittedAt(vs, k, row) <==> EmittedAt(front, k, row));
      assert vs[..|front|] == front;
      if last == Read(row) && Stop !in front {
        assert EmittedAt(vs, |front|, row);
      }
    }
  }

  /** Verdict `j` of part `i` is this row, and neither that part before it nor an earlier part ends the extraction. */
  predicate EmittedIn(parts: seq<seq<Verdict>>, i: nat, j: nat, row: Row) {
    i < |parts| && EmittedAt(parts[i], j, row) && forall m :: 0 <= m < i ==> Stop !in parts[m]
  }

  lemma {:induction false} PlainConcat(a: seq<Verdict>, b: seq<Verdict>)
    requires Stop !in a
    ensures Emitted(None, a + b).rows == Emitted(None, a).rows + Emitted(None, b).rows
    ensures Emitted(None, a + b).fine == Emitted(None, b).fine
  {
    PlainIsFineIff(a);
    if b == [] {
      assert a + b == a;
    } else {
      var front, last := b[..|b| - 1], b[|b| - 1];
      PlainConcat(a, front);
      assert a + b == (a + front) + [last];
      EmittedOneMore(None, a + front, last);
    }
  }

  lemma {:induction false} StopInFlat(parts: seq<seq<Verdict>>)
    ensures Stop in Flat(parts) <==> exists i :: 0 <= i < |parts| && Stop in parts[i]
  {
    if parts != [] {
      StopInFlat(parts[..|parts| - 1]);
    }
  }

  lemma {:induction false} PlainRowsInParts(parts: seq<seq<Verdict>>, row: Row)
    ensures row in Emitted(None, Flat(parts)).rows <==> exists i: nat, j: nat :: EmittedIn(parts, i, j, row)
  {
    if parts != [] {
      var front, last := parts[..|parts| - 1], parts[|parts| - 1];
      PlainRowsInParts(front, row);
      StopInFlat(front);
      forall i: nat, j: nat | i < |front|
        ensures EmittedIn(parts, i, j, row) <==> EmittedIn(front, i, j, row)
      {
        assert forall m :: 0 <= m < i ==> parts[m] == front[m];
      }
      if Stop in Flat(front) {
        PlainIsFineIff(Flat(front));
        EndIsFinal(None, Flat(front), last);
        assert forall j: nat :: !EmittedIn(parts, |front|, j, row);
      } else {
        PlainConcat(Flat(front), last);
        PlainRowsIff(last, row);
        assert forall m :: 0 <= m < |front| ==> parts[m] == front[m];
        assert forall j: nat :: EmittedIn(parts, |front|, j, row) <==> EmittedAt(last, j, row);
      }
    }
  }

  // ---------------------------------------------------------------------
  // In terms of the file
  // ---------------------------------------------------------------------

  /** The first `n` services of an ECU parse, with their requests in the file where they have to be. */
  predicate ServicesParse(data: seq<byte>, ecu: EcuHeader, n: nat)
    requires ecu.diagEntrySize >= 14
  {
    forall k :: 0 <= k < n ==> ServiceVerdict(data, ecu, k) != Stop
  }

  /** ECU `m` and all its services parse. */
  predicate EcuParses(data: seq<byte>, cff: CffHeader, m: nat)
    requires CffIsUsable(cff)
  {
    match EcuAt(data, cff, m)
    case None => false
    case Some(ecu) => ServicesParse(data, ecu, ecu.diagCount)
  }

  lemma PartParsesIff(data: seq<byte>, cff: CffHeader, m: nat)
    requires CffIsUsable(cff)
    ensures Stop !in EcuPart(data, cff, m) <==> EcuParses(data, cff, m)
  {
    var part := EcuPart(data, cff, m);
    if EcuAt(data, cff, m).Some? {
      var ecu := EcuAt(data, cff, m).value;
      assert forall k :: 0 <= k < |part| ==> part[k] == ServiceVerdict(data, ecu, k);
    }
  }

  /** The file has service `j` of ECU `i`, and everything before it parses. */
  predicate IsReached(data: seq<byte>, cff: CffHeader, i: nat, j: nat)
    requires CffIsUsable(cff)
  {
    && HasService(data, cff, i, j) && ServicesParse(data, EcuAt(data, cff, i).value, j)
    && forall m :: 0 <= m < i ==> EcuParses(data, cff, m)
  }

  lemma EmittedInEcu(data: seq<byte>, ecu: EcuHeader, n: nat, j: nat, row: Row)
    requires ecu.diagEntrySize >= 14
    ensures EmittedAt(EcuVerdicts(data, ecu, n), j, row) <==>
            j < n && AsksFor(data, ecu, j, row) && ServicesParse(data, ecu, j)
  {
    var vs := EcuVerdicts(data, ecu, n);
    assert forall k :: 0 <= k < n ==> vs[k] == ServiceVerdict(data, ecu, k);
    AsksForIff(data, ecu, j, row);
  }

  /** Plain extraction emits a row exactly for a reached service that asks for it. */
  lemma EmittedInFile(data: seq<byte>, cff: CffHeader, i: nat, j: nat, row: Row)
    requires CffIsUsable(cff)
    ensures EmittedIn(FileParts(data, cff), i, j, row) <==>
            IsReached(data, cff, i, j) && AsksFor(data, EcuAt(data, cff, i).value, j, row)
  {
    var parts := FileParts(data, cff);
    forall m | 0 <= m < |parts|
      ensures Stop !in parts[m] <==> EcuParses(data, cff, m)
    {
      assert parts[m] == EcuPart(data, cff, m);
      PartParsesIff(data, cff, m);
    }
    if i < |parts| {
      assert parts[i] == EcuPart(data, cff, i);
      if EcuAt(data, cff, i).Some? {
        var ecu := EcuAt(data, cff, i).value;
        EmittedInEcu(data, ecu, ecu.diagCount, j, row);
      }
    }
  }

  /** The file has a service asking for local identifier zero, and everything before it parses. */
  predicate ReachesZero(data: seq<byte>, cff: CffHeader, i: nat, j: nat)
    requires CffIsUsable(cff)
  {
    IsReached(data, cff, i, j) && AsksForZero(data, cff, i, j)
  }

  ghost predicate ReachesZeroRead(data: seq<byte>) {
    && CffRecord(data).Some? && EcuTable(CffRecord(data).value) <= |data|
    && exists i: nat, j: nat :: ReachesZero(data, CffRecord(data).value, i, j)
  }

  lemma UnsafeRowIsReached(data: seq<byte>, cff: CffHeader, row: Row)
    requires CffIsUsable(cff)
    ensures row in Emitted(None, Flat(FileParts(data, cff))).rows && !IsSafe(row.request) ==>
              exists i: nat, j: nat :: ReachesZero(data, cff, i, j)
  {
    var parts := FileParts(data, cff);
    if row in Emitted(None, Flat(parts)).rows && !IsSafe(row.request) {
      PlainRowsInParts(parts, row);
      var i: nat, j: nat :| EmittedIn(parts, i, j, row);
      EmittedInFile(data, cff, i, j, row);
      UnsafeRowIff(data, EcuAt(data, cff, i).value, j, row);
      assert ReachesZero(data, cff, i, j);
    }
  }

  lemma ReachedZeroIsEmitted(data: seq<byte>, cff: CffHeader, i: nat, j: nat)
    requires CffIsUsable(cff)
    ensures ReachesZero(data, cff, i, j) ==> !AllSafe(Emitted(None, Flat(FileParts(data, cff))).rows)
  {
    if ReachesZero(data, cff, i, j) {
      var ecu := EcuAt(data, cff, i).value;
      var row := ZeroServiceHasRow(data, ecu, j);
      UnsafeRowIff(data, ecu, j, row);
      EmittedInFile(data, cff, i, j, row);
      PlainRowsInParts(FileParts(data, cff), row);
    }
  }

  /**
   * For every file, whether plain extraction reaches its end or not: the rows are all safe exactly when no service that
   * asks for local identifier zero is reached.
   */
  lemma PlainIsSafeIff(data: seq<byte>)
    ensures AllSafe(Extraction(data, None).rows) <==> !ReachesZeroRead(data)
  {
    var rows := Extraction(data, None).rows;
    if !AllSafe(rows) {
      var row :| row in rows && !IsSafe(row.request);
      UnsafeRowIsReached(data, CffRecord(data).value, row);
    }
    if ReachesZeroRead(data) {
      var cff := CffRecord(data).value;
      var i: nat, j: nat :| ReachesZero(data, cff, i, j);
      ReachedZeroIsEmitted(data, cff, i, j);
    }
  }
}
