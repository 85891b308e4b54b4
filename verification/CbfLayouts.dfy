/** Where the fields of the three records lie when all of them are stored, in bytes from the start of the record. */
module CbfLayouts {
  import opened Words
  import opened BitField
  import opened CbfReader
  import opened CbfRecords

  // ---------------------------------------------------------------------
  // Records with every field stored
  // ---------------------------------------------------------------------

  lemma {:induction false} AllOnesStored(n: nat, k: nat)
    requires k < n
    ensures Stored(Pow2(n) - 1, k)
  {
    if k == 0 {
      assert Pow2(n) == 2 * Pow2(n - 1);
    } else {
      AllOnesStored(n - 1, k - 1);
      ShiftRightOnce(Pow2(n) - 1, k - 1);
      assert (Pow2(n) - 1) / 2 == Pow2(n - 1) - 1;
    }
  }

  /** Field `k` of a full record lies at `places[k]`, and the record ends at the last of them. */
  predicate IsFull(p: Plan, places: seq<nat>) {
    && p.word == Pow2(|p.layout|) - 1 && |places| == |p.layout| + 1 && places[0] == p.begin
    && forall k :: 0 <= k < |p.layout| ==> places[k + 1] == places[k] + Width(p.layout[k])
  }

  lemma {:induction false} FullPlace(p: Plan, places: seq<nat>, k: nat)
    requires IsFull(p, places) && k <= |p.layout|
    ensures Place(p, k) == places[k]
  {
    if k > 0 {
      FullPlace(p, places, k - 1);
      AllOnesStored(|p.layout|, k - 1);
      assert places[k - 1 + 1] == places[k];
    }
  }

  /** A text offset that does not lead before the file. */
  predicate TextFits(data: seq<byte>, base: nat, at: nat) {
    at + 4 <= |data| && base + Signed32(Little32(data, at)) >= 0
  }

  predicate TextsFit(data: seq<byte>, p: Plan, places: seq<nat>, n: nat)
    requires n <= |p.layout| < |places|
  {
    forall k :: 0 <= k < n && p.layout[k].Text? ==> TextFits(data, p.base, places[k])
  }

  /** A full record parses exactly when it ends inside the file and its text offsets do not lead before the file. */
  lemma {:induction false} FullFits(data: seq<byte>, p: Plan, places: seq<nat>, n: nat)
    requires IsFull(p, places) && n <= |p.layout|
    ensures Fits(data, p, n) <==>
            && (n > 0 ==> places[n] <= |data|)
            && TextsFit(data, p, places, n)
  {
    if n > 0 {
      FullFits(data, p, places, n - 1);
      FullPlace(p, places, n - 1);
      AllOnesStored(|p.layout|, n - 1);
      assert places[n - 1 + 1] == places[n - 1] + Width(p.layout[n - 1]);
    }
  }

  /** Field `k` is stored, lies at this place, and fits. */
  predicate FieldAt(data: seq<byte>, p: Plan, k: nat, at: nat) {
    k < |p.layout| && Stored(p.word, k) && Place(p, k) == at && FieldFits(data, p, k)
  }

  lemma FullField(data: seq<byte>, p: Plan, places: seq<nat>, k: nat, at: nat)
    requires IsFull(p, places) && k < |p.layout| && Fits(data, p, |p.layout|) && at == places[k]
    ensures FieldAt(data, p, k, at)
  {
    FitsUpTo(data, p, |p.layout|, k);
    FullPlace(p, places, k);
    AllOnesStored(|p.layout|, k);
  }

  // ---------------------------------------------------------------------
  // The three layouts
  // ---------------------------------------------------------------------

  lemma WordsOfOnes()
    ensures Pow2(11) == 0x800 && Pow2(20) == 0x10_0000 && Pow2(25) == 0x200_0000
  {
    assert Pow2(5) == 32 && Pow2(10) == 0x400;
    Pow2Shifted(10, 10);
    assert ShiftLeft(0x400, 5) == 0x8000 && ShiftLeft(0x8000, 5) == 0x10_0000;
    ShiftLeftTwice(0x400, 5, 5);
    Pow2Shifted(20, 5);
    assert ShiftLeft(0x10_0000, 5) == 0x200_0000;
  }

  function ServicePlaces(base: nat): (places: seq<nat>)
    ensures |places| == 21
  {
    [base + 8, base + 12, base + 16, base + 20, base + 22, base + 24, base + 26, base + 28, base + 32, base + 36,
     base + 40, base + 44, base + 48, base + 52, base + 56, base + 60, base + 64, base + 68, base + 72, base + 74,
     base + 78]
  }

  lemma ServiceIsFull(data: seq<byte>, base: uint32)
    requires base + 8 <= |data| && Little32(data, base) == 0xf_ffff
    ensures IsFull(ServicePlan(data, base), ServicePlaces(base))
  {
    WordsOfOnes();
  }

  lemma ServiceTexts(data: seq<byte>, base: uint32, p: Plan, places: seq<nat>)
    requires p.layout == SERVICE_LAYOUT && p.base == base && places == ServicePlaces(base)
    ensures TextsFit(data, p, places, 20) <==> TextFits(data, base, base + 8) && TextFits(data, base, base + 52)
  {
    assert places[0] == base + 8 && places[13] == base + 52;
    assert forall k :: 0 <= k < 20 ==> (SERVICE_LAYOUT[k].Text? <==> k == 0 || k == 13);
  }

  /** A service record with all twenty fields stored is 78 bytes long, and has text offsets at 8 and 52. */
  lemma FullServiceFits(data: seq<byte>, base: uint32)
    requires base + 8 <= |data| && Little32(data, base) == 0xf_ffff
    ensures Fits(data, ServicePlan(data, base), 20) <==>
            base + 78 <= |data| && TextFits(data, base, base + 8) && TextFits(data, base, base + 52)
  {
    var p, places := ServicePlan(data, base), ServicePlaces(base);
    ServiceIsFull(data, base);
    FullFits(data, p, places, 20);
    ServiceTexts(data, base, p, places);
  }

  lemma FullServiceEnds(data: seq<byte>, base: uint32, p: Plan)
    requires p.layout == SERVICE_LAYOUT && IsFull(p, ServicePlaces(base)) && Fits(data, p, 20)
    ensures FieldAt(data, p, 0, base + 8) && FieldAt(data, p, 18, base + 72) && FieldAt(data, p, 19, base + 74)
  {
    var places := ServicePlaces(base);
    FullField(data, p, places, 0, base + 8);
    FullField(data, p, places, 18, base + 72);
    FullField(data, p, places, 19, base + 74);
  }

  lemma FullServiceClass(data: seq<byte>, base: uint32, p: Plan)
    requires p.layout == SERVICE_LAYOUT && IsFull(p, ServicePlaces(base)) && Fits(data, p, 20)
    ensures FieldAt(data, p, 3, base + 20) && FieldAt(data, p, 4, base + 22)
    ensures FieldAt(data, p, 5, base + 24) && FieldAt(data, p, 6, base + 26)
  {
    var places := ServicePlaces(base);
    FullField(data, p, places, 3, base + 20);
    FullField(data, p, places, 4, base + 22);
    FullField(data, p, places, 5, base + 24);
    FullField(data, p, places, 6, base + 26);
  }

  /** Where the fields of such a record stand. */
  lemma FullServiceReads(data: seq<byte>, base: uint32)
    requires base + 78 <= |data| && Little32(data, base) == 0xf_ffff && Fits(data, ServicePlan(data, base), 20)
    ensures base + Signed32(Little32(data, base + 8)) >= 0
    ensures var name := TextAt(data, base + Signed32(Little32(data, base + 8)));
            ServiceRecord(data, base) ==
            if name.None? then None
            else Some(DiagService(name.value, Little16(data, base + 20), Little16(data, base + 22),
                                  Little16(data, base + 24), Little16(data, base + 26),
                                  Signed16(Little16(data, base + 72)), Signed32(Little32(data, base + 74))))
  {
    ServiceIsFull(data, base);
    FullServiceEnds(data, base, ServicePlan(data, base));
    FullServiceClass(data, base, ServicePlan(data, base));
  }

  function EcuPlaces(base: nat): (places: seq<nat>)
    ensures |places| == 26
  {
    [base + 10, base + 14, base + 18, base + 22, base + 26, base + 30, base + 34, base + 38, base + 42, base + 46,
     base + 50, base + 54, base + 56, base + 58, base + 60, base + 64, base + 66, base + 70, base + 74, base + 78,
     base + 82, base + 86, base + 90, base + 94, base + 98, base + 102]
  }

  lemma EcuIsFull(data: seq<byte>, base: uint32)
    requires base + 10 <= |data| && Little32(data, base) == 0x1ff_ffff
    ensures IsFull(EcuPlan(data, base), EcuPlaces(base))
  {
    WordsOfOnes();
  }

  lemma EcuTexts(data: seq<byte>, base: uint32, p: Plan, places: seq<nat>)
    requires p.layout == ECU_LAYOUT && p.base == base && places == EcuPlaces(base)
    ensures TextsFit(data, p, places, 25) <==>
            && TextFits(data, base, base + 10) && TextFits(data, base, base + 22) && TextFits(data, base, base + 42)
            && TextFits(data, base, base + 46) && TextFits(data, base, base + 50)
  {
    assert places[0] == base + 10 && places[3] == base + 22 && places[8] == base + 42 && places[9] == base + 46;
    assert places[10] == base + 50;
    assert forall k :: 0 <= k < 25 ==> (ECU_LAYOUT[k].Text? <==> k == 0 || k == 3 || k == 8 || k == 9 || k == 10);
  }

  /** An ECU record with all 25 fields stored is 102 bytes long, and has five text offsets. */
  lemma FullEcuFits(data: seq<byte>, base: uint32)
    requires base + 10 <= |data| && Little32(data, base) == 0x1ff_ffff
    ensures Fits(data, EcuPlan(data, base), 25) <==>
            && base + 102 <= |data|
            && TextFits(data, base, base + 10) && TextFits(data, base, base + 22) && TextFits(data, base, base + 42)
            && TextFits(data, base, base + 46) && TextFits(data, base, base + 50)
  {
    var p, places := EcuPlan(data, base), EcuPlaces(base);
    EcuIsFull(data, base);
    FullFits(data, p, places, 25);
    EcuTexts(data, base, p, places);
  }

  /** Where the fields of such a record stand. */
  lemma FullEcuFields(data: seq<byte>, base: uint32, p: Plan)
    requires p.layout == ECU_LAYOUT && IsFull(p, EcuPlaces(base)) && Fits(data, p, 25)
    ensures FieldAt(data, p, 0, base + 10) && FieldAt(data, p, 21, base + 86)
    ensures FieldAt(data, p, 22, base + 90) && FieldAt(data, p, 23, base + 94)
  {
    var places := EcuPlaces(base);
    FullField(data, p, places, 0, base + 10);
    FullField(data, p, places, 21, base + 86);
    FullField(data, p, places, 22, base + 90);
    FullField(data, p, places, 23, base + 94);
  }

  lemma NumberAt(data: seq<byte>, p: Plan, k: nat, at: nat)
    requires FieldAt(data, p, k, at) && p.layout[k].Long?
    ensures FieldFits(data, p, k) && at + 4 <= |data|
    ensures LongValue(data, p, k, 0) == Signed32(Little32(data, at))
  {
  }

  lemma TextStands(data: seq<byte>, p: Plan, k: nat, at: nat)
    requires FieldAt(data, p, k, at) && p.layout[k].Text?
    ensures FieldFits(data, p, k) && at + 4 <= |data| && p.base + Signed32(Little32(data, at)) >= 0
    ensures TextValue(data, p, k) == TextAt(data, p.base + Signed32(Little32(data, at)))
  {
  }

  lemma EcuFieldsAre(data: seq<byte>, p: Plan, dataBase: uint32, name: Option<seq<byte>>, block: int32, count: int32,
                     size: int32)
    requires p.layout == ECU_LAYOUT && Fits(data, p, |p.layout|)
    requires FieldFits(data, p, 0) && FieldFits(data, p, 21) && FieldFits(data, p, 22) && FieldFits(data, p, 23)
    requires TextValue(data, p, 0) == name && LongValue(data, p, 21, 0) == block
    requires LongValue(data, p, 22, 0) == count && LongValue(data, p, 23, 0) == size
    ensures EcuFields(data, p, dataBase) == EcuFrom(name, Absolute(dataBase, block, |data|), count, size)
  {
  }

  lemma FullEcuValues(data: seq<byte>, base: uint32, p: Plan, dataBase: uint32)
    requires p.layout == ECU_LAYOUT && p.base == base && Fits(data, p, |p.layout|)
    requires FieldAt(data, p, 0, base + 10) && FieldAt(data, p, 21, base + 86)
    requires FieldAt(data, p, 22, base + 90) && FieldAt(data, p, 23, base + 94)
    ensures base + 98 <= |data| && base + Signed32(Little32(data, base + 10)) >= 0
    ensures EcuFields(data, p, dataBase) ==
            EcuFrom(TextAt(data, base + Signed32(Little32(data, base + 10))),
                    Absolute(dataBase, Signed32(Little32(data, base + 86)), |data|),
                    Signed32(Little32(data, base + 90)), Signed32(Little32(data, base + 94)))
  {
    TextStands(data, p, 0, base + 10);
    NumberAt(data, p, 21, base + 86);
    NumberAt(data, p, 22, base + 90);
    NumberAt(data, p, 23, base + 94);
    EcuFieldsAre(data, p, dataBase, TextAt(data, base + Signed32(Little32(data, base + 10))),
                 Signed32(Little32(data, base + 86)), Signed32(Little32(data, base + 90)),
                 Signed32(Little32(data, base + 94)));
  }

  lemma FullEcuReads(data: seq<byte>, base: uint32, cff: CffHeader)
    requires base + 102 <= |data| && Little32(data, base) == 0x1ff_ffff && Fits(data, EcuPlan(data, base), 25)
    requires cff.stringPoolSize > 0 && DataBase(cff) <= UINT32_MAX
    ensures base + Signed32(Little32(data, base + 10)) >= 0
    ensures EcuRecord(data, base, cff) ==
            EcuFrom(TextAt(data, base + Signed32(Little32(data, base + 10))),
                    Absolute(DataBase(cff), Signed32(Little32(data, base + 86)), |data|),
                    Signed32(Little32(data, base + 90)), Signed32(Little32(data, base + 94)))
  {
    EcuIsFull(data, base);
    FullEcuFields(data, base, EcuPlan(data, base));
    FullEcuValues(data, base, EcuPlan(data, base), DataBase(cff));
  }

  function CffPlaces(): (places: seq<nat>)
    ensures |places| == 12
  {
    [0x416, 0x41a, 0x41e, 0x422, 0x426, 0x42a, 0x42e, 0x432, 0x436, 0x43a, 0x43e, 0x442]
  }

  lemma CffIsFull(data: seq<byte>)
    requires 0x416 <= |data| && Little16(data, 0x414) == 0x7ff
    ensures IsFull(CffPlan(data), CffPlaces())
  {
    WordsOfOnes();
  }

  lemma CffTexts(data: seq<byte>, p: Plan, places: seq<nat>)
    requires p.layout == CFF_LAYOUT && p.base == 0x414 && places == CffPlaces()
    ensures TextsFit(data, p, places, 11) <==> TextFits(data, 0x414, 0x43a) && TextFits(data, 0x414, 0x43e)
  {
    assert places[9] == 0x43a && places[10] == 0x43e;
    assert forall k :: 0 <= k < 11 ==> (CFF_LAYOUT[k].Text? <==> k == 9 || k == 10);
  }

  lemma FullCffFields(data: seq<byte>, p: Plan)
    requires p.layout == CFF_LAYOUT && IsFull(p, CffPlaces()) && Fits(data, p, 11)
    ensures FieldAt(data, p, 0, 0x416) && FieldAt(data, p, 2, 0x41e)
    ensures FieldAt(data, p, 3, 0x422) && FieldAt(data, p, 5, 0x42a)
  {
    var places := CffPlaces();
    FullField(data, p, places, 0, 0x416);
    FullField(data, p, places, 2, 0x41e);
    FullField(data, p, places, 3, 0x422);
    FullField(data, p, places, 5, 0x42a);
  }

  /** A file header with all eleven fields stored ends at 0x442, and its last two fields are text offsets. */
  lemma FullCffReads(data: seq<byte>)
    requires 0x442 <= |data| && Little16(data, 0x414) == 0x7ff
    ensures var h := CffHeader(Little32(data, 0x410), 0x414, Signed32(Little32(data, 0x416)),
                               Signed32(Little32(data, 0x41e)), Signed32(Little32(data, 0x422)),
                               Signed32(Little32(data, 0x42a)));
            CffRecord(data) ==
            if TextFits(data, 0x414, 0x43a) && TextFits(data, 0x414, 0x43e)
               && h.version >= 400 && 0 < h.ecuCount < 4096 && h.ecuOffset > 0 && h.stringPoolSize > 0
            then Some(h) else None
  {
    var p := CffPlan(data);
    CffIsFull(data);
    FullFits(data, p, CffPlaces(), 11);
    CffTexts(data, p, CffPlaces());
    if Fits(data, p, 11) {
      FullCffFields(data, p);
    }
  }
}
