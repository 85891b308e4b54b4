/** A controller's data pack: four catalogues seen as one indexed list, iterated in two acquisition passes. */
module EcuPack {
  import opened Words
  import opened Requests

  datatype Acquisition = UserPolling | StartupOnce

  datatype Kind = Identification | LiveValue | DocumentedRead | RawObserved

  datatype Item = Item(
    request: Request, kind: Kind, acquisition: Acquisition,
    acquiredDuringIdentification: bool, advertised: bool, allowDuplicateWire: bool)

  /** One row of the controller-family acquisition policy. */
  datatype Policy = Policy(familyKey: string, request: Request, acquisition: Acquisition)

  datatype LocalRead = LocalRead(identifier: byte, live: bool)

  datatype ProfileEntry = ProfileEntry(request: Request, corroborated: bool, dynamicHint: bool)

  /** A resolved pack: its four catalogues, whose table look-ups may fail, and the policy table. */
  datatype Pack = Pack(
    familyKey: Option<string>, policies: seq<Policy>,
    canonicalSignals: nat, transmission: seq<LocalRead>,
    entries: seq<Option<ProfileEntry>>, documented: seq<Option<Request>>)

  // ---------------------------------------------------------------------
  // Classification
  // ---------------------------------------------------------------------

  /** Hardware, software and calibration identification. */
  predicate IsModuleMetadata(q: Request) {
    if q.service == 0x22 then
      q.identifier in {0xf111, 0xf121, 0xf150, 0xf151, 0xf153, 0xf187, 0xf188, 0xf189,
                       0xf191, 0xf197, 0xf192, 0xf193, 0xf194, 0xf195}
    else
      q.service == 0x1a && 0x86 <= q.identifier <= 0x9f
  }

  predicate IsIdentificationRead(q: Request) {
    if q.service == 0x22 then 0xf100 <= q.identifier <= 0xf1ff
    else q.service == 0x1a && 0x86 <= q.identifier <= 0x9f
  }

  predicate ReadDuringIdentification(q: Request) {
    if q.service == 0x22 then
      q.identifier == 0xf187 || q.identifier == 0xf188 || q.identifier == 0xf191 || q.identifier == 0xf197
    else
      q.service == 0x1a && (q.identifier == 0x86 || q.identifier == 0x87 || q.identifier == 0x89)
  }

  predicate PolicyApplies(pack: Pack, q: Request, row: Policy) {
    pack.familyKey.Some? && row.request == q && row.familyKey == pack.familyKey.value
  }

  /** The first policy row of this family for this read. */
  method PolicyFor(pack: Pack, q: Request) returns (row: Option<Policy>)
    ensures row.Some? ==> exists i :: 0 <= i < |pack.policies| && pack.policies[i] == row.value
                                      && PolicyApplies(pack, q, row.value)
                                      && forall j :: 0 <= j < i ==> !PolicyApplies(pack, q, pack.policies[j])
    ensures row.None? ==> forall i :: 0 <= i < |pack.policies| ==> !PolicyApplies(pack, q, pack.policies[i])
  {
    if pack.familyKey.None? {
      return None;
    }
    for index := 0 to |pack.policies|
      invariant forall j :: 0 <= j < index ==> !PolicyApplies(pack, q, pack.policies[j])
    {
      if PolicyApplies(pack, q, pack.policies[index]) {
        return Some(pack.policies[index]);
      }
    }
    return None;
  }

  /** The policy's verdict on a read: that of the first applying row, if any. */
  function PolicyVerdict(pack: Pack, q: Request, from: nat): Option<Acquisition>
    requires from <= |pack.policies|
    decreases |pack.policies| - from
  {
    if from == |pack.policies| then None
    else if PolicyApplies(pack, q, pack.policies[from]) then Some(pack.policies[from].acquisition)
    else PolicyVerdict(pack, q, from + 1)
  }

  lemma {:induction false} VerdictOfFirst(pack: Pack, q: Request, from: nat, i: nat)
    requires from <= i < |pack.policies| && PolicyApplies(pack, q, pack.policies[i])
    requires forall j :: from <= j < i ==> !PolicyApplies(pack, q, pack.policies[j])
    ensures PolicyVerdict(pack, q, from) == Some(pack.policies[i].acquisition)
    decreases i - from
  {
    if from < i {
      VerdictOfFirst(pack, q, from + 1, i);
    }
  }

  lemma {:induction false} VerdictOfNone(pack: Pack, q: Request, from: nat)
    requires from <= |pack.policies|
    requires forall j :: from <= j < |pack.policies| ==> !PolicyApplies(pack, q, pack.policies[j])
    ensures PolicyVerdict(pack, q, from).None?
    decreases |pack.policies| - from
  {
    if from < |pack.policies| {
      VerdictOfNone(pack, q, from + 1);
    }
  }

  function AcquisitionOf(pack: Pack, q: Request): Acquisition {
    if IsModuleMetadata(q) then StartupOnce
    else if PolicyVerdict(pack, q, 0).Some? then PolicyVerdict(pack, q, 0).value
    else UserPolling
  }

  method ItemAcquisition(pack: Pack, q: Request) returns (acquisition: Acquisition)
    ensures acquisition == AcquisitionOf(pack, q)
  {
    if IsModuleMetadata(q) {
      return StartupOnce;
    }
    var row := PolicyFor(pack, q);
    if row.Some? {
      ghost var i :| 0 <= i < |pack.policies| && pack.policies[i] == row.value && PolicyApplies(pack, q, row.value)
                     && forall j :: 0 <= j < i ==> !PolicyApplies(pack, q, pack.policies[j]);
      VerdictOfFirst(pack, q, 0, i);
      return row.value.acquisition;
    }
    VerdictOfNone(pack, q, 0);
    return UserPolling;
  }

  function Classified(pack: Pack, q: Request, kind: Kind, advertised: bool, duplicate: bool): Item {
    Item(q, kind, AcquisitionOf(pack, q),
         AcquisitionOf(pack, q) == StartupOnce && ReadDuringIdentification(q), advertised, duplicate)
  }

  method Classify(pack: Pack, q: Request, kind: Kind, advertised: bool, duplicate: bool) returns (item: Item)
    ensures item == Classified(pack, q, kind, advertised, duplicate)
  {
    var acquisition := ItemAcquisition(pack, q);
    var during := acquisition == StartupOnce && ReadDuringIdentification(q);
    item := Item(q, kind, acquisition, during, advertised, duplicate);
  }

  // ---------------------------------------------------------------------
  // The four catalogues as one list
  // ---------------------------------------------------------------------

  const CANONICAL_REQUEST := Request(0x21, 0x30)

  function CanonicalItem(pack: Pack): Option<Item> {
    Some(Classified(pack, CANONICAL_REQUEST, LiveValue, true, true))
  }

  function TransmissionItem(pack: Pack, read: LocalRead): Option<Item> {
    Some(Classified(pack, Request(0x21, read.identifier), if read.live then LiveValue else DocumentedRead, true, false))
  }

  function EntryItem(pack: Pack, entry: Option<ProfileEntry>): Option<Item> {
    match entry
    case None => None
    case Some(e) =>
      var kind := if !e.corroborated then RawObserved else if e.dynamicHint then LiveValue else DocumentedRead;
      Some(Classified(pack, e.request, kind, e.corroborated, false))
  }

  function DocumentedItem(pack: Pack, read: Option<Request>): Option<Item> {
    match read
    case None => None
    case Some(q) =>
      Some(Classified(pack, q, if IsIdentificationRead(q) then Identification else DocumentedRead, IsSafe(q), false))
  }

  /** Every position of the pack, in order; a failed table look-up leaves a hole. */
  function AllItems(pack: Pack): seq<Option<Item>> {
    seq(pack.canonicalSignals, _ => CanonicalItem(pack))
    + seq(|pack.transmission|, i requires 0 <= i < |pack.transmission| => TransmissionItem(pack, pack.transmission[i]))
    + seq(|pack.entries|, i requires 0 <= i < |pack.entries| => EntryItem(pack, pack.entries[i]))
    + seq(|pack.documented|, i requires 0 <= i < |pack.documented| => DocumentedItem(pack, pack.documented[i]))
  }

  method DataItemCount(pack: Pack) returns (count: nat)
    ensures count == |AllItems(pack)|
  {
    count := pack.canonicalSignals;
    count := count + |pack.transmission|;
    count := count + |pack.entries|;
    count := count + |pack.documented|;
  }

  /** Index arithmetic over the four segments finds the item of the concatenated list. */
  method DataItemAt(pack: Pack, position: nat) returns (item: Option<Item>)
    ensures item == if position < |AllItems(pack)| then AllItems(pack)[position] else None
  {
    var index := position;
    var count := pack.canonicalSignals;
    if index < count {
      var it := Classify(pack, CANONICAL_REQUEST, LiveValue, true, true);
      return Some(it);
    }
    index := index - count;
    count := |pack.transmission|;
    if index < count {
      var read := pack.transmission[index];
      var kind := if read.live then LiveValue else DocumentedRead;
      var it := Classify(pack, Request(0x21, read.identifier), kind, true, false);
      return Some(it);
    }
    index := index - count;
    count := |pack.entries|;
    if index < count {
      if pack.entries[index].None? {
        return None;
      }
      var entry := pack.entries[index].value;
      var kind;
      if entry.corroborated {
        kind := if entry.dynamicHint then LiveValue else DocumentedRead;
      } else {
        kind := RawObserved;
      }
      var it := Classify(pack, entry.request, kind, entry.corroborated, false);
      return Some(it);
    }
    index := index - count;
    count := |pack.documented|;
    if index < count {
      if pack.documented[index].None? {
        return None;
      }
      var q := pack.documented[index].value;
      var kind := if IsIdentificationRead(q) then Identification else DocumentedRead;
      var it := Classify(pack, q, kind, IsSafe(q), false);
      return Some(it);
    }
    return None;
  }

  // ---------------------------------------------------------------------
  // The two passes
  // ---------------------------------------------------------------------

  predicate Advertised(pack: Pack, i: nat) {
    i < |AllItems(pack)| && AllItems(pack)[i].Some? && AllItems(pack)[i].value.advertised
  }

  /** Whether position `i` belongs to a pass. */
  predicate Wanted(pack: Pack, acquisition: Acquisition, i: nat) {
    Advertised(pack, i) && AllItems(pack)[i].value.acquisition == acquisition
  }

  /** One iteration step: the next wanted position at or after the cursor, or the end. */
  method NextItem(pack: Pack, acquisition: Acquisition, cursor: nat) returns (next: nat, item: Option<Item>)
    ensures item.Some? ==> cursor < next <= |AllItems(pack)|
                           && Wanted(pack, acquisition, next - 1) && item == AllItems(pack)[next - 1]
                           && forall i :: cursor <= i < next - 1 ==> !Wanted(pack, acquisition, i)
    ensures item.None? ==> next == |AllItems(pack)| && forall i :: cursor <= i ==> !Wanted(pack, acquisition, i)
  {
    var count := DataItemCount(pack);
    next := cursor;
    var index := cursor;
    while index < count
      invariant cursor <= index && (index <= count || index == cursor)
      invariant forall i :: cursor <= i < index ==> !Wanted(pack, acquisition, i)
    {
      next := index + 1;
      var candidate := DataItemAt(pack, index);
      if candidate.Some? && candidate.value.acquisition == acquisition && candidate.value.advertised {
        return next, candidate;
      }
      index := index + 1;
    }
    return count, None;
  }

  /** The positions below `n` that belong to a pass, rising. */
  function PassUpTo(pack: Pack, acquisition: Acquisition, n: nat): seq<nat> {
    if n == 0 then []
    else PassUpTo(pack, acquisition, n - 1) + (if Wanted(pack, acquisition, n - 1) then [n - 1] else [])
  }

  lemma {:induction false} PassSkips(pack: Pack, acquisition: Acquisition, low: nat, high: nat)
    requires low <= high && forall i :: low <= i < high ==> !Wanted(pack, acquisition, i)
    ensures PassUpTo(pack, acquisition, high) == PassUpTo(pack, acquisition, low)
    decreases high
  {
    if low < high {
      PassSkips(pack, acquisition, low, high - 1);
    }
  }

  /** A complete pass as callers make it: from cursor zero until nothing is left, the cursor rising every time. */
  method CompletePass(pack: Pack, acquisition: Acquisition) returns (visited: seq<nat>, cursor: nat)
    ensures visited == PassUpTo(pack, acquisition, |AllItems(pack)|)
    ensures cursor == |AllItems(pack)|
  {
    visited, cursor := [], 0;
    var more := true;
    while more
      invariant cursor <= |AllItems(pack)|
      invariant visited == PassUpTo(pack, acquisition, cursor)
      invariant !more ==> cursor == |AllItems(pack)|
      decreases more, |AllItems(pack)| - cursor
    {
      ghost var before := cursor;
      var item;
      cursor, item := NextItem(pack, acquisition, cursor);
      if item.Some? {
        PassSkips(pack, acquisition, before, cursor - 1);
        visited := visited + [cursor - 1];
      } else {
        PassSkips(pack, acquisition, before, cursor);
        more := false;
      }
    }
  }

  predicate Rising(s: seq<nat>) {
    forall a, b :: 0 <= a < b < |s| ==> s[a] < s[b]
  }

  /** A pass visits exactly the wanted positions. */
  lemma {:induction false} PassMembers(pack: Pack, acquisition: Acquisition, n: nat, i: nat)
    ensures i in PassUpTo(pack, acquisition, n) <==> i < n && Wanted(pack, acquisition, i)
  {
    if n > 0 {
      PassMembers(pack, acquisition, n - 1, i);
    }
  }

  lemma {:induction false} PassRises(pack: Pack, acquisition: Acquisition, n: nat)
    ensures Rising(PassUpTo(pack, acquisition, n))
  {
    if n > 0 {
      var front := PassUpTo(pack, acquisition, n - 1);
      PassRises(pack, acquisition, n - 1);
      forall a | 0 <= a < |front|
        ensures front[a] < n - 1
      {
        PassMembers(pack, acquisition, n - 1, front[a]);
      }
    }
  }

  function AdvertisedBelow(pack: Pack, n: nat): set<nat> {
    set i: nat | i < n && Advertised(pack, i)
  }

  lemma AdvertisedNext(pack: Pack, n: nat)
    ensures |AdvertisedBelow(pack, n + 1)| == |AdvertisedBelow(pack, n)| + (if Advertised(pack, n) then 1 else 0)
  {
    var before, now := AdvertisedBelow(pack, n), AdvertisedBelow(pack, n + 1);
    if Advertised(pack, n) {
      assert now == before + {n};
    } else {
      assert now == before;
    }
  }

  lemma {:induction false} PassSizes(pack: Pack, n: nat)
    ensures |PassUpTo(pack, StartupOnce, n)| + |PassUpTo(pack, UserPolling, n)| == |AdvertisedBelow(pack, n)|
  {
    if n == 0 {
      assert AdvertisedBelow(pack, 0) == {};
    } else {
      PassSizes(pack, n - 1);
      AdvertisedNext(pack, n - 1);
    }
  }

  /** The two complete passes visit every advertised position exactly once, in rising order, and nothing else. */
  lemma PassesPartition(pack: Pack)
    ensures var n := |AllItems(pack)|;
            var startup, user := PassUpTo(pack, StartupOnce, n), PassUpTo(pack, UserPolling, n);
            && (forall i: nat :: Advertised(pack, i) <==> (i in startup) != (i in user))
            && (forall i: nat :: !(i in startup && i in user))
            && Rising(startup) && Rising(user)
            && |startup| + |user| == |set i: nat | i < n && Advertised(pack, i)|
  {
    var n := |AllItems(pack)|;
    var startup, user := PassUpTo(pack, StartupOnce, n), PassUpTo(pack, UserPolling, n);
    forall i: nat
      ensures Advertised(pack, i) <==> (i in startup) != (i in user)
      ensures !(i in startup && i in user)
    {
      PassMembers(pack, StartupOnce, n, i);
      PassMembers(pack, UserPolling, n, i);
    }
    PassRises(pack, StartupOnce, n);
    PassRises(pack, UserPolling, n);
    PassSizes(pack, n);
  }

  // ---------------------------------------------------------------------
  // The items, field by field
  // ---------------------------------------------------------------------

  /** A present item with these fields. */
  predicate IsItem(item: Option<Item>, q: Request, kind: Kind, advertised: bool, duplicate: bool) {
    && item.Some? && item.value.request == q && item.value.kind == kind
    && item.value.advertised == advertised && item.value.allowDuplicateWire == duplicate
  }

  /**
   * What stands at each position: live `21 30` signals, the transmission's local reads, the profile's entries, of which
   * the corroborated ones are advertised, and the documented reads, of which the safe ones are.
   */
  lemma ItemsOfPack(pack: Pack, i: nat)
    ensures var c, t, e := pack.canonicalSignals, |pack.transmission|, |pack.entries|;
            var all := AllItems(pack);
            && |all| == c + t + e + |pack.documented|
            && (i < c ==> IsItem(all[i], Request(0x21, 0x30), LiveValue, true, true))
            && (c <= i < c + t ==>
                  var read := pack.transmission[i - c];
                  var kind := if read.live then LiveValue else DocumentedRead;
                  IsItem(all[i], Request(0x21, read.identifier), kind, true, false))
            && (c + t <= i < c + t + e ==>
                  match pack.entries[i - c - t]
                  case None => all[i] == None
                  case Some(entry) =>
                    && (!entry.corroborated ==> IsItem(all[i], entry.request, RawObserved, false, false))
                    && (entry.corroborated && entry.dynamicHint ==>
                          IsItem(all[i], entry.request, LiveValue, true, false))
                    && (entry.corroborated && !entry.dynamicHint ==>
                          IsItem(all[i], entry.request, DocumentedRead, true, false)))
            && (c + t + e <= i < |all| ==>
                  match pack.documented[i - c - t - e]
                  case None => all[i] == None
                  case Some(q) =>
                    var identifies := (q.service == 0x22 && 0xf100 <= q.identifier <= 0xf1ff)
                                      || (q.service == 0x1a && 0x86 <= q.identifier <= 0x9f);
                    IsItem(all[i], q, if identifies then Identification else DocumentedRead, IsSafe(q), false))
  {
  }

  /** The first row of the policy table for this family and this read. */
  predicate IsFirstPolicy(pack: Pack, q: Request, i: nat) {
    && i < |pack.policies| && pack.policies[i].request == q && pack.familyKey == Some(pack.policies[i].familyKey)
    && forall j :: 0 <= j < i ==> pack.policies[j].request != q || pack.familyKey != Some(pack.policies[j].familyKey)
  }

  /** An item is acquired at startup because it is module metadata, or else because its first policy row says so. */
  lemma StartupOnceIff(pack: Pack, q: Request)
    ensures AcquisitionOf(pack, q) == StartupOnce <==>
            || (q.service == 0x22 && q.identifier in {0xf111, 0xf121, 0xf150, 0xf151, 0xf153, 0xf187, 0xf188, 0xf189,
                                                      0xf191, 0xf192, 0xf193, 0xf194, 0xf195, 0xf197})
            || (q.service == 0x1a && 0x86 <= q.identifier <= 0x9f)
            || exists i: nat :: IsFirstPolicy(pack, q, i) && pack.policies[i].acquisition == StartupOnce
  {
    if i: nat :| IsFirstPolicy(pack, q, i) {
      VerdictOfFirst(pack, q, 0, i);
      assert forall k: nat :: IsFirstPolicy(pack, q, k) ==> k == i;
    } else {
      VerdictIsOfFirst(pack, q, 0);
    }
  }

  lemma {:induction false} VerdictIsOfFirst(pack: Pack, q: Request, from: nat)
    requires from <= |pack.policies| && forall i: nat :: !IsFirstPolicy(pack, q, i)
    requires forall j :: 0 <= j < from ==> !PolicyApplies(pack, q, pack.policies[j])
    ensures PolicyVerdict(pack, q, from).None?
    decreases |pack.policies| - from
  {
    if from < |pack.policies| {
      assert !IsFirstPolicy(pack, q, from);
      VerdictIsOfFirst(pack, q, from + 1);
    }
  }

  lemma ItemsAreClassified(pack: Pack, i: nat)
    requires i < |AllItems(pack)| && AllItems(pack)[i].Some?
    ensures var item := AllItems(pack)[i].value;
            item == Classified(pack, item.request, item.kind, item.advertised, item.allowDuplicateWire)
  {
  }

  /** The complete startup pass visits every advertised metadata item, and the user pass none, whatever the policies. */
  lemma MetadataIsStartupOnly(pack: Pack, i: nat)
    requires i < |AllItems(pack)| && AllItems(pack)[i].Some? && IsModuleMetadata(AllItems(pack)[i].value.request)
    ensures i in PassUpTo(pack, StartupOnce, |AllItems(pack)|) <==> AllItems(pack)[i].value.advertised
    ensures i !in PassUpTo(pack, UserPolling, |AllItems(pack)|)
  {
    ItemsAreClassified(pack, i);
    PassMembers(pack, StartupOnce, |AllItems(pack)|, i);
    PassMembers(pack, UserPolling, |AllItems(pack)|, i);
  }

  /** An item counts as read during identification exactly when its request is one that identification sends. */
  lemma IdentificationFlagIsExact(pack: Pack, i: nat)
    requires i < |AllItems(pack)| && AllItems(pack)[i].Some?
    ensures AllItems(pack)[i].value.acquiredDuringIdentification <==>
            AllItems(pack)[i].value.request in {
              Request(0x22, 0xf187), Request(0x22, 0xf188), Request(0x22, 0xf191), Request(0x22, 0xf197),
              Request(0x1a, 0x86), Request(0x1a, 0x87), Request(0x1a, 0x89)}
  {
    ItemsAreClassified(pack, i);
  }
}
