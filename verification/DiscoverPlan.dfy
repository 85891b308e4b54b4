/** Discovery plans: which address pair each index of the full sweep and of the mobile census probes. */
module DiscoverPlan {
  import opened Words

  const FIRST := 0x600
  const LAST := 0x7f7
  const RANGE_COUNT := LAST - FIRST + 1
  const EXTERNAL_COUNT := 1
  const TARGETS_11 := RANGE_COUNT + EXTERNAL_COUNT
  const TARGETS_29 := 255
  const GRID_COUNT := 47
  const EXCEPTION_COUNT := 2
  const OBD_COUNT := 8
  const MOBILE_COUNT := GRID_COUNT + EXCEPTION_COUNT + OBD_COUNT
  const GRID_TX := 0x602
  const GRID_RX := 0x480

  /** A published route: request and response identifiers of an 11-bit channel. */
  datatype Route = Route(tx: uint32, rx: uint32)

  /** A sweep target: an 11-bit address pair, or LINK's standard 29-bit target of that number. */
  datatype Target = Bits11(tx: uint32, rx: uint32) | Standard29(number: nat)

  predicate DistinctTx(routes: seq<Route>) {
    forall i, j :: 0 <= i < j < |routes| ==> routes[i].tx != routes[j].tx
  }

  predicate InRange(tx: int) {
    FIRST <= tx <= LAST
  }

  predicate Known(routes: seq<Route>, tx: int) {
    exists i :: 0 <= i < |routes| && routes[i].tx == tx
  }

  /** How many routes lie outside the generic range. */
  function OutsideCount(routes: seq<Route>): (n: nat)
    ensures n <= |routes|
  {
    if routes == [] then 0
    else OutsideCount(routes[..|routes| - 1]) + (if InRange(routes[|routes| - 1].tx) then 0 else 1)
  }

  // ---------------------------------------------------------------------
  // The full sweep
  // ---------------------------------------------------------------------

  /** The request identifiers among the first `n` of the range that no route uses, ascending. */
  function Unknown(routes: seq<Route>, n: nat): seq<int> {
    if n == 0 then []
    else Unknown(routes, n - 1) + (if Known(routes, FIRST + n - 1) then [] else [FIRST + n - 1])
  }

  /** Every request identifier the plan should probe: known routes in table order, then the rest ascending. */
  function Wish(routes: seq<Route>): seq<int> {
    seq(|routes|, i requires 0 <= i < |routes| => routes[i].tx) + Unknown(routes, RANGE_COUNT)
  }

  method KnownRouteForTx(routes: seq<Route>, tx: uint32) returns (route: Option<Route>)
    ensures route.Some? <==> Known(routes, tx)
    ensures route.Some? ==> route.value in routes && route.value.tx == tx
  {
    for index := 0 to |routes|
      invariant forall i :: 0 <= i < index ==> routes[i].tx != tx
    {
      if routes[index].tx == tx {
        return Some(routes[index]);
      }
    }
    return None;
  }

  lemma {:induction false} UnknownPrefix(routes: seq<Route>, i: nat, n: nat)
    requires i <= n
    ensures Unknown(routes, i) <= Unknown(routes, n)
  {
    if i < n {
      UnknownPrefix(routes, i, n - 1);
    }
  }

  method Generic11TxAt(routes: seq<Route>, index: nat) returns (found: bool, tx: uint32)
    ensures found <==> index < |Unknown(routes, RANGE_COUNT)|
    ensures found ==> tx == Unknown(routes, RANGE_COUNT)[index]
  {
    var seen := 0;
    var candidate := FIRST;
    while candidate <= LAST
      invariant FIRST <= candidate <= LAST + 1
      invariant seen == |Unknown(routes, candidate - FIRST)| <= index
    {
      assert Unknown(routes, candidate - FIRST + 1)
          == Unknown(routes, candidate - FIRST) + (if Known(routes, candidate) then [] else [candidate]);
      var known := KnownRouteForTx(routes, candidate);
      if known.None? {
        if seen == index {
          UnknownPrefix(routes, candidate - FIRST + 1, RANGE_COUNT);
          assert Unknown(routes, candidate - FIRST + 1)[index] == candidate;
          return true, candidate;
        }
        seen := seen + 1;
      }
      candidate := candidate + 1;
    }
    return false, 0;
  }

  /** When an index of the 11-bit part yields a target. */
  predicate Answers(routes: seq<Route>, index: int) {
    |routes| <= TARGETS_11 && 0 <= index < |Wish(routes)|
  }

  method TargetAt(routes: seq<Route>, index: nat) returns (target: Option<Target>)
    ensures index < 505 ==> (target.Some? <==> |routes| <= 505 && index < |Wish(routes)|)
    ensures index < 505 && target.Some? ==>
      target.value.Bits11? && target.value.tx == Wish(routes)[index]
      && target.value.rx == if index < |routes| then routes[index].rx else target.value.tx + 8
    ensures 505 <= index < 760 && |routes| <= 505 ==> target == Some(Standard29(index - 505))
    ensures index >= 760 || |routes| > 505 ==> target.None?
  {
    var knownCount := |routes|;
    if index >= TARGETS_11 + TARGETS_29 || knownCount > TARGETS_11 {
      return None;
    }
    if index < knownCount {
      return Some(Bits11(routes[index].tx, routes[index].rx));
    }
    if index < TARGETS_11 {
      var found, tx := Generic11TxAt(routes, index - knownCount);
      if !found {
        return None;
      }
      assert Wish(routes)[index] == tx;
      UnknownMembers(routes, RANGE_COUNT);
      assert tx in Unknown(routes, RANGE_COUNT);
      return Some(Bits11(tx, tx + 8));
    }
    return Some(Standard29(index - TARGETS_11));
  }

  /** Unknown identifiers are exactly those of the range that no route uses. */
  lemma {:induction false} UnknownMembers(routes: seq<Route>, n: nat)
    ensures forall tx :: tx in Unknown(routes, n) <==> FIRST <= tx < FIRST + n && !Known(routes, tx)
  {
    if n > 0 {
      UnknownMembers(routes, n - 1);
    }
  }

  lemma {:induction false} UnknownAscends(routes: seq<Route>, n: nat)
    ensures forall i, j :: 0 <= i < j < |Unknown(routes, n)| ==> Unknown(routes, n)[i] < Unknown(routes, n)[j]
  {
    if n > 0 {
      UnknownAscends(routes, n - 1);
      UnknownMembers(routes, n - 1);
      var front := Unknown(routes, n - 1);
      assert forall i :: 0 <= i < |front| ==> front[i] in front;
    }
  }

  function RangeSet(n: nat): set<int> {
    if n == 0 then {} else RangeSet(n - 1) + {FIRST + n - 1}
  }

  function KnownSet(routes: seq<Route>): set<int> {
    set r | r in routes && InRange(r.tx) :: r.tx
  }

  lemma {:induction false} RangeSetIs(n: nat)
    ensures |RangeSet(n)| == n
    ensures forall x :: x in RangeSet(n) <==> FIRST <= x < FIRST + n
  {
    if n > 0 {
      RangeSetIs(n - 1);
    }
  }

  lemma {:induction false} KnownSetSize(routes: seq<Route>)
    requires DistinctTx(routes)
    ensures |KnownSet(routes)| == |routes| - OutsideCount(routes)
  {
    if routes == [] {
      assert KnownSet(routes) == {};
    } else {
      var front, last := routes[..|routes| - 1], routes[|routes| - 1];
      KnownSetSize(front);
      assert routes == front + [last];
      if InRange(last.tx) {
        assert KnownSet(routes) == KnownSet(front) + {last.tx};
        assert last.tx !in KnownSet(front);
      } else {
        assert KnownSet(routes) == KnownSet(front);
      }
    }
  }

  lemma {:induction false} AscendingSize(s: seq<int>)
    requires forall i, j :: 0 <= i < j < |s| ==> s[i] < s[j]
    ensures |set x | x in s| == |s|
  {
    if s == [] {
      assert (set x | x in s) == {};
    } else {
      var front, last := s[..|s| - 1], s[|s| - 1];
      AscendingSize(front);
      assert (set x | x in s) == (set x | x in front) + {last};
    }
  }

  lemma UnknownSize(routes: seq<Route>)
    requires DistinctTx(routes)
    ensures |Unknown(routes, RANGE_COUNT)| == RANGE_COUNT - (|routes| - OutsideCount(routes))
  {
    var unknown := Unknown(routes, RANGE_COUNT);
    UnknownMembers(routes, RANGE_COUNT);
    UnknownAscends(routes, RANGE_COUNT);
    AscendingSize(unknown);
    RangeSetIs(RANGE_COUNT);
    KnownSetSize(routes);
    KnownSetMembers(routes);
    forall x ensures x in unknown <==> x in RangeSet(RANGE_COUNT) && x !in KnownSet(routes) {
      assert x in RangeSet(RANGE_COUNT) <==> InRange(x);
    }
    assert (set x | x in unknown) == RangeSet(RANGE_COUNT) - KnownSet(routes);
    assert KnownSet(routes) <= RangeSet(RANGE_COUNT);
  }

  lemma KnownSetMembers(routes: seq<Route>)
    ensures forall x :: x in KnownSet(routes) <==> InRange(x) && Known(routes, x)
  {
    forall x ensures x in KnownSet(routes) <==> InRange(x) && Known(routes, x) {
      if InRange(x) && Known(routes, x) {
        var i :| 0 <= i < |routes| && routes[i].tx == x;
        assert routes[i] in routes;
      }
    }
  }

  lemma WishMember(routes: seq<Route>, tx: int)
    ensures tx in Wish(routes) <==> InRange(tx) || Known(routes, tx)
  {
    UnknownMembers(routes, RANGE_COUNT);
    var unknown := Unknown(routes, RANGE_COUNT);
    if Known(routes, tx) {
      var i :| 0 <= i < |routes| && routes[i].tx == tx;
      assert Wish(routes)[i] == tx;
    } else if tx in unknown {
      var i :| 0 <= i < |unknown| && unknown[i] == tx;
      assert Wish(routes)[|routes| + i] == tx;
    }
  }

  lemma WishDiffers(routes: seq<Route>, i: nat, j: nat)
    requires DistinctTx(routes) && i < j < |Wish(routes)|
    ensures Wish(routes)[i] != Wish(routes)[j]
  {
    var unknown := Unknown(routes, RANGE_COUNT);
    if i >= |routes| {
      UnknownAscends(routes, RANGE_COUNT);
    } else if j >= |routes| {
      UnknownMembers(routes, RANGE_COUNT);
      assert unknown[j - |routes|] in unknown;
      assert Known(routes, routes[i].tx);
    }
  }

  /** The wish list names each identifier of the range and of the table exactly once. */
  lemma WishIsComplete(routes: seq<Route>)
    requires DistinctTx(routes)
    ensures |Wish(routes)| == RANGE_COUNT + OutsideCount(routes)
    ensures forall i, j :: 0 <= i < j < |Wish(routes)| ==> Wish(routes)[i] != Wish(routes)[j]
    ensures forall tx :: tx in Wish(routes) <==> InRange(tx) || Known(routes, tx)
  {
    UnknownSize(routes);
    forall tx ensures tx in Wish(routes) <==> InRange(tx) || Known(routes, tx) {
      WishMember(routes, tx);
    }
    forall i, j | 0 <= i < j < |Wish(routes)| ensures Wish(routes)[i] != Wish(routes)[j] {
      WishDiffers(routes, i, j);
    }
  }

  /** The list is that of the known routes, in table order, and then rising through 600 to 7F7. */
  lemma WishIsOrdered(routes: seq<Route>, tx: int)
    ensures tx in Wish(routes) <==> 0x600 <= tx <= 0x7f7 || exists i :: 0 <= i < |routes| && routes[i].tx == tx
    ensures |routes| <= |Wish(routes)|
    ensures forall i :: 0 <= i < |routes| ==> Wish(routes)[i] == routes[i].tx
    ensures forall i, j :: |routes| <= i < j < |Wish(routes)| ==> Wish(routes)[i] < Wish(routes)[j]
  {
    WishMember(routes, tx);
    UnknownAscends(routes, RANGE_COUNT);
  }

  /** No index of the 11-bit part fails. */
  predicate NeverFails(routes: seq<Route>) {
    forall index :: 0 <= index < TARGETS_11 ==> Answers(routes, index)
  }

  /** Every identifier of the range or the table is probed at some index of the 11-bit part. */
  ghost predicate Covers(routes: seq<Route>) {
    forall tx :: InRange(tx) || Known(routes, tx) ==>
      exists index :: 0 <= index < TARGETS_11 && Answers(routes, index) && Wish(routes)[index] == tx
  }

  /** No two indices of the 11-bit part probe the same identifier. */
  predicate NeverRepeats(routes: seq<Route>) {
    forall i, j :: 0 <= i < j < TARGETS_11 && Answers(routes, i) && Answers(routes, j) ==>
      Wish(routes)[i] != Wish(routes)[j]
  }

  /** What distinct request identifiers leave open: too few routes outside the range fail, too many are missed. */
  lemma DistinctSweepIff(routes: seq<Route>)
    requires DistinctTx(routes)
    ensures NeverFails(routes) && Covers(routes) <==> OutsideCount(routes) == EXTERNAL_COUNT
    ensures NeverRepeats(routes)
    ensures |routes| <= TARGETS_11 ==> (NeverFails(routes) <==> OutsideCount(routes) >= EXTERNAL_COUNT)
    ensures |routes| <= TARGETS_11 ==> (Covers(routes) <==> OutsideCount(routes) <= EXTERNAL_COUNT)
  {
    WishIsComplete(routes);
    UnknownSize(routes);
    var wish := Wish(routes);
    if |routes| > TARGETS_11 {
      assert !Answers(routes, 0);
    } else {
      NeverFailsIff(routes);
      if OutsideCount(routes) > EXTERNAL_COUNT {
        var tx := wish[TARGETS_11];
        assert tx in wish;
        assert forall index :: 0 <= index < TARGETS_11 ==> wish[index] != tx;
        assert !Covers(routes);
      } else {
        forall tx | InRange(tx) || Known(routes, tx)
          ensures exists index :: 0 <= index < TARGETS_11 && Answers(routes, index) && wish[index] == tx
        {
          assert tx in wish;
          var index :| 0 <= index < |wish| && wish[index] == tx;
          assert Answers(routes, index);
        }
      }
    }
  }

  lemma RepeatedTxRepeats(routes: seq<Route>)
    requires NeverFails(routes) && NeverRepeats(routes)
    ensures DistinctTx(routes)
  {
    assert Answers(routes, 0);
    forall i, j | 0 <= i < j < |routes|
      ensures routes[i].tx != routes[j].tx
    {
      assert Answers(routes, i) && Answers(routes, j);
      assert Wish(routes)[i] == routes[i].tx && Wish(routes)[j] == routes[j].tx;
    }
  }

  /**
   * For every route table the 11-bit sweep is a bijection onto range and table exactly when the request identifiers are
   * distinct and one route lies outside the range, which is what the constants of the plan assume.
   */
  lemma SweepIsBijectionIff(routes: seq<Route>)
    ensures NeverFails(routes) && NeverRepeats(routes) && Covers(routes) <==>
            DistinctTx(routes) && OutsideCount(routes) == EXTERNAL_COUNT
  {
    if DistinctTx(routes) {
      DistinctSweepIff(routes);
    } else if NeverFails(routes) && NeverRepeats(routes) {
      RepeatedTxRepeats(routes);
    }
  }

  lemma NeverFailsIff(routes: seq<Route>)
    requires DistinctTx(routes) && |routes| <= TARGETS_11
    ensures NeverFails(routes) <==> OutsideCount(routes) >= EXTERNAL_COUNT
  {
    WishIsComplete(routes);
    if NeverFails(routes) {
      assert Answers(routes, TARGETS_11 - 1);
    }
  }

  // ---------------------------------------------------------------------
  // The mobile census
  // ---------------------------------------------------------------------

  function GridRoute(slot: nat): Route
    requires slot < GRID_COUNT
  {
    Route(GRID_TX + 8 * slot, GRID_RX + slot)
  }

  /** LINK's standard OBD slot: physical request 7E0+n, response 7E8+n. */
  function ObdRoute(slot: nat): Route
    requires slot < OBD_COUNT
  {
    Route(0x7e0 + slot, 0x7e8 + slot)
  }

  predicate IsGridRoute(r: Route) {
    if r.tx < GRID_TX then false
    else
      var delta := r.tx - GRID_TX;
      if delta % 8 != 0 then false
      else
        var slot := delta / 8;
        slot < GRID_COUNT && r.rx == GRID_RX + slot
  }

  predicate IsObdRoute(r: Route) {
    exists slot: nat :: slot < OBD_COUNT && r == ObdRoute(slot)
  }

  /** The predicate accepts exactly the pairs that the grid slots enumerate. */
  lemma GridPredicateIsExact(r: Route)
    ensures IsGridRoute(r) <==> exists slot: nat :: slot < GRID_COUNT && r == GridRoute(slot)
  {
    if IsGridRoute(r) {
      assert r == GridRoute((r.tx - GRID_TX) / 8);
    }
  }

  function Exceptions(routes: seq<Route>): seq<Route> {
    if routes == [] then []
    else Exceptions(routes[..|routes| - 1]) + (if IsGridRoute(routes[|routes| - 1]) then [] else [routes[|routes| - 1]])
  }

  lemma {:induction false} ExceptionsPrefix(routes: seq<Route>, i: nat)
    requires i <= |routes|
    ensures Exceptions(routes[..i]) <= Exceptions(routes)
  {
    if i < |routes| {
      assert routes[..|routes| - 1][..i] == routes[..i];
      ExceptionsPrefix(routes[..|routes| - 1], i);
    } else {
      assert routes[..i] == routes;
    }
  }

  method MobileExceptionAt(routes: seq<Route>, exceptionIndex: nat) returns (route: Option<Route>)
    ensures route.Some? <==> exceptionIndex < |Exceptions(routes)|
    ensures route.Some? ==> route.value == Exceptions(routes)[exceptionIndex]
  {
    var seen := 0;
    for index := 0 to |routes|
      invariant seen == |Exceptions(routes[..index])| <= exceptionIndex
    {
      assert routes[..index + 1][..index] == routes[..index];
      if IsGridRoute(routes[index]) {
        continue;
      }
      if seen == exceptionIndex {
        ExceptionsPrefix(routes, index + 1);
        assert Exceptions(routes[..index + 1])[seen] == routes[index];
        return Some(routes[index]);
      }
      seen := seen + 1;
    }
    assert routes[..|routes|] == routes;
    return None;
  }

  /** The pair that each census index stands for. */
  function Census(routes: seq<Route>, index: nat): Option<Route> {
    if index < GRID_COUNT then Some(GridRoute(index))
    else if index < GRID_COUNT + EXCEPTION_COUNT then
      if index - GRID_COUNT < |Exceptions(routes)| then Some(Exceptions(routes)[index - GRID_COUNT]) else None
    else if index < MOBILE_COUNT then Some(ObdRoute(index - GRID_COUNT - EXCEPTION_COUNT))
    else None
  }

  method MobileTargetAt(routes: seq<Route>, position: nat) returns (target: Option<Route>)
    ensures target == Census(routes, position)
    ensures position < 47 ==> target == Some(Route(0x602 + 8 * position, 0x480 + position))
    ensures 47 <= position < 49 ==> (target.Some? <==> position - 47 < |Exceptions(routes)|)
    ensures 47 <= position < 49 && target.Some? ==> target.value == Exceptions(routes)[position - 47]
    ensures 49 <= position < 57 ==> target == Some(Route(0x7e0 + position - 49, 0x7e8 + position - 49))
    ensures position >= 57 ==> target.None?
  {
    var index := position;
    if index >= MOBILE_COUNT {
      return None;
    }
    if index < GRID_COUNT {
      var slot := index;
      return Some(Route(GRID_TX + slot * 8, GRID_RX + slot));
    }
    index := index - GRID_COUNT;
    if index < EXCEPTION_COUNT {
      target := MobileExceptionAt(routes, index);
      return;
    }
    index := index - EXCEPTION_COUNT;
    return Some(ObdRoute(index));
  }

  predicate Visits(routes: seq<Route>, index: nat, r: Route) {
    index < MOBILE_COUNT && Census(routes, index) == Some(r)
  }

  lemma {:induction false} ExceptionsAre(routes: seq<Route>)
    requires DistinctTx(routes)
    ensures DistinctTx(Exceptions(routes))
    ensures forall r :: r in Exceptions(routes) <==> r in routes && !IsGridRoute(r)
  {
    if routes != [] {
      var front, last := routes[..|routes| - 1], routes[|routes| - 1];
      ExceptionsAre(front);
      assert routes == front + [last];
      forall r | r in Exceptions(front) ensures r.tx != last.tx {
        assert r in front;
      }
      forall i, j | 0 <= i < j < |Exceptions(routes)| ensures Exceptions(routes)[i].tx != Exceptions(routes)[j].tx {
        if j == |Exceptions(front)| {
          assert Exceptions(front)[i] in Exceptions(front);
        }
      }
    }
  }

  /** The exceptions stand in table order. */
  lemma {:induction false} ExceptionsInTableOrder(routes: seq<Route>, a: nat, b: nat) returns (i: nat, j: nat)
    requires a < b < |Exceptions(routes)|
    ensures i < j < |routes| && routes[i] == Exceptions(routes)[a] && routes[j] == Exceptions(routes)[b]
  {
    var front := routes[..|routes| - 1];
    if b < |Exceptions(front)| {
      i, j := ExceptionsInTableOrder(front, a, b);
    } else {
      i := ExceptionIndex(front, a);
      j := |routes| - 1;
    }
  }

  lemma {:induction false} ExceptionIndex(routes: seq<Route>, a: nat) returns (i: nat)
    requires a < |Exceptions(routes)|
    ensures i < |routes| && routes[i] == Exceptions(routes)[a]
  {
    if a < |Exceptions(routes[..|routes| - 1])| {
      i := ExceptionIndex(routes[..|routes| - 1], a);
    } else {
      i := |routes| - 1;
    }
  }

  lemma ObdIsNotGrid(r: Route)
    requires IsObdRoute(r)
    ensures !IsGridRoute(r)
  {
  }

  /** Exceptions past the two that the census has room for. */
  predicate LaterExceptionsAreObd(routes: seq<Route>) {
    forall k :: EXCEPTION_COUNT <= k < |Exceptions(routes)| ==> IsObdRoute(Exceptions(routes)[k])
  }

  predicate FirstExceptionsAreNotObd(routes: seq<Route>) {
    forall k :: 0 <= k < EXCEPTION_COUNT && k < |Exceptions(routes)| ==> !IsObdRoute(Exceptions(routes)[k])
  }

  predicate IsEarlyException(routes: seq<Route>, r: Route) {
    exists k :: 0 <= k < EXCEPTION_COUNT && k < |Exceptions(routes)| && Exceptions(routes)[k] == r
  }

  lemma CensusFinds(routes: seq<Route>, r: Route)
    requires IsGridRoute(r) || IsObdRoute(r) || IsEarlyException(routes, r)
    ensures exists index :: Visits(routes, index, r)
  {
    if IsGridRoute(r) {
      GridPredicateIsExact(r);
      var slot: nat :| slot < GRID_COUNT && r == GridRoute(slot);
      assert Visits(routes, slot, r);
    } else if IsObdRoute(r) {
      var slot: nat :| slot < OBD_COUNT && r == ObdRoute(slot);
      assert Visits(routes, GRID_COUNT + EXCEPTION_COUNT + slot, r);
    } else {
      var k :| 0 <= k < EXCEPTION_COUNT && k < |Exceptions(routes)| && Exceptions(routes)[k] == r;
      assert Visits(routes, GRID_COUNT + k, r);
    }
  }

  /** The census reaches every known route exactly when all exceptions but the first two are OBD pairs. */
  lemma CensusVisitsAllIff(routes: seq<Route>)
    requires DistinctTx(routes)
    ensures (forall r :: r in routes ==> exists index :: Visits(routes, index, r)) <==> LaterExceptionsAreObd(routes)
  {
    ExceptionsAre(routes);
    var ex := Exceptions(routes);
    if LaterExceptionsAreObd(routes) {
      forall r | r in routes ensures exists index :: Visits(routes, index, r) {
        if !IsGridRoute(r) {
          var k :| 0 <= k < |ex| && ex[k] == r;
          assert if k >= EXCEPTION_COUNT then IsObdRoute(r) else IsEarlyException(routes, r);
        }
        CensusFinds(routes, r);
      }
    }
    if forall r :: r in routes ==> exists index :: Visits(routes, index, r) {
      forall k | EXCEPTION_COUNT <= k < |ex| ensures IsObdRoute(ex[k]) {
        assert ex[k] in ex && ex[k] in routes;
        var index :| Visits(routes, index, ex[k]);
        GridPredicateIsExact(ex[k]);
      }
    }
  }

  /** No pair is probed twice exactly when neither of the two exceptions is an OBD pair. */
  lemma CensusIsInjectiveIff(routes: seq<Route>)
    requires DistinctTx(routes)
    ensures (forall i, j, r :: Visits(routes, i, r) && Visits(routes, j, r) ==> i == j) <==>
            FirstExceptionsAreNotObd(routes)
  {
    ExceptionsAre(routes);
    var ex := Exceptions(routes);
    if FirstExceptionsAreNotObd(routes) {
      forall i, j, r | Visits(routes, i, r) && Visits(routes, j, r) ensures i == j {
        VisitedBy(routes, i, r);
        VisitedBy(routes, j, r);
      }
    } else {
      var k :| 0 <= k < EXCEPTION_COUNT && k < |ex| && IsObdRoute(ex[k]);
      var slot: nat :| slot < OBD_COUNT && ex[k] == ObdRoute(slot);
      assert Visits(routes, GRID_COUNT + k, ex[k]);
      assert Visits(routes, GRID_COUNT + EXCEPTION_COUNT + slot, ex[k]);
    }
  }

  /** Which part of the census a visit belongs to, and its position there. */
  lemma VisitedBy(routes: seq<Route>, index: nat, r: Route)
    requires DistinctTx(routes) && Visits(routes, index, r)
    ensures index < GRID_COUNT ==> IsGridRoute(r) && !IsObdRoute(r) && r.rx == GRID_RX + index
    ensures GRID_COUNT <= index < GRID_COUNT + EXCEPTION_COUNT ==>
      !IsGridRoute(r) && index - GRID_COUNT < |Exceptions(routes)| && r == Exceptions(routes)[index - GRID_COUNT]
    ensures index >= GRID_COUNT + EXCEPTION_COUNT ==>
      IsObdRoute(r) && !IsGridRoute(r) && r.tx == 0x7e0 + index - GRID_COUNT - EXCEPTION_COUNT
  {
    ExceptionsAre(routes);
    if index < GRID_COUNT {
      assert IsGridRoute(GridRoute(index));
    } else if index < GRID_COUNT + EXCEPTION_COUNT {
      assert Exceptions(routes)[index - GRID_COUNT] in Exceptions(routes);
    } else {
      assert r == ObdRoute(index - GRID_COUNT - EXCEPTION_COUNT);
      ObdIsNotGrid(r);
    }
  }

  // ---------------------------------------------------------------------
  // Tables for which the plans are not exact
  // ---------------------------------------------------------------------

  lemma OneMoreRoute(routes: seq<Route>, r: Route)
    ensures OutsideCount(routes + [r]) == OutsideCount(routes) + (if InRange(r.tx) then 0 else 1)
    ensures Exceptions(routes + [r]) == Exceptions(routes) + (if IsGridRoute(r) then [] else [r])
  {
    assert (routes + [r])[..|routes|] == routes;
  }

  /** With no route outside the range the last index of the sweep has no address. */
  lemma SweepFailsWithoutOutsider()
    ensures !NeverFails([])
  {
    DistinctSweepIff([]);
  }

  lemma TwoOutsiders(a: Route, b: Route)
    requires !InRange(a.tx) && !InRange(b.tx)
    ensures OutsideCount([a, b]) == 2
  {
    OneMoreRoute([], a);
    OneMoreRoute([a], b);
    assert [] + [a] == [a] && [a] + [b] == [a, b];
  }

  /** With two routes outside the range some address is never probed. */
  lemma SweepMissesWithTwoOutsiders(a: Route, b: Route)
    requires !InRange(a.tx) && !InRange(b.tx) && a.tx != b.tx
    ensures !Covers([a, b])
  {
    var routes := [a, b];
    TwoOutsiders(a, b);
    DistinctSweepIff(routes);
  }

  lemma {:induction false} OffGridRoutes(routes: seq<Route>)
    requires forall r :: r in routes ==> !IsGridRoute(r)
    ensures Exceptions(routes) == routes
  {
    if routes != [] {
      OffGridRoutes(routes[..|routes| - 1]);
      assert routes[|routes| - 1] in routes;
    }
  }

  /** A third off-grid route that is no OBD pair is never visited. */
  lemma CensusMissesThirdException(routes: seq<Route>, index: nat)
    requires |routes| == 3 && DistinctTx(routes) && !IsObdRoute(routes[2])
    requires forall r :: r in routes ==> !IsGridRoute(r)
    ensures !Visits(routes, index, routes[2])
  {
    OffGridRoutes(routes);
    assert routes[2] in routes;
    if Visits(routes, index, routes[2]) {
      VisitedBy(routes, index, routes[2]);
    }
  }

  /** An OBD pair that comes first among the off-grid routes is visited twice. */
  lemma CensusVisitsEarlyObdTwice(slot: nat)
    requires slot < OBD_COUNT
    ensures var r := ObdRoute(slot);
            Visits([r], GRID_COUNT, r) && Visits([r], GRID_COUNT + EXCEPTION_COUNT + slot, r)
  {
    var r := ObdRoute(slot);
    ObdIsNotGrid(r);
    OffGridRoutes([r]);
  }

  // ---------------------------------------------------------------------
  // The table the program ships
  // ---------------------------------------------------------------------

  const SHIPPED: seq<Route> := [
    Route(0x612, 0x482), Route(0x632, 0x486), Route(0x64a, 0x489), Route(0x652, 0x48a), Route(0x6b2, 0x496),
    Route(0x602, 0x480), Route(0x607, 0x587), Route(0x4e0, 0x5ff), Route(0x7e1, 0x7e9), Route(0x60a, 0x481)]

  lemma {:induction false} GridRoutesAreOrdinary(routes: seq<Route>)
    requires forall r :: r in routes ==> IsGridRoute(r)
    ensures OutsideCount(routes) == 0 && Exceptions(routes) == []
  {
    if routes != [] {
      GridRoutesAreOrdinary(routes[..|routes| - 1]);
      var last := routes[|routes| - 1];
      assert last in routes && InRange(last.tx);
    }
  }

  const EXCEPTIONAL: seq<Route> := [Route(0x607, 0x587), Route(0x4e0, 0x5ff), Route(0x7e1, 0x7e9)]

  /** Three exceptional routes and one more ordinary one, appended to ordinary routes. */
  lemma ExceptionalTail(grid: seq<Route>, last: Route)
    requires OutsideCount(grid) == 0 && Exceptions(grid) == [] && IsGridRoute(last) && InRange(last.tx)
    ensures OutsideCount(grid + EXCEPTIONAL + [last]) == 1 && Exceptions(grid + EXCEPTIONAL + [last]) == EXCEPTIONAL
  {
    var a := grid + [EXCEPTIONAL[0]];
    var b := a + [EXCEPTIONAL[1]];
    var c := b + [EXCEPTIONAL[2]];
    OneMoreRoute(grid, EXCEPTIONAL[0]);
    OneMoreRoute(a, EXCEPTIONAL[1]);
    OneMoreRoute(b, EXCEPTIONAL[2]);
    OneMoreRoute(c, last);
    assert c == grid + EXCEPTIONAL;
  }

  lemma ShippedExceptions()
    ensures OutsideCount(SHIPPED) == 1 && Exceptions(SHIPPED) == EXCEPTIONAL
  {
    GridRoutesAreOrdinary(SHIPPED[..6]);
    ExceptionalTail(SHIPPED[..6], SHIPPED[9]);
    assert SHIPPED == SHIPPED[..6] + EXCEPTIONAL + [SHIPPED[9]];
  }

  /** For the shipped table the 11-bit sweep is exact: every address in range and every known one, once each. */
  lemma ShippedSweepIsExact()
    ensures DistinctTx(SHIPPED) && NeverFails(SHIPPED) && NeverRepeats(SHIPPED) && Covers(SHIPPED)
  {
    ShippedExceptions();
    SweepIsBijectionIff(SHIPPED);
  }

  /** For the shipped table the mobile plan is exact: 7E1/7E9 is reached through its OBD slot, everything once. */
  lemma ShippedCensusIsExact()
    ensures forall r :: r in SHIPPED ==> exists index :: Visits(SHIPPED, index, r)
    ensures forall i, j, r :: Visits(SHIPPED, i, r) && Visits(SHIPPED, j, r) ==> i == j
    ensures forall index :: 0 <= index < MOBILE_COUNT ==> Census(SHIPPED, index).Some?
    ensures Visits(SHIPPED, GRID_COUNT + EXCEPTION_COUNT + 1, Route(0x7e1, 0x7e9))
  {
    ShippedExceptions();
    assert Exceptions(SHIPPED)[2] == ObdRoute(1);
    CensusVisitsAllIff(SHIPPED);
    CensusIsInjectiveIff(SHIPPED);
  }
}
