/** The documented-ECU catalogue: the deduplicated union of reads published on one diagnostic route. */
module Catalog {
  import opened Words
  import opened Requests
  import opened ScanModel

  datatype Profile = Profile(
    txCanId: uint32, rxCanId: uint32, routeAvailable: bool, extendedId: bool,
    protocolKnown: bool, protocol: Protocol,
    sessionCommand: Option<string>, quitCommand: Option<string>,
    readOffset: nat, readCount: nat)

  /** The two static tables. */
  datatype Tables = Tables(profiles: seq<Profile>, readTable: seq<Request>)

  datatype Route = Route(txCanId: uint32, rxCanId: uint32, extendedId: bool, protocol: Protocol)

  predicate OnRoute(p: Profile, r: Route) {
    p.routeAvailable && p.txCanId == r.txCanId && p.rxCanId == r.rxCanId && p.extendedId == r.extendedId
  }

  predicate Compatible(p: Profile, r: Route) {
    OnRoute(p, r) && (p.protocolKnown ==> p.protocol == r.protocol)
  }

  /** A profile's i-th read, unless it lies past the profile or past the table. */
  function ReadAt(t: Tables, p: Profile, i: nat): Option<Request> {
    if i >= p.readCount || p.readOffset + i >= |t.readTable| then None else Some(t.readTable[p.readOffset + i])
  }

  // ---------------------------------------------------------------------
  // The set view
  // ---------------------------------------------------------------------

  function ReadsOf(t: Tables, p: Profile, n: nat): seq<Request> {
    if n == 0 then []
    else ReadsOf(t, p, n - 1) + (if ReadAt(t, p, n - 1).Some? then [ReadAt(t, p, n - 1).value] else [])
  }

  /** Everything that the compatible profiles among the first `n` publish, repetitions included. */
  function Published(t: Tables, r: Route, n: nat): seq<Request>
    requires n <= |t.profiles|
  {
    if n == 0 then []
    else
      Published(t, r, n - 1) +
      (if Compatible(t.profiles[n - 1], r) then ReadsOf(t, t.profiles[n - 1], t.profiles[n - 1].readCount) else [])
  }

  /** The safe reads of a list, each at its first occurrence. */
  function Union(s: seq<Request>): seq<Request> {
    if s == [] then []
    else
      var front, last := s[..|s| - 1], s[|s| - 1];
      if IsSafe(last) && last !in front then Union(front) + [last] else Union(front)
  }

  function RouteUnion(t: Tables, r: Route): seq<Request> {
    Union(Published(t, r, |t.profiles|))
  }

  /** The union holds exactly the safe published reads, none twice. */
  lemma {:induction false} UnionIsTheSet(s: seq<Request>)
    ensures forall q :: q in Union(s) <==> q in s && IsSafe(q)
    ensures Distinct(Union(s))
    ensures |Union(s)| == |set q | q in s && IsSafe(q)|
  {
    if s == [] {
      assert (set q | q in s && IsSafe(q)) == {};
    } else {
      var front, last := s[..|s| - 1], s[|s| - 1];
      UnionIsTheSet(front);
      var before, now := set q | q in front && IsSafe(q), set q | q in s && IsSafe(q);
      assert s == front + [last];
      if IsSafe(last) && last !in front {
        assert now == before + {last};
      } else {
        assert now == before;
      }
    }
  }

  function FirstIndex(s: seq<Request>, q: Request): (i: nat)
    requires q in s
    ensures i < |s| && s[i] == q && q !in s[..i]
  {
    if q in s[..|s| - 1] then
      var i := FirstIndex(s[..|s| - 1], q);
      assert s[..|s| - 1][..i] == s[..i];
      i
    else |s| - 1
  }

  /** The union keeps the order of first occurrences. */
  lemma {:induction false} UnionKeepsOrder(s: seq<Request>, i: nat, j: nat)
    requires i < j < |Union(s)|
    ensures Union(s)[i] in s && Union(s)[j] in s
    ensures FirstIndex(s, Union(s)[i]) < FirstIndex(s, Union(s)[j])
  {
    var front, last := s[..|s| - 1], s[|s| - 1];
    UnionIsTheSet(s);
    UnionIsTheSet(front);
    if j < |Union(front)| {
      UnionKeepsOrder(front, i, j);
    } else {
      assert Union(s)[i] in Union(front);
    }
  }

  lemma {:induction false} UnionGrows(s: seq<Request>, more: seq<Request>)
    ensures Union(s) <= Union(s + more)
  {
    if more == [] {
      assert s + more == s;
    } else {
      UnionGrows(s, more[..|more| - 1]);
      assert (s + more)[..|s + more| - 1] == s + more[..|more| - 1];
    }
  }

  // ---------------------------------------------------------------------
  // The enumerators
  // ---------------------------------------------------------------------

  /** All reads that come before read `j` of profile `i`. */
  function Before(t: Tables, r: Route, i: nat, j: nat): seq<Request>
    requires i < |t.profiles|
  {
    Published(t, r, i) + (if Compatible(t.profiles[i], r) then ReadsOf(t, t.profiles[i], j) else [])
  }

  lemma UnionStep(s: seq<Request>, q: Request)
    ensures Union(s + [q]) == if IsSafe(q) && q !in s then Union(s) + [q] else Union(s)
  {
    assert (s + [q])[..|s|] == s;
  }

  lemma {:induction false} ReadsOfPrefix(t: Tables, p: Profile, j: nat, n: nat)
    requires j <= n
    ensures ReadsOf(t, p, j) <= ReadsOf(t, p, n)
  {
    if j < n {
      ReadsOfPrefix(t, p, j, n - 1);
    }
  }

  lemma {:induction false} PublishedPrefix(t: Tables, r: Route, i: nat, n: nat)
    requires i <= n <= |t.profiles|
    ensures Published(t, r, i) <= Published(t, r, n)
  {
    if i < n {
      PublishedPrefix(t, r, i, n - 1);
    }
  }

  lemma InPrefix(a: seq<Request>, b: seq<Request>, q: Request)
    requires a <= b && q in a
    ensures q in b
  {
    var i :| 0 <= i < |a| && a[i] == q;
    assert b[i] == q;
  }

  /** Reads already counted are the first part of the route's union. */
  lemma BeforeIsPrefix(t: Tables, r: Route, i: nat, j: nat)
    requires i < |t.profiles| && j <= t.profiles[i].readCount
    ensures Union(Before(t, r, i, j)) <= RouteUnion(t, r)
  {
    var all := Published(t, r, |t.profiles|);
    var s := Before(t, r, i, j);
    ReadsOfPrefix(t, t.profiles[i], j, t.profiles[i].readCount);
    PublishedPrefix(t, r, i + 1, |t.profiles|);
    assert s <= Published(t, r, i + 1);
    assert all == s + all[|s|..];
    UnionGrows(s, all[|s|..]);
  }

  /** The inner loop: whether a profile publishes `q` among its first `maxRead` reads. */
  method PublishesRead(t: Tables, profile: Profile, maxRead: nat, q: Request) returns (found: bool)
    ensures found <==> q in ReadsOf(t, profile, maxRead)
  {
    for readIndex := 0 to maxRead
      invariant q !in ReadsOf(t, profile, readIndex)
    {
      var read := ReadAt(t, profile, readIndex);
      if read.Some? && read.value == q {
        ReadsOfPrefix(t, profile, readIndex + 1, maxRead);
        assert q in ReadsOf(t, profile, readIndex + 1);
        return true;
      }
    }
    return false;
  }

  method SeenBefore(t: Tables, r: Route, profileLimit: nat, readLimit: nat, q: Request) returns (seen: bool)
    requires profileLimit < |t.profiles| && readLimit <= t.profiles[profileLimit].readCount
    ensures seen <==> q in Before(t, r, profileLimit, readLimit)
  {
    for profileIndex := 0 to profileLimit + 1
      invariant q !in Published(t, r, Min(profileIndex, profileLimit))
      invariant profileIndex > profileLimit ==> q !in Before(t, r, profileLimit, readLimit)
    {
      var profile := t.profiles[profileIndex];
      if !Compatible(profile, r) {
        continue;
      }
      var maxRead := if profileIndex == profileLimit then readLimit else profile.readCount;
      if maxRead > profile.readCount {
        maxRead := profile.readCount;
      }
      var found := PublishesRead(t, profile, maxRead, q);
      if found {
        if profileIndex < profileLimit {
          PublishedPrefix(t, r, profileIndex + 1, profileLimit);
          assert q in Published(t, r, profileIndex + 1);
          InPrefix(Published(t, r, profileIndex + 1), Published(t, r, profileLimit), q);
        }
        return true;
      }
    }
    return false;
  }

  lemma BeforeStep(t: Tables, r: Route, i: nat, j: nat)
    requires i < |t.profiles| && Compatible(t.profiles[i], r)
    ensures ReadAt(t, t.profiles[i], j).None? ==> Before(t, r, i, j + 1) == Before(t, r, i, j)
    ensures ReadAt(t, t.profiles[i], j).Some? ==>
      var q := ReadAt(t, t.profiles[i], j).value;
      && Before(t, r, i, j + 1) == Before(t, r, i, j) + [q]
      && Union(Before(t, r, i, j + 1)) ==
         if IsSafe(q) && q !in Before(t, r, i, j) then Union(Before(t, r, i, j)) + [q] else Union(Before(t, r, i, j))
  {
    var read := ReadAt(t, t.profiles[i], j);
    if read.Some? {
      assert Before(t, r, i, j + 1) == Before(t, r, i, j) + [read.value];
      UnionStep(Before(t, r, i, j), read.value);
    }
  }

  method RouteReadCount(t: Tables, r: Route) returns (count: nat)
    ensures count == |RouteUnion(t, r)|
  {
    count := 0;
    for i := 0 to |t.profiles|
      invariant count == |Union(Published(t, r, i))|
    {
      var profile := t.profiles[i];
      if !Compatible(profile, r) {
        assert Published(t, r, i + 1) == Published(t, r, i);
        continue;
      }
      assert Before(t, r, i, 0) == Published(t, r, i);
      for j := 0 to profile.readCount
        invariant count == |Union(Before(t, r, i, j))|
      {
        BeforeStep(t, r, i, j);
        var read := ReadAt(t, profile, j);
        if read.None? {
          continue;
        }
        if !IsSafe(read.value) {
          continue;
        }
        var seen := SeenBefore(t, r, i, j, read.value);
        if !seen {
          count := count + 1;
        }
      }
    }
  }

  /** A safe read not seen before stands in the route's union right behind what came before it. */
  lemma NextIsMember(t: Tables, r: Route, i: nat, j: nat)
    requires i < |t.profiles| && Compatible(t.profiles[i], r) && j < t.profiles[i].readCount
    requires ReadAt(t, t.profiles[i], j).Some?
    requires IsSafe(ReadAt(t, t.profiles[i], j).value) && ReadAt(t, t.profiles[i], j).value !in Before(t, r, i, j)
    ensures var n := |Union(Before(t, r, i, j))|;
            n < |RouteUnion(t, r)| && RouteUnion(t, r)[n] == ReadAt(t, t.profiles[i], j).value
  {
    BeforeStep(t, r, i, j);
    BeforeIsPrefix(t, r, i, j + 1);
  }

  method RouteReadAt(t: Tables, r: Route, wanted: nat) returns (found: Option<Request>)
    ensures found.Some? <==> wanted < |RouteUnion(t, r)|
    ensures found.Some? ==> found.value == RouteUnion(t, r)[wanted]
  {
    var matched := 0;
    for i := 0 to |t.profiles|
      invariant matched == |Union(Published(t, r, i))| <= wanted
    {
      var profile := t.profiles[i];
      if !Compatible(profile, r) {
        assert Published(t, r, i + 1) == Published(t, r, i);
        continue;
      }
      assert Before(t, r, i, 0) == Published(t, r, i);
      for j := 0 to profile.readCount
        invariant matched == |Union(Before(t, r, i, j))| <= wanted
      {
        BeforeStep(t, r, i, j);
        var read := ReadAt(t, profile, j);
        if read.None? {
          continue;
        }
        if !IsSafe(read.value) {
          continue;
        }
        var seen := SeenBefore(t, r, i, j, read.value);
        if seen {
          continue;
        }
        if matched == wanted {
          NextIsMember(t, r, i, j);
          return read;
        }
        matched := matched + 1;
      }
    }
    return None;
  }

  /** The profile is on the route, speaks its protocol as far as known, and row `k` of the read table is its own. */
  predicate PublishesRow(t: Tables, r: Route, p: Profile, k: int) {
    && p.routeAvailable && p.txCanId == r.txCanId && p.rxCanId == r.rxCanId && p.extendedId == r.extendedId
    && (p.protocolKnown ==> p.protocol == r.protocol)
    && p.readOffset <= k < p.readOffset + p.readCount
  }

  lemma PublishedIff(t: Tables, r: Route, q: Request)
    ensures q in Published(t, r, |t.profiles|) <==>
            exists p, k :: p in t.profiles && 0 <= k < |t.readTable| && PublishesRow(t, r, p, k) && t.readTable[k] == q
  {
    PublishedMembers(t, r, |t.profiles|, q);
    if i, j :| 0 <= i < |t.profiles| && 0 <= j < t.profiles[i].readCount
               && Compatible(t.profiles[i], r) && ReadAt(t, t.profiles[i], j) == Some(q) {
      var p := t.profiles[i];
      assert p in t.profiles && PublishesRow(t, r, p, p.readOffset + j) && t.readTable[p.readOffset + j] == q;
    }
    if p, k :| p in t.profiles && 0 <= k < |t.readTable| && PublishesRow(t, r, p, k) && t.readTable[k] == q {
      var i :| 0 <= i < |t.profiles| && t.profiles[i] == p;
      assert ReadAt(t, t.profiles[i], k - p.readOffset) == Some(q);
    }
  }

  /** What callers may rely on: the indices below the count list the route's safe reads, each exactly once. */
  lemma RouteUnionIsTheSet(t: Tables, r: Route)
    ensures forall q :: q in RouteUnion(t, r) <==>
      IsSafe(q) && exists p, k :: p in t.profiles && 0 <= k < |t.readTable| && PublishesRow(t, r, p, k)
                                  && t.readTable[k] == q
    ensures Distinct(RouteUnion(t, r))
  {
    UnionIsTheSet(Published(t, r, |t.profiles|));
    forall q
      ensures q in Published(t, r, |t.profiles|) <==>
              exists p, k :: p in t.profiles && 0 <= k < |t.readTable| && PublishesRow(t, r, p, k)
                             && t.readTable[k] == q
    {
      PublishedIff(t, r, q);
    }
  }

  lemma {:induction false} ReadsOfMembers(t: Tables, p: Profile, n: nat, q: Request)
    ensures q in ReadsOf(t, p, n) <==> exists j :: 0 <= j < n && ReadAt(t, p, j) == Some(q)
  {
    if n > 0 {
      ReadsOfMembers(t, p, n - 1, q);
    }
  }

  lemma {:induction false} PublishedMembers(t: Tables, r: Route, n: nat, q: Request)
    requires n <= |t.profiles|
    ensures q in Published(t, r, n) <==>
            exists i, j :: 0 <= i < n && 0 <= j < t.profiles[i].readCount
                           && Compatible(t.profiles[i], r) && ReadAt(t, t.profiles[i], j) == Some(q)
  {
    if n > 0 {
      PublishedMembers(t, r, n - 1, q);
      ReadsOfMembers(t, t.profiles[n - 1], t.profiles[n - 1].readCount, q);
    }
  }

  // ---------------------------------------------------------------------
  // Order of publication
  // ---------------------------------------------------------------------

  /** A row of the read table, as published by a profile. */
  datatype Row = Row(profile: nat, index: nat)

  predicate Precedes(a: Row, b: Row) {
    a.profile < b.profile || (a.profile == b.profile && a.index < b.index)
  }

  predicate Publishes(t: Tables, r: Route, row: Row, q: Request) {
    && row.profile < |t.profiles| && row.index < |t.readTable|
    && PublishesRow(t, r, t.profiles[row.profile], row.index) && t.readTable[row.index] == q
  }

  function RowsOf(t: Tables, i: nat, n: nat): seq<Row>
    requires i < |t.profiles|
  {
    if n == 0 then []
    else
      RowsOf(t, i, n - 1) +
      (if ReadAt(t, t.profiles[i], n - 1).Some? then [Row(i, t.profiles[i].readOffset + n - 1)] else [])
  }

  /** The rows behind `Published`. */
  function RowsUpTo(t: Tables, r: Route, n: nat): seq<Row>
    requires n <= |t.profiles|
  {
    if n == 0 then []
    else
      RowsUpTo(t, r, n - 1) +
      (if Compatible(t.profiles[n - 1], r) then RowsOf(t, n - 1, t.profiles[n - 1].readCount) else [])
  }

  predicate InOrder(rows: seq<Row>) {
    forall x, y :: 0 <= x < y < |rows| ==> Precedes(rows[x], rows[y])
  }

  lemma {:induction false} RowsOfProfile(t: Tables, i: nat, n: nat)
    requires i < |t.profiles|
    ensures var rows := RowsOf(t, i, n); var p := t.profiles[i];
            && |rows| == |ReadsOf(t, p, n)| && InOrder(rows)
            && (forall x :: 0 <= x < |rows| ==>
                  && rows[x].profile == i && p.readOffset <= rows[x].index < p.readOffset + Min(n, p.readCount)
                  && rows[x].index < |t.readTable| && t.readTable[rows[x].index] == ReadsOf(t, p, n)[x])
            && (forall k: nat :: p.readOffset <= k < p.readOffset + Min(n, p.readCount) && k < |t.readTable| ==>
                  Row(i, k) in rows)
  {
    if n > 0 {
      RowsOfProfile(t, i, n - 1);
    }
  }

  lemma {:induction false} RowsArePublished(t: Tables, r: Route, n: nat)
    requires n <= |t.profiles|
    ensures var rows := RowsUpTo(t, r, n);
            && |rows| == |Published(t, r, n)| && InOrder(rows)
            && (forall x :: 0 <= x < |rows| ==>
                  rows[x].profile < n && Publishes(t, r, rows[x], Published(t, r, n)[x]))
            && (forall row: Row, q :: row.profile < n && Publishes(t, r, row, q) ==> row in rows)
  {
    if n > 0 {
      RowsArePublished(t, r, n - 1);
      RowsOfProfile(t, n - 1, t.profiles[n - 1].readCount);
    }
  }

  /** Reads are listed in the order in which the tables first publish them: by profile, and within one by row. */
  lemma RouteUnionInTableOrder(t: Tables, r: Route, a: nat, b: nat) returns (first: Row)
    requires a < b < |RouteUnion(t, r)|
    ensures Publishes(t, r, first, RouteUnion(t, r)[a])
    ensures forall row :: Publishes(t, r, row, RouteUnion(t, r)[b]) ==> Precedes(first, row)
  {
    var all, rows := Published(t, r, |t.profiles|), RowsUpTo(t, r, |t.profiles|);
    var early, late := RouteUnion(t, r)[a], RouteUnion(t, r)[b];
    UnionKeepsOrder(all, a, b);
    RowsArePublished(t, r, |t.profiles|);
    first := rows[FirstIndex(all, early)];
    forall row | Publishes(t, r, row, late)
      ensures Precedes(first, row)
    {
      var y :| 0 <= y < |rows| && rows[y] == row;
      assert all[y] == late;
      assert y >= FirstIndex(all, late);
    }
  }
}
