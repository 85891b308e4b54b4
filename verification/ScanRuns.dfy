/** Theorems about every run of a manufacturer-data scan, over all valid plans and all response streams. */
module ScanRuns {
  import opened Words
  import opened Requests
  import opened ScanModel

  // ---------------------------------------------------------------------
  // The reference meaning of a run: one outcome for each request
  // ---------------------------------------------------------------------

  function SetupLength(c: Config): nat {
    if c.requestExtendedSession && c.protocol.Uds? then 9 else 8
  }

  /** Stages whose response must be OK; the later setup steps accept anything. */
  const ADAPTER_STEPS := 7

  /** The reply that settles each request, at most two transient replies being passed over for each. */
  function Outcomes(requests: seq<Request>, knownPositive: bool, passed: nat, rs: seq<Response>): (o: seq<Reply>)
    ensures |o| <= |requests|
    decreases |rs|
  {
    if requests == [] || rs == [] then []
    else
      var reply := ReplyTo(requests[0], rs[0]);
      if IsTransient(knownPositive, reply) && passed < MAX_RETRIES then
        Outcomes(requests, knownPositive, passed + 1, rs[1..])
      else
        [reply] + Outcomes(requests[1..], knownPositive, 0, rs[1..])
  }

  predicate IsNegative(r: Reply) { r.Negative? }
  predicate IsNoData(r: Reply) { r.NoData? }
  predicate IsUnusable(r: Reply) { r.Invalid? || r.Stale? }
  predicate IsPositive(r: Reply) { r.Positive? }

  function CountIf(f: Reply -> bool, o: seq<Reply>): nat {
    if o == [] then 0 else CountIf(f, o[..|o| - 1]) + (if f(o[|o| - 1]) then 1 else 0)
  }

  /** A record for each request settled positively, in request order. */
  function PositiveRecords(requests: seq<Request>, o: seq<Reply>): (records: seq<Record>)
    requires |o| <= |requests|
    ensures |records| == CountIf(IsPositive, o)
  {
    if o == [] then []
    else
      var last := o[|o| - 1];
      PositiveRecords(requests, o[..|o| - 1]) +
      (if last.Positive? then [RecordOf(requests[|o| - 1], last.payload)] else [])
  }

  function Truncate<T>(s: seq<T>, n: nat): seq<T> {
    s[..Min(|s|, n)]
  }

  /** What a scan must report when its first `|o|` requests have the outcomes `o`. */
  function Report(requests: seq<Request>, o: seq<Reply>): Tally
    requires |o| <= |requests|
  {
    Tally(CountIf(IsPositive, o), CountIf(IsNegative, o), CountIf(IsNoData, o), CountIf(IsUnusable, o),
          Truncate(PositiveRecords(requests, o), MAX_RECORDS))
  }

  lemma ReportGrows(requests: seq<Request>, o: seq<Reply>, reply: Reply)
    requires |o| < |requests|
    ensures Report(requests, o + [reply]) == Counted(Report(requests, o), requests[|o|], reply)
  {
    assert (o + [reply])[..|o|] == o;
  }

  /** A reading or completed scan whose settled requests had the outcomes `o`. */
  predicate Matches(p: Plan, s: State, o: seq<Reply>) {
    && |o| <= |p.requests|
    && s.attempted == |o| && s.tally == Report(p.requests, o) && s.failure == Ok
    && s.stage == if |o| == |p.requests| then Complete else ReadIdentifier
  }

  lemma SettlingMatches(p: Plan, s: State, o: seq<Reply>, reply: Reply)
    requires Matches(p, s, o) && s.stage == ReadIdentifier
    requires !(IsTransient(p.knownPositive, reply) && s.retries < MAX_RETRIES)
    ensures Matches(p, Settle(p, s, reply), o + [reply]) && Settle(p, s, reply).retries == 0
  {
    ReportGrows(p.requests, o, reply);
  }

  lemma Reassociate(before: seq<Reply>, reply: Reply, rest: seq<Reply>)
    ensures before + [reply] + rest == before + ([reply] + rest)
  {
  }

  lemma {:induction false} ReadingRefinesOutcomes(c: Config, p: Plan, s: State, before: seq<Reply>, rs: seq<Response>)
    requires InProgress(p, s) && Matches(p, s, before)
    ensures Matches(p, Run(c, p, s, rs), before + Outcomes(p.requests[|before|..], p.knownPositive, s.retries, rs))
    decreases |rs|
  {
    var todo := p.requests[|before|..];
    if rs == [] || todo == [] {
      EndStays(c, p, s, rs);
      assert before + [] == before;
    } else {
      var reply := ReplyTo(todo[0], rs[0]);
      var next := Step(c, p, s, rs[0]);
      assert next == Settle(p, s, reply);
      if IsTransient(p.knownPositive, reply) && s.retries < MAX_RETRIES {
        ReadingRefinesOutcomes(c, p, next, before, rs[1..]);
      } else {
        SettlingMatches(p, s, before, reply);
        ReadingRefinesOutcomes(c, p, next, before + [reply], rs[1..]);
        assert before + [reply] + Outcomes(p.requests[|before + [reply]|..], p.knownPositive, 0, rs[1..])
            == before + Outcomes(todo, p.knownPositive, s.retries, rs)
        by {
          assert todo[1..] == p.requests[|before + [reply]|..];
          Reassociate(before, reply, Outcomes(todo[1..], p.knownPositive, 0, rs[1..]));
        }
      }
    }
  }

  // ---------------------------------------------------------------------
  // Both end states are absorbing, and runs compose
  // ---------------------------------------------------------------------

  predicate Ended(s: State) {
    s.stage == Complete || s.stage == Failed
  }

  lemma {:induction false} EndStays(c: Config, p: Plan, s: State, rs: seq<Response>)
    requires InProgress(p, s) && (Ended(s) || rs == [])
    ensures Run(c, p, s, rs) == s
    decreases |rs|
  {
    if rs != [] {
      EndStays(c, p, s, rs[1..]);
    }
  }

  lemma {:induction false} RunsCompose(c: Config, p: Plan, s: State, first: seq<Response>, second: seq<Response>)
    requires InProgress(p, s)
    ensures Run(c, p, s, first + second) == Run(c, p, Run(c, p, s, first), second)
    decreases |first|
  {
    if first == [] {
      assert first + second == second;
    } else {
      assert (first + second)[1..] == first[1..] + second;
      RunsCompose(c, p, Step(c, p, s, first[0]), first[1..], second);
    }
  }

  // ---------------------------------------------------------------------
  // Setup
  // ---------------------------------------------------------------------

  predicate AdapterFails(rs: seq<Response>) {
    exists i :: 0 <= i < |rs| && i < ADAPTER_STEPS && rs[i].NoResponse?
  }

  function SetupStage(c: Config, done: nat): Stage
    requires done <= SetupLength(c)
  {
    if done < 7 then [InitProtocol, HeadersOff, AutoFormat, FlowControl, Timeout, SetHeader, SetReceive][done]
    else if done == 7 && SetupLength(c) == 9 then ExtendedSession
    else if done < SetupLength(c) then TesterPresent
    else ReadIdentifier
  }

  lemma {:induction false} SetupRun(c: Config, p: Plan, done: nat, rs: seq<Response>)
    requires p.requests != [] && done + |rs| <= SetupLength(c)
    requires forall i :: 0 <= i < |rs| && done + i < ADAPTER_STEPS ==> !rs[i].NoResponse?
    ensures Run(c, p, START.(stage := SetupStage(c, done)), rs) == START.(stage := SetupStage(c, done + |rs|))
    decreases |rs|
  {
    if rs != [] {
      assert Step(c, p, START.(stage := SetupStage(c, done)), rs[0]) == START.(stage := SetupStage(c, done + 1));
      SetupRun(c, p, done + 1, rs[1..]);
    }
  }

  lemma {:induction false} FailingSetup(c: Config, p: Plan, rs: seq<Response>)
    requires p.requests != [] && AdapterFails(rs)
    ensures Run(c, p, START, rs) == START.(stage := Failed, failure := AdapterProblem)
  {
    var i := FirstFailure(rs);
    var good := rs[..i];
    SetupRun(c, p, 0, good);
    assert rs == good + rs[i..];
    RunsCompose(c, p, START, good, rs[i..]);
    var failed := Step(c, p, START.(stage := SetupStage(c, i)), rs[i]);
    EndStays(c, p, failed, rs[i..][1..]);
  }

  lemma {:induction false} FirstFailure(rs: seq<Response>) returns (i: nat)
    requires AdapterFails(rs)
    ensures i < |rs| && i < ADAPTER_STEPS && rs[i].NoResponse?
    ensures forall j :: 0 <= j < i ==> !rs[j].NoResponse?
  {
    i := 0;
    while !rs[i].NoResponse?
      invariant i < |rs| && i < ADAPTER_STEPS
      invariant forall j :: 0 <= j < i ==> !rs[j].NoResponse?
      decreases |rs| - i
    {
      i := i + 1;
    }
  }

  // ---------------------------------------------------------------------
  // The whole run
  // ---------------------------------------------------------------------

  lemma SetupThenReading(c: Config, p: Plan, rs: seq<Response>)
    requires p.requests != [] && !AdapterFails(rs) && |rs| >= SetupLength(c)
    ensures Matches(p, Run(c, p, START, rs), Outcomes(p.requests, p.knownPositive, 0, rs[SetupLength(c)..]))
  {
    var n := SetupLength(c);
    var setup, rest := rs[..n], rs[n..];
    assert !AdapterFails(setup);
    SetupRun(c, p, 0, setup);
    assert rs == setup + rest;
    RunsCompose(c, p, START, setup, rest);
    ReadingRefinesOutcomes(c, p, START.(stage := ReadIdentifier), [], rest);
    var o := Outcomes(p.requests, p.knownPositive, 0, rest);
    assert p.requests[0..] == p.requests && [] + o == o;
  }

  /** A scan is exactly its setup chain followed by one settled outcome for each request, whatever the responses. */
  lemma WholeRun(c: Config, p: Plan, rs: seq<Response>)
    requires p.requests != []
    ensures var end := Run(c, p, START, rs); var n := SetupLength(c);
            if AdapterFails(rs) then end == START.(stage := Failed, failure := AdapterProblem)
            else if |rs| < n then end == START.(stage := SetupStage(c, |rs|))
            else
              var o := Outcomes(p.requests, p.knownPositive, 0, rs[n..]);
              Matches(p, end, o)
  {
    var n := SetupLength(c);
    if AdapterFails(rs) {
      FailingSetup(c, p, rs);
    } else if |rs| < n {
      SetupRun(c, p, 0, rs);
    } else {
      SetupThenReading(c, p, rs);
    }
  }

  /** A scan fails exactly when one of the seven adapter steps is not answered OK; reading never fails. */
  lemma FailsOnlyInSetup(c: Config, p: Plan, rs: seq<Response>)
    requires p.requests != []
    ensures Run(c, p, START, rs).stage == Failed <==> exists i :: 0 <= i < 7 && i < |rs| && rs[i].NoResponse?
  {
    WholeRun(c, p, rs);
  }

  lemma {:induction false} OutcomesAreCounted(o: seq<Reply>)
    ensures CountIf(IsPositive, o) + CountIf(IsNegative, o) + CountIf(IsNoData, o) + CountIf(IsUnusable, o) == |o|
  {
    if o != [] {
      OutcomesAreCounted(o[..|o| - 1]);
    }
  }

  /** Conservation, and the bounds on what is stored, in every reachable state. */
  lemma Conservation(c: Config, p: Plan, rs: seq<Response>)
    requires PlanIsValid(c, p)
    ensures var end := Run(c, p, START, rs); var t := end.tally;
            && end.attempted == t.positive + t.negative + t.noResponse + t.invalid
            && end.attempted <= |p.requests|
            && (end.stage == Complete <==> end.attempted == |p.requests|)
            && |t.records| == Min(t.positive, 256)
            && (|p.requests| <= 256 ==> |t.records| == t.positive)
            && (forall i :: 0 <= i < |t.records| ==> |t.records[i].data| <= 96)
  {
    WholeRun(c, p, rs);
    var n := SetupLength(c);
    var o := if AdapterFails(rs) || |rs| < n then [] else Outcomes(p.requests, p.knownPositive, 0, rs[n..]);
    OutcomesAreCounted(o);
    RecordsAreInOrder(p.requests, o);
  }

  /** Where the outcomes that stored a record stand. */
  function PositivePositions(o: seq<Reply>): seq<nat> {
    if o == [] then []
    else PositivePositions(o[..|o| - 1]) + (if o[|o| - 1].Positive? then [|o| - 1] else [])
  }

  /** The positions are exactly those of the positive outcomes. */
  lemma {:induction false} PositionsAreExact(o: seq<Reply>, k: nat)
    ensures k in PositivePositions(o) <==> k < |o| && o[k].Positive?
  {
    if o != [] {
      PositionsAreExact(o[..|o| - 1], k);
    }
  }

  lemma {:induction false} PositionsRise(o: seq<Reply>, i: nat, j: nat)
    requires i < j < |PositivePositions(o)|
    ensures PositivePositions(o)[i] < PositivePositions(o)[j]
  {
    var front := o[..|o| - 1];
    if j < |PositivePositions(front)| {
      PositionsRise(front, i, j);
    } else {
      PositionsAreExact(front, PositivePositions(front)[i]);
    }
  }

  /** The j-th record belongs to the j-th positive outcome. */
  lemma {:induction false} RecordsAreInOrder(requests: seq<Request>, o: seq<Reply>)
    requires |o| <= |requests|
    ensures var at := PositivePositions(o); var records := PositiveRecords(requests, o);
            && |at| == |records|
            && (forall j :: 0 <= j < |at| ==>
                  (at[j] < |o| && o[at[j]].Positive? && records[j] == RecordOf(requests[at[j]], o[at[j]].payload)))
  {
    if o != [] {
      RecordsAreInOrder(requests, o[..|o| - 1]);
    }
  }

  /** No two stored records have the same service and identifier. */
  lemma RecordKeysAreDistinct(c: Config, p: Plan, rs: seq<Response>)
    requires PlanIsValid(c, p)
    ensures var records := Run(c, p, START, rs).tally.records;
            forall i, j :: 0 <= i < j < |records| ==>
              Request(records[i].service, records[i].identifier) != Request(records[j].service, records[j].identifier)
  {
    WholeRun(c, p, rs);
    var n := SetupLength(c);
    var o := if AdapterFails(rs) || |rs| < n then [] else Outcomes(p.requests, p.knownPositive, 0, rs[n..]);
    RecordsAreInOrder(p.requests, o);
    var at := PositivePositions(o);
    var records := Run(c, p, START, rs).tally.records;
    forall i, j | 0 <= i < j < |records|
      ensures Request(records[i].service, records[i].identifier) != Request(records[j].service, records[j].identifier)
    {
      PositionsRise(o, i, j);
      assert p.requests[at[i]] != p.requests[at[j]];
    }
  }

  // ---------------------------------------------------------------------
  // Every record was really answered
  // ---------------------------------------------------------------------

  predicate Answers(rec: Record, r: Response) {
    && r.Pdu?
    && AnswersService(rec.service, r.bytes)
    && EchoedIdentifier(rec.service, r.bytes) == rec.identifier
    && var payload := r.bytes[1 + EchoLength(rec.service)..];
       rec.data == Truncate(payload, MAX_DATA) && (rec.truncated <==> |payload| > MAX_DATA)
  }

  predicate Provenance(rec: Record, rs: seq<Response>) {
    exists j :: 0 <= j < |rs| && Answers(rec, rs[j])
  }

  /** Each record holds the payload of a response that echoes the record's own service and identifier. */
  lemma {:induction false} RecordsWereAnswered(c: Config, p: Plan, s: State, rs: seq<Response>)
    requires InProgress(p, s)
    ensures var records := Run(c, p, s, rs).tally.records;
            && s.tally.records <= records
            && (forall k :: |s.tally.records| <= k < |records| ==>
                  Provenance(records[k], rs) && Request(records[k].service, records[k].identifier) in p.requests)
    decreases |rs|
  {
    if rs != [] {
      var next := Step(c, p, s, rs[0]);
      RecordsWereAnswered(c, p, next, rs[1..]);
      var records := Run(c, p, s, rs).tally.records;
      forall k | |s.tally.records| <= k < |records|
        ensures Provenance(records[k], rs) && Request(records[k].service, records[k].identifier) in p.requests
      {
        if k < |next.tally.records| {
          assert records[k] == next.tally.records[k];
          assert Answers(records[k], rs[0]);
        } else {
          var j :| 0 <= j < |rs[1..]| && Answers(records[k], rs[1..][j]);
          assert rs[1..][j] == rs[j + 1];
        }
      }
    }
  }

  // ---------------------------------------------------------------------
  // Stale replies are invisible
  // ---------------------------------------------------------------------

  /** What arrives for one request: transient replies, then the reply that settles it. */
  datatype Block = Block(noise: seq<Response>, settles: Response)

  predicate FitsRequest(knownPositive: bool, q: Request, b: Block) {
    && |b.noise| <= MAX_RETRIES
    && (forall i :: 0 <= i < |b.noise| ==> IsTransient(knownPositive, ReplyTo(q, b.noise[i])))
    && !IsTransient(knownPositive, ReplyTo(q, b.settles))
  }

  /** The blocks answer the plan's requests one by one, starting with request number `from`. */
  predicate Fits(p: Plan, from: nat, blocks: seq<Block>)
    decreases blocks
  {
    blocks == []
    || (from < |p.requests| && FitsRequest(p.knownPositive, p.requests[from], blocks[0])
        && Fits(p, from + 1, blocks[1..]))
  }

  function Noisy(blocks: seq<Block>): seq<Response> {
    if blocks == [] then [] else blocks[0].noise + [blocks[0].settles] + Noisy(blocks[1..])
  }

  function Clean(blocks: seq<Block>): seq<Response> {
    if blocks == [] then [] else [blocks[0].settles] + Clean(blocks[1..])
  }

  lemma {:induction false} NoiseOnlyCounts(c: Config, p: Plan, s: State, noise: seq<Response>)
    requires InProgress(p, s) && s.stage == ReadIdentifier && s.retries + |noise| <= MAX_RETRIES
    requires forall i :: 0 <= i < |noise| ==> IsTransient(p.knownPositive, ReplyTo(p.requests[s.attempted], noise[i]))
    ensures Run(c, p, s, noise) == s.(retries := s.retries + |noise|)
    decreases |noise|
  {
    if noise != [] {
      NoiseOnlyCounts(c, p, Step(c, p, s, noise[0]), noise[1..]);
    }
  }

  lemma RunStarts(c: Config, p: Plan, s: State, r: Response, rs: seq<Response>)
    requires InProgress(p, s)
    ensures Run(c, p, s, [r] + rs) == Run(c, p, Step(c, p, s, r), rs)
  {
    assert ([r] + rs)[1..] == rs;
  }

  lemma NoisyBlock(c: Config, p: Plan, s: State, b: Block, rest: seq<Response>)
    requires InProgress(p, s) && s.stage == ReadIdentifier && s.retries == 0
    requires FitsRequest(p.knownPositive, p.requests[s.attempted], b)
    ensures Run(c, p, s, b.noise + ([b.settles] + rest)) == Run(c, p, Step(c, p, s, b.settles), rest)
  {
    NoiseOnlyCounts(c, p, s, b.noise);
    RunsCompose(c, p, s, b.noise, [b.settles] + rest);
    RunStarts(c, p, s.(retries := |b.noise|), b.settles, rest);
  }

  lemma SettlingAdvances(c: Config, p: Plan, s: State, r: Response)
    requires InProgress(p, s) && s.stage == ReadIdentifier
    requires !IsTransient(p.knownPositive, ReplyTo(p.requests[s.attempted], r))
    ensures var next := Step(c, p, s, r);
            && next.attempted == s.attempted + 1 && next.retries == 0
            && next.stage == if next.attempted == |p.requests| then Complete else ReadIdentifier
  {
  }

  /** Up to two transient replies before every settling reply leave the whole final state as without them. */
  lemma {:induction false} NoiseIsInvisible(c: Config, p: Plan, s: State, blocks: seq<Block>)
    requires InProgress(p, s) && s.retries == 0
    requires s.stage == ReadIdentifier || (s.stage == Complete && blocks == [])
    requires Fits(p, s.attempted, blocks)
    ensures Run(c, p, s, Noisy(blocks)) == Run(c, p, s, Clean(blocks))
    decreases |blocks|
  {
    if blocks != [] {
      var b, rest := blocks[0], blocks[1..];
      var next := Step(c, p, s, b.settles);
      assert Noisy(blocks) == b.noise + ([b.settles] + Noisy(rest));
      NoisyBlock(c, p, s, b, Noisy(rest));
      RunStarts(c, p, s, b.settles, Clean(rest));
      SettlingAdvances(c, p, s, b.settles);
      NoiseIsInvisible(c, p, next, rest);
    }
  }

  // ---------------------------------------------------------------------
  // Termination
  // ---------------------------------------------------------------------

  function Measure(p: Plan, s: State): nat
    requires InProgress(p, s)
  {
    var budget := 3 * |p.requests|;
    match s.stage
    case InitProtocol => 9 + budget
    case HeadersOff => 8 + budget
    case AutoFormat => 7 + budget
    case FlowControl => 6 + budget
    case Timeout => 5 + budget
    case SetHeader => 4 + budget
    case SetReceive => 3 + budget
    case ExtendedSession => 2 + budget
    case TesterPresent => 1 + budget
    case ReadIdentifier => 3 * (|p.requests| - s.attempted) - s.retries
    case Complete => 0
    case Failed => 0
  }

  /** Invariant of every run: nothing is read before the read stage. */
  predicate Fresh(s: State) {
    s.stage == ReadIdentifier || Ended(s) || (s.attempted == 0 && s.retries == 0)
  }

  lemma StepProgress(c: Config, p: Plan, s: State, r: Response)
    requires InProgress(p, s) && Fresh(s)
    ensures Fresh(Step(c, p, s, r))
    ensures if Ended(s) then Step(c, p, s, r) == s else Measure(p, Step(c, p, s, r)) < Measure(p, s)
  {
  }

  lemma {:induction false} RunProgress(c: Config, p: Plan, s: State, rs: seq<Response>)
    requires InProgress(p, s) && Fresh(s)
    ensures Ended(Run(c, p, s, rs)) || Measure(p, Run(c, p, s, rs)) + |rs| <= Measure(p, s)
    decreases |rs|
  {
    if rs != [] {
      StepProgress(c, p, s, rs[0]);
      RunProgress(c, p, Step(c, p, s, rs[0]), rs[1..]);
      if Ended(s) {
        EndStays(c, p, s, rs);
      }
    }
  }

  lemma ReadingTerminates(c: Config, p: Plan, rs: seq<Response>)
    requires p.requests != [] && !AdapterFails(rs) && |rs| >= SetupLength(c) + 3 * |p.requests|
    ensures Ended(Run(c, p, START, rs))
  {
    var n := SetupLength(c);
    var reading := START.(stage := ReadIdentifier);
    assert rs == rs[..n] + rs[n..];
    assert !AdapterFails(rs[..n]);
    SetupRun(c, p, 0, rs[..n]);
    RunsCompose(c, p, START, rs[..n], rs[n..]);
    RunProgress(c, p, reading, rs[n..]);
  }

  /**
   * Whatever arrives, a scan of N requests has ended after its setup steps and 3N responses; there are nine steps
   * with an extended session and eight without.
   */
  lemma ScanTerminates(c: Config, p: Plan, rs: seq<Response>)
    requires p.requests != [] && |rs| >= SetupLength(c) + 3 * |p.requests|
    ensures Ended(Run(c, p, START, rs)) && 8 <= SetupLength(c) <= 9
  {
    if AdapterFails(rs) {
      FailingSetup(c, p, rs);
    } else {
      ReadingTerminates(c, p, rs);
    }
  }

  /** A response that costs a scan one unit and no more: OK in setup, a late answer to another read after that. */
  function Stalling(p: Plan, s: State): Response
    requires InProgress(p, s)
  {
    if s.stage != ReadIdentifier then Undecodable
    else
      var q := p.requests[s.attempted];
      if q.service == 0x22 then Pdu([0x62, q.identifier / 0x100, (q.identifier + 1) % 0x100])
      else Pdu([(q.service + 0x40) % 0x100, (q.identifier + 1) % 0x100])
  }

  lemma StallingIsStale(c: Config, p: Plan, s: State)
    requires PlanIsValid(c, p) && InProgress(p, s) && s.stage == ReadIdentifier
    ensures ReplyTo(p.requests[s.attempted], Stalling(p, s)).Stale?
  {
    assert Speaks(c.protocol, p.requests[s.attempted]);
  }

  /** From any read state, and with an extended session from any state, some stream costs one unit a response. */
  lemma {:induction false} StallingRun(c: Config, p: Plan, s: State, n: nat) returns (rs: seq<Response>)
    requires PlanIsValid(c, p) && InProgress(p, s) && Fresh(s) && n <= Measure(p, s)
    requires s.stage == ReadIdentifier || Ended(s) || (c.protocol.Uds? && c.requestExtendedSession)
    ensures |rs| == n && Measure(p, Run(c, p, s, rs)) == Measure(p, s) - n
    decreases n
  {
    if n == 0 {
      rs := [];
    } else {
      var r := Stalling(p, s);
      var next := Step(c, p, s, r);
      if s.stage == ReadIdentifier {
        StallingIsStale(c, p, s);
      }
      StepProgress(c, p, s, r);
      assert Measure(p, next) == Measure(p, s) - 1;
      var rest := StallingRun(c, p, next, n - 1);
      rs := [r] + rest;
      assert rs[1..] == rest;
    }
  }

  /** The bound of every configuration is tight: some stream keeps the scan busy until its very last response. */
  lemma BoundIsTight(c: Config, p: Plan) returns (rs: seq<Response>)
    requires PlanIsValid(c, p)
    ensures |rs| == SetupLength(c) + 3 * |p.requests| - 1 && !Ended(Run(c, p, START, rs))
  {
    var n := SetupLength(c);
    var setup := seq(n, _ => Undecodable);
    var reading := START.(stage := ReadIdentifier);
    SetupRun(c, p, 0, setup);
    var busy := StallingRun(c, p, reading, 3 * |p.requests| - 1);
    RunsCompose(c, p, START, setup, busy);
    rs := setup + busy;
  }

  // ---------------------------------------------------------------------
  // Commands and the records they can produce
  // ---------------------------------------------------------------------

  lemma StepStores(c: Config, p: Plan, s: State, r: Response)
    requires InProgress(p, s) && s.stage == ReadIdentifier
    ensures var q := p.requests[s.attempted]; var now := Step(c, p, s, r).tally.records;
            now == s.tally.records
            || (|now| == |s.tally.records| + 1 && s.tally.records <= now
                && Request(now[|now| - 1].service, now[|now| - 1].identifier) == q && Answers(now[|now| - 1], r))
  {
  }

  /**
   * In every reachable read state the command on the wire parses back to one safe read, and a response can
   * store nothing but a record of that very service and identifier.
   */
  lemma CommandReplyAgreement(c: Config, p: Plan, rs: seq<Response>, r: Response)
    requires PlanIsValid(c, p)
    requires Run(c, p, START, rs).stage == ReadIdentifier
    ensures var s := Run(c, p, START, rs);
            var q := p.requests[s.attempted];
            && ParseCommand(CommandText(q)) == Some(q) && IsSafe(q)
            && var now := Step(c, p, s, r).tally.records;
               now == s.tally.records
               || (|now| == |s.tally.records| + 1 && s.tally.records <= now
                   && Request(now[|now| - 1].service, now[|now| - 1].identifier) == q && Answers(now[|now| - 1], r))
  {
    var s := Run(c, p, START, rs);
    assert Speaks(c.protocol, p.requests[s.attempted]);
    CommandParsesBack(p.requests[s.attempted]);
    StepStores(c, p, s, r);
  }
}
