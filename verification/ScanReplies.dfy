/**
 * What one adapter response does to a scan, in terms of its bytes, and how long a silent control unit keeps it busy.
 * Nothing here refers to the classification of replies or to the retry rule of the model.
 */
module ScanReplies {
  import opened Words
  import opened Requests
  import opened ScanModel
  import opened ScanRuns

  // ---------------------------------------------------------------------
  // One response
  // ---------------------------------------------------------------------

  /** How a positive answer to a read begins: its positive service byte and its own identifier. */
  function PositiveHead(q: Request): (head: seq<byte>)
    ensures |head| == if q.service == 0x22 then 3 else 2
  {
    if q.service == 0x22 then [0x62, q.identifier / 0x100, q.identifier % 0x100]
    else [if q.service == 0x21 then 0x61 else 0x5a, q.identifier % 0x100]
  }

  /** A positive answer of the same service that names another identifier. */
  predicate NamesAnother(q: Request, pdu: seq<byte>) {
    var head := PositiveHead(q);
    |pdu| >= |head| && pdu[0] == head[0] && !(head <= pdu)
  }

  /** A negative answer to a read of this service. */
  predicate Refuses(q: Request, pdu: seq<byte>) {
    |pdu| >= 3 && pdu[0] == 0x7f && pdu[1] == q.service
  }

  predicate IsReading(p: Plan, s: State) {
    InProgress(p, s) && s.stage == ReadIdentifier
  }

  /** The scan stays on its request, one retry poorer. */
  predicate Waits(s: State, next: State) {
    next == s.(retries := s.retries + 1)
  }

  /** The scan has left its request behind, with this tally. */
  predicate GoesOn(p: Plan, s: State, next: State, tally: Tally) {
    && next.attempted == s.attempted + 1 && next.retries == 0 && next.failure == s.failure && next.tally == tally
    && next.stage == if next.attempted == |p.requests| then Complete else ReadIdentifier
  }

  /** Silence is retried in a known-positive plan only, and there at most twice for a request. */
  lemma SilenceStep(c: Config, p: Plan, s: State)
    requires IsReading(p, s)
    ensures var next := Step(c, p, s, NoResponse);
            && (next.attempted == s.attempted <==> p.knownPositive && s.retries < 2)
            && (if p.knownPositive && s.retries < 2 then Waits(s, next)
                else GoesOn(p, s, next, s.tally.(noResponse := s.tally.noResponse + 1)))
  {
  }

  /** An answer to another read is retried in every plan, at most twice for a request. */
  lemma StrangerStep(c: Config, p: Plan, s: State, pdu: seq<byte>)
    requires PlanIsValid(c, p) && IsReading(p, s) && NamesAnother(p.requests[s.attempted], pdu)
    ensures var next := Step(c, p, s, Pdu(pdu));
            && (next.attempted == s.attempted <==> s.retries < 2)
            && (if s.retries < 2 then Waits(s, next)
                else GoesOn(p, s, next, s.tally.(invalid := s.tally.invalid + 1)))
  {
    assert Speaks(c.protocol, p.requests[s.attempted]);
  }

  /** A positive answer is counted, and while fewer than 256 were, stored with at most 96 bytes of its data. */
  lemma PositiveStep(c: Config, p: Plan, s: State, data: seq<byte>)
    requires PlanIsValid(c, p) && IsReading(p, s)
    ensures var q := p.requests[s.attempted];
            var kept := Record(q.identifier, q.service, if |data| <= 96 then data else data[..96], |data| > 96);
            var next := Step(c, p, s, Pdu(PositiveHead(q) + data));
            GoesOn(p, s, next, s.tally.(
              positive := s.tally.positive + 1,
              records := if s.tally.positive < 256 then s.tally.records + [kept] else s.tally.records))
  {
    var q := p.requests[s.attempted];
    assert Speaks(c.protocol, q);
    var pdu := PositiveHead(q) + data;
    assert pdu[|PositiveHead(q)|..] == data;
    assert data[..|data|] == data;
  }

  lemma RefusalStep(c: Config, p: Plan, s: State, pdu: seq<byte>)
    requires PlanIsValid(c, p) && IsReading(p, s) && Refuses(p.requests[s.attempted], pdu)
    ensures GoesOn(p, s, Step(c, p, s, Pdu(pdu)), s.tally.(negative := s.tally.negative + 1))
  {
    assert Speaks(c.protocol, p.requests[s.attempted]);
  }

  /** Anything else is one invalid answer, at once. */
  lemma UselessStep(c: Config, p: Plan, s: State, r: Response)
    requires PlanIsValid(c, p) && IsReading(p, s)
    requires var q := p.requests[s.attempted];
             r.Undecodable?
             || (r.Pdu? && !(PositiveHead(q) <= r.bytes) && !NamesAnother(q, r.bytes) && !Refuses(q, r.bytes))
    ensures GoesOn(p, s, Step(c, p, s, r), s.tally.(invalid := s.tally.invalid + 1))
  {
    assert Speaks(c.protocol, p.requests[s.attempted]);
  }

  // ---------------------------------------------------------------------
  // A silent control unit
  // ---------------------------------------------------------------------

  function Silence(n: nat): (rs: seq<Response>)
    ensures |rs| == n && forall i :: 0 <= i < n ==> rs[i] == NoResponse
  {
    seq(n, _ => NoResponse)
  }

  /** The requests that `n` silent responses get past, the first of them having used up `retries` already. */
  function Passed(p: Plan, retries: nat, n: nat): nat {
    if p.knownPositive then (retries + n) / 3 else n
  }

  /** A scan that stood at `s` and has since gone past `over` requests unanswered. */
  predicate WentPast(p: Plan, s: State, over: nat, end: State) {
    && end.attempted == Min(s.attempted + over, |p.requests|) && end.attempted >= s.attempted
    && end.tally == s.tally.(noResponse := s.tally.noResponse + end.attempted - s.attempted)
    && (end.stage == Complete <==> s.attempted + over >= |p.requests|)
  }

  lemma {:induction false} SilentReading(c: Config, p: Plan, s: State, n: nat)
    requires IsReading(p, s) && (p.knownPositive || s.retries == 0)
    ensures WentPast(p, s, Passed(p, s.retries, n), Run(c, p, s, Silence(n)))
    decreases n
  {
    if n > 0 {
      var next := Step(c, p, s, NoResponse);
      SilenceStep(c, p, s);
      assert Silence(n)[1..] == Silence(n - 1);
      if next.stage == Complete {
        EndStays(c, p, next, Silence(n - 1));
      } else {
        SilentReading(c, p, next, n - 1);
      }
    }
  }

  lemma AfterSetup(c: Config, p: Plan, setup: seq<Response>, rest: seq<Response>)
    requires p.requests != [] && |setup| == SetupLength(c)
    requires forall i :: 0 <= i < 7 ==> !setup[i].NoResponse?
    ensures Run(c, p, START, setup + rest) == Run(c, p, START.(stage := ReadIdentifier), rest)
  {
    SetupRun(c, p, 0, setup);
    RunsCompose(c, p, START, setup, rest);
  }

  /**
   * When nothing answers after the setup, a scan of N requests is over after N more responses if its plan is not known
   * to be positive, and after 3N if it is, with every request counted as unanswered once and nothing else counted.
   */
  lemma SilentScan(c: Config, p: Plan, setup: seq<Response>, n: nat)
    requires p.requests != [] && |setup| == (if c.requestExtendedSession && c.protocol.Uds? then 9 else 8)
    requires forall i :: 0 <= i < 7 ==> !setup[i].NoResponse?
    ensures var end := Run(c, p, START, setup + Silence(n));
            && end.attempted == Min(if p.knownPositive then n / 3 else n, |p.requests|)
            && end.tally == Tally(0, 0, end.attempted, 0, [])
            && (end.stage == Complete <==> n >= if p.knownPositive then 3 * |p.requests| else |p.requests|)
  {
    AfterSetup(c, p, setup, Silence(n));
    SilentReading(c, p, START.(stage := ReadIdentifier), n);
  }
}
