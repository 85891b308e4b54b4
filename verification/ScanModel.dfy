/**
 * What a manufacturer-data scan is, stated on values: the plan of read requests, what one adapter
 * response says about the current request, and the state machine that consumes responses.
 */
module ScanModel {
  import opened Words
  import opened Requests

  const MAX_RECORDS := 256
  const MAX_DATA := 96
  const MAX_RETRIES := 2

  datatype Protocol = Uds | Kwp2000 | Unlisted

  datatype Stage =
    | InitProtocol | HeadersOff | AutoFormat | FlowControl | Timeout | SetHeader | SetReceive
    | ExtendedSession | TesterPresent | ReadIdentifier | Complete | Failed

  datatype Result = Ok | Finished | InvalidArgument | BufferTooSmall | AdapterProblem | FailedState

  datatype Config = Config(
    txCanId: uint32, rxCanId: uint32, extendedId: bool, protocol: Protocol,
    firstIdentifier: uint16, lastIdentifier: uint16, requestExtendedSession: bool)

  /**
   * One adapter response: a result other than OK (NO DATA among them), text that does not decode to a
   * diagnostic PDU, or a decoded PDU.
   */
  datatype Response = NoResponse | Undecodable | Pdu(bytes: seq<byte>)

  datatype Record = Record(identifier: uint16, service: byte, data: seq<byte>, truncated: bool)

  predicate ConfigIsValid(c: Config) {
    var maxId := if c.extendedId then 0x1fff_ffff else 0x7ff;
    && !c.protocol.Unlisted?
    && c.firstIdentifier <= c.lastIdentifier
    && c.txCanId <= maxId && c.rxCanId <= maxId
    && (c.protocol.Kwp2000? ==> c.firstIdentifier != 0 && c.lastIdentifier <= 0xff)
  }

  // ---------------------------------------------------------------------
  // Plans
  // ---------------------------------------------------------------------

  /** The requests in the order they are sent; `knownPositive` marks a refresh of identifiers that answered before. */
  datatype Plan = Plan(requests: seq<Request>, knownPositive: bool)

  function DefaultService(protocol: Protocol): byte {
    if protocol.Kwp2000? then 0x21 else 0x22
  }

  function RangePlan(c: Config): Plan
    requires ConfigIsValid(c)
  {
    Plan(seq(c.lastIdentifier - c.firstIdentifier + 1, i requires 0 <= i <= c.lastIdentifier - c.firstIdentifier =>
               Request(DefaultService(c.protocol), c.firstIdentifier + i)), false)
  }

  function IdentifierPlan(protocol: Protocol, ids: seq<uint16>, retryNoResponse: bool): Plan {
    Plan(seq(|ids|, i requires 0 <= i < |ids| => Request(DefaultService(protocol), ids[i])), retryNoResponse)
  }

  predicate Speaks(protocol: Protocol, q: Request) {
    match protocol
    case Uds => q.service == 0x22
    case Kwp2000 => (q.service == 0x21 || q.service == 0x1a) && q.identifier != 0 && q.identifier <= 0xff
    case Unlisted => false
  }

  /** Each safe read belongs to one protocol. */
  lemma SpeaksIff(protocol: Protocol, q: Request)
    ensures Speaks(protocol, q) <==> IsSafe(q) && protocol == if q.service == 0x22 then Uds else Kwp2000
  {
  }

  /** A valid range is a nonempty run of safe reads of its protocol, on identifiers that the channel can carry. */
  lemma ConfigIsValidIff(c: Config)
    ensures ConfigIsValid(c) <==>
            && c.txCanId < (if c.extendedId then 0x2000_0000 else 0x800)
            && c.rxCanId < (if c.extendedId then 0x2000_0000 else 0x800)
            && c.firstIdentifier <= c.lastIdentifier
            && (forall id: uint16 :: c.firstIdentifier <= id <= c.lastIdentifier ==>
                  Speaks(c.protocol, Request(DefaultService(c.protocol), id)))
  {
    if c.firstIdentifier <= c.lastIdentifier && !ConfigIsValid(c) {
      var first := Request(DefaultService(c.protocol), c.firstIdentifier);
      var last := Request(DefaultService(c.protocol), c.lastIdentifier);
      assert Speaks(c.protocol, first) && Speaks(c.protocol, last) ==> c.txCanId > 0x7ff || c.rxCanId > 0x7ff;
    }
  }

  /** A list is sent in its own order, under the service of the protocol. */
  lemma IdentifierPlanIs(protocol: Protocol, ids: seq<uint16>, retryNoResponse: bool)
    ensures var p := IdentifierPlan(protocol, ids, retryNoResponse);
            && |p.requests| == |ids| && p.knownPositive == retryNoResponse
            && forall i :: 0 <= i < |ids| ==>
                 && p.requests[i].service == (if protocol.Kwp2000? then 0x21 else 0x22)
                 && p.requests[i].identifier == ids[i]
  {
    var rs := IdentifierPlan(protocol, ids, retryNoResponse).requests;
    assert forall i :: 0 <= i < |ids| ==> rs[i] == Request(DefaultService(protocol), ids[i]);
  }

  /** The plans that a successful begin can install. */
  predicate PlanIsValid(c: Config, p: Plan) {
    && ConfigIsValid(c)
    && p.requests != []
    && Distinct(p.requests)
    && (forall i :: 0 <= i < |p.requests| ==> Speaks(c.protocol, p.requests[i]))
    && (|p.requests| > MAX_RECORDS ==> p == RangePlan(c))
  }

  lemma RangeStep(c: Config, i: nat)
    requires ConfigIsValid(c) && i < |RangePlan(c).requests|
    ensures RangePlan(c).requests[i].service == if c.protocol.Kwp2000? then 0x21 else 0x22
    ensures RangePlan(c).requests[i].identifier == c.firstIdentifier + i
    ensures c.firstIdentifier + i < c.lastIdentifier <==> i + 1 < |RangePlan(c).requests|
    ensures i + 1 < |RangePlan(c).requests| ==> RangePlan(c).requests[i + 1].identifier == c.firstIdentifier + i + 1
  {
    assert RangePlan(c).requests[i] == Request(DefaultService(c.protocol), c.firstIdentifier + i);
  }

  lemma RangePlanIsValid(c: Config)
    requires ConfigIsValid(c)
    ensures PlanIsValid(c, RangePlan(c))
    ensures |RangePlan(c).requests| == c.lastIdentifier - c.firstIdentifier + 1
    ensures c.protocol.Kwp2000? ==> |RangePlan(c).requests| < 256
    ensures !RangePlan(c).knownPositive
  {
    var rs := RangePlan(c).requests;
    forall i | 0 <= i < |rs| ensures Speaks(c.protocol, rs[i]) {
      assert rs[i] == Request(DefaultService(c.protocol), c.firstIdentifier + i);
    }
    forall i, j | 0 <= i < j < |rs| ensures rs[i] != rs[j] {
      assert rs[i].identifier == c.firstIdentifier + i;
      assert rs[j].identifier == c.firstIdentifier + j;
    }
  }

  // ---------------------------------------------------------------------
  // What a response says about one request
  // ---------------------------------------------------------------------

  datatype Reply = NoData | Stale | Positive(payload: seq<byte>) | Negative | Invalid

  /** Number of identifier bytes that a positive response echoes. */
  function EchoLength(service: byte): nat {
    if service == 0x22 then 2 else 1
  }

  predicate AnswersService(service: byte, pdu: seq<byte>) {
    |pdu| >= 1 + EchoLength(service) && pdu[0] == (service + 0x40) % 0x100
  }

  function EchoedIdentifier(service: byte, pdu: seq<byte>): uint16
    requires AnswersService(service, pdu)
  {
    if service == 0x22 then BigEndian16(pdu[1], pdu[2]) else pdu[1]
  }

  /** One rule for all three read services. */
  function ReplyTo(q: Request, r: Response): Reply {
    match r
    case NoResponse => NoData
    case Undecodable => Invalid
    case Pdu(pdu) =>
      if AnswersService(q.service, pdu) then
        if EchoedIdentifier(q.service, pdu) == q.identifier then Positive(pdu[1 + EchoLength(q.service)..]) else Stale
      else if |pdu| >= 3 && pdu[0] == 0x7f && pdu[1] == q.service then Negative
      else Invalid
  }

  /** Replies that do not prove the value absent: a late answer to another request, silence in a refresh. */
  predicate IsTransient(knownPositive: bool, reply: Reply) {
    reply.Stale? || (reply.NoData? && knownPositive)
  }

  function RecordOf(q: Request, payload: seq<byte>): Record {
    Record(q.identifier, q.service, payload[..Min(|payload|, MAX_DATA)], |payload| > MAX_DATA)
  }

  // ---------------------------------------------------------------------
  // The state machine
  // ---------------------------------------------------------------------

  datatype Tally = Tally(positive: nat, negative: nat, noResponse: nat, invalid: nat, records: seq<Record>)

  datatype State = State(stage: Stage, failure: Result, attempted: nat, retries: nat, tally: Tally)

  const EMPTY_TALLY := Tally(0, 0, 0, 0, [])
  const START := State(InitProtocol, Ok, 0, 0, EMPTY_TALLY)

  function Counted(t: Tally, q: Request, reply: Reply): Tally {
    match reply
    case NoData => t.(noResponse := t.noResponse + 1)
    case Stale => t.(invalid := t.invalid + 1)
    case Invalid => t.(invalid := t.invalid + 1)
    case Negative => t.(negative := t.negative + 1)
    case Positive(payload) =>
      t.(positive := t.positive + 1,
         records := if t.positive < MAX_RECORDS then t.records + [RecordOf(q, payload)] else t.records)
  }

  predicate InProgress(p: Plan, s: State) {
    s.retries <= MAX_RETRIES && (s.stage != Complete ==> s.attempted < |p.requests|)
  }

  function Settle(p: Plan, s: State, reply: Reply): State
    requires s.attempted < |p.requests|
  {
    if IsTransient(p.knownPositive, reply) && s.retries < MAX_RETRIES then s.(retries := s.retries + 1)
    else Advance(p, s, reply)
  }

  /** The current request is over, with this outcome. */
  function Advance(p: Plan, s: State, reply: Reply): State
    requires s.attempted < |p.requests|
  {
    State(if s.attempted + 1 == |p.requests| then Complete else s.stage, s.failure, s.attempted + 1, 0,
          Counted(s.tally, p.requests[s.attempted], reply))
  }

  function Adapter(s: State, r: Response, next: Stage): State {
    if r.NoResponse? then s.(stage := Failed, failure := AdapterProblem) else s.(stage := next)
  }

  function Step(c: Config, p: Plan, s: State, r: Response): (s': State)
    requires InProgress(p, s)
    ensures InProgress(p, s')
  {
    match s.stage
    case InitProtocol => Adapter(s, r, HeadersOff)
    case HeadersOff => Adapter(s, r, AutoFormat)
    case AutoFormat => Adapter(s, r, FlowControl)
    case FlowControl => Adapter(s, r, Timeout)
    case Timeout => Adapter(s, r, SetHeader)
    case SetHeader => Adapter(s, r, SetReceive)
    case SetReceive =>
      Adapter(s, r, if c.requestExtendedSession && c.protocol.Uds? then ExtendedSession else TesterPresent)
    case ExtendedSession => s.(stage := TesterPresent)
    case TesterPresent => s.(stage := ReadIdentifier)
    case ReadIdentifier => Settle(p, s, ReplyTo(p.requests[s.attempted], r))
    case Complete => s
    case Failed => s
  }

  function Run(c: Config, p: Plan, s: State, rs: seq<Response>): (s': State)
    requires InProgress(p, s)
    ensures InProgress(p, s')
    decreases |rs|
  {
    if rs == [] then s else Run(c, p, Step(c, p, s, rs[0]), rs[1..])
  }
}
