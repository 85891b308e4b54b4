/** The scan object itself: fixed buffers and counters updated in place, proved against the model of a scan. */
module DataScanner {
  import opened Words
  import opened Requests
  import opened ScanModel
  import ScanRuns
  import Hex

  /** Answer of a LINK decoder for a read service. */
  datatype Decoded = Payload(data: seq<byte>) | NegativeResponse | OtherResponse

  /** LINK's ReadDataByIdentifier decoder: section 10.2 of ISO 14229-1. */
  function DecodeReadDid(pdu: seq<byte>, identifier: uint16): Decoded {
    if |pdu| >= 3 && pdu[0] == 0x62 && BigEndian16(pdu[1], pdu[2]) == identifier then Payload(pdu[3..])
    else if |pdu| >= 3 && pdu[0] == 0x7f && pdu[1] == 0x22 then NegativeResponse
    else OtherResponse
  }

  /** LINK's ReadDataByLocalIdentifier decoder: the data transmission functional unit of ISO 14230-3. */
  function DecodeReadLocal(pdu: seq<byte>, identifier: byte): Decoded {
    if |pdu| >= 2 && pdu[0] == 0x61 && pdu[1] == identifier then Payload(pdu[2..])
    else if |pdu| >= 3 && pdu[0] == 0x7f && pdu[1] == 0x21 then NegativeResponse
    else OtherResponse
  }

  function Understood(d: Decoded): Reply {
    match d
    case Payload(data) => Positive(data)
    case NegativeResponse => Negative
    case OtherResponse => Invalid
  }

  /** The three hand-written acceptors apply the one rule of `ReplyTo`. */
  lemma DidReply(q: Request, pdu: seq<byte>)
    requires q.service == 0x22
    ensures ReplyTo(q, Pdu(pdu)) ==
            if |pdu| >= 3 && pdu[0] == 0x62 && BigEndian16(pdu[1], pdu[2]) != q.identifier then Stale
            else Understood(DecodeReadDid(pdu, q.identifier))
  {
  }

  lemma LocalReply(q: Request, pdu: seq<byte>)
    requires q.service == 0x21 && q.identifier <= 0xff
    ensures ReplyTo(q, Pdu(pdu)) ==
            if |pdu| >= 2 && pdu[0] == 0x61 && pdu[1] != q.identifier % 0x100 then Stale
            else Understood(DecodeReadLocal(pdu, q.identifier % 0x100))
  {
  }

  lemma IdentificationReply(q: Request, pdu: seq<byte>)
    requires q.service == 0x1a && q.identifier <= 0xff
    ensures ReplyTo(q, Pdu(pdu)) ==
            if |pdu| < 2 then Invalid
            else if pdu[0] == 0x5a && pdu[1] != q.identifier % 0x100 then Stale
            else if pdu[0] == 0x5a then Positive(pdu[2..])
            else if |pdu| >= 3 && pdu[0] == 0x7f && pdu[1] == 0x1a then Negative
            else Invalid
  {
  }

  /** Command lines that LINK's formatter and the session catalogue supply. */
  datatype Supplied = Supplied(header: string, receive: string, session: string)

  /** The command of each setup stage. */
  function SetupText(c: Config, stage: Stage, texts: Supplied): string {
    match stage
    case InitProtocol => if c.extendedId then "ATSP7" else "ATSP6"
    case HeadersOff => "ATH0"
    case AutoFormat => "ATCAF1"
    case FlowControl => "ATCFC1"
    case Timeout => "ATST64"
    case SetHeader => texts.header
    case SetReceive => texts.receive
    case ExtendedSession => texts.session
    case TesterPresent => if c.protocol.Kwp2000? then "3E01" else "3E00"
    case _ => ""
  }

  /** The commands before the first read, in the order they are sent. */
  lemma SetupCommands(c: Config, p: Plan, rs: seq<Response>, texts: Supplied)
    requires p.requests != [] && |rs| < (if c.requestExtendedSession && c.protocol.Uds? then 9 else 8)
    requires forall i :: 0 <= i < |rs| && i < 7 ==> !rs[i].NoResponse?
    ensures var adapter := [if c.extendedId then "ATSP7" else "ATSP6", "ATH0", "ATCAF1", "ATCFC1", "ATST64",
                            texts.header, texts.receive];
            var session := if c.requestExtendedSession && c.protocol.Uds? then [texts.session] else [];
            var sent := adapter + session + [if c.protocol.Kwp2000? then "3E01" else "3E00"];
            SetupText(c, Run(c, p, START, rs).stage, texts) == sent[|rs|]
  {
    ScanRuns.SetupRun(c, p, 0, rs);
  }

  lemma ReadCommand(q: Request)
    requires IsSafe(q)
    ensures |CommandText(q)| <= 6
    ensures ParseCommand(CommandText(q)) == Some(q)
  {
    CommandParsesBack(q);
    if q.service == 0x22 {
      Hex.PaddedFour(q.identifier);
    } else {
      Hex.PaddedIsPadded2(q.service);
      Hex.PaddedIsPadded2(q.identifier);
    }
  }

  predicate ListIsGood(protocol: Protocol, requests: seq<Request>) {
    (forall i :: 0 <= i < |requests| ==> Speaks(protocol, requests[i])) && Distinct(requests)
  }

  lemma GoodListGrows(protocol: Protocol, requests: seq<Request>, n: nat)
    requires n < |requests| && ListIsGood(protocol, requests[..n]) && Speaks(protocol, requests[n])
    requires forall i :: 0 <= i < n ==> requests[i] != requests[n]
    ensures ListIsGood(protocol, requests[..n + 1])
  {
    assert forall i :: 0 <= i < n ==> requests[..n][i] == requests[i];
    assert forall i :: 0 <= i <= n ==> requests[..n + 1][i] == requests[i];
  }

  /** The refusals of a list that leave the structure as it was; any later one leaves it zeroed. */
  predicate RefusedAtOnce(c: Config, count: nat) {
    count == 0 || count > 256 || !ConfigIsValid(c)
  }

  /** The state with the current request left behind, its outcome not yet counted. */
  function Advanced(p: Plan, s: State): State {
    s.(stage := if s.attempted + 1 == |p.requests| then Complete else ReadIdentifier,
       attempted := s.attempted + 1, retries := 0)
  }

  class DataScan {
    var config: Config
    var stage: Stage
    var failure: Result
    var currentIdentifier: uint16
    var currentService: byte
    var attemptedCount: nat
    var positiveCount: nat
    var negativeCount: nat
    var noResponseCount: nat
    var invalidCount: nat
    var truncated: bool
    var identifierListActive: bool
    var identifierListRetryNoResponse: bool
    var identifierCount: nat
    var identifierIndex: nat
    var currentTransientRetries: byte
    const identifiers: array<uint16>
    const services: array<byte>
    const records: array<Record>
    /** The plan that the fields above encode. */
    ghost var plan: Plan

    ghost predicate Allocated() {
      && identifiers.Length == services.Length == records.Length == MAX_RECORDS
      && identifiers as object != services as object
      && records as object != identifiers as object && records as object != services as object
    }

    ghost function CurrentState(): State
      reads `stage, `failure, `attemptedCount, `currentTransientRetries,
            `positiveCount, `negativeCount, `noResponseCount, `invalidCount, records
      requires Allocated()
    {
      State(stage, failure, attemptedCount, currentTransientRetries,
            Tally(positiveCount, negativeCount, noResponseCount, invalidCount,
                  records[..Min(positiveCount, MAX_RECORDS)]))
    }

    ghost predicate Holds(requests: seq<Request>, n: nat)
      reads identifiers, services
      requires Allocated() && n <= |requests| && n <= MAX_RECORDS
    {
      forall i :: 0 <= i < n ==> services[i] == requests[i].service && identifiers[i] == requests[i].identifier
    }

    /** The plan is what the list buffers, or the configured range, say. */
    ghost predicate Installed()
      reads `plan, `config, `identifierListActive, `identifierListRetryNoResponse, `identifierCount,
            identifiers, services
      requires Allocated() && ConfigIsValid(config)
    {
      if identifierListActive then
        && identifierCount == |plan.requests| <= MAX_RECORDS
        && identifierListRetryNoResponse == plan.knownPositive
        && Holds(plan.requests, identifierCount)
      else
        plan == RangePlan(config)
    }

    /** The cursor fields name the request that the plan has next. */
    ghost predicate Positioned()
      reads `plan, `attemptedCount, `identifierListActive, `identifierIndex, `currentIdentifier, `currentService
    {
      && (identifierListActive ==> identifierIndex == attemptedCount)
      && (attemptedCount < |plan.requests| ==>
            && currentIdentifier == plan.requests[attemptedCount].identifier
            && (identifierListActive ==> currentService == plan.requests[attemptedCount].service))
    }

    ghost predicate Valid()
      reads this, identifiers, services, records
    {
      && Allocated()
      && PlanIsValid(config, plan)
      && Installed()
      && Positioned()
      && InProgress(plan, CurrentState())
      && (truncated <==> positiveCount > MAX_RECORDS)
    }

    constructor ()
      ensures Allocated() && fresh(identifiers) && fresh(services) && fresh(records)
    {
      config := Config(0, 0, false, Uds, 0, 0, false);
      stage, failure := InitProtocol, Ok;
      currentIdentifier, currentService := 0, 0;
      attemptedCount, positiveCount, negativeCount, noResponseCount, invalidCount := 0, 0, 0, 0, 0;
      truncated, identifierListActive, identifierListRetryNoResponse := false, false, false;
      identifierCount, identifierIndex, currentTransientRetries := 0, 0, 0;
      identifiers := new uint16[MAX_RECORDS](_ => 0);
      services := new byte[MAX_RECORDS](_ => 0);
      records := new Record[MAX_RECORDS](_ => Record(0, 0, [], false));
      plan := Plan([], false);
    }

    ghost predicate AtStart()
      reads `stage, `failure, `attemptedCount, `currentTransientRetries,
            `positiveCount, `negativeCount, `noResponseCount, `invalidCount
    {
      && stage == InitProtocol && failure == Ok && attemptedCount == 0 && currentTransientRetries == 0
      && positiveCount == 0 && negativeCount == 0 && noResponseCount == 0 && invalidCount == 0
    }

    lemma AtStartIsStart()
      requires Allocated() && AtStart()
      ensures CurrentState() == START
    {
      assert records[..0] == [];
    }

    ghost predicate BuffersZeroed()
      reads identifiers, services, records
    {
      && (forall i :: 0 <= i < identifiers.Length ==> identifiers[i] == 0)
      && (forall i :: 0 <= i < services.Length ==> services[i] == 0)
      && (forall i :: 0 <= i < records.Length ==> records[i] == Record(0, 0, [], false))
    }

    /** The structure as zero bytes. */
    ghost predicate Zeroed()
      reads this, identifiers, services, records
    {
      && config == Config(0, 0, false, Uds, 0, 0, false)
      && currentIdentifier == 0 && currentService == 0
      && !truncated && !identifierListActive && !identifierListRetryNoResponse
      && identifierCount == 0 && identifierIndex == 0
      && AtStart() && BuffersZeroed()
    }

    method ClearBuffers()
      requires Allocated()
      modifies identifiers, services, records
      ensures BuffersZeroed()
    {
      forall i | 0 <= i < identifiers.Length {
        identifiers[i] := 0;
      }
      forall i | 0 <= i < services.Length {
        services[i] := 0;
      }
      forall i | 0 <= i < records.Length {
        records[i] := Record(0, 0, [], false);
      }
    }

    method ClearCounters()
      modifies this`stage, this`failure, this`attemptedCount, this`currentTransientRetries,
               this`positiveCount, this`negativeCount, this`noResponseCount, this`invalidCount
      ensures AtStart()
    {
      stage, failure := InitProtocol, Ok;
      attemptedCount, positiveCount, negativeCount, noResponseCount, invalidCount := 0, 0, 0, 0, 0;
      currentTransientRetries := 0;
    }

    /** Every field and buffer back to zero bytes. */
    method Clear()
      requires Allocated()
      modifies this, identifiers, services, records
      ensures Zeroed()
    {
      ClearBuffers();
      ClearCounters();
      config := Config(0, 0, false, Uds, 0, 0, false);
      currentIdentifier, currentService := 0, 0;
      truncated, identifierListActive, identifierListRetryNoResponse := false, false, false;
      identifierCount, identifierIndex := 0, 0;
    }

    // -------------------------------------------------------------------
    // Begin
    // -------------------------------------------------------------------

    /** Start the scan of a configured identifier range. */
    method Begin(c: Config) returns (result: Result)
      requires Allocated()
      modifies this, identifiers, services, records
      ensures result == if ConfigIsValid(c) then Ok else InvalidArgument
      ensures result == Ok ==> Valid() && config == c && plan == RangePlan(c) && CurrentState() == START
      ensures result == Ok ==> !identifierListActive
      ensures result != Ok ==> unchanged(this) && unchanged(identifiers) && unchanged(services) && unchanged(records)
    {
      if !ConfigIsValid(c) {
        return InvalidArgument;
      }
      Clear();
      AtStartIsStart();
      config := c;
      currentIdentifier := c.firstIdentifier;
      plan := RangePlan(c);
      RangePlanIsValid(c);
      return Ok;
    }

    /** Copy the list into the scan, refusing a KWP identifier out of range and any repetition. */
    method CopyIdentifiers(protocol: Protocol, ids: seq<uint16>) returns (ok: bool)
      requires Allocated() && |ids| <= MAX_RECORDS && !protocol.Unlisted?
      modifies identifiers, services
      ensures ok <==> ListIsGood(protocol, IdentifierPlan(protocol, ids, false).requests)
      ensures ok ==> Holds(IdentifierPlan(protocol, ids, false).requests, |ids|)
    {
      ghost var requests := IdentifierPlan(protocol, ids, false).requests;
      for index := 0 to |ids|
        invariant Holds(requests, index)
        invariant ListIsGood(protocol, requests[..index])
      {
        assert requests[..index + 1][index] == requests[index];
        var identifier := ids[index];
        assert requests[index] == Request(DefaultService(protocol), identifier);
        if protocol.Kwp2000? && (identifier == 0 || identifier > 0xff) {
          assert !Speaks(protocol, requests[index]);
          return false;
        }
        for previous := 0 to index
          invariant forall i :: 0 <= i < previous ==> requests[i] != requests[index]
        {
          if ids[previous] == identifier {
            assert requests[previous] == requests[index];
            return false;
          }
        }
        identifiers[index] := identifier;
        services[index] := if protocol.Kwp2000? then 0x21 else 0x22;
        GoodListGrows(protocol, requests, index);
      }
      assert requests[..|ids|] == requests;
      return true;
    }

    method InstallList(count: nat, retryNoResponse: bool, ghost requests: seq<Request>)
      requires Allocated() && ConfigIsValid(config) && count == |requests| <= MAX_RECORDS && Holds(requests, count)
      modifies this`identifierListActive, this`identifierListRetryNoResponse, this`identifierCount, this`plan
      ensures plan == Plan(requests, retryNoResponse) && identifierListActive && Installed()
    {
      identifierListActive := true;
      identifierListRetryNoResponse := retryNoResponse;
      identifierCount := count;
      plan := Plan(requests, retryNoResponse);
    }

    /** Make the copied list the plan, positioned on its first request. */
    method ActivateList(count: nat, retryNoResponse: bool, ghost requests: seq<Request>)
      requires Allocated() && ConfigIsValid(config) && 1 <= count == |requests| <= MAX_RECORDS
      requires CurrentState() == START && !truncated
      requires Holds(requests, count) && ListIsGood(config.protocol, requests)
      modifies this
      ensures Valid() && config == old(config)
      ensures plan == Plan(requests, retryNoResponse) && CurrentState() == START
    {
      InstallList(count, retryNoResponse, requests);
      identifierIndex := 0;
      currentIdentifier := identifiers[0];
      currentService := services[0];
    }

    /** Start the scan of an explicit identifier list; a bad list leaves the scan zeroed. */
    method BeginIdentifierList(c: Config, ids: seq<uint16>, retryNoResponse: bool) returns (result: Result)
      requires Allocated()
      modifies this, identifiers, services, records
      ensures result == if |ids| <= 256 && PlanIsValid(c, IdentifierPlan(c.protocol, ids, retryNoResponse))
                        then Ok else InvalidArgument
      ensures result == Ok ==> Valid() && config == c && CurrentState() == START
      ensures result == Ok ==> plan == IdentifierPlan(c.protocol, ids, retryNoResponse)
      ensures result != Ok && RefusedAtOnce(c, |ids|) ==>
                unchanged(this) && unchanged(identifiers) && unchanged(services) && unchanged(records)
      ensures result != Ok && !RefusedAtOnce(c, |ids|) ==> Zeroed()
    {
      if ids == [] || |ids| > MAX_RECORDS {
        return InvalidArgument;
      }
      result := Begin(c);
      if result != Ok {
        return;
      }
      var ok := CopyIdentifiers(c.protocol, ids);
      if !ok {
        Clear();
        return InvalidArgument;
      }
      ActivateList(|ids|, retryNoResponse, IdentifierPlan(c.protocol, ids, false).requests);
      return Ok;
    }

    /** Refresh of identifiers that answered before: silence is retried. */
    method BeginIdentifiers(c: Config, ids: seq<uint16>) returns (result: Result)
      requires Allocated()
      modifies this, identifiers, services, records
      ensures result == Ok <==> |ids| <= 256 && PlanIsValid(c, IdentifierPlan(c.protocol, ids, true))
      ensures result == Ok ==> Valid() && config == c && CurrentState() == START
      ensures result == Ok ==> plan == IdentifierPlan(c.protocol, ids, true)
      ensures result != Ok && RefusedAtOnce(c, |ids|) ==>
                unchanged(this) && unchanged(identifiers) && unchanged(services) && unchanged(records)
      ensures result != Ok && !RefusedAtOnce(c, |ids|) ==> Zeroed()
    {
      result := BeginIdentifierList(c, ids, true);
    }

    /** Candidates that may not exist: silence counts at once. */
    method BeginProbeIdentifiers(c: Config, ids: seq<uint16>) returns (result: Result)
      requires Allocated()
      modifies this, identifiers, services, records
      ensures result == Ok <==> |ids| <= 256 && PlanIsValid(c, IdentifierPlan(c.protocol, ids, false))
      ensures result == Ok ==> Valid() && config == c && CurrentState() == START
      ensures result == Ok ==> plan == IdentifierPlan(c.protocol, ids, false)
      ensures result != Ok && RefusedAtOnce(c, |ids|) ==>
                unchanged(this) && unchanged(identifiers) && unchanged(services) && unchanged(records)
      ensures result != Ok && !RefusedAtOnce(c, |ids|) ==> Zeroed()
    {
      result := BeginIdentifierList(c, ids, false);
    }

    /** Copy the commands into the scan, refusing any that the protocol or the catalogue does not allow. */
    method CopyCommands(protocol: Protocol, commands: seq<Request>) returns (ok: bool)
      requires Allocated() && |commands| <= MAX_RECORDS
      modifies identifiers, services
      ensures ok <==> ListIsGood(protocol, commands)
      ensures ok ==> Holds(commands, |commands|)
    {
      for index := 0 to |commands|
        invariant Holds(commands, index)
        invariant ListIsGood(protocol, commands[..index])
      {
        assert commands[..index + 1][index] == commands[index];
        var service, identifier := commands[index].service, commands[index].identifier;
        var valid := false;
        if protocol.Uds? {
          valid := service == 0x22;
        } else if protocol.Kwp2000? {
          valid := (service == 0x21 || service == 0x1a) && identifier != 0 && identifier <= 0xff;
        }
        if !valid || !IsSafe(Request(service, identifier)) {
          assert !Speaks(protocol, commands[index]);
          return false;
        }
        for previous := 0 to index
          invariant forall i :: 0 <= i < previous ==> commands[i] != commands[index]
        {
          if services[previous] == service && identifiers[previous] == identifier {
            assert commands[previous] == commands[index];
            return false;
          }
        }
        services[index] := service;
        identifiers[index] := identifier;
        GoodListGrows(protocol, commands, index);
      }
      assert commands[..|commands|] == commands;
      return true;
    }

    /** Start the scan of explicit service and identifier pairs. */
    method BeginProbeCommands(c: Config, commands: seq<Request>) returns (result: Result)
      requires Allocated()
      modifies this, identifiers, services, records
      ensures result == if |commands| <= 256 && PlanIsValid(c, Plan(commands, false))
                        then Ok else InvalidArgument
      ensures result == Ok ==> Valid() && config == c && CurrentState() == START
      ensures result == Ok ==> plan == Plan(commands, false)
      ensures result != Ok && RefusedAtOnce(c, |commands|) ==>
                unchanged(this) && unchanged(identifiers) && unchanged(services) && unchanged(records)
      ensures result != Ok && !RefusedAtOnce(c, |commands|) ==> Zeroed()
    {
      if commands == [] || |commands| > MAX_RECORDS {
        return InvalidArgument;
      }
      result := Begin(c);
      if result != Ok {
        return;
      }
      var ok := CopyCommands(c.protocol, commands);
      if !ok {
        Clear();
        return InvalidArgument;
      }
      ActivateList(|commands|, false, commands);
      return Ok;
    }

    // -------------------------------------------------------------------
    // Settling the current request
    // -------------------------------------------------------------------

    /** Service of the request on the wire. */
    function ActiveService(): byte
      reads `config, `identifierListActive, `currentService
    {
      if identifierListActive then currentService else DefaultService(config.protocol)
    }

    lemma CurrentRequest()
      requires Valid() && stage == ReadIdentifier
      ensures plan.requests[attemptedCount] == Request(ActiveService(), currentIdentifier)
      ensures Speaks(config.protocol, Request(ActiveService(), currentIdentifier))
    {
      assert Speaks(config.protocol, plan.requests[attemptedCount]);
    }

    /** Move to the next list entry, if there is one, and put it on the wire. */
    method StepList()
      requires Allocated() && ConfigIsValid(config) && identifierListActive && Installed()
      modifies this`identifierIndex, this`currentIdentifier, this`currentService
      ensures identifierIndex == old(identifierIndex) + 1
      ensures identifierIndex < identifierCount ==>
                Request(currentService, currentIdentifier) == plan.requests[identifierIndex]
    {
      identifierIndex := identifierIndex + 1;
      if identifierIndex < identifierCount {
        currentIdentifier := identifiers[identifierIndex];
        currentService := services[identifierIndex];
      }
    }

    method AdvanceInList()
      requires Valid() && stage == ReadIdentifier && identifierListActive
      modifies this`stage, this`currentIdentifier, this`currentService, this`attemptedCount,
               this`identifierIndex, this`currentTransientRetries
      ensures Valid()
      ensures CurrentState() == Advanced(plan, old(CurrentState()))
    {
      StepList();
      currentTransientRetries := 0;
      attemptedCount := attemptedCount + 1;
      if identifierIndex >= identifierCount {
        stage := Complete;
      }
    }

    method AdvanceInRange()
      requires Valid() && stage == ReadIdentifier && !identifierListActive
      modifies this`stage, this`currentIdentifier, this`attemptedCount, this`currentTransientRetries
      ensures Valid()
      ensures CurrentState() == Advanced(plan, old(CurrentState()))
    {
      RangeStep(config, attemptedCount);
      currentTransientRetries := 0;
      attemptedCount := attemptedCount + 1;
      if currentIdentifier >= config.lastIdentifier {
        stage := Complete;
      } else {
        currentIdentifier := currentIdentifier + 1;
      }
    }

    /** Leave the current request behind, with its outcome already counted. */
    method AdvanceIdentifier()
      requires Valid() && stage == ReadIdentifier
      modifies this`stage, this`failure, this`currentIdentifier, this`currentService, this`attemptedCount,
               this`positiveCount, this`negativeCount, this`noResponseCount, this`invalidCount, this`truncated,
               this`identifierIndex, this`currentTransientRetries
      ensures Valid()
      ensures CurrentState() == Advanced(plan, old(CurrentState()))
    {
      if identifierListActive {
        AdvanceInList();
      } else {
        AdvanceInRange();
      }
    }

    /** Count a positive answer and keep its payload while there is room. */
    method RecordPositive(service: byte, identifier: uint16, data: seq<byte>)
      requires Valid() && stage == ReadIdentifier
      modifies this`stage, this`failure, this`currentIdentifier, this`currentService, this`attemptedCount,
               this`positiveCount, this`negativeCount, this`noResponseCount, this`invalidCount, this`truncated,
               this`identifierIndex, this`currentTransientRetries, records
      ensures Valid()
      ensures CurrentState() == old(CurrentState()).(
                tally := Counted(old(CurrentState()).tally, Request(service, identifier), Positive(data)))
    {
      positiveCount := positiveCount + 1;
      if positiveCount > MAX_RECORDS {
        truncated := true;
        return;
      }
      var stored := |data|;
      var cut := false;
      if stored > MAX_DATA {
        stored := MAX_DATA;
        cut := true;
      }
      records[positiveCount - 1] := Record(identifier, service, data[..stored], cut);
      assert records[..positiveCount] == old(records[..positiveCount]) + [RecordOf(Request(service, identifier), data)];
    }

    /** Stay on the current request if its retry budget allows it. */
    method RetryAfterTransient(requireKnownPositive: bool) returns (retried: bool)
      requires Valid() && stage == ReadIdentifier
      modifies this`currentTransientRetries
      ensures retried <==> old(currentTransientRetries) < 2
                           && (requireKnownPositive ==> plan.knownPositive)
      ensures Valid()
      ensures CurrentState() == if retried then old(CurrentState()).(retries := old(currentTransientRetries) + 1)
                                else old(CurrentState())
    {
      if currentTransientRetries >= 2 {
        return false;
      }
      if requireKnownPositive && (!identifierListActive || !identifierListRetryNoResponse) {
        return false;
      }
      currentTransientRetries := currentTransientRetries + 1;
      return true;
    }

    /** Count a silence or a useless answer. */
    method CountMiss(reply: Reply)
      requires Valid() && stage == ReadIdentifier && !reply.Positive?
      modifies this`negativeCount, this`noResponseCount, this`invalidCount
      ensures Valid()
      ensures CurrentState() == old(CurrentState()).(
                tally := Counted(old(CurrentState()).tally, plan.requests[attemptedCount], reply))
    {
      if reply.NoData? {
        noResponseCount := noResponseCount + 1;
      } else if reply.Negative? {
        negativeCount := negativeCount + 1;
      } else {
        invalidCount := invalidCount + 1;
      }
    }

    method Miss(reply: Reply)
      requires Valid() && stage == ReadIdentifier && !reply.Positive?
      modifies this`stage, this`failure, this`currentIdentifier, this`currentService, this`attemptedCount,
               this`positiveCount, this`negativeCount, this`noResponseCount, this`invalidCount, this`truncated,
               this`identifierIndex, this`currentTransientRetries
      ensures Valid()
      ensures CurrentState() == Advance(plan, old(CurrentState()), reply)
    {
      CountMiss(reply);
      AdvanceIdentifier();
    }

    /** Keep a payload and go on. */
    method Hit(service: byte, identifier: uint16, data: seq<byte>)
      requires Valid() && stage == ReadIdentifier
      requires plan.requests[attemptedCount] == Request(service, identifier)
      modifies this`stage, this`failure, this`currentIdentifier, this`currentService, this`attemptedCount,
               this`positiveCount, this`negativeCount, this`noResponseCount, this`invalidCount, this`truncated,
               this`identifierIndex, this`currentTransientRetries, records
      ensures Valid()
      ensures CurrentState() == Advance(plan, old(CurrentState()), Positive(data))
    {
      RecordPositive(service, identifier, data);
      AdvanceIdentifier();
    }

    method AcceptUdsIdentifier(response: Response)
      requires Valid() && stage == ReadIdentifier && ActiveService() == 0x22
      modifies this`stage, this`failure, this`currentIdentifier, this`currentService, this`attemptedCount,
               this`positiveCount, this`negativeCount, this`noResponseCount, this`invalidCount, this`truncated,
               this`identifierIndex, this`currentTransientRetries, records
      ensures Valid()
      ensures CurrentState() == Settle(plan, old(CurrentState()),
                                       ReplyTo(old(Request(ActiveService(), currentIdentifier)), response))
    {
      CurrentRequest();
      if response.NoResponse? {
        var retried := RetryAfterTransient(true);
        if !retried {
          Miss(NoData);
        }
        return;
      }
      if response.Undecodable? {
        Miss(Invalid);
        return;
      }
      var pdu := response.bytes;
      DidReply(Request(0x22, currentIdentifier), pdu);
      if |pdu| >= 3 && pdu[0] == 0x62 && BigEndian16(pdu[1], pdu[2]) != currentIdentifier {
        var retried := RetryAfterTransient(false);
        if !retried {
          Miss(Stale);
        }
        return;
      }
      match DecodeReadDid(pdu, currentIdentifier) {
        case Payload(data) => Hit(0x22, currentIdentifier, data);
        case NegativeResponse => Miss(Negative);
        case OtherResponse => Miss(Invalid);
      }
    }

    method AcceptKwpIdentifier(response: Response)
      requires Valid() && stage == ReadIdentifier && ActiveService() == 0x21
      modifies this`stage, this`failure, this`currentIdentifier, this`currentService, this`attemptedCount,
               this`positiveCount, this`negativeCount, this`noResponseCount, this`invalidCount, this`truncated,
               this`identifierIndex, this`currentTransientRetries, records
      ensures Valid()
      ensures CurrentState() == Settle(plan, old(CurrentState()),
                                       ReplyTo(old(Request(ActiveService(), currentIdentifier)), response))
    {
      CurrentRequest();
      if response.NoResponse? {
        var retried := RetryAfterTransient(true);
        if !retried {
          Miss(NoData);
        }
        return;
      }
      if response.Undecodable? {
        Miss(Invalid);
        return;
      }
      var pdu := response.bytes;
      LocalReply(Request(0x21, currentIdentifier), pdu);
      if |pdu| >= 2 && pdu[0] == 0x61 && pdu[1] != currentIdentifier % 0x100 {
        var retried := RetryAfterTransient(false);
        if !retried {
          Miss(Stale);
        }
        return;
      }
      match DecodeReadLocal(pdu, currentIdentifier % 0x100) {
        case Payload(data) => Hit(0x21, currentIdentifier, data);
        case NegativeResponse => Miss(Negative);
        case OtherResponse => Miss(Invalid);
      }
    }

    method AcceptKwpEcuIdentification(response: Response)
      requires Valid() && stage == ReadIdentifier && ActiveService() == 0x1a
      modifies this`stage, this`failure, this`currentIdentifier, this`currentService, this`attemptedCount,
               this`positiveCount, this`negativeCount, this`noResponseCount, this`invalidCount, this`truncated,
               this`identifierIndex, this`currentTransientRetries, records
      ensures Valid()
      ensures CurrentState() == Settle(plan, old(CurrentState()),
                                       ReplyTo(old(Request(ActiveService(), currentIdentifier)), response))
    {
      CurrentRequest();
      if response.NoResponse? {
        var retried := RetryAfterTransient(true);
        if !retried {
          Miss(NoData);
        }
        return;
      }
      if response.Undecodable? || |response.bytes| < 2 {
        Miss(Invalid);
        return;
      }
      var pdu := response.bytes;
      IdentificationReply(Request(0x1a, currentIdentifier), pdu);
      if pdu[0] == 0x5a && pdu[1] != currentIdentifier % 0x100 {
        var retried := RetryAfterTransient(false);
        if !retried {
          Miss(Stale);
        }
        return;
      }
      if pdu[0] == 0x5a && pdu[1] == currentIdentifier % 0x100 {
        Hit(0x1a, currentIdentifier, pdu[2..]);
      } else if |pdu| >= 3 && pdu[0] == 0x7f && pdu[1] == 0x1a {
        Miss(Negative);
      } else {
        Miss(Invalid);
      }
    }

    // -------------------------------------------------------------------
    // The public operations
    // -------------------------------------------------------------------

    method AcceptAdapterStep(response: Response, next: Stage) returns (result: Result)
      requires Valid() && InSetup() && next != Complete && next != Failed
      modifies this`stage, this`failure
      ensures Valid()
      ensures CurrentState() == Adapter(old(CurrentState()), response, next)
      ensures result == if response.NoResponse? then AdapterProblem else Ok
    {
      if response.NoResponse? {
        stage := Failed;
        failure := AdapterProblem;
        return AdapterProblem;
      }
      stage := next;
      return Ok;
    }

    predicate InSetup()
      reads `stage
    {
      stage != ReadIdentifier && stage != Complete && stage != Failed
    }

    /** The fixed chain of adapter and session commands before the first read. */
    method AcceptSetup(response: Response) returns (result: Result)
      requires Valid() && InSetup()
      modifies this`stage, this`failure
      ensures Valid()
      ensures CurrentState() == Step(config, plan, old(CurrentState()), response)
      ensures result == if stage == Failed then AdapterProblem else Ok
    {
      if stage == ExtendedSession {
        stage := TesterPresent;
        result := Ok;
      } else if stage == TesterPresent {
        stage := ReadIdentifier;
        result := Ok;
      } else {
        var next := match stage
          case InitProtocol => HeadersOff
          case HeadersOff => AutoFormat
          case AutoFormat => FlowControl
          case FlowControl => Timeout
          case Timeout => SetHeader
          case SetHeader => SetReceive
          case _ =>
            if config.requestExtendedSession && config.protocol.Uds? then ExtendedSession else TesterPresent;
        result := AcceptAdapterStep(response, next);
      }
    }

    method AcceptRead(response: Response) returns (result: Result)
      requires Valid() && stage == ReadIdentifier
      modifies this`stage, this`failure, this`currentIdentifier, this`currentService, this`attemptedCount,
               this`positiveCount, this`negativeCount, this`noResponseCount, this`invalidCount, this`truncated,
               this`identifierIndex, this`currentTransientRetries, records
      ensures Valid()
      ensures CurrentState() == Settle(plan, old(CurrentState()), ReplyTo(plan.requests[old(attemptedCount)], response))
      ensures result == if stage == Complete then Finished else Ok
    {
      CurrentRequest();
      if identifierListActive && currentService == 0x1a {
        AcceptKwpEcuIdentification(response);
      } else if config.protocol.Kwp2000? {
        AcceptKwpIdentifier(response);
      } else {
        AcceptUdsIdentifier(response);
      }
      result := if stage == Complete then Finished else Ok;
    }

    /** Consume one adapter response. */
    method Accept(response: Response) returns (result: Result)
      requires Valid()
      modifies this`stage, this`failure, this`currentIdentifier, this`currentService, this`attemptedCount,
               this`positiveCount, this`negativeCount, this`noResponseCount, this`invalidCount, this`truncated,
               this`identifierIndex, this`currentTransientRetries, records
      ensures Valid() && plan == old(plan)
      ensures CurrentState() == Step(config, plan, old(CurrentState()), response)
      ensures result == match stage
                        case Complete => Finished
                        case Failed => (if old(stage) == Failed then FailedState else AdapterProblem)
                        case _ => Ok
    {
      if stage == Complete {
        result := Finished;
      } else if stage == Failed {
        result := FailedState;
      } else if stage == ReadIdentifier {
        result := AcceptRead(response);
      } else {
        result := AcceptSetup(response);
      }
    }

    /** The outcome of writing a text: it stands in the buffer with its NUL, or did not fit and left an empty string. */
    ghost predicate Delivered(text: string, buffer: array<char>, result: Result, written: nat)
      reads buffer
    {
      if |text| < buffer.Length then
        result == Ok && written == |text| && buffer[..written] == text && buffer[written] == NUL
      else
        result == BufferTooSmall && written == 0 && (buffer.Length != 0 ==> buffer[0] == NUL)
    }

    method WriteText(text: string, buffer: array<char>) returns (result: Result, written: nat)
      modifies buffer
      ensures Delivered(text, buffer, result, written)
    {
      if buffer.Length != 0 {
        buffer[0] := NUL;
      }
      if |text| >= buffer.Length {
        return BufferTooSmall, 0;
      }
      forall i | 0 <= i < |text| {
        buffer[i] := text[i];
      }
      buffer[|text|] := NUL;
      return Ok, |text|;
    }

    /** The command to send for the current stage. */
    method Command(texts: Supplied, buffer: array<char>) returns (result: Result, written: nat)
      requires Valid()
      modifies buffer
      ensures stage == Complete ==> result == Finished && written == 0 && (buffer.Length != 0 ==> buffer[0] == NUL)
      ensures stage == Failed ==> result == FailedState && buffer[..] == old(buffer[..])
      ensures InSetup() ==> Delivered(SetupText(config, stage, texts), buffer, result, written)
      ensures stage == ReadIdentifier ==>
        var q := plan.requests[attemptedCount];
        && Delivered(CommandText(q), buffer, result, written)
        && (result == Ok ==> written <= buffer.Length && ParseCommand(buffer[..written]) == Some(q))
    {
      written := 0;
      if stage == Complete {
        if buffer.Length != 0 {
          buffer[0] := NUL;
        }
        result := Finished;
      } else if stage == Failed {
        result := FailedState;
      } else if stage == ReadIdentifier {
        CurrentRequest();
        var service := if identifierListActive then currentService
                       else if config.protocol.Kwp2000? then 0x21 else 0x22;
        ReadCommand(Request(service, currentIdentifier));
        if service == 0x22 {
          result, written := WriteText("22" + Hex.Padded(4, currentIdentifier), buffer);
        } else {
          result, written := WriteText(Hex.Padded(2, service) + Hex.Padded(2, currentIdentifier), buffer);
        }
      } else {
        result, written := SetupCommand(texts, buffer);
      }
    }

    method SetupCommand(texts: Supplied, buffer: array<char>) returns (result: Result, written: nat)
      requires InSetup()
      modifies buffer
      ensures Delivered(SetupText(config, stage, texts), buffer, result, written)
    {
      var text;
      match stage {
        case InitProtocol => text := if config.extendedId then "ATSP7" else "ATSP6";
        case HeadersOff => text := "ATH0";
        case AutoFormat => text := "ATCAF1";
        case FlowControl => text := "ATCFC1";
        case Timeout => text := "ATST64";
        case SetHeader => text := texts.header;
        case SetReceive => text := texts.receive;
        case ExtendedSession => text := texts.session;
        case TesterPresent => text := if config.protocol.Kwp2000? then "3E01" else "3E00";
        case _ => text := "";
      }
      result, written := WriteText(text, buffer);
    }

    /** Number of records that can be read back. */
    function RecordCount(): nat
      reads this
    {
      if positiveCount > MAX_RECORDS then MAX_RECORDS else positiveCount
    }

    /** The stored records, in order, and nothing past the last one. */
    method RecordAt(index: nat) returns (record: Option<Record>)
      requires Valid()
      ensures record == var stored := CurrentState().tally.records;
                        if index < |stored| then Some(stored[index]) else None
    {
      if index >= RecordCount() {
        return None;
      }
      return Some(records[index]);
    }
  }
}
