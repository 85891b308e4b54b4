/**
 * Post-boot confirmation, hook by hook: what is in protected storage survives a power loss, what the
 * running call has read or checked does not.
 */
module OtaConfirm {
  import opened Words
  import opened OtaLayout
  import opened OtaModel

  datatype Check = ImageIntegrity | ImageAuthenticity | BootEligibility

  /** What stays fixed over reboots from one slot: layout, running slot, and verifiers that always decide alike. */
  datatype Env = Env(layout: Layout, running: byte, verdict: (Check, Candidate) -> bool)

  /** Protected storage: the rollback counter and the pending candidate record. */
  datatype Store = Store(counter: uint32, pending: Option<Candidate>)

  /** The hook that the call makes next. */
  datatype Pc =
    | ReadPending | ReadActive | ReadVersion | ClearCommitted
    | VerifyIntegrity | VerifyAuthenticity | ValidateBoot | CommitVersion | ClearDone
    | Returned(ok: bool)

  /** A confirmation in progress; `passed` are the checks that this very call has made. */
  datatype Call = Call(pc: Pc, candidate: Candidate, passed: set<Check>)

  datatype Boot = Boot(store: Store, call: Call)

  /**
   * A hook's answer. A read or check may fail spuriously; a write may be lost, or stored although it reports
   * failure, but it is stored whenever it reports success.
   */
  datatype Answer = Answer(ok: bool, stored: bool)

  /** One hook call, or the start of a new call after a power loss or a return. */
  datatype Event = Hook(answer: Answer) | Restart

  const NO_CANDIDATE := Candidate(0, 0, 0)
  const FRESH_CALL := Call(ReadPending, NO_CANDIDATE, {})

  predicate SlotsAreSane(l: Layout) {
    |l.slots| == 2 && Contains(l.flash, l.slots[0]) && Contains(l.flash, l.slots[1])
  }

  function StartCall(env: Env): Call {
    if SlotsAreSane(env.layout) then FRESH_CALL else FRESH_CALL.(pc := Returned(false))
  }

  /** The tests between the reads and the first effect. */
  predicate Admissible(env: Env, c: Candidate, counter: uint32)
    requires |env.layout.slots| == 2
  {
    && c.slot <= 1 && env.running == c.slot
    && c.size != 0 && c.size <= env.layout.slots[c.slot].size
    && counter <= c.version
  }

  function Next(call: Call, go: bool, pc: Pc): Call {
    call.(pc := if go then pc else Returned(false))
  }

  function Checked(env: Env, b: Boot, a: Answer, check: Check, pc: Pc): Boot {
    if a.ok && env.verdict(check, b.call.candidate) then
      b.(call := b.call.(pc := pc, passed := b.call.passed + {check}))
    else b.(call := b.call.(pc := Returned(false)))
  }

  function Cleared(b: Boot, a: Answer): Boot {
    Boot(if a.ok || a.stored then b.store.(pending := None) else b.store, b.call.(pc := Returned(a.ok)))
  }

  function Tick(env: Env, b: Boot, a: Answer): Boot
    requires b.call.pc.Returned? || |env.layout.slots| == 2
  {
    match b.call.pc
    case ReadPending =>
      if a.ok && b.store.pending.Some? then b.(call := b.call.(pc := ReadActive, candidate := b.store.pending.value))
      else b.(call := b.call.(pc := Returned(false)))
    case ReadActive => b.(call := Next(b.call, a.ok, ReadVersion))
    case ReadVersion =>
      b.(call := Next(b.call, a.ok && Admissible(env, b.call.candidate, b.store.counter),
                      if b.call.candidate.version == b.store.counter then ClearCommitted else VerifyIntegrity))
    case VerifyIntegrity => Checked(env, b, a, ImageIntegrity, VerifyAuthenticity)
    case VerifyAuthenticity => Checked(env, b, a, ImageAuthenticity, ValidateBoot)
    case ValidateBoot => Checked(env, b, a, BootEligibility, CommitVersion)
    case CommitVersion =>
      Boot(if a.ok || a.stored then b.store.(counter := b.call.candidate.version) else b.store,
           Next(b.call, a.ok, ClearDone))
    case ClearCommitted => Cleared(b, a)
    case ClearDone => Cleared(b, a)
    case Returned(_) => b
  }

  function Do(env: Env, b: Boot, e: Event): Boot
    requires b.call.pc.Returned? || |env.layout.slots| == 2
  {
    match e
    case Hook(a) => Tick(env, b, a)
    case Restart => b.(call := StartCall(env))
  }

  // ---------------------------------------------------------------------
  // What every reachable state keeps
  // ---------------------------------------------------------------------

  predicate PassesAll(env: Env, c: Candidate) {
    env.verdict(ImageIntegrity, c) && env.verdict(ImageAuthenticity, c) && env.verdict(BootEligibility, c)
  }

  function ChecksBefore(pc: Pc): set<Check> {
    match pc
    case VerifyAuthenticity => {ImageIntegrity}
    case ValidateBoot => {ImageIntegrity, ImageAuthenticity}
    case CommitVersion => {ImageIntegrity, ImageAuthenticity, BootEligibility}
    case ClearDone => {ImageIntegrity, ImageAuthenticity, BootEligibility}
    case _ => {}
  }

  /** What a call in progress knows about its candidate. */
  predicate Sound(env: Env, b: Boot) {
    var call := b.call;
    call.pc.Returned? ||
    (&& SlotsAreSane(env.layout)
     && call.passed == ChecksBefore(call.pc)
     && (forall check :: check in call.passed ==> env.verdict(check, call.candidate))
     && (call.pc != ReadPending ==> b.store.pending == Some(call.candidate))
     && (call.pc != ReadPending && call.pc != ReadActive && call.pc != ReadVersion ==>
           Admissible(env, call.candidate, b.store.counter))
     && (call.pc in {VerifyIntegrity, VerifyAuthenticity, ValidateBoot, CommitVersion} ==>
           b.store.counter < call.candidate.version)
     && (call.pc == ClearDone || call.pc == ClearCommitted ==> b.store.counter == call.candidate.version))
  }

  lemma StepIsSound(env: Env, b: Boot, e: Event)
    requires Sound(env, b)
    ensures Sound(env, Do(env, b, e))
  {
  }

  /**
   * The only way the counter moves: upwards, to the pending version, in a call that has itself just checked
   * integrity, authenticity and boot eligibility of the pending image in the running slot.
   */
  lemma RiseIsChecked(env: Env, b: Boot, e: Event)
    requires Sound(env, b) && Do(env, b, e).store.counter != b.store.counter
    ensures var c := b.call.candidate;
            && b.store.pending == Some(c) && c.slot == env.running
            && b.call.passed == {ImageIntegrity, ImageAuthenticity, BootEligibility} && PassesAll(env, c)
            && Do(env, b, e).store.counter == c.version > b.store.counter
  {
    assert ImageIntegrity in b.call.passed && ImageAuthenticity in b.call.passed && BootEligibility in b.call.passed;
  }

  function Run(env: Env, b: Boot, events: seq<Event>): (end: Boot)
    requires Sound(env, b)
    ensures Sound(env, end)
    decreases |events|
  {
    if events == [] then b
    else
      StepIsSound(env, b, events[0]);
      Run(env, Do(env, b, events[0]), events[1..])
  }

  /** Through any number of power losses and hook failures the counter never falls. */
  lemma {:induction false} CounterNeverFalls(env: Env, b: Boot, events: seq<Event>)
    requires Sound(env, b)
    ensures Run(env, b, events).store.counter >= b.store.counter
    decreases |events|
  {
    if events != [] {
      StepIsSound(env, b, events[0]);
      CounterNeverFalls(env, Do(env, b, events[0]), events[1..]);
    }
  }

  // ---------------------------------------------------------------------
  // Convergence
  // ---------------------------------------------------------------------

  /** Protected storage after one confirmation whose hooks all work. */
  function Settled(env: Env, s: Store): Store {
    if !SlotsAreSane(env.layout) || s.pending.None? || !Admissible(env, s.pending.value, s.counter) then s
    else if s.pending.value.version == s.counter then s.(pending := None)
    else if PassesAll(env, s.pending.value) then Store(s.pending.value.version, None)
    else s
  }

  /** No step, lost write or power loss changes where the storage is heading. */
  lemma StepKeepsGoal(env: Env, b: Boot, e: Event)
    requires Sound(env, b)
    ensures Settled(env, Do(env, b, e).store) == Settled(env, b.store)
  {
    if b.call.pc == CommitVersion {
      assert ImageIntegrity in b.call.passed && ImageAuthenticity in b.call.passed && BootEligibility in b.call.passed;
    }
  }

  lemma {:induction false} RunKeepsGoal(env: Env, b: Boot, events: seq<Event>)
    requires Sound(env, b)
    ensures Settled(env, Run(env, b, events).store) == Settled(env, b.store)
    decreases |events|
  {
    if events != [] {
      StepIsSound(env, b, events[0]);
      StepKeepsGoal(env, b, events[0]);
      RunKeepsGoal(env, Do(env, b, events[0]), events[1..]);
    }
  }

  // ---------------------------------------------------------------------
  // One call as a whole
  // ---------------------------------------------------------------------

  /** The answers that the hooks give in one call. */
  datatype Script = Script(
    pending: bool, active: bool, version: bool,
    integrity: bool, authenticity: bool, boot: bool, commit: Answer, clear: Answer)

  const HEALTHY := Script(true, true, true, true, true, true, Answer(true, true), Answer(true, true))

  function AnswerAt(script: Script, pc: Pc): Answer {
    match pc
    case ReadPending => Answer(script.pending, false)
    case ReadActive => Answer(script.active, false)
    case ReadVersion => Answer(script.version, false)
    case VerifyIntegrity => Answer(script.integrity, false)
    case VerifyAuthenticity => Answer(script.authenticity, false)
    case ValidateBoot => Answer(script.boot, false)
    case CommitVersion => script.commit
    case ClearCommitted => script.clear
    case ClearDone => script.clear
    case Returned(_) => Answer(false, false)
  }

  function Remaining(pc: Pc): nat {
    match pc
    case ReadPending => 8
    case ReadActive => 7
    case ReadVersion => 6
    case VerifyIntegrity => 5
    case VerifyAuthenticity => 4
    case ValidateBoot => 3
    case CommitVersion => 2
    case ClearDone => 1
    case ClearCommitted => 1
    case Returned(_) => 0
  }

  /** Let the call run on to its return. */
  function Finish(env: Env, b: Boot, script: Script): (end: Boot)
    requires Sound(env, b)
    ensures Sound(env, end) && end.call.pc.Returned?
    decreases Remaining(b.call.pc)
  {
    if b.call.pc.Returned? then b
    else
      StepIsSound(env, b, Hook(AnswerAt(script, b.call.pc)));
      Finish(env, Tick(env, b, AnswerAt(script, b.call.pc)), script)
  }

  function Confirm(env: Env, s: Store, script: Script): Boot {
    Finish(env, Boot(s, StartCall(env)), script)
  }

  lemma FinishTicks(env: Env, b: Boot, script: Script) returns (next: Boot)
    requires Sound(env, b) && !b.call.pc.Returned?
    ensures next == Tick(env, b, AnswerAt(script, b.call.pc)) && Sound(env, next)
    ensures Finish(env, b, script) == Finish(env, next, script)
    ensures next.call.pc.Returned? ==> Finish(env, b, script) == next
  {
    next := Tick(env, b, AnswerAt(script, b.call.pc));
    StepIsSound(env, b, Hook(AnswerAt(script, b.call.pc)));
  }

  lemma {:induction false} FinishIsARun(env: Env, b: Boot, script: Script) returns (events: seq<Event>)
    requires Sound(env, b)
    ensures Run(env, b, events) == Finish(env, b, script)
    decreases Remaining(b.call.pc)
  {
    if b.call.pc.Returned? {
      events := [];
    } else {
      var e := Hook(AnswerAt(script, b.call.pc));
      StepIsSound(env, b, e);
      var rest := FinishIsARun(env, Do(env, b, e), script);
      events := [e] + rest;
      assert events[1..] == rest;
    }
  }

  /** The pending image, if its record and the three reads let the call go on. */
  predicate MayConfirm(env: Env, s: Store, script: Script) {
    && |env.layout.slots| == 2
    && Contains(env.layout.flash, env.layout.slots[0]) && Contains(env.layout.flash, env.layout.slots[1])
    && script.pending && script.active && script.version && s.pending.Some?
    && s.pending.value.slot < 2 && s.pending.value.slot == env.running
    && 0 < s.pending.value.size <= env.layout.slots[env.running].size
    && s.counter <= s.pending.value.version
  }

  predicate PassesChecks(env: Env, c: Candidate, script: Script) {
    && script.integrity && env.verdict(ImageIntegrity, c)
    && script.authenticity && env.verdict(ImageAuthenticity, c)
    && script.boot && env.verdict(BootEligibility, c)
  }

  /** Whatever the hooks answer, a whole call checks, commits and clears exactly this, and reports exactly this. */
  lemma ConfirmedExactly(env: Env, s: Store, script: Script)
    ensures var end := Confirm(env, s, script);
            if !MayConfirm(env, s, script) then end.store == s && end.call.pc == Returned(false)
            else
              var c := s.pending.value;
              var newer := s.counter < c.version && PassesChecks(env, c, script);
              var clears := s.counter == c.version || (newer && script.commit.ok);
              && end.store.counter ==
                 (if newer && (script.commit.ok || script.commit.stored) then c.version else s.counter)
              && end.store.pending == (if clears && (script.clear.ok || script.clear.stored) then None else s.pending)
              && end.call.pc == Returned(clears && script.clear.ok)
  {
    if SlotsAreSane(env.layout) {
      var b := FinishTicks(env, Boot(s, StartCall(env)), script);
      if b.call.pc == ReadActive {
        b := FinishTicks(env, b, script);
      }
      if b.call.pc == ReadVersion {
        b := FinishTicks(env, b, script);
      }
      if !b.call.pc.Returned? {
        AdmittedExactly(env, s, script, b);
      }
    }
  }

  /** The rest of a call whose candidate was admitted. */
  lemma AdmittedExactly(env: Env, s: Store, script: Script, b: Boot)
    requires Sound(env, b) && b.call.pc in {ClearCommitted, VerifyIntegrity} && b.store == s
    ensures var end := Finish(env, b, script);
            var c := b.call.candidate;
            var newer := s.counter < c.version && PassesChecks(env, c, script);
            var clears := s.counter == c.version || (newer && script.commit.ok);
            && end.store.counter ==
                 (if newer && (script.commit.ok || script.commit.stored) then c.version else s.counter)
            && end.store.pending == (if clears && (script.clear.ok || script.clear.stored) then None else s.pending)
            && end.call.pc == Returned(clears && script.clear.ok)
  {
    var n := FinishTicks(env, b, script);
    if n.call.pc == VerifyAuthenticity {
      n := FinishTicks(env, n, script);
    }
    if n.call.pc == ValidateBoot {
      n := FinishTicks(env, n, script);
    }
    if n.call.pc == CommitVersion {
      n := FinishTicks(env, n, script);
    }
    if n.call.pc == ClearDone {
      n := FinishTicks(env, n, script);
    }
  }

  /** True is returned only when the storage has reached its goal. */
  lemma {:induction false} TrueMeansSettled(env: Env, b: Boot, script: Script)
    requires Sound(env, b) && !b.call.pc.Returned?
    requires Finish(env, b, script).call.pc == Returned(true)
    ensures Finish(env, b, script).store == Settled(env, b.store)
    decreases Remaining(b.call.pc)
  {
    var e := Hook(AnswerAt(script, b.call.pc));
    var next := Do(env, b, e);
    StepIsSound(env, b, e);
    StepKeepsGoal(env, b, e);
    if !next.call.pc.Returned? {
      TrueMeansSettled(env, next, script);
    }
  }

  /** With working hooks a call always reaches the goal. */
  lemma {:induction false} HealthySettles(env: Env, b: Boot)
    requires Sound(env, b) && !b.call.pc.Returned?
    ensures Finish(env, b, HEALTHY).store == Settled(env, b.store)
    decreases Remaining(b.call.pc)
  {
    var e := Hook(AnswerAt(HEALTHY, b.call.pc));
    var next := Do(env, b, e);
    StepIsSound(env, b, e);
    StepKeepsGoal(env, b, e);
    if !next.call.pc.Returned? {
      HealthySettles(env, next);
    }
  }

  /**
   * Crash safety: after any history of hook failures and power losses, a call that returns true, and any call
   * whose hooks all work, leave the storage exactly as one uninterrupted confirmation would have at the start.
   */
  lemma CrashSafe(env: Env, start: Store, history: seq<Event>, script: Script)
    ensures var worn := Run(env, Boot(start, StartCall(env)), history).store;
            && (Confirm(env, worn, script).call.pc == Returned(true) ==>
                  Confirm(env, worn, script).store == Confirm(env, start, HEALTHY).store)
            && Confirm(env, worn, HEALTHY).store == Confirm(env, start, HEALTHY).store
            && Confirm(env, start, HEALTHY).store == Settled(env, start)
  {
    var worn := Run(env, Boot(start, StartCall(env)), history).store;
    RunKeepsGoal(env, Boot(start, StartCall(env)), history);
    if SlotsAreSane(env.layout) {
      HealthySettles(env, Boot(start, StartCall(env)));
      HealthySettles(env, Boot(worn, StartCall(env)));
      if Confirm(env, worn, script).call.pc == Returned(true) {
        TrueMeansSettled(env, Boot(worn, StartCall(env)), script);
      }
    } else {
      assert Settled(env, worn) == worn;
    }
  }

  /**
   * Exactly when an uninterrupted confirmation reports success: a pending image of the running slot that is
   * not older than the counter and, if newer, passes every check.
   */
  lemma HealthyResult(env: Env, s: Store)
    ensures Confirm(env, s, HEALTHY).call.pc == Returned(true) <==>
            && SlotsAreSane(env.layout) && s.pending.Some? && Admissible(env, s.pending.value, s.counter)
            && (s.pending.value.version == s.counter || PassesAll(env, s.pending.value))
  {
    if SlotsAreSane(env.layout) {
      HealthyReturns(env, Boot(s, StartCall(env)));
    }
  }

  lemma {:induction false} HealthyReturns(env: Env, b: Boot)
    requires Sound(env, b) && !b.call.pc.Returned?
    ensures Finish(env, b, HEALTHY).call.pc == Returned(true) <==>
            && b.store.pending.Some?
            && (b.call.pc == ReadPending || b.store.pending == Some(b.call.candidate))
            && Admissible(env, b.store.pending.value, b.store.counter)
            && (b.store.pending.value.version == b.store.counter || PassesAll(env, b.store.pending.value))
    decreases Remaining(b.call.pc)
  {
    var e := Hook(AnswerAt(HEALTHY, b.call.pc));
    var next := Do(env, b, e);
    StepIsSound(env, b, e);
    if !next.call.pc.Returned? {
      HealthyReturns(env, next);
    }
  }

  /** A call after a successful one finds nothing pending: it returns false and leaves storage as it is. */
  lemma RerunReturnsFalse(env: Env, s: Store)
    requires Confirm(env, s, HEALTHY).call.pc == Returned(true)
    ensures Confirm(env, Confirm(env, s, HEALTHY).store, HEALTHY).call.pc == Returned(false)
    ensures Confirm(env, Confirm(env, s, HEALTHY).store, HEALTHY).store == Confirm(env, s, HEALTHY).store
  {
    HealthyResult(env, s);
    var done := Confirm(env, s, HEALTHY).store;
    HealthySettles(env, Boot(s, StartCall(env)));
    HealthyResult(env, done);
    HealthySettles(env, Boot(done, StartCall(env)));
    assert Finish(env, Boot(done, StartCall(env)), HEALTHY).call.pc.Returned?;
  }
}
