/**
 * A product over many lives: backend calls and confirmations in between resets. A reset clears the target in RAM and
 * may start the other slot; nothing else changes the running slot. Flash and protected storage survive it.
 */
module OtaLives {
  import opened Words
  import opened OtaLayout
  import OtaModel
  import opened OtaConfirm

  /** The product, the confirmation in progress, if any, and how the verifiers decide in this life. */
  datatype Life = Life(world: OtaModel.World, call: Call, verdict: (Check, OtaModel.Candidate) -> bool)

  /**
   * One backend call; the start of a confirmation; one hook call of a running confirmation; or a reset, planned or by
   * power loss, after which `active` runs.
   */
  datatype LifeEvent =
    | Backend(call: OtaModel.Event)
    | StartConfirmation
    | ConfirmationHook(answer: Answer)
    | Reset(active: byte, verdict: (Check, OtaModel.Candidate) -> bool)

  function EnvOf(l: Life): Env {
    Env(l.world.layout, l.world.active, l.verdict)
  }

  function BootOf(l: Life): Boot {
    Boot(Store(l.world.counter, l.world.pending), l.call)
  }

  /** A freshly bound target: no image in flight. */
  function Rebound(w: OtaModel.World, active: byte): OtaModel.World {
    w.(active := active, imageStarted := false, declaredSize := 0, selectedSlot := OtaModel.NO_SLOT)
  }

  predicate LifeIsValid(l: Life) {
    && OtaModel.WorldIsValid(l.world)
    && (l.world.imageStarted ==> l.world.selectedSlot != l.world.active)
    && Sound(EnvOf(l), BootOf(l))
  }

  /** One thread: while a confirmation runs there is no backend call and no second confirmation. */
  function Live(l: Life, e: LifeEvent): Life
    requires LifeIsValid(l)
  {
    match e
    case Backend(call) =>
      if call.SwitchActive? || !l.call.pc.Returned? then l else l.(world := OtaModel.Do(l.world, call).world)
    case StartConfirmation =>
      if l.call.pc.Returned? then l.(call := StartCall(EnvOf(l))) else l
    case ConfirmationHook(answer) =>
      var b := Tick(EnvOf(l), BootOf(l), answer);
      l.(world := l.world.(counter := b.store.counter, pending := b.store.pending), call := b.call)
    case Reset(active, verdict) =>
      Life(Rebound(l.world, active), FRESH_CALL.(pc := Returned(false)), verdict)
  }

  lemma LiveKeepsValid(l: Life, e: LifeEvent)
    requires LifeIsValid(l)
    ensures LifeIsValid(Live(l, e)) && Live(l, e).world.layout == l.world.layout
  {
    match e
    case Backend(call) => OtaModel.DoKeepsValid(l.world, call);
    case StartConfirmation => StepIsSound(EnvOf(l), BootOf(l), Restart);
    case ConfirmationHook(answer) => StepIsSound(EnvOf(l), BootOf(l), Hook(answer));
    case Reset(_, _) =>
  }

  function LiveAll(l: Life, events: seq<LifeEvent>): (end: Life)
    requires LifeIsValid(l)
    ensures LifeIsValid(end) && end.world.layout == l.world.layout
    decreases |events|
  {
    if events == [] then l
    else
      LiveKeepsValid(l, events[0]);
      LiveAll(Live(l, events[0]), events[1..])
  }

  // ---------------------------------------------------------------------
  // The rollback counter
  // ---------------------------------------------------------------------

  /** The slot that an image was begun on never runs while the image is in flight, so a backend commit always fails. */
  lemma BackendCommitFails(l: Life, events: seq<LifeEvent>, version: uint32, readable: bool, stored: bool, answer: bool)
    requires LifeIsValid(l)
    ensures var w := LiveAll(l, events).world; var commit := OtaModel.Commit(version, readable, stored, answer);
            !OtaModel.Do(w, commit).ok && OtaModel.Do(w, commit).world == w
  {
  }

  /** The event moves the counter by confirming the pending image of the running slot, all checks made in this call. */
  predicate ConfirmsRise(l: Life, e: LifeEvent)
    requires LifeIsValid(l)
  {
    var c := l.call.candidate;
    && e.ConfirmationHook? && l.call.pc == CommitVersion
    && l.world.pending == Some(c) && c.slot == l.world.active
    && l.call.passed == {ImageIntegrity, ImageAuthenticity, BootEligibility} && PassesAll(EnvOf(l), c)
    && l.world.counter < Live(l, e).world.counter == c.version
  }

  lemma CounterMovesByConfirmation(l: Life, e: LifeEvent)
    requires LifeIsValid(l)
    ensures Live(l, e).world.counter != l.world.counter ==> ConfirmsRise(l, e)
  {
    if e.ConfirmationHook? && Live(l, e).world.counter != l.world.counter {
      RiseIsChecked(EnvOf(l), BootOf(l), Hook(e.answer));
    }
  }

  /** Over any number of lives the counter never falls. */
  lemma {:induction false} CounterNeverFallsOverLives(l: Life, events: seq<LifeEvent>)
    requires LifeIsValid(l)
    ensures LiveAll(l, events).world.counter >= l.world.counter
    decreases |events|
  {
    if events != [] {
      LiveKeepsValid(l, events[0]);
      CounterMovesByConfirmation(l, events[0]);
      CounterNeverFallsOverLives(Live(l, events[0]), events[1..]);
    }
  }

  /** Over any number of lives a counter other than at the start was set by a checked confirmation. */
  lemma {:induction false} EveryRiseIsConfirmed(l: Life, events: seq<LifeEvent>) returns (n: nat)
    requires LifeIsValid(l) && LiveAll(l, events).world.counter != l.world.counter
    ensures n < |events| && ConfirmsRise(LiveAll(l, events[..n]), events[n])
    ensures LiveAll(l, events).world.counter == Live(LiveAll(l, events[..n]), events[n]).world.counter
    decreases |events|
  {
    LiveKeepsValid(l, events[0]);
    var next, rest := Live(l, events[0]), events[1..];
    if LiveAll(next, rest).world.counter != next.world.counter {
      n := EveryRiseIsConfirmed(next, rest);
      assert events[..n + 1][1..] == rest[..n];
      n := n + 1;
    } else {
      CounterMovesByConfirmation(l, events[0]);
      n := 0;
    }
  }

  /**
   * The event makes `c` the pending candidate: the stage call of an image in flight, on a slot that is not running,
   * with the size that the image was declared with.
   */
  predicate StagesCandidate(l: Life, e: LifeEvent, c: OtaModel.Candidate)
    requires LifeIsValid(l)
  {
    && e.Backend? && e.call.Stage? && e.call.stored && l.call.pc.Returned?
    && l.world.imageStarted && l.world.selectedSlot == c.slot && c.slot != l.world.active
    && e.call.slot == c.slot && e.call.version == c.version && l.world.declaredSize == c.size
    && Live(l, e).world.pending == Some(c)
  }

  lemma PendingIsSetByStage(l: Life, e: LifeEvent)
    requires LifeIsValid(l)
    ensures var after := Live(l, e).world.pending;
            after == l.world.pending || after.None? || StagesCandidate(l, e, after.value)
  {
  }

  /** A pending candidate was pending at the start or was staged since. */
  lemma {:induction false} PendingWasStaged(l: Life, events: seq<LifeEvent>) returns (m: nat)
    requires LifeIsValid(l) && LiveAll(l, events).world.pending.Some?
    ensures var c := LiveAll(l, events).world.pending;
            c == l.world.pending
            || (m < |events| && StagesCandidate(LiveAll(l, events[..m]), events[m], c.value))
    decreases |events|
  {
    m := 0;
    if events != [] {
      LiveKeepsValid(l, events[0]);
      var next, rest := Live(l, events[0]), events[1..];
      m := PendingWasStaged(next, rest);
      if LiveAll(l, events).world.pending == next.world.pending {
        PendingIsSetByStage(l, events[0]);
        m := 0;
      } else {
        assert events[..m + 1][1..] == rest[..m];
        m := m + 1;
      }
    }
  }

  /**
   * From a life with nothing pending, each rise of the counter confirms exactly what an earlier stage call recorded:
   * slot, version and declared size of an image in flight on a slot that was not running then.
   */
  lemma EveryRiseWasStaged(l: Life, events: seq<LifeEvent>, n: nat) returns (m: nat)
    requires LifeIsValid(l) && l.world.pending == None && n < |events|
    requires Live(LiveAll(l, events[..n]), events[n]).world.counter != LiveAll(l, events[..n]).world.counter
    ensures ConfirmsRise(LiveAll(l, events[..n]), events[n])
    ensures m < n && StagesCandidate(LiveAll(l, events[..m]), events[m], LiveAll(l, events[..n]).call.candidate)
  {
    CounterMovesByConfirmation(LiveAll(l, events[..n]), events[n]);
    m := PendingWasStaged(l, events[..n]);
    assert events[..n][..m] == events[..m];
  }

  // ---------------------------------------------------------------------
  // Flash
  // ---------------------------------------------------------------------

  /** The abort hook is never called for the running slot. */
  lemma AbortSparesRunningSlot(l: Life, e: LifeEvent)
    requires LifeIsValid(l)
    ensures Live(l, e).world.aborted != l.world.aborted ==>
              exists slot :: slot != l.world.active && Live(l, e).world.aborted == l.world.aborted + [slot]
  {
    if Live(l, e).world.aborted != l.world.aborted {
      assert e.call.slot != l.world.active;
    }
  }

  /** Over any number of lives all flash outside the two slots, the bootloader among it, keeps its bytes. */
  lemma {:induction false} FlashSurvivesLives(l: Life, events: seq<LifeEvent>, x: int)
    requires LifeIsValid(l) && 0 <= x < TWO_32
    requires !Inside(l.world.layout.slots[0], x) && !Inside(l.world.layout.slots[1], x)
    ensures LiveAll(l, events).world.flash[x] == l.world.flash[x]
    decreases |events|
  {
    if events != [] {
      LiveKeepsValid(l, events[0]);
      if events[0].Backend? {
        OtaModel.StepTouchesIdleSlotOnly(l.world, events[0].call, x);
      }
      FlashSurvivesLives(Live(l, events[0]), events[1..], x);
    }
  }

  /** Between two resets the running image keeps its bytes. */
  lemma {:induction false} RunningImageSurvives(l: Life, events: seq<LifeEvent>, x: int)
    requires LifeIsValid(l) && l.world.active <= 1 && 0 <= x < TWO_32
    requires Inside(l.world.layout.slots[l.world.active], x)
    requires forall i :: 0 <= i < |events| ==> !events[i].Reset?
    ensures LiveAll(l, events).world.flash[x] == l.world.flash[x]
    decreases |events|
  {
    if events != [] {
      assert !events[0].Reset?;
      LiveKeepsValid(l, events[0]);
      if events[0].Backend? {
        RegionsAreDisjoint(l.world.layout, x);
        OtaModel.StepTouchesIdleSlotOnly(l.world, events[0].call, x);
      }
      RunningImageSurvives(Live(l, events[0]), events[1..], x);
    }
  }
}
