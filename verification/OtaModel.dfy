/**
 * The firmware target as a state machine: every backend call the bootloader core can make, with every way
 * the product's hooks can answer, and changes of the running slot between calls.
 */
module OtaModel {
  import opened Words
  import opened OtaLayout

  datatype Candidate = Candidate(slot: byte, version: uint32, size: uint64)

  /** Bytes a flash operation leaves behind, at each address of the range it was given. */
  type Contents = int -> byte

  /** Target and product together; `aborted` are the slots that the abort hook was called for, in order. */
  datatype World = World(
    layout: Layout,
    selectedSlot: byte, declaredSize: uint64, imageStarted: bool,
    flash: seq<byte>, active: byte, counter: uint32, pending: Option<Candidate>,
    aborted: seq<byte>)

  const NO_SLOT: byte := 0xff

  /** A backend call with the answers of the hooks it reaches, or an event outside the backend. */
  datatype Event =
    | Begin(slot: byte, version: uint32, size: uint64, readable: bool, erased: bool, left: Contents)
    | Write(slot: byte, offset: uint64, data: seq<byte>, readable: bool, programmed: bool, left: Contents)
    | FinishImage(slot: byte, size: uint64, answer: bool)
    | Integrity(slot: byte, version: uint32, size: uint64, answer: bool)
    | Authenticity(slot: byte, version: uint32, size: uint64, answer: bool)
    | Stage(slot: byte, version: uint32, stored: bool, answer: bool)
    | SecureBoot(slot: byte, version: uint32, answer: bool)
    | Commit(version: uint32, readable: bool, stored: bool, answer: bool)
    | Abort(slot: byte, cleared: bool)
    | SwitchActive(slot: byte)

  datatype Outcome = Outcome(world: World, ok: bool)

  predicate WorldIsValid(w: World) {
    && Separated(w.layout)
    && |w.flash| == TWO_32
    && (w.imageStarted ==> w.selectedSlot <= 1 && 0 < w.declaredSize <= w.layout.slots[w.selectedSlot].size)
  }

  function Overwritten(flash: seq<byte>, base: int, size: int, left: Contents): (after: seq<byte>)
    ensures |after| == |flash|
    ensures forall x :: 0 <= x < |flash| ==> after[x] == if base <= x < base + size then left(x) else flash[x]
  {
    seq(|flash|, x requires 0 <= x < |flash| => if base <= x < base + size then left(x) else flash[x])
  }

  /** What programming leaves: the data on success, anything on failure. */
  function Programmed(e: Event, base: int): Contents
    requires e.Write?
  {
    if e.programmed then (x: int) => if 0 <= x - base < |e.data| then e.data[x - base] else 0 else e.left
  }

  /** The flash operation that a call asks of its hook: address and length as the hook receives them. */
  datatype FlashRequest = FlashRequest(base: uint32, length: uint64)

  predicate BeginReachesErase(w: World, e: Event)
    requires WorldIsValid(w) && e.Begin?
  {
    && e.slot <= 1 && e.size != 0 && !w.imageStarted && e.readable && w.active <= 1 && w.active != e.slot
    && e.size <= w.layout.slots[e.slot].size
  }

  predicate WriteReachesProgram(w: World, e: Event)
    requires WorldIsValid(w) && e.Write?
  {
    && w.imageStarted && e.slot == w.selectedSlot && e.data != []
    && e.offset <= w.declaredSize && |e.data| <= w.declaredSize - e.offset
    && e.readable && w.active <= 1 && w.active != e.slot
  }

  function FlashRequestOf(w: World, e: Event): Option<FlashRequest>
    requires WorldIsValid(w)
  {
    match e
    case Begin(slot, _, _, _, _, _) =>
      if BeginReachesErase(w, e) then Some(FlashRequest(w.layout.slots[slot].base, w.layout.slots[slot].size)) else None
    case Write(slot, offset, data, _, _, _) =>
      if WriteReachesProgram(w, e) then
        Some(FlashRequest((w.layout.slots[slot].base + offset % TWO_32) % TWO_32, |data|))
      else None
    case _ => None
  }

  predicate InFlight(w: World, slot: byte) {
    w.imageStarted && slot == w.selectedSlot
  }

  function Do(w: World, e: Event): Outcome
    requires WorldIsValid(w)
  {
    match e
    case Begin(slot, _, size, _, erased, left) =>
      if !BeginReachesErase(w, e) then Outcome(w, false)
      else
        var range := w.layout.slots[slot];
        var wiped := w.(flash := Overwritten(w.flash, range.base, range.size, left));
        if !erased then Outcome(wiped, false)
        else Outcome(wiped.(selectedSlot := slot, declaredSize := size, imageStarted := true), true)
    case Write(slot, offset, data, _, programmed, _) =>
      if !WriteReachesProgram(w, e) then Outcome(w, false)
      else
        var base := (w.layout.slots[slot].base + offset % TWO_32) % TWO_32;
        Outcome(w.(flash := Overwritten(w.flash, base, |data|, Programmed(e, base))), programmed)
    case FinishImage(slot, size, answer) => Outcome(w, InFlight(w, slot) && size == w.declaredSize && answer)
    case Integrity(slot, _, size, answer) => Outcome(w, InFlight(w, slot) && size == w.declaredSize && answer)
    case Authenticity(slot, _, size, answer) => Outcome(w, InFlight(w, slot) && size == w.declaredSize && answer)
    case Stage(slot, version, stored, answer) =>
      if !InFlight(w, slot) then Outcome(w, false)
      else if stored then Outcome(w.(pending := Some(Candidate(slot, version, w.declaredSize))), answer)
      else Outcome(w, answer)
    case SecureBoot(slot, _, answer) => Outcome(w, InFlight(w, slot) && answer)
    case Commit(version, readable, stored, answer) =>
      if !(w.imageStarted && readable && w.active == w.selectedSlot) then Outcome(w, false)
      else Outcome(if stored then w.(counter := version) else w, answer)
    case Abort(slot, cleared) =>
      var dropped := if InFlight(w, slot) then w.(aborted := w.aborted + [slot]) else w;
      var quiet := if InFlight(w, slot) && cleared then dropped.(pending := None) else dropped;
      Outcome(quiet.(imageStarted := false, declaredSize := 0), true)
    case SwitchActive(slot) => Outcome(w.(active := slot), true)
  }

  lemma DoKeepsValid(w: World, e: Event)
    requires WorldIsValid(w)
    ensures WorldIsValid(Do(w, e).world) && Do(w, e).world.layout == w.layout
  {
  }

  /** The worlds of a run, the first being the start. */
  function Run(w: World, events: seq<Event>): (end: World)
    requires WorldIsValid(w)
    ensures WorldIsValid(end) && end.layout == w.layout
    decreases |events|
  {
    DoKeepsValid(w, if events == [] then SwitchActive(0) else events[0]);
    if events == [] then w else Run(Do(w, events[0]).world, events[1..])
  }

  // ---------------------------------------------------------------------
  // Flash safety
  // ---------------------------------------------------------------------

  /** Every erase and program lies inside the slot that is not running, and its address never wraps. */
  lemma FlashRequestsAreSafe(w: World, e: Event)
    requires WorldIsValid(w) && FlashRequestOf(w, e).Some?
    ensures var r := FlashRequestOf(w, e).value;
            && w.active <= 1
            && var idle := w.layout.slots[1 - w.active];
               && r.length > 0
               && idle.base <= r.base && r.base + r.length <= idle.base + idle.size <= TWO_32
    ensures e.Write? ==> FlashRequestOf(w, e).value.base == w.layout.slots[e.slot].base + e.offset
    ensures e.Begin? ==> var idle := w.layout.slots[1 - w.active];
                         FlashRequestOf(w, e).value == FlashRequest(idle.base, idle.size)
  {
  }

  predicate SameBytes(a: seq<byte>, b: seq<byte>, r: Range)
    requires |a| == |b|
  {
    forall x :: 0 <= x < |a| && Inside(r, x) ==> a[x] == b[x]
  }

  /** One step changes no byte outside the slot that is idle at that moment. */
  lemma StepTouchesIdleSlotOnly(w: World, e: Event, x: int)
    requires WorldIsValid(w) && 0 <= x < TWO_32
    requires w.active <= 1 ==> !Inside(w.layout.slots[1 - w.active], x)
    ensures Do(w, e).world.flash[x] == w.flash[x]
  {
    if FlashRequestOf(w, e).Some? {
      FlashRequestsAreSafe(w, e);
    }
  }

  /** However the slots are switched during a run, all flash outside the two slots keeps its bytes. */
  lemma {:induction false} FlashOutsideSlotsIsKept(w: World, events: seq<Event>, x: int)
    requires WorldIsValid(w) && 0 <= x < TWO_32
    requires !Inside(w.layout.slots[0], x) && !Inside(w.layout.slots[1], x)
    ensures Run(w, events).flash[x] == w.flash[x]
    decreases |events|
  {
    if events != [] {
      StepTouchesIdleSlotOnly(w, events[0], x);
      DoKeepsValid(w, events[0]);
      FlashOutsideSlotsIsKept(Do(w, events[0]).world, events[1..], x);
    }
  }

  /** The bootloader region survives every run. */
  lemma BootloaderIsKept(w: World, events: seq<Event>)
    requires WorldIsValid(w)
    ensures SameBytes(Run(w, events).flash, w.flash, w.layout.bootloader)
  {
    forall x | 0 <= x < TWO_32 && Inside(w.layout.bootloader, x)
      ensures Run(w, events).flash[x] == w.flash[x]
    {
      RegionsAreDisjoint(w.layout, x);
      FlashOutsideSlotsIsKept(w, events, x);
    }
  }

  predicate NoSwitch(events: seq<Event>) {
    forall i :: 0 <= i < |events| ==> !events[i].SwitchActive?
  }

  /** While the running slot stays the running slot, its image is never touched. */
  lemma {:induction false} RunningSlotIsKept(w: World, events: seq<Event>)
    requires WorldIsValid(w) && w.active <= 1 && NoSwitch(events)
    ensures Run(w, events).active == w.active
    ensures SameBytes(Run(w, events).flash, w.flash, w.layout.slots[w.active])
    decreases |events|
  {
    if events != [] {
      var next := Do(w, events[0]).world;
      DoKeepsValid(w, events[0]);
      forall x | 0 <= x < TWO_32 && Inside(w.layout.slots[w.active], x)
        ensures next.flash[x] == w.flash[x]
      {
        RegionsAreDisjoint(w.layout, x);
        StepTouchesIdleSlotOnly(w, events[0], x);
      }
      assert !events[0].SwitchActive?;
      RunningSlotIsKept(next, events[1..]);
    }
  }

  /** A successful write puts exactly the given bytes at the given offset of the image. */
  lemma WriteStoresData(w: World, e: Event)
    requires WorldIsValid(w) && e.Write? && Do(w, e).ok
    ensures var base := w.layout.slots[e.slot].base + e.offset;
            base + |e.data| <= TWO_32 && Do(w, e).world.flash[base..base + |e.data|] == e.data
  {
    FlashRequestsAreSafe(w, e);
  }

  // ---------------------------------------------------------------------
  // No early commit
  // ---------------------------------------------------------------------

  /** The worlds before each event of a run, and the final one. */
  function Trace(w: World, events: seq<Event>): (t: seq<World>)
    requires WorldIsValid(w)
    ensures |t| == |events| + 1 && t[0] == w
    ensures forall i :: 0 <= i < |t| ==> WorldIsValid(t[i]) && t[i].layout == w.layout
    ensures forall i :: 0 <= i < |events| ==> t[i + 1] == Do(t[i], events[i]).world
    decreases |events|
  {
    if events == [] then [w]
    else
      DoKeepsValid(w, events[0]);
      [w] + Trace(Do(w, events[0]).world, events[1..])
  }

  /** Event `b` of the run began the image that is still in flight before event `n`. */
  predicate BeganAt(t: seq<World>, events: seq<Event>, b: nat, n: nat)
    requires |t| == |events| + 1 && n <= |events|
    requires forall i :: 0 <= i < |t| ==> WorldIsValid(t[i])
  {
    && b < n && events[b].Begin? && Do(t[b], events[b]).ok
    && t[b].active != t[n].selectedSlot
    && forall i :: b < i <= n ==> t[i].imageStarted && t[i].selectedSlot == t[n].selectedSlot
  }

  lemma ImageStays(t: seq<World>, events: seq<Event>, b: nat, n: nat)
    requires |t| == |events| + 1 && 0 < n <= |events| && forall i :: 0 <= i < |t| ==> WorldIsValid(t[i])
    requires BeganAt(t, events, b, n - 1) && t[n] == Do(t[n - 1], events[n - 1]).world
    requires t[n - 1].imageStarted && t[n].imageStarted
    ensures BeganAt(t, events, b, n)
  {
    assert t[n].selectedSlot == t[n - 1].selectedSlot;
  }

  lemma {:induction false} ImageHasABegin(w: World, events: seq<Event>, n: nat) returns (b: nat)
    requires WorldIsValid(w) && !w.imageStarted && n <= |events|
    requires Trace(w, events)[n].imageStarted
    ensures BeganAt(Trace(w, events), events, b, n)
  {
    var t := Trace(w, events);
    var before, e := t[n - 1], events[n - 1];
    assert t[n - 1 + 1] == Do(before, e).world;
    if before.imageStarted {
      b := ImageHasABegin(w, events, n - 1);
      ImageStays(t, events, b, n);
    } else {
      b := n - 1;
    }
  }

  /**
   * A commit that succeeds, or that moves the counter at all, has an image in flight whose begin ran from
   * another slot than the one running now.
   */
  lemma CommitFollowsSwitch(w: World, events: seq<Event>, n: nat) returns (b: nat)
    requires WorldIsValid(w) && !w.imageStarted && n < |events| && events[n].Commit?
    requires var now := Trace(w, events)[n];
             Do(now, events[n]).ok || Do(now, events[n]).world.counter != now.counter
    ensures var t := Trace(w, events);
            BeganAt(t, events, b, n) && t[b].active != t[n].active
  {
    b := ImageHasABegin(w, events, n);
  }

  /** Without a change of the running slot no run moves the rollback counter. */
  lemma {:induction false} ConstantSlotNeverCommits(w: World, events: seq<Event>)
    requires WorldIsValid(w) && NoSwitch(events)
    requires w.imageStarted ==> w.selectedSlot != w.active
    ensures Run(w, events).counter == w.counter
    decreases |events|
  {
    if events != [] {
      DoKeepsValid(w, events[0]);
      assert !events[0].SwitchActive?;
      ConstantSlotNeverCommits(Do(w, events[0]).world, events[1..]);
    }
  }

  function Started(w: World): int {
    if w.imageStarted then 1 else 0
  }

  /** What an event adds to the number of images begun and not given up. */
  function Balance(w: World, e: Event): int
    requires WorldIsValid(w)
  {
    if e.Begin? && Do(w, e).ok then 1 else if e.Abort? && w.imageStarted then -1 else 0
  }

  lemma BalanceIsStarted(w: World, e: Event)
    requires WorldIsValid(w)
    ensures Started(Do(w, e).world) == Started(w) + Balance(w, e)
  {
  }

  function BeginsMinusAborts(w: World, events: seq<Event>): int
    requires WorldIsValid(w)
    decreases |events|
  {
    if events == [] then 0
    else
      DoKeepsValid(w, events[0]);
      Balance(w, events[0]) + BeginsMinusAborts(Do(w, events[0]).world, events[1..])
  }

  /** At most one image is in flight: successful begins and aborts of an image strictly alternate. */
  lemma {:induction false} OneImageInFlight(w: World, events: seq<Event>)
    requires WorldIsValid(w)
    ensures 0 <= Started(w) + BeginsMinusAborts(w, events) <= 1
    ensures Started(w) + BeginsMinusAborts(w, events) == Started(Run(w, events))
    decreases |events|
  {
    if events != [] {
      DoKeepsValid(w, events[0]);
      BalanceIsStarted(w, events[0]);
      OneImageInFlight(Do(w, events[0]).world, events[1..]);
    }
  }

  /** The images that a run begins. */
  function Begins(w: World, events: seq<Event>): nat
    requires WorldIsValid(w)
    decreases |events|
  {
    if events == [] then 0
    else
      DoKeepsValid(w, events[0]);
      (if events[0].Begin? && Do(w, events[0]).ok then 1 else 0) + Begins(Do(w, events[0]).world, events[1..])
  }

  /** Aborts that name another slot than the one in flight: the image is given up without the abort hook. */
  function SilentDrops(w: World, events: seq<Event>): nat
    requires WorldIsValid(w)
    decreases |events|
  {
    if events == [] then 0
    else
      DoKeepsValid(w, events[0]);
      (if events[0].Abort? && w.imageStarted && events[0].slot != w.selectedSlot then 1 else 0)
      + SilentDrops(Do(w, events[0]).world, events[1..])
  }

  /** Each image begun is still in flight, or went through the abort hook once, or was given up without it. */
  lemma {:induction false} AbortHookEndsImages(w: World, events: seq<Event>)
    requires WorldIsValid(w)
    ensures |w.aborted| <= |Run(w, events).aborted|
    ensures Started(w) + Begins(w, events)
         == Started(Run(w, events)) + (|Run(w, events).aborted| - |w.aborted|) + SilentDrops(w, events)
    decreases |events|
  {
    if events != [] {
      DoKeepsValid(w, events[0]);
      AbortHookEndsImages(Do(w, events[0]).world, events[1..]);
    }
  }
}
