/**
 * What each backend call answers and changes, in terms of the calls before it: which image was begun and not given up.
 * Nothing here refers to the fields in which the target remembers that image.
 */
module OtaCalls {
  import opened Words
  import opened OtaLayout
  import opened OtaModel

  // ---------------------------------------------------------------------
  // The image in flight, as a matter of history
  // ---------------------------------------------------------------------

  /** Event `b` began an image of this size on this slot, and no event from there to event `n` was an abort. */
  predicate BeganImage(t: seq<World>, events: seq<Event>, b: nat, n: nat, slot: byte, size: uint64)
    requires |t| == |events| + 1 && n <= |events| && forall i :: 0 <= i < |t| ==> WorldIsValid(t[i])
  {
    && b < n && events[b].Begin? && events[b].slot == slot && events[b].size == size && Do(t[b], events[b]).ok
    && forall i :: b < i < n ==> !events[i].Abort?
  }

  ghost predicate BeganEarlier(t: seq<World>, events: seq<Event>, n: nat, slot: byte, size: uint64)
    requires |t| == |events| + 1 && n <= |events| && forall i :: 0 <= i < |t| ==> WorldIsValid(t[i])
  {
    exists b: nat :: BeganImage(t, events, b, n, slot, size)
  }

  /** Before event `n` of a run from an idle target, an image of this size is in flight on this slot. */
  ghost predicate HasImage(w: World, events: seq<Event>, n: nat, slot: byte, size: uint64)
    requires WorldIsValid(w) && n <= |events|
  {
    BeganEarlier(Trace(w, events), events, n, slot, size)
  }

  /** Some image is in flight on this slot. */
  ghost predicate HasImageOn(w: World, events: seq<Event>, n: nat, slot: byte)
    requires WorldIsValid(w) && n <= |events|
  {
    exists size: uint64 :: HasImage(w, events, n, slot, size)
  }

  lemma HistoryStep(t: seq<World>, events: seq<Event>, n: nat, slot: byte, size: uint64)
    requires |t| == |events| + 1 && n < |events| && forall i :: 0 <= i < |t| ==> WorldIsValid(t[i])
    ensures BeganEarlier(t, events, n + 1, slot, size) <==>
            || (events[n].Begin? && Do(t[n], events[n]).ok && events[n].slot == slot && events[n].size == size)
            || (!events[n].Abort? && BeganEarlier(t, events, n, slot, size))
  {
    var next := n + 1;
    if b: nat :| BeganImage(t, events, b, n, slot, size) && !events[n].Abort? {
      assert BeganImage(t, events, b, next, slot, size);
    }
    if b: nat :| BeganImage(t, events, b, next, slot, size) && b < n {
      assert !events[n].Abort?;
      assert BeganImage(t, events, b, n, slot, size);
    }
    if events[n].Begin? && Do(t[n], events[n]).ok && events[n].slot == slot && events[n].size == size {
      assert BeganImage(t, events, n, next, slot, size);
    }
  }

  predicate Remembers(w: World, slot: byte, size: uint64) {
    w.imageStarted && w.selectedSlot == slot && w.declaredSize == size
  }

  /** How one event changes what the target remembers. */
  lemma RememberedStep(w: World, e: Event, slot: byte, size: uint64)
    requires WorldIsValid(w)
    ensures Remembers(Do(w, e).world, slot, size) <==>
            || (e.Begin? && Do(w, e).ok && e.slot == slot && e.size == size)
            || (!e.Abort? && Remembers(w, slot, size))
  {
  }

  /** What the target remembers is exactly what happened. */
  lemma {:induction false} ImageIsRemembered(w: World, events: seq<Event>, n: nat, slot: byte, size: uint64)
    requires WorldIsValid(w) && !w.imageStarted && n <= |events|
    ensures HasImage(w, events, n, slot, size) <==> Remembers(Trace(w, events)[n], slot, size)
  {
    if n > 0 {
      var t := Trace(w, events);
      ImageIsRemembered(w, events, n - 1, slot, size);
      HistoryStep(t, events, n - 1, slot, size);
      RememberedStep(t[n - 1], events[n - 1], slot, size);
      assert t[n - 1 + 1] == Do(t[n - 1], events[n - 1]).world;
    }
  }

  lemma SlotIsRemembered(w: World, events: seq<Event>, n: nat, slot: byte)
    requires WorldIsValid(w) && !w.imageStarted && n <= |events|
    ensures HasImageOn(w, events, n, slot) <==>
            Trace(w, events)[n].imageStarted && Trace(w, events)[n].selectedSlot == slot
  {
    var now := Trace(w, events)[n];
    ImageIsRemembered(w, events, n, slot, now.declaredSize);
    if size: uint64 :| HasImage(w, events, n, slot, size) {
      ImageIsRemembered(w, events, n, slot, size);
    }
  }

  // ---------------------------------------------------------------------
  // What each call answers and changes
  // ---------------------------------------------------------------------

  /** Event `n` of a run from an idle target, and the world it meets. */
  ghost predicate IsCall(w: World, events: seq<Event>, n: nat, e: Event, now: World) {
    WorldIsValid(w) && !w.imageStarted && n < |events| && events[n] == e && Trace(w, events)[n] == now
  }

  /** The three checks that carry a size pass the hook's verdict on, for the image begun with that very size. */
  lemma CheckSucceedsIff(w: World, events: seq<Event>, n: nat, e: Event, now: World)
    requires IsCall(w, events, n, e, now) && (e.FinishImage? || e.Integrity? || e.Authenticity?)
    ensures Do(now, e).ok <==> e.answer && HasImage(w, events, n, e.slot, e.size)
    ensures Do(now, e).world == now
  {
    ImageIsRemembered(w, events, n, e.slot, e.size);
  }

  /** The secure-boot check passes the hook's verdict on, for the slot of the image in flight. */
  lemma SecureBootSucceedsIff(w: World, events: seq<Event>, n: nat, e: Event, now: World)
    requires IsCall(w, events, n, e, now) && e.SecureBoot?
    ensures Do(now, e).ok <==> e.answer && HasImageOn(w, events, n, e.slot)
    ensures Do(now, e).world == now
  {
    SlotIsRemembered(w, events, n, e.slot);
  }

  /** A begin needs the idle slot, a size that fits it and no image in flight; it erases that slot and nothing else. */
  lemma BeginSucceedsIff(w: World, events: seq<Event>, n: nat, e: Event, now: World)
    requires IsCall(w, events, n, e, now) && e.Begin?
    ensures var reaches := e.readable && e.slot <= 1 && now.active == 1 - e.slot
                           && 0 < e.size <= now.layout.slots[e.slot].size
                           && forall slot: byte :: !HasImageOn(w, events, n, slot);
            var after := Do(now, e).world;
            && (Do(now, e).ok <==> reaches && e.erased)
            && (forall x :: 0 <= x < TWO_32 ==>
                  after.flash[x] == if reaches && Inside(now.layout.slots[e.slot], x) then e.left(x) else now.flash[x])
            && after.active == now.active && after.counter == now.counter && after.pending == now.pending
            && after.aborted == now.aborted
  {
    SlotIsRemembered(w, events, n, now.selectedSlot);
    forall slot: byte
      ensures HasImageOn(w, events, n, slot) ==> now.imageStarted
    {
      SlotIsRemembered(w, events, n, slot);
    }
  }

  /** The address range of a write. */
  predicate InWrite(now: World, e: Event, x: int)
    requires WorldIsValid(now) && e.Write? && e.slot <= 1
  {
    now.layout.slots[e.slot].base + e.offset <= x < now.layout.slots[e.slot].base + e.offset + |e.data|
  }

  /** An image on this slot is in flight, and the data lie inside its declared size. */
  ghost predicate WriteIsInside(w: World, events: seq<Event>, n: nat, e: Event)
    requires WorldIsValid(w) && n <= |events| && e.Write?
  {
    exists size: uint64 :: HasImage(w, events, n, e.slot, size) && e.offset + |e.data| <= size
  }

  lemma WriteIsInsideIff(w: World, events: seq<Event>, n: nat, e: Event)
    requires WorldIsValid(w) && !w.imageStarted && n <= |events| && e.Write?
    ensures var now := Trace(w, events)[n];
            WriteIsInside(w, events, n, e) <==>
            now.imageStarted && now.selectedSlot == e.slot && e.offset + |e.data| <= now.declaredSize
  {
    ImageIsRemembered(w, events, n, e.slot, Trace(w, events)[n].declaredSize);
    if size: uint64 :| HasImage(w, events, n, e.slot, size) && e.offset + |e.data| <= size {
      ImageIsRemembered(w, events, n, e.slot, size);
    }
  }

  lemma WrittenByte(now: World, e: Event, x: int)
    requires WorldIsValid(now) && e.Write? && 0 <= x < TWO_32
    ensures WriteReachesProgram(now, e) && InWrite(now, e, x) ==>
              Do(now, e).world.flash[x] ==
              if e.programmed then e.data[x - now.layout.slots[e.slot].base - e.offset] else e.left(x)
    ensures !(WriteReachesProgram(now, e) && InWrite(now, e, x)) ==> Do(now, e).world.flash[x] == now.flash[x]
  {
    if WriteReachesProgram(now, e) {
      FlashRequestsAreSafe(now, e);
    }
  }

  lemma WriteOutcome(now: World, e: Event)
    requires WorldIsValid(now) && e.Write?
    ensures Do(now, e).ok <==> WriteReachesProgram(now, e) && e.programmed
    ensures Do(now, e).world == now.(flash := Do(now, e).world.flash)
  {
  }

  /** A write needs the image in flight, data inside its declared size and its slot idle; it changes its range only. */
  lemma WriteSucceedsIff(w: World, events: seq<Event>, n: nat, e: Event, now: World, x: int)
    requires IsCall(w, events, n, e, now) && e.Write? && 0 <= x < TWO_32
    ensures var reaches := e.readable && e.slot <= 1 && now.active == 1 - e.slot && |e.data| > 0
                           && WriteIsInside(w, events, n, e);
            && (Do(now, e).ok <==> reaches && e.programmed)
            && Do(now, e).world.flash[x] == (if !(reaches && InWrite(now, e, x)) then now.flash[x]
                                             else if e.programmed then
                                               e.data[x - now.layout.slots[e.slot].base - e.offset]
                                             else e.left(x))
    ensures Do(now, e).world == now.(flash := Do(now, e).world.flash)
  {
    WriteIsInsideIff(w, events, n, e);
    WriteOutcome(now, e);
    WrittenByte(now, e, x);
  }

  /** Staging records slot, version and the size of the begin, when the hook stores it. */
  lemma StageSucceedsIff(w: World, events: seq<Event>, n: nat, e: Event, now: World)
    requires IsCall(w, events, n, e, now) && e.Stage?
    ensures Do(now, e).ok <==> e.answer && HasImageOn(w, events, n, e.slot)
    ensures !(e.stored && HasImageOn(w, events, n, e.slot)) ==> Do(now, e).world == now
    ensures forall size: uint64 :: e.stored && HasImage(w, events, n, e.slot, size) ==>
              Do(now, e).world == now.(pending := Some(Candidate(e.slot, e.version, size)))
  {
    SlotIsRemembered(w, events, n, e.slot);
    forall size: uint64
      ensures HasImage(w, events, n, e.slot, size) ==> size == now.declaredSize
    {
      ImageIsRemembered(w, events, n, e.slot, size);
    }
  }

  /** A backend commit needs the image in flight on the running slot. */
  lemma CommitSucceedsIff(w: World, events: seq<Event>, n: nat, e: Event, now: World)
    requires IsCall(w, events, n, e, now) && e.Commit?
    ensures var reaches := e.readable && HasImageOn(w, events, n, now.active);
            && (Do(now, e).ok <==> reaches && e.answer)
            && Do(now, e).world == if reaches && e.stored then now.(counter := e.version) else now
  {
    SlotIsRemembered(w, events, n, now.active);
  }

  /** An abort ends any image; only for the slot it names are the hook called and the pending record cleared. */
  lemma AbortEndsImage(w: World, events: seq<Event>, n: nat, e: Event, now: World, slot: byte)
    requires IsCall(w, events, n, e, now) && e.Abort?
    ensures var named := HasImageOn(w, events, n, e.slot);
            var after := Do(now, e).world;
            && !HasImageOn(w, events, n + 1, slot)
            && after.aborted == (if named then now.aborted + [e.slot] else now.aborted)
            && after.pending == (if named && e.cleared then None else now.pending)
            && after.flash == now.flash && after.counter == now.counter && after.active == now.active
  {
    SlotIsRemembered(w, events, n, e.slot);
    var t := Trace(w, events);
    assert t[n + 1] == Do(t[n], events[n]).world;
    SlotIsRemembered(w, events, n + 1, slot);
  }
}
