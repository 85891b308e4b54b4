/** The firmware target object and the product's hooks, proved against the two state machines. */
module OtaBackend {
  import opened Words
  import opened OtaLayout
  import OtaModel
  import opened OtaConfirm

  type Candidate = OtaModel.Candidate
  type Contents = OtaModel.Contents

  /** The hooks a product must supply. */
  datatype Op =
    | ReadActiveSlotOp | ReadVersionOp | EraseOp | ProgramOp | FinishImageOp | IntegrityOp | AuthenticityOp
    | StageOp | SecureBootOp | CommitOp | ReadPendingOp | ClearPendingOp | AbortOp

  const ALL_OPS := {
    ReadActiveSlotOp, ReadVersionOp, EraseOp, ProgramOp, FinishImageOp, IntegrityOp, AuthenticityOp,
    StageOp, SecureBootOp, CommitOp, ReadPendingOp, ClearPendingOp, AbortOp }

  lemma AllOpsAreAll(op: Op)
    ensures op in ALL_OPS
  {
  }

  /** The product: flash, boot selection and protected storage. Each hook takes the answer it is going to give. */
  class Device {
    const flash: array<byte>
    var active: byte
    var counter: uint32
    var pending: Option<Candidate>
    /** The slots that the abort hook was called for. */
    ghost var aborted: seq<byte>

    constructor (flash: array<byte>, active: byte, counter: uint32, pending: Option<Candidate>)
      ensures this.flash == flash && this.active == active && this.counter == counter && this.pending == pending
      ensures aborted == []
    {
      this.flash, this.active, this.counter, this.pending := flash, active, counter, pending;
      aborted := [];
    }

    method ReadActiveSlot(readable: bool) returns (ok: bool, slot: byte)
      ensures ok == readable && (ok ==> slot == active)
    {
      ok, slot := readable, if readable then active else 0;
    }

    method ReadMonotonicVersion(readable: bool) returns (ok: bool, version: uint32)
      ensures ok == readable && (ok ==> version == counter)
    {
      ok, version := readable, if readable then counter else 0;
    }

    method ReadPendingCandidate(readable: bool) returns (ok: bool, candidate: Candidate)
      ensures ok == (readable && pending.Some?) && (ok ==> pending == Some(candidate))
    {
      if readable && pending.Some? {
        return true, pending.value;
      }
      return false, NO_CANDIDATE;
    }

    /** An erase or program operation: it may leave anything in its range, and touches nothing else. */
    method ChangeFlash(base: uint32, length: nat, left: Contents)
      requires flash.Length == TWO_32
      modifies flash
      ensures flash[..] == OtaModel.Overwritten(old(flash[..]), base, length, left)
    {
      forall x | 0 <= x < flash.Length && base <= x < base + length {
        flash[x] := left(x);
      }
    }

    method CommitMonotonicVersion(version: uint32, stored: bool, answer: bool) returns (ok: bool)
      modifies `counter
      ensures counter == (if stored then version else old(counter)) && ok == answer
    {
      if stored {
        counter := version;
      }
      ok := answer;
    }

    method StageSlot(candidate: Candidate, stored: bool, answer: bool) returns (ok: bool)
      modifies `pending
      ensures pending == (if stored then Some(candidate) else old(pending)) && ok == answer
    {
      if stored {
        pending := Some(candidate);
      }
      ok := answer;
    }

    method AbortSlot(slot: byte)
      modifies `aborted
      ensures aborted == old(aborted) + [slot]
    {
      aborted := aborted + [slot];
    }

    method ClearPendingCandidate(stored: bool, answer: bool) returns (ok: bool)
      modifies `pending
      ensures pending == (if stored then None else old(pending)) && ok == answer
    {
      if stored {
        pending := None;
      }
      ok := answer;
    }
  }

  class OtaTarget {
    var layout: Layout
    var selectedSlot: byte
    var declaredSize: uint64
    var imageStarted: bool
    const device: Device

    ghost function CurrentWorld(): OtaModel.World
      reads this, device, device.flash
    {
      OtaModel.World(layout, selectedSlot, declaredSize, imageStarted,
                     device.flash[..], device.active, device.counter, device.pending, device.aborted)
    }

    ghost predicate Valid()
      reads this, device, device.flash
    {
      OtaModel.WorldIsValid(CurrentWorld())
    }

    /** A target in unknown state, before it is bound. */
    constructor (device: Device)
      ensures this.device == device
    {
      this.device := device;
      layout := Layout(Range(0, 0), Range(0, 0), []);
      selectedSlot, declaredSize, imageStarted := 0, 0, false;
    }

    /** Bind to a product; only a separated layout with every hook present enables programming. */
    method Bind(config: Layout, present: set<Op>) returns (ok: bool, allowProgramming: bool)
      requires device.flash.Length == TWO_32
      modifies this
      ensures ok <==> Separated(config) && forall op: Op :: op in present
      ensures allowProgramming == ok
      ensures ok ==> Valid() && layout == config && !imageStarted && selectedSlot == OtaModel.NO_SLOT
      ensures !ok ==> unchanged(this)
    {
      if !(|config.slots| == 2
           && Contains(config.flash, config.bootloader)
           && Contains(config.flash, config.slots[0])
           && Contains(config.flash, config.slots[1])) {
        return false, false;
      }
      if Overlaps(config.bootloader, config.slots[0])
         || Overlaps(config.bootloader, config.slots[1])
         || Overlaps(config.slots[0], config.slots[1]) {
        return false, false;
      }
      if !(ALL_OPS <= present) {
        return false, false;
      }
      forall op: Op ensures op in present {
        AllOpsAreAll(op);
      }
      layout := config;
      selectedSlot := OtaModel.NO_SLOT;
      declaredSize := 0;
      imageStarted := false;
      return true, true;
    }

    // -------------------------------------------------------------------
    // The backend, callable in any order
    // -------------------------------------------------------------------

    /** The slot that is not running; a following begin with a fitting size is accepted exactly for this slot. */
    method SelectSlot(readable: bool) returns (ok: bool, slot: byte)
      requires Valid()
      ensures ok <==> readable && device.active <= 1
      ensures ok ==> slot == 1 - device.active
      ensures ok ==> forall size: uint64, erased, left, other: byte ::
        OtaModel.BeginReachesErase(CurrentWorld(), OtaModel.Begin(other, 0, size, true, erased, left)) <==>
        other == slot && !imageStarted && 0 < size <= layout.slots[slot].size
    {
      var active;
      ok, active := device.ReadActiveSlot(readable);
      if !ok || active > 1 {
        return false, 0;
      }
      return true, 1 - active;
    }

    method BeginImage(slot: byte, version: uint32, size: uint64, readable: bool, erased: bool, left: Contents)
      returns (ok: bool)
      requires Valid()
      modifies this`selectedSlot, this`declaredSize, this`imageStarted, device.flash
      ensures Valid()
      ensures var o := OtaModel.Do(old(CurrentWorld()), OtaModel.Begin(slot, version, size, readable, erased, left));
              CurrentWorld() == o.world && ok == o.ok
    {
      if slot > 1 || size == 0 || imageStarted {
        return false;
      }
      var readOk, active := device.ReadActiveSlot(readable);
      if !readOk || active > 1 || active == slot {
        return false;
      }
      var range := layout.slots[slot];
      if size > range.size {
        return false;
      }
      device.ChangeFlash(range.base, range.size, left);
      if !erased {
        return false;
      }
      selectedSlot := slot;
      declaredSize := size;
      imageStarted := true;
      return true;
    }

    method WriteBlock(slot: byte, offset: uint64, data: seq<byte>, readable: bool, programmed: bool, left: Contents)
      returns (ok: bool)
      requires Valid()
      modifies device.flash
      ensures Valid()
      ensures var o := OtaModel.Do(old(CurrentWorld()), OtaModel.Write(slot, offset, data, readable, programmed, left));
              CurrentWorld() == o.world && ok == o.ok
    {
      if !imageStarted || slot != selectedSlot || data == []
         || offset > declaredSize || |data| > declaredSize - offset {
        return false;
      }
      var readOk, active := device.ReadActiveSlot(readable);
      if !readOk || active > 1 || active == slot {
        return false;
      }
      var base: uint32 := (layout.slots[slot].base + offset % TWO_32) % TWO_32;
      var e := OtaModel.Write(slot, offset, data, readable, programmed, left);
      device.ChangeFlash(base, |data|, OtaModel.Programmed(e, base));
      return programmed;
    }

    method FinishImage(slot: byte, size: uint64, answer: bool) returns (ok: bool)
      requires Valid()
      ensures ok == OtaModel.Do(CurrentWorld(), OtaModel.FinishImage(slot, size, answer)).ok
    {
      ok := imageStarted && slot == selectedSlot && size == declaredSize && answer;
    }

    method Integrity(slot: byte, version: uint32, size: uint64, answer: bool) returns (ok: bool)
      requires Valid()
      ensures ok == OtaModel.Do(CurrentWorld(), OtaModel.Integrity(slot, version, size, answer)).ok
    {
      ok := imageStarted && slot == selectedSlot && size == declaredSize && answer;
    }

    method Authenticity(slot: byte, version: uint32, size: uint64, answer: bool) returns (ok: bool)
      requires Valid()
      ensures ok == OtaModel.Do(CurrentWorld(), OtaModel.Authenticity(slot, version, size, answer)).ok
    {
      ok := imageStarted && slot == selectedSlot && size == declaredSize && answer;
    }

    method StageImage(slot: byte, version: uint32, stored: bool, answer: bool) returns (ok: bool)
      requires Valid()
      modifies device`pending
      ensures Valid()
      ensures var o := OtaModel.Do(old(CurrentWorld()), OtaModel.Stage(slot, version, stored, answer));
              CurrentWorld() == o.world && ok == o.ok
    {
      if !imageStarted || slot != selectedSlot {
        return false;
      }
      ok := device.StageSlot(OtaModel.Candidate(slot, version, declaredSize), stored, answer);
    }

    method SecureBoot(slot: byte, version: uint32, answer: bool) returns (ok: bool)
      requires Valid()
      ensures ok == OtaModel.Do(CurrentWorld(), OtaModel.SecureBoot(slot, version, answer)).ok
    {
      ok := imageStarted && slot == selectedSlot && answer;
    }

    /** Never moves the rollback counter while the old slot is still running. */
    method Commit(version: uint32, readable: bool, stored: bool, answer: bool) returns (ok: bool)
      requires Valid()
      modifies device`counter
      ensures Valid()
      ensures var o := OtaModel.Do(old(CurrentWorld()), OtaModel.Commit(version, readable, stored, answer));
              CurrentWorld() == o.world && ok == o.ok
    {
      if !imageStarted {
        return false;
      }
      var readOk, running := device.ReadActiveSlot(readable);
      if !readOk || running != selectedSlot {
        return false;
      }
      ok := device.CommitMonotonicVersion(version, stored, answer);
    }

    method AbortImage(slot: byte, cleared: bool)
      requires Valid()
      modifies this`declaredSize, this`imageStarted, device`pending, device`aborted
      ensures Valid()
      ensures CurrentWorld() == OtaModel.Do(old(CurrentWorld()), OtaModel.Abort(slot, cleared)).world
    {
      if imageStarted && slot == selectedSlot {
        device.AbortSlot(slot);
        var _ := device.ClearPendingCandidate(cleared, cleared);
      }
      imageStarted := false;
      declaredSize := 0;
    }

    // -------------------------------------------------------------------
    // Confirmation after boot
    // -------------------------------------------------------------------

    ghost function CurrentStore(): Store
      reads device
    {
      Store(device.counter, device.pending)
    }

    /** The straight-line confirmation is the hook-by-hook machine run to its return. */
    method ConfirmAfterBoot(verdict: (Check, Candidate) -> bool, script: Script) returns (ok: bool)
      modifies device`counter, device`pending
      ensures var env := Env(layout, device.active, verdict);
              var end := Confirm(env, old(CurrentStore()), script);
              CurrentStore() == end.store && end.call.pc == Returned(ok)
    {
      ghost var env := Env(layout, device.active, verdict);
      if !SlotsAreSane(layout) {
        return false;
      }
      ghost var b := FinishTicks(env, Boot(CurrentStore(), StartCall(env)), script);
      var readPending, candidate := device.ReadPendingCandidate(script.pending);
      if !readPending {
        return false;
      }
      b := FinishTicks(env, b, script);
      var readActive, running := device.ReadActiveSlot(script.active);
      if !readActive {
        return false;
      }
      b := FinishTicks(env, b, script);
      var readVersion, protectedVersion := device.ReadMonotonicVersion(script.version);
      if !readVersion
         || candidate.slot > 1 || running != candidate.slot
         || candidate.size == 0 || candidate.size > layout.slots[candidate.slot].size
         || candidate.version < protectedVersion {
        return false;
      }
      if candidate.version == protectedVersion {
        b := FinishTicks(env, b, script);
        ok := device.ClearPendingCandidate(script.clear.ok || script.clear.stored, script.clear.ok);
        return;
      }
      b := FinishTicks(env, b, script);
      if !(script.integrity && verdict(ImageIntegrity, candidate)) {
        return false;
      }
      b := FinishTicks(env, b, script);
      if !(script.authenticity && verdict(ImageAuthenticity, candidate)) {
        return false;
      }
      b := FinishTicks(env, b, script);
      if !(script.boot && verdict(BootEligibility, candidate)) {
        return false;
      }
      b := FinishTicks(env, b, script);
      var committed := device.CommitMonotonicVersion(
        candidate.version, script.commit.ok || script.commit.stored, script.commit.ok);
      if !committed {
        return false;
      }
      b := FinishTicks(env, b, script);
      ok := device.ClearPendingCandidate(script.clear.ok || script.clear.stored, script.clear.ok);
    }
  }
}
