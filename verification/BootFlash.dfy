/** The calls of `boot_control.c` that read and program slot headers, as steps of the boot slot model. */
module BootFlash {
  import opened Bytes
  import opened Boot
  import Nor

  datatype Result = Ok | Argument | ReadError | StateError | ProgramError | VerifyError

  /** The status a completed mark leaves. */
  function StageOf(offset: nat): Status {
    if offset == WRITE_DONE then Pending else if offset == BOOT_ATTEMPTED then Unconfirmed else Confirmed
  }

  class Slots {
    var headers: Headers

    constructor (bytes: Headers)
      ensures headers == bytes
    {
      headers := bytes;
    }

    /**
     * `program_info`: whatever happens, only bits meant to be cleared are, and only in this slot; success means that the
     * slot's information is what was meant.
     */
    method ProgramInfo(slot: Slot, expected: Header, at: nat, data: seq<byte>, outcome: Outcome, readable: bool) returns (result: Result)
      requires at + |data| <= 8
      requires outcome.Some? ==> Nor.Torn(headers.At(slot), at, data, outcome.value)
      modifies this
      ensures headers == old(headers).With(slot, Programmed(old(headers.At(slot)), at, data, outcome))
      ensures Nor.Torn(old(headers.At(slot)), at, data, headers.At(slot)) && headers.At(slot.Other()) == old(headers.At(slot.Other()))
      ensures result.Ok? ==> headers.At(slot)[..8] == expected[..8]
      ensures result == if outcome.Some? then ProgramError else if !readable then ReadError
                        else if expected[..8] == headers.At(slot)[..8] then Ok else VerifyError
    {
      hide Nor.Torn, Nor.Program;
      Nor.ProgrammedIsTorn(headers.At(slot), at, data, |data|);
      assert data[..|data|] == data;
      headers := headers.With(slot, Programmed(headers.At(slot), at, data, outcome));
      if outcome.Some? {
        return ProgramError;
      }
      if !readable {
        return ReadError;
      }
      result := if expected[..8] == headers.At(slot)[..8] then Ok else VerifyError;
    }

    /** `boot_slot_initialize`: only an erased header is programmed, and success means it is ready to be marked written. */
    method Initialize(slot: Slot, generation: byte, outcome: Outcome, readable: bool) returns (result: Result)
      requires Enabled(State(headers, Idle), Event.Initialize(slot, generation, outcome))
      modifies this
      ensures result == Argument <==> generation >= 3
      ensures result in {Argument, StateError} || !readable ==> headers == old(headers)
      ensures result == StateError <==> generation < 3 && readable && !IsErased(old(headers.At(slot)))
      ensures generation < 3 && readable ==> headers == Apply(State(old(headers), Idle), Event.Initialize(slot, generation, outcome)).headers
      ensures result.Ok? ==> MayMark(headers.At(slot), WRITE_DONE) && Generation(headers.At(slot)) == generation
      ensures outcome.None? && readable ==> result in {Ok, Argument, StateError}
    {
      hide Nor.Program, MayMark;
      if generation >= 3 {
        return Argument;
      }
      if !readable {
        return ReadError;
      }
      var h := headers.At(slot);
      if !IsErased(h) {
        return StateError;
      }
      InitializedBlank(h, generation);
      var expected := Nor.Program(h, 0, InfoBytes(generation));
      result := ProgramInfo(slot, expected, 0, InfoBytes(generation), outcome, readable);
    }

    /** `mark`: idempotent at its own stage, refused at any other stage but the one before. */
    method Mark(slot: Slot, offset: nat, outcome: Outcome, readable: bool) returns (result: Result)
      requires Enabled(State(headers, Idle), Event.Mark(slot, offset, outcome))
      modifies this
      ensures readable ==> headers == Apply(State(old(headers), Idle), Event.Mark(slot, offset, outcome)).headers
      ensures !readable ==> headers == old(headers) && result == ReadError
      ensures result.Ok? ==> headers.Status(slot) == StageOf(offset) && Generation(headers.At(slot)) == Generation(old(headers.At(slot)))
      ensures result == StateError <==> readable && old(headers.Status(slot)) != StageOf(offset) && !MayMark(old(headers.At(slot)), offset)
      ensures outcome.None? && readable ==> result in {Ok, StateError}
    {
      hide Nor.Program, StatusOf, Nor.Torn;
      if !readable {
        return ReadError;
      }
      var h := headers.At(slot);
      if StatusOf(h) == StageOf(offset) {
        StageIsPast(h, offset);
        return Ok;
      }
      if !MayMark(h, offset) {
        return StateError;
      }
      MarkedStatus(h, offset);
      Marked(h, offset);
      result := ProgramInfo(slot, h[offset := FLAG_SET], offset, [FLAG_SET], outcome, readable);
    }
  }

  /** A mark already made is not made again. */
  lemma StageIsPast(h: Header, offset: nat)
    requires offset in {WRITE_DONE, BOOT_ATTEMPTED, BOOT_SUCCESS} && StatusOf(h) == StageOf(offset)
    ensures !MayMark(h, offset)
  {
  }

  /** `boot_slot_upgrade_target`: both slots must be readable before a target is named. */
  method ChooseTarget(hs: Headers, readable: Readable) returns (result: Result, target: Option<Target>)
    ensures result.Ok? <==> readable.a && readable.b
    ensures !result.Ok? ==> result == ReadError && target.None?
    ensures result.Ok? ==> target == Some(UpgradeTarget(hs))
  {
    hide StatusOf;
    var status := [Invalid, Invalid];
    var i := 0;
    while i < 2
      invariant 0 <= i <= 2 && |status| == 2
      invariant forall k | 0 <= k < i :: readable.At(SlotNumber(k)) && status[k] == hs.Status(SlotNumber(k))
    {
      if !readable.At(SlotNumber(i)) {
        return ReadError, None;
      }
      status := status[i := hs.Status(SlotNumber(i))];
      i := i + 1;
    }
    assert status[0] == hs.Status(SlotNumber(0)) && status[1] == hs.Status(SlotNumber(1));
    var keep := None;
    if status[0].Confirmed? || status[1].Confirmed? {
      keep := Some(if status[0] == status[1] then Newer(hs) else if status[0].Confirmed? then A else B);
    } else if status[0].Pending? || status[1].Pending? {
      keep := Some(if status[0] == status[1] then Newer(hs) else if status[0].Pending? then A else B);
    }
    target := Some(Target(if keep == Some(A) then B else A, if keep.None? then 0 else (Generation(hs.At(keep.value)) + 1) % 3));
    result := Ok;
  }
}
