/** The fields and calls of `configuration_service.c`, as runs of the configuration store. */
module ConfigService {
  import opened Bytes
  import opened ConfigStore
  import Nor

  datatype ServiceState = UninitializedState | ReadyState | FailedState

  datatype Result = Ok | NotInitialized | InvalidArgument | InvalidPayload | IoError

  /** What the flash device does with an operation: `None` is success, otherwise the error leaves these bytes. */
  type Device = (Job, SlotBytes) -> Option<SlotBytes>

  ghost predicate IsDevice(device: Device) {
    forall job, slot | JobOk(job) && device(job, slot).Some? :: MayLeave(job, slot, device(job, slot).value)
  }

  /** No operation ever fails. */
  ghost predicate IsReliable(device: Device) {
    forall job, slot :: device(job, slot).None?
  }

  lemma {:induction false} ReachesMore(accepts: Validator, s: State, events: seq<Event>, t: State, e: Event)
    requires Reaches(accepts, s, events, t) && Enabled(accepts, t, e)
    ensures Reaches(accepts, s, events + [e], Apply(accepts, t, e))
    decreases |events|
  {
    hide Enabled, Apply;
    if events == [] {
      var u := Apply(accepts, t, e);
      assert Reaches(accepts, u, [], u);
      assert (events + [e])[1..] == [];
    } else {
      ReachesMore(accepts, Apply(accepts, s, events[0]), events[1..], t, e);
      assert (events + [e])[1..] == events[1..] + [e];
    }
  }

  lemma ErasingBegins(job: Job, slot: SlotBytes)
    requires JobOk(job) && job.stage == Erasing(0)
    ensures Progress(job, slot)
  {
  }

  lemma ErasingProgresses(job: Job, slot: SlotBytes)
    requires JobOk(job) && job.stage.Erasing? && Progress(job, slot)
    ensures var k := job.stage.sector;
            Progress(job.(stage := if k + 1 < SECTOR_COUNT then Erasing(k + 1) else Body), Nor.Erase(slot, k * SECTOR_SIZE, SECTOR_SIZE))
  {
    hide Record, Nor.Program, Nor.Erase;
    OperationsProgress(job, slot);
  }

  class Service {
    var flash: Flash
    var state: ServiceState
    var persistedExists: bool
    var persistedSlot: Slot
    var persistedGeneration: u32
    var active: Option<seq<byte>>
    ghost var recent: seq<Option<seq<byte>>>

    ghost function InUse(): Option<Persisted>
      reads this
    {
      if persistedExists then Some(Persisted(persistedSlot, persistedGeneration)) else None
    }

    ghost function View(): State
      reads this
    {
      State(flash,
            match state
            case UninitializedState => Off
            case FailedState => Failed
            case ReadyState => Ready(InUse(), active),
            recent)
    }

    /** Power comes on over whatever the flash holds; `history` is what earlier runs left. */
    constructor (bytes: Flash, ghost history: seq<Option<seq<byte>>>)
      ensures View() == State(bytes, Off, history)
    {
      flash := bytes;
      state := UninitializedState;
      persistedExists := false;
      persistedSlot := A;
      persistedGeneration := 0;
      active := None;
      recent := history;
    }

    /** `configuration_service_init`; `readable` says whether both slots could be read and decoded. */
    method Init(accepts: Validator, readable: bool) returns (result: Result)
      modifies this
      ensures old(state).UninitializedState? ==>
        View() == Apply(accepts, old(View()), if readable then Boot else BootFails) && (result.Ok? <==> readable)
      ensures old(state).UninitializedState? && result.Ok? ==> active == Loaded(accepts, flash)
      ensures !old(state).UninitializedState? ==>
        View() == old(View()) && result == (if old(state).ReadyState? then Ok else NotInitialized)
    {
      if !state.UninitializedState? {
        return if state.ReadyState? then Ok else NotInitialized;
      }
      persistedExists := false;
      active := None;
      if !readable {
        state := FailedState;
        return IoError;
      }
      var slotA := ReadSlot(accepts, flash.a);
      if slotA.Some? {
        active := Some(slotA.value.payload);
        persistedExists := true;
        persistedSlot := A;
        persistedGeneration := slotA.value.generation;
      }
      var slotB := ReadSlot(accepts, flash.b);
      if slotB.Some? && (slotA.None? || slotB.value.generation == slotA.value.generation
                         || slotB.value.generation == NextGeneration(slotA.value.generation)) {
        active := Some(slotB.value.payload);
        persistedExists := true;
        persistedSlot := B;
        persistedGeneration := slotB.value.generation;
      }
      state := ReadyState;
      result := Ok;
    }

    /** `write_slot`: erase three sectors, program the body, then the magic, then compare. */
    method WriteSlot(accepts: Validator, device: Device, target: Slot, generation: u32, payload: seq<byte>,
                     ghost start: State, ghost before: seq<Event>)
      returns (result: Result, ghost events: seq<Event>)
      requires IsDevice(device) && IsPayload(payload) && state.ReadyState?
      requires Reaches(accepts, start, before,
                       State(flash, Writing(InUse(), active, Job(target, generation, payload, Erasing(0))), recent))
      modifies this`flash
      ensures result in {Ok, IoError}
      ensures IsReliable(device) ==> result.Ok?
      ensures result.Ok? ==> Holds(flash.At(target), generation, payload)
      ensures result.Ok? ==> Reaches(accepts, start, events,
                                     State(flash, Ready(Some(Persisted(target, generation)), active), [Some(payload)]))
      ensures !result.Ok? ==> Reaches(accepts, start, events, View())
    {
      hide Reaches, Holds, Record, Nor.Program, Nor.Erase, MayLeave, Progress;
      events := before;
      var job := Job(target, generation, payload, Erasing(0));
      ghost var s := State(flash, Writing(InUse(), active, job), recent);
      var sector := 0;
      assert Progress(job, flash.At(target)) by { ErasingBegins(job, flash.At(target)); }
      while sector < SECTOR_COUNT
        invariant 0 <= sector <= SECTOR_COUNT
        invariant job == Job(target, generation, payload, if sector < SECTOR_COUNT then Erasing(sector) else Body)
        invariant s == State(flash, Writing(InUse(), active, job), recent)
        invariant Reaches(accepts, start, events, s) && Progress(job, flash.At(target))
      {
        var slot := flash.At(target);
        var fault := device(job, slot);
        if fault.Some? {
          ReachesMore(accepts, start, events, s, Fail(fault.value));
          flash := flash.With(target, fault.value);
          return IoError, events + [Fail(fault.value)];
        }
        ReachesMore(accepts, start, events, s, Finish);
        events, s := events + [Finish], FinishJob(s);
        flash := flash.With(target, Nor.Erase(slot, sector * SECTOR_SIZE, SECTOR_SIZE));
        ErasingProgresses(job, slot);
        sector := sector + 1;
        job := job.(stage := if sector < SECTOR_COUNT then Erasing(sector) else Body);
      }
      var record := Record(generation, payload);
      var slot := flash.At(target);
      var fault := device(job, slot);
      if fault.Some? {
        ReachesMore(accepts, start, events, s, Fail(fault.value));
        flash := flash.With(target, fault.value);
        return IoError, events + [Fail(fault.value)];
      }
      ReachesMore(accepts, start, events, s, Finish);
      OperationsProgress(job, slot);
      events, s := events + [Finish], FinishJob(s);
      flash := flash.With(target, Nor.Program(slot, 4, record[4..]));
      job := job.(stage := Magic);

      slot := flash.At(target);
      fault := device(job, slot);
      if fault.Some? {
        ReachesMore(accepts, start, events, s, Fail(fault.value));
        flash := flash.With(target, fault.value);
        return IoError, events + [Fail(fault.value)];
      }
      ReachesMore(accepts, start, events, s, Finish);
      OperationsProgress(job, slot);
      events, s := events + [Finish], FinishJob(s);
      flash := flash.With(target, Nor.Program(slot, 0, record[..4]));
      job := job.(stage := ReadBack);

      slot := flash.At(target);
      fault := device(job, slot);
      if fault.Some? {
        ReachesMore(accepts, start, events, s, Fail(fault.value));
        flash := flash.With(target, fault.value);
        return IoError, events + [Fail(fault.value)];
      }
      ReachesMore(accepts, start, events, s, Finish);
      events, s := events + [Finish], FinishJob(s);
      result := if Holds(slot, generation, payload) then Ok else IoError;
    }

    /** `configuration_service_write`: every call is a run of the store, and success is what the store records as stored. */
    method Write(accepts: Validator, device: Device, payload: seq<byte>) returns (result: Result, ghost events: seq<Event>)
      requires IsDevice(device)
      modifies this
      ensures Reaches(accepts, old(View()), events, View())
      ensures result.NotInitialized? <==> !old(state).ReadyState?
      ensures result.InvalidArgument? <==> old(state).ReadyState? && !IsPayload(payload)
      ensures result.InvalidPayload? <==> old(state).ReadyState? && IsPayload(payload) && !accepts(payload)
      ensures result in {NotInitialized, InvalidArgument, InvalidPayload} ==> View() == old(View())
      ensures result.Ok? ==> View().recent == [Some(payload)] && Holds(flash.At(persistedSlot), persistedGeneration, payload)
      ensures result.IoError? ==> InUse() == old(InUse()) && !IsReliable(device)
    {
      hide Holds, FinishJob, Record;
      events := [];
      if !state.ReadyState? {
        return NotInitialized, [];
      }
      if |payload| == 0 || |payload| > MAX_PAYLOAD_LENGTH {
        return InvalidArgument, [];
      }
      if !accepts(payload) {
        return InvalidPayload, [];
      }
      var target := if persistedExists then persistedSlot.Other() else A;
      var generation := if persistedExists then NextGeneration(persistedGeneration) else 0;
      ghost var start := View();
      assert Reaches(accepts, start, [], start);
      ReachesMore(accepts, start, [], start, Submit(payload));
      recent := recent + [Some(payload)];
      result, events := WriteSlot(accepts, device, target, generation, payload, start, [] + [Submit(payload)]);
      if result.Ok? {
        persistedExists := true;
        persistedSlot := target;
        persistedGeneration := generation;
        recent := [Some(payload)];
      }
    }
  }
}
