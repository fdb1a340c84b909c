/**
 * The two-slot configuration store of `configuration_service.c`: records on NOR flash, written to the slot that is
 * not in use, magic last. Each step of a run is one flash operation, which may finish, fail part-way or be cut off
 * by a power loss.
 */
module ConfigStore {
  import opened Bytes
  import Crc32
  import Nor

  const MAGIC: u32 := 0x3247_4643
  const SECTOR_SIZE := 4096
  const SECTOR_COUNT := 3
  const SLOT_SIZE := 12288
  const HEADER_SIZE := 20
  const MAX_PAYLOAD_LENGTH := 8475
  const GENERATION_LAST := 2

  type Validator = seq<byte> -> bool

  predicate IsPayload(p: seq<byte>) {
    0 < |p| <= MAX_PAYLOAD_LENGTH
  }

  // ---- records

  function Front(generation: u32, p: seq<byte>): (h: seq<byte>)
    requires IsPayload(p)
    ensures |h| == 16
  {
    WriteU32Le(MAGIC) + WriteU32Le(generation) + WriteU32Le(|p|) + WriteU32Le(Crc32.Crc(p))
  }

  function Record(generation: u32, p: seq<byte>): (r: seq<byte>)
    requires IsPayload(p)
    ensures |r| == HEADER_SIZE + |p|
  {
    Front(generation, p) + WriteU32Le(Crc32.Crc(Front(generation, p))) + p
  }

  datatype Saved = Saved(generation: u32, payload: seq<byte>)

  type SlotBytes = s: seq<byte> | |s| == SLOT_SIZE witness seq(SLOT_SIZE, i => 255)

  predicate HeaderOk(slot: SlotBytes) {
    ReadU32Le(slot, 0) == MAGIC
    && ReadU32Le(slot, 4) <= GENERATION_LAST
    && 0 < ReadU32Le(slot, 8) <= MAX_PAYLOAD_LENGTH
    && Crc32.Crc(slot[..16]) == ReadU32Le(slot, 16)
  }

  /** `read_slot` on the bytes of a slot. */
  function ReadSlot(accepts: Validator, slot: SlotBytes): Option<Saved> {
    if !HeaderOk(slot) then None
    else
      var p := slot[HEADER_SIZE..HEADER_SIZE + ReadU32Le(slot, 8)];
      if Crc32.Crc(p) != ReadU32Le(slot, 12) || !accepts(p) then None
      else Some(Saved(ReadU32Le(slot, 4), p))
  }

  predicate Holds(slot: SlotBytes, generation: u32, p: seq<byte>)
    requires IsPayload(p)
  {
    slot[..HEADER_SIZE + |p|] == Record(generation, p)
  }

  lemma RecordFields(slot: SlotBytes, generation: u32, p: seq<byte>)
    requires IsPayload(p) && Holds(slot, generation, p)
    ensures slot[0..4] == WriteU32Le(MAGIC) && slot[4..8] == WriteU32Le(generation)
            && slot[8..12] == WriteU32Le(|p|) && slot[12..16] == WriteU32Le(Crc32.Crc(p))
    ensures slot[16..20] == WriteU32Le(Crc32.Crc(slot[..16])) && slot[HEADER_SIZE..HEADER_SIZE + |p|] == p
  {
    hide Crc32.Crc, WriteU32Le;
    var r := Record(generation, p);
    assert slot[..16] == r[..16] == Front(generation, p);
    assert slot[0..4] == r[0..4] && slot[4..8] == r[4..8] && slot[8..12] == r[8..12] && slot[12..16] == r[12..16];
    assert slot[16..20] == r[16..20];
    assert slot[HEADER_SIZE..HEADER_SIZE + |p|] == r[HEADER_SIZE..];
  }

  /** A complete record of an acceptable payload is read back. */
  lemma RecordIsRead(accepts: Validator, slot: SlotBytes, generation: u32, p: seq<byte>)
    requires IsPayload(p) && Holds(slot, generation, p) && generation <= GENERATION_LAST && accepts(p)
    ensures ReadSlot(accepts, slot) == Some(Saved(generation, p))
  {
    hide Crc32.Crc, WriteU32Le, ReadU32Le, Holds;
    RecordFields(slot, generation, p);
    FieldIsRead(slot, 0, MAGIC);
    FieldIsRead(slot, 4, generation);
    FieldIsRead(slot, 8, |p|);
    FieldIsRead(slot, 12, Crc32.Crc(p));
    FieldIsRead(slot, 16, Crc32.Crc(slot[..16]));
  }

  lemma FieldIsRead(slot: seq<byte>, at: nat, v: u32)
    requires at + 4 <= |slot| && slot[at..at + 4] == WriteU32Le(v)
    ensures ReadU32Le(slot, at) == v
  {
    ReadU32LeSlice(slot, at, WriteU32Le(v));
    U32LeRoundTrip(v);
  }

  /** Whatever is read as valid is a complete record of an acceptable payload. */
  lemma ReadIsRecord(accepts: Validator, slot: SlotBytes)
    requires ReadSlot(accepts, slot).Some?
    ensures var saved := ReadSlot(accepts, slot).value;
            IsPayload(saved.payload) && Holds(slot, saved.generation, saved.payload)
            && saved.generation <= GENERATION_LAST && accepts(saved.payload)
  {
    hide Crc32.Crc, WriteU32Le, ReadU32Le;
    var Saved(generation, p) := ReadSlot(accepts, slot).value;
    U32LeCanonical(slot, 0);
    U32LeCanonical(slot, 4);
    U32LeCanonical(slot, 8);
    U32LeCanonical(slot, 12);
    U32LeCanonical(slot, 16);
    assert slot[..16] == slot[0..4] + slot[4..8] + slot[8..12] + slot[12..16];
    assert slot[..HEADER_SIZE + |p|] == slot[..16] + slot[16..20] + slot[HEADER_SIZE..HEADER_SIZE + |p|];
  }

  /** Without the magic there is no record. */
  lemma MagicIsNeeded(accepts: Validator, slot: SlotBytes)
    requires ReadSlot(accepts, slot).Some?
    ensures slot[..4] == WriteU32Le(MAGIC) && slot[0] != Nor.ERASED
  {
    hide Crc32.Crc;
    U32LeCanonical(slot, 0);
    assert slot[..4] == slot[0..4];
    assert slot[0] == slot[0..4][0];
  }

  // ---- generations and the choice at load time

  function NextGeneration(g: u32): u32 {
    if g == GENERATION_LAST then 0 else (g + 1) % 0x1_0000_0000
  }

  datatype Slot = A | B {
    function Other(): Slot {
      if A? then B else A
    }
  }

  datatype Flash = Flash(a: SlotBytes, b: SlotBytes) {
    function At(slot: Slot): SlotBytes {
      if slot.A? then a else b
    }
    function With(slot: Slot, bytes: SlotBytes): Flash {
      if slot.A? then this.(a := bytes) else this.(b := bytes)
    }
  }

  datatype Place = Place(slot: Slot, saved: Saved)

  /** `load_configuration`: slot B wins when A is invalid, when the generations are equal, or when B is newer. */
  function Load(accepts: Validator, flash: Flash): Option<Place> {
    var a, b := ReadSlot(accepts, flash.a), ReadSlot(accepts, flash.b);
    if b.Some? && (a.None? || b.value.generation == a.value.generation || b.value.generation == NextGeneration(a.value.generation))
    then Some(Place(B, b.value))
    else if a.Some? then Some(Place(A, a.value))
    else None
  }

  function Loaded(accepts: Validator, flash: Flash): Option<seq<byte>> {
    var place := Load(accepts, flash);
    if place.Some? then Some(place.value.saved.payload) else None
  }

  /** No two valid slots carry the same generation. */
  predicate Unambiguous(accepts: Validator, flash: Flash) {
    var a, b := ReadSlot(accepts, flash.a), ReadSlot(accepts, flash.b);
    a.Some? && b.Some? ==> a.value.generation != b.value.generation
  }

  /**
   * A valid slot is loaded exactly when the other one is invalid, or holds neither the generation after it nor, unless
   * this is slot B, the same generation.
   */
  lemma NewestIsLoaded(accepts: Validator, flash: Flash, slot: Slot)
    requires ReadSlot(accepts, flash.At(slot)).Some?
    ensures var saved, other := ReadSlot(accepts, flash.At(slot)).value, ReadSlot(accepts, flash.At(slot.Other()));
            Load(accepts, flash) == Some(Place(slot, saved))
            <==> other.None? || (other.value.generation != NextGeneration(saved.generation)
                                 && (other.value.generation == saved.generation ==> slot.B?))
  {
    hide ReadSlot, Holds, IsPayload;
    ReadIsRecord(accepts, flash.At(slot));
    if ReadSlot(accepts, flash.At(slot.Other())).Some? {
      ReadIsRecord(accepts, flash.At(slot.Other()));
    }
  }

  // ---- runs

  datatype Stage = Erasing(sector: nat) | Body | Magic | ReadBack

  datatype Job = Job(target: Slot, generation: u32, payload: seq<byte>, stage: Stage)

  datatype Persisted = Persisted(slot: Slot, generation: u32)

  datatype Service =
    | Off
    | Failed
    | Ready(persisted: Option<Persisted>, active: Option<seq<byte>>)
    | Writing(persisted: Option<Persisted>, active: Option<seq<byte>>, job: Job)

  /**
   * `recent` is the history a load is judged by: first the configuration last reported as stored (at the outset, what
   * the flash holds; `None` stands for the defaults), then the accepted payloads submitted since.
   */
  datatype State = State(flash: Flash, service: Service, recent: seq<Option<seq<byte>>>)

  datatype Event =
    | Boot
    | BootFails
    | Submit(payload: seq<byte>)
    | Finish                      // the current flash operation reports success
    | Fail(left: SlotBytes)       // it reports an error and leaves the slot like this
    | PowerLoss(left: SlotBytes)

  /** What an unfinished operation may leave behind. A sector is erased or not. */
  predicate MayLeave(job: Job, slot: SlotBytes, left: SlotBytes)
    requires IsPayload(job.payload) && (job.stage.Erasing? ==> job.stage.sector < SECTOR_COUNT)
  {
    match job.stage
    case Erasing(k) => left == slot || left == Nor.Erase(slot, k * SECTOR_SIZE, SECTOR_SIZE)
    case Body => Nor.Torn(slot, 4, Record(job.generation, job.payload)[4..], left)
    case Magic => Nor.Torn(slot, 0, Record(job.generation, job.payload)[..4], left)
    case ReadBack => left == slot
  }

  predicate JobOk(job: Job) {
    IsPayload(job.payload) && (job.stage.Erasing? ==> job.stage.sector < SECTOR_COUNT)
  }

  predicate Enabled(accepts: Validator, s: State, e: Event) {
    match e
    case Boot | BootFails => s.service.Off?
    case Submit(_) => s.service.Ready?
    case Finish => s.service.Writing? && JobOk(s.service.job)
    case Fail(left) => s.service.Writing? && JobOk(s.service.job) && MayLeave(s.service.job, s.flash.At(s.service.job.target), left)
    case PowerLoss(left) =>
      s.service.Writing? ==> JobOk(s.service.job) && MayLeave(s.service.job, s.flash.At(s.service.job.target), left)
  }

  /** The job `configuration_service_write` starts for an accepted payload. */
  function NewJob(persisted: Option<Persisted>, p: seq<byte>): Job {
    match persisted
    case None => Job(A, 0, p, Erasing(0))
    case Some(Persisted(slot, generation)) => Job(slot.Other(), NextGeneration(generation), p, Erasing(0))
  }

  /** One finished operation of `write_slot`. */
  function FinishJob(s: State): State
    requires s.service.Writing? && JobOk(s.service.job)
  {
    var job, slot := s.service.job, s.flash.At(s.service.job.target);
    match job.stage
    case Erasing(k) =>
      s.(flash := s.flash.With(job.target, Nor.Erase(slot, k * SECTOR_SIZE, SECTOR_SIZE)),
         service := s.service.(job := job.(stage := if k + 1 < SECTOR_COUNT then Erasing(k + 1) else Body)))
    case Body =>
      s.(flash := s.flash.With(job.target, Nor.Program(slot, 4, Record(job.generation, job.payload)[4..])),
         service := s.service.(job := job.(stage := Magic)))
    case Magic =>
      s.(flash := s.flash.With(job.target, Nor.Program(slot, 0, Record(job.generation, job.payload)[..4])),
         service := s.service.(job := job.(stage := ReadBack)))
    case ReadBack =>
      if Holds(slot, job.generation, job.payload) then
        s.(service := Ready(Some(Persisted(job.target, job.generation)), s.service.active), recent := [Some(job.payload)])
      else
        s.(service := Ready(s.service.persisted, s.service.active))
  }

  function Apply(accepts: Validator, s: State, e: Event): State
    requires Enabled(accepts, s, e)
  {
    match e
    case Boot =>
      var place := Load(accepts, s.flash);
      s.(service := if place.None? then Ready(None, None)
                    else Ready(Some(Persisted(place.value.slot, place.value.saved.generation)), Some(place.value.saved.payload)))
    case BootFails => s.(service := Failed)
    case Submit(p) =>
      if !IsPayload(p) || !accepts(p) then s
      else s.(service := Writing(s.service.persisted, s.service.active, NewJob(s.service.persisted, p)),
              recent := s.recent + [Some(p)])
    case Finish => FinishJob(s)
    case Fail(left) =>
      s.(flash := s.flash.With(s.service.job.target, left), service := Ready(s.service.persisted, s.service.active))
    case PowerLoss(left) =>
      if s.service.Writing? then s.(flash := s.flash.With(s.service.job.target, left), service := Off)
      else s.(service := Off)
  }

  predicate Reaches(accepts: Validator, s: State, events: seq<Event>, t: State)
    decreases |events|
  {
    if events == [] then s == t
    else Enabled(accepts, s, events[0]) && Reaches(accepts, Apply(accepts, s, events[0]), events[1..], t)
  }

  function Initial(accepts: Validator, flash: Flash): State {
    State(flash, Off, [Loaded(accepts, flash)])
  }

  // ---- the invariant

  /** The persisted slot is intact and recent; the other one is no threat to it. */
  predicate PersistedOk(accepts: Validator, s: State, persisted: Option<Persisted>) {
    match persisted
    case None =>
      None in s.recent && ReadSlot(accepts, s.flash.b).None?
      && (var a := ReadSlot(accepts, s.flash.a); a.Some? ==> Some(a.value.payload) in s.recent)
    case Some(Persisted(slot, generation)) =>
      var mine, spare := ReadSlot(accepts, s.flash.At(slot)), ReadSlot(accepts, s.flash.At(slot.Other()));
      mine.Some? && mine.value.generation == generation && Some(mine.value.payload) in s.recent
      && (spare.Some? && spare.value.generation == generation ==> slot.B?)
      && (spare.Some? && spare.value.generation == NextGeneration(generation) ==> Some(spare.value.payload) in s.recent)
  }

  /** How far the target slot has got. */
  predicate Progress(job: Job, slot: SlotBytes)
    requires JobOk(job)
  {
    match job.stage
    case Erasing(k) => Nor.IsErased(slot, 0, k * SECTOR_SIZE)
    case Body => Nor.IsErased(slot, 0, SLOT_SIZE)
    case Magic => Nor.IsErased(slot, 0, 4) && slot[4..HEADER_SIZE + |job.payload|] == Record(job.generation, job.payload)[4..]
    case ReadBack => Holds(slot, job.generation, job.payload)
  }

  predicate JobInv(accepts: Validator, s: State, persisted: Option<Persisted>, job: Job) {
    JobOk(job) && accepts(job.payload) && Some(job.payload) in s.recent
    && NewJob(persisted, job.payload) == job.(stage := Erasing(0))
    && Progress(job, s.flash.At(job.target))
  }

  predicate Inv(accepts: Validator, s: State) {
    Loaded(accepts, s.flash) in s.recent
    && match s.service
       case Off | Failed => true
       case Ready(persisted, _) => PersistedOk(accepts, s, persisted)
       case Writing(persisted, _, job) => PersistedOk(accepts, s, persisted) && JobInv(accepts, s, persisted, job)
  }

  /** An intact persisted slot decides what is loaded, or a recent successor in the other slot does. */
  lemma PersistedIsLoaded(accepts: Validator, s: State, persisted: Option<Persisted>)
    requires PersistedOk(accepts, s, persisted)
    ensures Loaded(accepts, s.flash) in s.recent
  {
    hide ReadSlot, Holds;
    match persisted {
      case None =>
      case Some(Persisted(slot, generation)) =>
        var mine, spare := ReadSlot(accepts, s.flash.At(slot)), ReadSlot(accepts, s.flash.At(slot.Other()));
        ReadIsRecord(accepts, s.flash.At(slot));
        if spare.Some? {
          ReadIsRecord(accepts, s.flash.At(slot.Other()));
        }
        if spare.Some? && spare.value.generation == NextGeneration(generation) {
          NewestIsLoaded(accepts, s.flash, slot.Other());
        } else {
          NewestIsLoaded(accepts, s.flash, slot);
        }
    }
  }

  /** While a job is under way its slot reads as before, as nothing, or as the record being written. */
  predicate Harmless(accepts: Validator, job: Job, before: SlotBytes, now: SlotBytes) {
    ReadSlot(accepts, now) in {None, ReadSlot(accepts, before), Some(Saved(job.generation, job.payload))}
  }

  lemma HarmlessKeeps(accepts: Validator, s: State, persisted: Option<Persisted>, job: Job, now: SlotBytes)
    requires PersistedOk(accepts, s, persisted) && JobInv(accepts, s, persisted, job)
    requires Harmless(accepts, job, s.flash.At(job.target), now)
    ensures PersistedOk(accepts, s.(flash := s.flash.With(job.target, now)), persisted)
  {
    hide ReadSlot, Progress, Holds, IsPayload;
    if persisted.Some? {
      ReadIsRecord(accepts, s.flash.At(persisted.value.slot));
    }
  }

  lemma ErasedFrontIsNothing(accepts: Validator, slot: SlotBytes)
    requires slot[0] == Nor.ERASED
    ensures ReadSlot(accepts, slot).None?
  {
    hide ReadSlot;
    if ReadSlot(accepts, slot).Some? {
      MagicIsNeeded(accepts, slot);
    }
  }

  /** Body in place, magic area changed: unless the magic is complete there is nothing to read. */
  lemma MagicDecides(accepts: Validator, job: Job, now: SlotBytes)
    requires JobOk(job) && accepts(job.payload) && job.generation <= GENERATION_LAST
    requires now[4..HEADER_SIZE + |job.payload|] == Record(job.generation, job.payload)[4..]
    ensures ReadSlot(accepts, now) in {None, Some(Saved(job.generation, job.payload))}
    ensures now[..4] == WriteU32Le(MAGIC) ==> Holds(now, job.generation, job.payload)
  {
    hide ReadSlot, Crc32.Crc, WriteU32Le;
    var r := Record(job.generation, job.payload);
    assert r[..4] == WriteU32Le(MAGIC);
    if now[..4] == WriteU32Le(MAGIC) {
      assert now[..HEADER_SIZE + |job.payload|] == now[..4] + now[4..HEADER_SIZE + |job.payload|];
      assert r == r[..4] + r[4..];
      RecordIsRead(accepts, now, job.generation, job.payload);
    } else if ReadSlot(accepts, now).Some? {
      MagicIsNeeded(accepts, now);
    }
  }

  lemma UnfinishedIsHarmless(accepts: Validator, job: Job, slot: SlotBytes, left: SlotBytes)
    requires JobOk(job) && accepts(job.payload) && job.generation <= GENERATION_LAST
    requires Progress(job, slot) && MayLeave(job, slot, left)
    ensures Harmless(accepts, job, slot, left)
  {
    hide ReadSlot, Record, Nor.TornCell;
    match job.stage {
      case Erasing(k) =>
        if left != slot {
          ErasedFrontIsNothing(accepts, left);
        }
      case Body =>
        ErasedFrontIsNothing(accepts, left);
      case Magic =>
        assert left[4..HEADER_SIZE + |job.payload|] == slot[4..HEADER_SIZE + |job.payload|];
        MagicDecides(accepts, job, left);
      case ReadBack =>
    }
  }

  /** Each operation, when it succeeds, does its part of the job; after the last one the record is in place. */
  lemma OperationsProgress(job: Job, slot: SlotBytes)
    requires JobOk(job) && Progress(job, slot)
    ensures job.stage.Erasing? ==>
      Nor.IsErased(Nor.Erase(slot, job.stage.sector * SECTOR_SIZE, SECTOR_SIZE), 0, (job.stage.sector + 1) * SECTOR_SIZE)
    ensures job.stage.Body? ==>
      Progress(job.(stage := Magic), Nor.Program(slot, 4, Record(job.generation, job.payload)[4..]))
    ensures job.stage.Magic? ==>
      Holds(Nor.Program(slot, 0, Record(job.generation, job.payload)[..4]), job.generation, job.payload)
  {
    hide Record, Nor.ProgramCell;
    var r := Record(job.generation, job.payload);
    match job.stage {
      case Erasing(k) =>
      case Body =>
        Nor.ProgramErased(slot, 4, r[4..]);
        var now := Nor.Program(slot, 4, r[4..]);
        assert forall i | 0 <= i < 4 :: now[i] == now[..4][i] == slot[..4][i];
      case Magic =>
        Nor.ProgramErased(slot, 0, r[..4]);
        var now := Nor.Program(slot, 0, r[..4]);
        assert now[4..][..HEADER_SIZE + |job.payload| - 4] == now[4..HEADER_SIZE + |job.payload|];
        assert slot[4..][..HEADER_SIZE + |job.payload| - 4] == slot[4..HEADER_SIZE + |job.payload|];
        assert now[..HEADER_SIZE + |job.payload|] == now[0..4] + now[4..HEADER_SIZE + |job.payload|];
        assert r == r[..4] + r[4..];
      case ReadBack =>
    }
  }

  /** A finished operation gets the job one stage further. */
  lemma FinishedIsHarmless(accepts: Validator, s: State)
    requires s.service.Writing? && !s.service.job.stage.ReadBack?
    requires JobInv(accepts, s, s.service.persisted, s.service.job) && s.service.job.generation <= GENERATION_LAST
    ensures var t, job := FinishJob(s), s.service.job;
            t.service.Writing? && JobInv(accepts, t, t.service.persisted, t.service.job)
            && Harmless(accepts, job, s.flash.At(job.target), t.flash.At(job.target))
            && t == State(s.flash.With(job.target, t.flash.At(job.target)), t.service, s.recent)
            && t.service.persisted == s.service.persisted
  {
    hide ReadSlot, Record, Nor.ProgramCell;
    var job, t := s.service.job, FinishJob(s);
    var slot, now := s.flash.At(job.target), t.flash.At(job.target);
    var r := Record(job.generation, job.payload);
    match job.stage {
      case Erasing(k) =>
        ErasedFrontIsNothing(accepts, now);
      case Body =>
        Nor.ProgramErased(slot, 4, r[4..]);
        assert now[..4][0] == slot[..4][0];
        assert forall i | 0 <= i < 4 :: now[i] == now[..4][i] == slot[..4][i];
        ErasedFrontIsNothing(accepts, now);
      case Magic =>
        Nor.ProgramErased(slot, 0, r[..4]);
        assert now[4..][..HEADER_SIZE + |job.payload| - 4] == now[4..HEADER_SIZE + |job.payload|];
        assert slot[4..][..HEADER_SIZE + |job.payload| - 4] == slot[4..HEADER_SIZE + |job.payload|];
        assert now[..4] == now[0..4];
        RecordBegins(job.generation, job.payload);
        MagicDecides(accepts, job, now);
    }
  }

  lemma RecordBegins(generation: u32, p: seq<byte>)
    requires IsPayload(p)
    ensures Record(generation, p)[..4] == WriteU32Le(MAGIC)
  {
    hide Crc32.Crc, WriteU32Le;
  }

  lemma GenerationInRange(accepts: Validator, s: State, persisted: Option<Persisted>, job: Job)
    requires PersistedOk(accepts, s, persisted) && JobInv(accepts, s, persisted, job)
    ensures job.generation <= GENERATION_LAST
  {
    hide ReadSlot, Progress, Holds, IsPayload;
    if persisted.Some? {
      ReadIsRecord(accepts, s.flash.At(persisted.value.slot));
    }
  }

  /** The slot named by a load is intact, and the other slot holds an older generation or nothing. */
  lemma BootKeeps(accepts: Validator, s: State)
    requires Inv(accepts, s) && s.service.Off?
    ensures Inv(accepts, Apply(accepts, s, Boot))
  {
    hide ReadSlot, Holds, IsPayload;
    if ReadSlot(accepts, s.flash.a).Some? {
      ReadIsRecord(accepts, s.flash.a);
    }
    if ReadSlot(accepts, s.flash.b).Some? {
      ReadIsRecord(accepts, s.flash.b);
    }
  }

  lemma SubmitKeeps(accepts: Validator, s: State, p: seq<byte>)
    requires Inv(accepts, s) && s.service.Ready?
    ensures Inv(accepts, Apply(accepts, s, Submit(p)))
  {
    hide ReadSlot, Holds, IsPayload;
  }

  lemma FinishKeeps(accepts: Validator, s: State)
    requires Inv(accepts, s) && s.service.Writing?
    ensures Inv(accepts, Apply(accepts, s, Finish))
  {
    hide ReadSlot, Holds, Progress, Record, Nor.Program, Nor.Erase, IsPayload;
    var persisted, job := s.service.persisted, s.service.job;
    var t := FinishJob(s);
    GenerationInRange(accepts, s, persisted, job);
    if job.stage.ReadBack? {
      StoredIsPersisted(accepts, s);
      PersistedIsLoaded(accepts, t, t.service.persisted);
    } else {
      FinishedIsHarmless(accepts, s);
      HarmlessKeeps(accepts, s, persisted, job, t.flash.At(job.target));
      PersistedIsLoaded(accepts, t, persisted);
    }
  }

  /** When a write reports success, its record is in place and newer than the other slot's. */
  lemma StoredIsPersisted(accepts: Validator, s: State)
    requires Inv(accepts, s) && s.service.Writing? && s.service.job.stage.ReadBack?
    ensures var t, job := FinishJob(s), s.service.job;
            t.service == Ready(Some(Persisted(job.target, job.generation)), s.service.active)
            && t.recent == [Some(job.payload)] && PersistedOk(accepts, t, t.service.persisted)
  {
    hide ReadSlot, Holds, Record, IsPayload;
    var persisted, job := s.service.persisted, s.service.job;
    GenerationInRange(accepts, s, persisted, job);
    RecordIsRead(accepts, s.flash.At(job.target), job.generation, job.payload);
    if persisted.Some? {
      ReadIsRecord(accepts, s.flash.At(persisted.value.slot));
    }
  }

  lemma InterruptedKeeps(accepts: Validator, s: State, left: SlotBytes)
    requires Inv(accepts, s) && s.service.Writing?
    requires MayLeave(s.service.job, s.flash.At(s.service.job.target), left)
    ensures Inv(accepts, Apply(accepts, s, Fail(left))) && Inv(accepts, Apply(accepts, s, PowerLoss(left)))
  {
    hide ReadSlot, Holds, Progress, Record, MayLeave, IsPayload;
    var persisted, job := s.service.persisted, s.service.job;
    GenerationInRange(accepts, s, persisted, job);
    UnfinishedIsHarmless(accepts, job, s.flash.At(job.target), left);
    HarmlessKeeps(accepts, s, persisted, job, left);
    PersistedIsLoaded(accepts, Apply(accepts, s, Fail(left)), persisted);
  }

  lemma StepKeeps(accepts: Validator, s: State, e: Event)
    requires Inv(accepts, s) && Enabled(accepts, s, e)
    ensures Inv(accepts, Apply(accepts, s, e))
  {
    hide PersistedOk, JobInv, Load, Loaded, MayLeave, FinishJob, NewJob, IsPayload;
    match e {
      case Boot => BootKeeps(accepts, s);
      case BootFails =>
      case Submit(p) => SubmitKeeps(accepts, s, p);
      case Finish => FinishKeeps(accepts, s);
      case Fail(left) => InterruptedKeeps(accepts, s, left);
      case PowerLoss(left) =>
        if s.service.Writing? {
          InterruptedKeeps(accepts, s, left);
        }
    }
  }

  lemma {:induction false} ReachedInv(accepts: Validator, s: State, events: seq<Event>, t: State)
    requires Inv(accepts, s) && Reaches(accepts, s, events, t)
    ensures Inv(accepts, t)
    decreases |events|
  {
    hide Inv, Apply, Enabled;
    if events != [] {
      StepKeeps(accepts, s, events[0]);
      ReachedInv(accepts, Apply(accepts, s, events[0]), events[1..], t);
    }
  }

  // ---- the theorems

  /**
   * From any flash contents, after any run of boots, writes, I/O errors and power losses, a load yields the configuration
   * last reported as stored or one submitted after it, from a slot that is a complete record.
   */
  lemma LoadIsRecent(accepts: Validator, flash: Flash, events: seq<Event>, t: State)
    requires Reaches(accepts, Initial(accepts, flash), events, t)
    ensures Loaded(accepts, t.flash) in t.recent
    ensures Load(accepts, t.flash).Some? ==>
      var Place(slot, saved) := Load(accepts, t.flash).value;
      IsPayload(saved.payload) && accepts(saved.payload) && Holds(t.flash.At(slot), saved.generation, saved.payload)
  {
    hide ReadSlot, Holds;
    ReachedInv(accepts, Initial(accepts, flash), events, t);
    if Load(accepts, t.flash).Some? {
      ReadIsRecord(accepts, t.flash.At(Load(accepts, t.flash).value.slot));
    }
  }

  /** A write reports success only once a load would yield exactly its payload, and then nothing older is possible. */
  lemma ReportedIsLoaded(accepts: Validator, flash: Flash, events: seq<Event>, t: State)
    requires Reaches(accepts, Initial(accepts, flash), events, t)
    requires t.service.Writing? && t.service.job.stage.ReadBack? && Enabled(accepts, t, Finish)
    ensures Apply(accepts, t, Finish).service.Ready? && Apply(accepts, t, Finish).recent == [Some(t.service.job.payload)]
    ensures Loaded(accepts, t.flash) == Some(t.service.job.payload)
    ensures Load(accepts, t.flash).value.slot == t.service.job.target
    ensures Unambiguous(accepts, t.flash)
  {
    hide ReadSlot, Holds;
    ReachedInv(accepts, Initial(accepts, flash), events, t);
    StoredIsPersisted(accepts, t);
    NewestIsLoaded(accepts, t.flash, t.service.job.target);
  }

  /** The slot that holds the persisted configuration is never touched. */
  lemma PersistedSlotIsKept(accepts: Validator, flash: Flash, events: seq<Event>, t: State, e: Event)
    requires Reaches(accepts, Initial(accepts, flash), events, t) && Enabled(accepts, t, e)
    requires (t.service.Ready? || t.service.Writing?) && t.service.persisted.Some?
    ensures var slot := t.service.persisted.value.slot;
            Apply(accepts, t, e).flash.At(slot) == t.flash.At(slot)
  {
    hide ReadSlot, Holds, MayLeave, Nor.Erase, Nor.Program, Record;
    ReachedInv(accepts, Initial(accepts, flash), events, t);
  }

  // ---- the configuration in force

  predicate IsRunning(service: Service) {
    service.Ready? || service.Writing?
  }

  /** Nothing but a loss of power changes it: writing does not. */
  lemma {:induction false} ActiveStays(accepts: Validator, s: State, events: seq<Event>, t: State)
    requires Reaches(accepts, s, events, t) && IsRunning(s.service)
    requires forall i | 0 <= i < |events| :: !events[i].PowerLoss?
    ensures IsRunning(t.service) && t.service.active == s.service.active
    decreases |events|
  {
    hide MayLeave, NewJob, Holds, Nor.Erase, Nor.Program, Record;
    if events != [] {
      ActiveStays(accepts, Apply(accepts, s, events[0]), events[1..], t);
    }
  }

  /**
   * From a boot to the next loss of power the service runs on what a load gave at that boot: then the configuration last
   * reported as stored, or one submitted after it.
   */
  lemma ActiveIsLoaded(accepts: Validator, flash: Flash, before: seq<Event>, s: State, after: seq<Event>, t: State)
    requires Reaches(accepts, Initial(accepts, flash), before, s) && s.service.Off?
    requires Reaches(accepts, Apply(accepts, s, Boot), after, t) && forall i | 0 <= i < |after| :: !after[i].PowerLoss?
    ensures IsRunning(t.service) && t.service.active == Loaded(accepts, s.flash) && Loaded(accepts, s.flash) in s.recent
  {
    hide ReadSlot, Load, Reaches;
    LoadIsRecent(accepts, flash, before, s);
    BootLoads(accepts, s);
    ActiveStays(accepts, Apply(accepts, s, Boot), after, t);
  }

  lemma BootLoads(accepts: Validator, s: State)
    requires s.service.Off?
    ensures var t := Apply(accepts, s, Boot);
            t.service.Ready? && t.service.active == Loaded(accepts, s.flash) && t.flash == s.flash && t.recent == s.recent
  {
    hide Load;
  }

  /** A service that is off and is running later has booted in between, and not lost power since. */
  lemma {:induction false} LastBoot(accepts: Validator, s: State, events: seq<Event>, t: State)
    returns (before: seq<Event>, boot: State, after: seq<Event>)
    requires Reaches(accepts, s, events, t) && IsRunning(t.service)
    requires !IsRunning(s.service) || exists i :: 0 <= i < |events| && events[i].PowerLoss?
    ensures events == before + [Boot] + after
    ensures Reaches(accepts, s, before, boot) && boot.service.Off? && Reaches(accepts, Apply(accepts, boot, Boot), after, t)
    ensures forall i | 0 <= i < |after| :: !after[i].PowerLoss?
    decreases |events|
  {
    hide MayLeave, NewJob, Holds, Nor.Erase, Nor.Program, Record, FinishJob, Load;
    var e, next, rest := events[0], Apply(accepts, s, events[0]), events[1..];
    if e.Boot? && forall i | 0 <= i < |rest| :: !rest[i].PowerLoss? {
      before, boot, after := [], s, rest;
      assert events == [] + [Boot] + rest;
    } else {
      assert events == [e] + rest;
      before, boot, after := LastBoot(accepts, next, rest, t);
      before := [e] + before;
      assert events == before + [Boot] + after;
    }
  }

  /** Whenever the service runs, it runs on what a load gave when it last came up. */
  lemma ActiveIsFromLastBoot(accepts: Validator, flash: Flash, events: seq<Event>, t: State)
    returns (before: seq<Event>, boot: State)
    requires Reaches(accepts, Initial(accepts, flash), events, t) && IsRunning(t.service)
    ensures |before| < |events| && events[..|before|] == before && events[|before|].Boot?
    ensures forall i | |before| < i < |events| :: !events[i].PowerLoss?
    ensures Reaches(accepts, Initial(accepts, flash), before, boot) && boot.service.Off?
    ensures t.service.active == Loaded(accepts, boot.flash) && Loaded(accepts, boot.flash) in boot.recent
  {
    hide Reaches, Load;
    var after;
    before, boot, after := LastBoot(accepts, Initial(accepts, flash), events, t);
    ActiveIsLoaded(accepts, flash, before, boot, after, t);
    forall i | |before| < i < |events| ensures !events[i].PowerLoss? {
      assert events[i] == after[i - |before| - 1];
    }
  }

  // ---- equal generations

  /** The record being written never has the generation of the slot in use. */
  lemma HarmlessKeepsApart(accepts: Validator, s: State, persisted: Option<Persisted>, job: Job, now: SlotBytes)
    requires PersistedOk(accepts, s, persisted) && JobInv(accepts, s, persisted, job)
    requires Harmless(accepts, job, s.flash.At(job.target), now) && Unambiguous(accepts, s.flash)
    ensures Unambiguous(accepts, s.flash.With(job.target, now))
  {
    hide ReadSlot, Progress, Holds, IsPayload;
    if persisted.Some? {
      ReadIsRecord(accepts, s.flash.At(persisted.value.slot));
    }
  }

  lemma StepKeepsApart(accepts: Validator, s: State, e: Event)
    requires Inv(accepts, s) && Enabled(accepts, s, e) && Unambiguous(accepts, s.flash)
    ensures Unambiguous(accepts, Apply(accepts, s, e).flash)
  {
    hide ReadSlot, Holds, Progress, Record, MayLeave, IsPayload, Unambiguous, Harmless, PersistedOk, Nor.Program, Nor.Erase, Load, Loaded;
    if s.service.Writing? && (e.Finish? || e.Fail? || e.PowerLoss?) {
      var persisted, job := s.service.persisted, s.service.job;
      GenerationInRange(accepts, s, persisted, job);
      if e.Finish? {
        if !job.stage.ReadBack? {
          FinishedIsHarmless(accepts, s);
          HarmlessKeepsApart(accepts, s, persisted, job, FinishJob(s).flash.At(job.target));
        }
      } else {
        UnfinishedIsHarmless(accepts, job, s.flash.At(job.target), e.left);
        HarmlessKeepsApart(accepts, s, persisted, job, e.left);
      }
    }
  }

  /** The comparison of generations never meets two equal ones, unless the flash held two to begin with. */
  lemma {:induction false} GenerationsStayApart(accepts: Validator, s: State, events: seq<Event>, t: State)
    requires Inv(accepts, s) && Reaches(accepts, s, events, t) && Unambiguous(accepts, s.flash)
    ensures Unambiguous(accepts, t.flash)
    decreases |events|
  {
    hide Inv, Apply, Enabled, Unambiguous;
    if events != [] {
      StepKeeps(accepts, s, events[0]);
      StepKeepsApart(accepts, s, events[0]);
      GenerationsStayApart(accepts, Apply(accepts, s, events[0]), events[1..], t);
    }
  }

  lemma ComparisonIsUnambiguous(accepts: Validator, flash: Flash, events: seq<Event>, t: State)
    requires Unambiguous(accepts, flash) && Reaches(accepts, Initial(accepts, flash), events, t)
    ensures Unambiguous(accepts, t.flash)
  {
    hide Unambiguous, Reaches, Load;
    GenerationsStayApart(accepts, Initial(accepts, flash), events, t);
  }

  /** And from any flash, once a write has been reported as stored, it meets none ever after. */
  lemma StoringSettlesGenerations(accepts: Validator, flash: Flash, before: seq<Event>, s: State, after: seq<Event>, t: State)
    requires Reaches(accepts, Initial(accepts, flash), before, s)
    requires s.service.Writing? && s.service.job.stage.ReadBack? && Enabled(accepts, s, Finish)
    requires Reaches(accepts, Apply(accepts, s, Finish), after, t)
    ensures Unambiguous(accepts, t.flash)
  {
    hide Unambiguous, Reaches, Load, Inv, MayLeave;
    ReportedIsLoaded(accepts, flash, before, s);
    InitialInv(accepts, flash);
    ReachedInv(accepts, Initial(accepts, flash), before, s);
    StepKeeps(accepts, s, Finish);
    StepKeepsApart(accepts, s, Finish);
    GenerationsStayApart(accepts, Apply(accepts, s, Finish), after, t);
  }

  lemma InitialInv(accepts: Validator, flash: Flash)
    ensures Inv(accepts, Initial(accepts, flash))
  {
    hide Load;
  }
}
