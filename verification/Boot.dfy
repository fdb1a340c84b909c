/** A/B boot slots (`boot_control.c`): write-once flags on NOR flash, generations modulo 3, choice of slots. */
module Boot {
  import opened Bytes
  import Nor

  const MAGIC: u32 := 0x3254_4C53
  const HEADER_SIZE := 512
  const FLAG_SET: byte := 1
  const WRITE_DONE := 5
  const BOOT_ATTEMPTED := 6
  const BOOT_SUCCESS := 7

  /** The header area of a slot; its first eight bytes are the slot's information. */
  type Header = h: seq<byte> | |h| == HEADER_SIZE witness seq(HEADER_SIZE, i => 255)

  datatype Slot = A | B {
    function Other(): Slot {
      if A? then B else A
    }
  }

  datatype Status = Invalid | Pending | Confirmed | Unconfirmed

  predicate IsErased(h: Header) {
    Nor.IsErased(h, 0, HEADER_SIZE)
  }

  function Generation(h: Header): byte {
    h[4]
  }

  predicate Initialized(h: Header) {
    ReadU32Le(h, 0) == MAGIC && Generation(h) < 3
  }

  function StatusOf(h: Header): Status {
    if !Initialized(h) || h[WRITE_DONE] != FLAG_SET then Invalid
    else if h[BOOT_ATTEMPTED] == Nor.ERASED && h[BOOT_SUCCESS] == Nor.ERASED then Pending
    else if h[BOOT_ATTEMPTED] == FLAG_SET then
      if h[BOOT_SUCCESS] == FLAG_SET then Confirmed
      else if h[BOOT_SUCCESS] == Nor.ERASED then Unconfirmed
      else Invalid
    else Invalid
  }

  // ---- choosing slots

  datatype Headers = Headers(a: Header, b: Header) {
    function At(slot: Slot): Header {
      if slot.A? then a else b
    }
    function With(slot: Slot, h: Header): Headers {
      if slot.A? then this.(a := h) else this.(b := h)
    }
    function Status(slot: Slot): Status {
      StatusOf(At(slot))
    }
  }

  function Newer(hs: Headers): Slot {
    if Generation(hs.b) as int == (Generation(hs.a) + 1) % 3 then B else A
  }

  /** A read outcome for each slot. */
  datatype Readable = Readable(a: bool, b: bool) {
    predicate At(slot: Slot) {
      if slot.A? then a else b
    }
  }

  datatype Candidate = Candidate(slot: Slot, status: Status)

  predicate IsCandidate(hs: Headers, readable: Readable, slot: Slot) {
    readable.At(slot) && hs.Status(slot) in {Pending, Confirmed}
  }

  /** The slot to try before the other, if both can be tried. */
  function First(hs: Headers): Slot {
    if Generation(hs.a) == Generation(hs.b) && hs.Status(B).Confirmed? && !hs.Status(A).Confirmed? then B else Newer(hs)
  }

  function Order(hs: Headers, readable: Readable): seq<Candidate> {
    var first := First(hs);
    (if IsCandidate(hs, readable, first) then [Candidate(first, hs.Status(first))] else [])
    + (if IsCandidate(hs, readable, first.Other()) then [Candidate(first.Other(), hs.Status(first.Other()))] else [])
  }

  function SlotNumber(i: nat): Slot {
    if i == 0 then A else B
  }

  /** `boot_slot_boot_order`: collect in index order, swap when B goes first. */
  method BootOrder(hs: Headers, readable: Readable) returns (order: seq<Candidate>)
    ensures order == Order(hs, readable)
  {
    hide StatusOf;
    order := [];
    var status := [Invalid, Invalid];
    var i := 0;
    while i < 2
      invariant 0 <= i <= 2 && |status| == 2
      invariant forall k | 0 <= k < i && readable.At(SlotNumber(k)) :: status[k] == hs.Status(SlotNumber(k))
      invariant i == 0 ==> order == []
      invariant i >= 1 ==> order == (if IsCandidate(hs, readable, A) then [Candidate(A, hs.Status(A))] else [])
                                    + (if i == 2 && IsCandidate(hs, readable, B) then [Candidate(B, hs.Status(B))] else [])
    {
      if readable.At(SlotNumber(i)) {
        status := status[i := hs.Status(SlotNumber(i))];
        if status[i] in {Pending, Confirmed} {
          order := order + [Candidate(SlotNumber(i), status[i])];
        }
      }
      i := i + 1;
    }
    if |order| == 2 {
      var first := Newer(hs);
      if Generation(hs.a) == Generation(hs.b) && status[1].Confirmed? && !status[0].Confirmed? {
        first := B;
      }
      if first.B? {
        order := [order[1], order[0]];
      }
    }
  }

  /** The slot an upgrade must not touch. */
  function Keep(hs: Headers): Option<Slot> {
    var a, b := hs.Status(A), hs.Status(B);
    if a.Confirmed? || b.Confirmed? then Some(if a == b then Newer(hs) else if a.Confirmed? then A else B)
    else if a.Pending? || b.Pending? then Some(if a == b then Newer(hs) else if a.Pending? then A else B)
    else None
  }

  datatype Target = Target(slot: Slot, generation: byte)

  /** `boot_slot_upgrade_target` once both slots are read. */
  function UpgradeTarget(hs: Headers): Target {
    var keep := Keep(hs);
    Target(if keep == Some(A) then B else A,
           if keep.None? then 0 else (Generation(hs.At(keep.value)) + 1) % 3)
  }

  /** The order holds each candidate once and nothing else. */
  lemma OrderHoldsCandidates(hs: Headers, readable: Readable)
    ensures forall c: Candidate :: c in Order(hs, readable) <==> IsCandidate(hs, readable, c.slot) && c.status == hs.Status(c.slot)
    ensures |Order(hs, readable)| == (if IsCandidate(hs, readable, A) then 1 else 0) + (if IsCandidate(hs, readable, B) then 1 else 0)
  {
    hide StatusOf;
  }

  /**
   * Of two candidates B goes before A exactly when its generation is the one after A's, or is the same and only B is
   * confirmed.
   */
  lemma OrderOfTwo(hs: Headers, readable: Readable)
    requires IsCandidate(hs, readable, A) && IsCandidate(hs, readable, B)
    requires Generation(hs.a) < 3 && Generation(hs.b) < 3
    ensures |Order(hs, readable)| == 2
    ensures Order(hs, readable)[0].slot.B?
            <==> (Generation(hs.b) as int - Generation(hs.a) as int) in {1, -2}
                 || (Generation(hs.b) == Generation(hs.a) && hs.Status(B).Confirmed? && hs.Status(A).Pending?)
  {
    hide StatusOf;
  }

  /** How much a slot is worth keeping. */
  function Rank(status: Status): nat {
    match status
    case Confirmed => 2
    case Pending => 1
    case _ => 0
  }

  /** An upgrade keeps the slot of higher rank, of two equal ones the newer, and neither if neither can boot. */
  lemma KeepIsBest(hs: Headers)
    ensures Keep(hs).None? <==> Rank(hs.Status(A)) == 0 && Rank(hs.Status(B)) == 0
    ensures Keep(hs).Some? ==>
      var keep := Keep(hs).value;
      Rank(hs.Status(keep)) >= Rank(hs.Status(keep.Other()))
      && (Rank(hs.Status(A)) == Rank(hs.Status(B)) ==> keep == Newer(hs)) && UpgradeTarget(hs).slot == keep.Other()
    ensures Keep(hs).None? ==> UpgradeTarget(hs) == Target(A, 0)
  {
    hide StatusOf;
  }

  // ---- programming

  /** The five bytes `boot_slot_initialize` programs. */
  function InfoBytes(generation: byte): (s: seq<byte>)
    ensures |s| == 5
  {
    WriteU32Le(MAGIC) + [generation]
  }

  predicate MayInitialize(h: Header, generation: byte) {
    generation < 3 && IsErased(h)
  }

  /** `mark` programs the flag only from the stage before. */
  predicate MayMark(h: Header, offset: nat) {
    if offset == WRITE_DONE then
      Initialized(h) && h[WRITE_DONE] == Nor.ERASED && h[BOOT_ATTEMPTED] == Nor.ERASED && h[BOOT_SUCCESS] == Nor.ERASED
    else if offset == BOOT_ATTEMPTED then StatusOf(h).Pending?
    else offset == BOOT_SUCCESS && StatusOf(h).Unconfirmed?
  }

  // ---- runs

  /** How far an upgrade has got. The choice lives in memory, everything later in flash; `Spoilt` by a torn flag. */
  datatype Progress =
    | Idle
    | Chosen(target: Target)
    | Blank(target: Target)
    | Begun(target: Target)
    | Written(target: Target)
    | Attempted(target: Target)
    | Spoilt(target: Target)

  datatype State = State(headers: Headers, progress: Progress)

  /** `None`: the program completes. `Some`: it is torn and leaves this header. */
  type Outcome = Option<Header>

  datatype Event =
    | Select(readable: bool)
    | EraseTarget
    | Initialize(slot: Slot, generation: byte, outcome: Outcome)
    | Mark(slot: Slot, offset: nat, outcome: Outcome)
    | Crash

  predicate Enabled(s: State, e: Event) {
    match e
    case Select(_) => true
    case EraseTarget => s.progress.Chosen? || s.progress.Blank? || s.progress.Begun?
    case Initialize(slot, generation, outcome) =>
      outcome.Some? ==> Nor.Torn(s.headers.At(slot), 0, InfoBytes(generation), outcome.value)
    case Mark(slot, offset, outcome) =>
      offset in {WRITE_DONE, BOOT_ATTEMPTED, BOOT_SUCCESS}
      && (outcome.Some? ==> Nor.Torn(s.headers.At(slot), offset, [FLAG_SET], outcome.value))
    case Crash => true
  }

  function Programmed(h: Header, at: nat, data: seq<byte>, outcome: Outcome): Header
    requires at + |data| <= HEADER_SIZE
  {
    if outcome.Some? then outcome.value else Nor.Program(h, at, data)
  }

  /** Read off the header that programming left, complete or not. */
  function AfterInitialize(p: Progress, slot: Slot, left: Header): Progress {
    if !p.Blank? || p.target.slot != slot then p
    else if MayMark(left, WRITE_DONE) && Generation(left) == p.target.generation then Begun(p.target)
    else Idle
  }

  function AfterMark(p: Progress, slot: Slot, left: Header): Progress {
    if p.Idle? || p.Chosen? || p.target.slot != slot then p
    else
      match StatusOf(left)
      case Pending => Written(p.target)
      case Unconfirmed => Attempted(p.target)
      case Confirmed => Idle
      case Invalid => if MayMark(left, WRITE_DONE) then Begun(p.target) else Spoilt(p.target)
  }

  function Apply(s: State, e: Event): State
    requires Enabled(s, e)
  {
    match e
    case Select(readable) => s.(progress := if readable then Chosen(UpgradeTarget(s.headers)) else Idle)
    case EraseTarget =>
      var target := s.progress.target;
      State(s.headers.With(target.slot, Nor.Erase(s.headers.At(target.slot), 0, HEADER_SIZE)), Blank(target))
    case Initialize(slot, generation, outcome) =>
      var h := s.headers.At(slot);
      if !MayInitialize(h, generation) then s
      else
        var left := Programmed(h, 0, InfoBytes(generation), outcome);
        State(s.headers.With(slot, left), AfterInitialize(s.progress, slot, left))
    case Mark(slot, offset, outcome) =>
      var h := s.headers.At(slot);
      if !MayMark(h, offset) then s
      else
        var left := Programmed(h, offset, [FLAG_SET], outcome);
        State(s.headers.With(slot, left), AfterMark(s.progress, slot, left))
    case Crash =>
      s.(progress := if s.progress.Chosen? then Idle else s.progress)
  }

  predicate Reaches(s: State, events: seq<Event>, t: State)
    decreases |events|
  {
    if events == [] then s == t
    else Enabled(s, events[0]) && Reaches(Apply(s, events[0]), events[1..], t)
  }

  // ---- what programming does to the status

  /** A confirmed header cannot be programmed at all. */
  lemma ConfirmedIsFinal(h: Header, offset: nat, generation: byte)
    requires StatusOf(h).Confirmed?
    ensures !MayMark(h, offset) && !MayInitialize(h, generation)
  {
    assert h[WRITE_DONE] == FLAG_SET;
  }

  lemma InitializedBlank(h: Header, generation: byte)
    requires MayInitialize(h, generation)
    ensures var r := Nor.Program(h, 0, InfoBytes(generation));
            MayMark(r, WRITE_DONE) && Generation(r) == generation
  {
    var r := Nor.Program(h, 0, InfoBytes(generation));
    Nor.ProgramErased(h, 0, InfoBytes(generation));
    var front := r[0..0 + 5];
    assert r[4] == front[4] && r[5] == r[5..][0] && r[6] == r[5..][1] && r[7] == r[5..][2];
    assert r[0..4] == front[..4] == WriteU32Le(MAGIC);
    ReadU32LeSlice(r, 0, WriteU32Le(MAGIC));
    U32LeRoundTrip(MAGIC);
  }

  /** A completed mark sets its flag and nothing else. */
  lemma Marked(h: Header, offset: nat)
    requires offset in {WRITE_DONE, BOOT_ATTEMPTED, BOOT_SUCCESS} && MayMark(h, offset)
    ensures Nor.Program(h, offset, [FLAG_SET]) == h[offset := FLAG_SET]
  {
    Nor.ProgramErased(h, offset, [FLAG_SET]);
    var r := Nor.Program(h, offset, [FLAG_SET]);
    assert r[offset] == r[offset..offset + 1][0];
  }

  lemma MarkedStatus(h: Header, offset: nat)
    requires offset in {WRITE_DONE, BOOT_ATTEMPTED, BOOT_SUCCESS} && MayMark(h, offset)
    ensures var r := Nor.Program(h, offset, [FLAG_SET]);
            Generation(r) == Generation(h)
            && StatusOf(r) == (if offset == WRITE_DONE then Pending else if offset == BOOT_ATTEMPTED then Unconfirmed else Confirmed)
  {
    Marked(h, offset);
    var r := h[offset := FLAG_SET];
    assert ReadU32Le(r, 0) == ReadU32Le(h, 0);
  }

  lemma MarkStages(h: Header, offset: nat)
    requires MayMark(h, offset)
    ensures !IsErased(h)
    ensures StatusOf(h) == (if offset == WRITE_DONE then Invalid else if offset == BOOT_ATTEMPTED then Pending else Unconfirmed)
    ensures MayMark(h, WRITE_DONE) <==> offset == WRITE_DONE
  {
    assert h[4] < 3;
  }

  /** A mark that is cut off changes at most its own flag. */
  lemma TornMark(h: Header, offset: nat, left: Header)
    requires offset in {WRITE_DONE, BOOT_ATTEMPTED, BOOT_SUCCESS} && MayMark(h, offset) && Nor.Torn(h, offset, [FLAG_SET], left)
    ensures Generation(left) == Generation(h) && Initialized(left) && !IsErased(left)
    ensures MayMark(left, WRITE_DONE) ==> offset == WRITE_DONE
  {
    hide Nor.TornCell;
    assert forall i | 0 <= i < HEADER_SIZE && i != offset :: left[i] == h[i];
    assert ReadU32Le(left, 0) == ReadU32Le(h, 0);
    assert left[4] < 3;
  }

  /** The same for a completed one. */
  lemma WholeMark(h: Header, offset: nat)
    requires offset in {WRITE_DONE, BOOT_ATTEMPTED, BOOT_SUCCESS} && MayMark(h, offset)
    ensures Nor.Torn(h, offset, [FLAG_SET], Nor.Program(h, offset, [FLAG_SET]))
  {
    hide Nor.Torn, Nor.Program;
    Nor.ProgrammedIsTorn(h, offset, [FLAG_SET], 1);
    assert [FLAG_SET][..1] == [FLAG_SET];
  }

  // ---- the invariant

  predicate SomeConfirmed(hs: Headers) {
    hs.Status(A).Confirmed? || hs.Status(B).Confirmed?
  }

  /** The slot not being upgraded is confirmed, and the target's generation follows its own. */
  predicate TargetOk(hs: Headers, target: Target) {
    hs.Status(target.slot.Other()).Confirmed?
    && target.generation as int == (Generation(hs.At(target.slot.Other())) + 1) % 3
  }

  predicate ProgressOk(hs: Headers, p: Progress) {
    match p
    case Idle => true
    case Chosen(target) => TargetOk(hs, target)
    case Blank(target) => TargetOk(hs, target) && IsErased(hs.At(target.slot))
    case Begun(target) => TargetOk(hs, target) && Generation(hs.At(target.slot)) == target.generation && MayMark(hs.At(target.slot), WRITE_DONE)
    case Written(target) => TargetOk(hs, target) && Generation(hs.At(target.slot)) == target.generation && hs.Status(target.slot).Pending?
    case Attempted(target) => TargetOk(hs, target) && Generation(hs.At(target.slot)) == target.generation && hs.Status(target.slot).Unconfirmed?
    case Spoilt(target) => TargetOk(hs, target) && IsDead(hs.At(target.slot))
  }

  /** Neither confirmed nor any nearer to it by further programming. */
  predicate IsDead(h: Header) {
    StatusOf(h).Invalid? && !IsErased(h) && !MayMark(h, WRITE_DONE)
  }

  predicate Inv(s: State) {
    SomeConfirmed(s.headers) && ProgressOk(s.headers, s.progress)
  }

  lemma SelectKeeps(hs: Headers)
    requires SomeConfirmed(hs)
    ensures TargetOk(hs, UpgradeTarget(hs))
  {
    hide StatusOf;
  }

  lemma StepKeeps(s: State, e: Event)
    requires Inv(s) && Enabled(s, e)
    ensures Inv(Apply(s, e))
  {
    hide StatusOf, MayMark, IsErased, Nor.Torn;
    match e {
      case Select(_) => SelectKeeps(s.headers);
      case EraseTarget => EraseKeeps(s);
      case Initialize(slot, generation, outcome) => InitializeKeeps(s, slot, generation, outcome);
      case Mark(slot, offset, outcome) => MarkKeeps(s, slot, offset, outcome);
      case Crash =>
    }
  }

  lemma EraseKeeps(s: State)
    requires Inv(s) && Enabled(s, EraseTarget)
    ensures Inv(Apply(s, EraseTarget))
  {
    hide StatusOf, MayMark;
  }

  lemma InitializeKeeps(s: State, slot: Slot, generation: byte, outcome: Outcome)
    requires Inv(s) && Enabled(s, Initialize(slot, generation, outcome))
    ensures Inv(Apply(s, Initialize(slot, generation, outcome)))
  {
    hide StatusOf, MayMark, IsErased, InfoBytes, Nor.Program;
    var h := s.headers.At(slot);
    if MayInitialize(h, generation) {
      BlankIsInvalid(h);
      InitializedBlank(h, generation);
    }
  }

  lemma MarkKeeps(s: State, slot: Slot, offset: nat, outcome: Outcome)
    requires Inv(s) && Enabled(s, Mark(slot, offset, outcome))
    ensures Inv(Apply(s, Mark(slot, offset, outcome)))
  {
    hide StatusOf, MayMark, Nor.Program, Nor.Torn, IsErased, Initialized;
    var h := s.headers.At(slot);
    if MayMark(h, offset) {
      if StatusOf(h).Confirmed? {
        ConfirmedIsFinal(h, offset, 0);
      }
      MarkStages(h, offset);
      WholeMark(h, offset);
      TornMark(h, offset, Programmed(h, offset, [FLAG_SET], outcome));
    }
  }

  lemma {:induction false} ReachedInv(s: State, events: seq<Event>, t: State)
    requires Inv(s) && Reaches(s, events, t)
    ensures Inv(t)
    decreases |events|
  {
    hide Inv, Apply, Enabled;
    if events != [] {
      StepKeeps(s, events[0]);
      ReachedInv(Apply(s, events[0]), events[1..], t);
    }
  }

  // ---- the theorems

  /**
   * Once a slot is confirmed, every run of upgrades, marks, boots and crashes keeps a confirmed slot, and the boot
   * order over it is never empty.
   */
  lemma ConfirmedIsNeverLost(hs: Headers, events: seq<Event>, t: State)
    requires SomeConfirmed(hs) && Reaches(State(hs, Idle), events, t)
    ensures SomeConfirmed(t.headers)
    ensures forall readable: Readable | (forall slot :: t.headers.Status(slot).Confirmed? ==> readable.At(slot)) :: Order(t.headers, readable) != []
  {
    hide StatusOf;
    ReachedInv(State(hs, Idle), events, t);
  }

  /** A completed upgrade boots first, before the slot it left alone; once attempted, or spoilt by a torn flag, it is passed over. */
  lemma UpgradeBootsFirst(hs: Headers, events: seq<Event>, t: State)
    requires SomeConfirmed(hs) && Reaches(State(hs, Idle), events, t)
    ensures t.progress.Written? ==>
      var slot := t.progress.target.slot;
      Order(t.headers, Readable(true, true)) == [Candidate(slot, Pending), Candidate(slot.Other(), Confirmed)]
    ensures t.progress.Attempted? || t.progress.Spoilt? ==>
      Order(t.headers, Readable(true, true)) == [Candidate(t.progress.target.slot.Other(), Confirmed)]
  {
    hide StatusOf, MayMark;
    ReachedInv(State(hs, Idle), events, t);
    if t.progress.Written? {
      NewTargetIsFirst(t.headers, t.progress.target);
    }
  }

  lemma NewTargetIsFirst(hs: Headers, target: Target)
    requires TargetOk(hs, target) && Generation(hs.At(target.slot)) == target.generation
    ensures First(hs) == target.slot
  {
    assert Generation(hs.At(target.slot.Other())) < 3;
    hide StatusOf;
  }

  /** An attempt that is confirmed stays in front, now with two confirmed slots. */
  lemma ConfirmedUpgradeBootsFirst(hs: Headers, events: seq<Event>, t: State)
    requires SomeConfirmed(hs) && Reaches(State(hs, Idle), events, t) && t.progress.Attempted?
    ensures var slot := t.progress.target.slot;
            MayMark(t.headers.At(slot), BOOT_SUCCESS)
            && Order(Apply(t, Mark(slot, BOOT_SUCCESS, None)).headers, Readable(true, true))
               == [Candidate(slot, Confirmed), Candidate(slot.Other(), Confirmed)]
  {
    ReachedInv(State(hs, Idle), events, t);
    var target := t.progress.target;
    var h := t.headers.At(target.slot);
    assert MayMark(h, BOOT_SUCCESS);
    MarkedStatus(h, BOOT_SUCCESS);
    hide StatusOf, MayMark, Nor.Program;
    var after := Apply(t, Mark(target.slot, BOOT_SUCCESS, None)).headers;
    assert after.At(target.slot.Other()) == t.headers.At(target.slot.Other());
    NewTargetIsFirst(after, target);
  }

  /** The slot an upgrade may erase is never the only confirmed one, and is erased without touching the other. */
  lemma ErasedIsSpare(hs: Headers, events: seq<Event>, t: State)
    requires SomeConfirmed(hs) && Reaches(State(hs, Idle), events, t) && Enabled(t, EraseTarget)
    ensures var keep := t.progress.target.slot.Other();
            t.headers.Status(keep).Confirmed? && Apply(t, EraseTarget).headers.At(keep) == t.headers.At(keep)
  {
    hide StatusOf;
    ReachedInv(State(hs, Idle), events, t);
  }

  /** An upgrade that nothing interrupts completes. */
  lemma UpgradeCompletes(hs: Headers)
    requires SomeConfirmed(hs)
    ensures var target := UpgradeTarget(hs);
            var t := Apply(Apply(Apply(Apply(State(hs, Idle), Select(true)), EraseTarget),
                                 Initialize(target.slot, target.generation, None)), Mark(target.slot, WRITE_DONE, None));
            t.progress == Written(target)
  {
    hide StatusOf, MayMark, Nor.Program, IsErased;
    var target := UpgradeTarget(hs);
    var erased := Apply(Apply(State(hs, Idle), Select(true)), EraseTarget);
    var h := erased.headers.At(target.slot);
    assert IsErased(h) by { ErasingErases(hs.At(target.slot)); }
    InitializedBlank(h, target.generation);
    MarkedStatus(Nor.Program(h, 0, InfoBytes(target.generation)), WRITE_DONE);
  }

  lemma ErasingErases(h: Header)
    ensures IsErased(Nor.Erase(h, 0, HEADER_SIZE))
  {
  }

  // ---- targets chosen before any slot is confirmed

  predicate IsMarking(e: Event) {
    e.Initialize? || e.Mark?
  }

  /** Between the choice of a target and its erasure, initializations and marks make it the only confirmed slot. */
  ghost predicate CanLoseConfirmed(hs: Headers) {
    exists events, t :: LosesConfirmed(hs, events, t)
  }

  ghost predicate LosesConfirmed(hs: Headers, events: seq<Event>, t: State) {
    (forall i | 0 <= i < |events| :: IsMarking(events[i]))
    && Reaches(State(hs, Chosen(UpgradeTarget(hs))), events, t) && t.progress == Chosen(UpgradeTarget(hs))
    && SomeConfirmed(t.headers) && !SomeConfirmed(Apply(t, EraseTarget).headers)
  }

  /** Programming can still bring the header to confirmed. */
  predicate CanConfirm(h: Header) {
    IsErased(h) || MayMark(h, WRITE_DONE) || StatusOf(h).Pending? || StatusOf(h).Unconfirmed?
  }

  /** What cannot become confirmed, or is confirmed already, cannot be programmed. */
  lemma SettledStays(h: Header, generation: byte, offset: nat)
    requires !CanConfirm(h)
    ensures !MayInitialize(h, generation) && !MayMark(h, offset)
  {
    hide StatusOf, IsErased, Initialized;
  }

  lemma {:induction false} MarkingKeepsSettled(s: State, events: seq<Event>, t: State, slot: Slot)
    requires !CanConfirm(s.headers.At(slot)) && Reaches(s, events, t) && forall i | 0 <= i < |events| :: IsMarking(events[i])
    ensures t.headers.At(slot) == s.headers.At(slot)
    decreases |events|
  {
    hide CanConfirm, MayMark, MayInitialize, AfterMark, AfterInitialize, Nor.Torn, Nor.Program;
    if events != [] {
      var e := events[0];
      SettledStays(s.headers.At(slot), if e.Initialize? then e.generation else 0, if e.Mark? then e.offset else 0);
      assert Apply(s, e).headers.At(slot) == s.headers.At(slot);
      MarkingKeepsSettled(Apply(s, e), events[1..], t, slot);
    }
  }

  /** The next event on the way of `slot` to confirmed. */
  function NextMark(h: Header, slot: Slot): Event {
    if IsErased(h) then Initialize(slot, 0, None)
    else Mark(slot, if MayMark(h, WRITE_DONE) then WRITE_DONE else if StatusOf(h).Pending? then BOOT_ATTEMPTED else BOOT_SUCCESS, None)
  }

  /** How many events are still needed. */
  function Distance(h: Header): nat {
    if IsErased(h) then 4 else if MayMark(h, WRITE_DONE) then 3 else if StatusOf(h).Pending? then 2
    else if StatusOf(h).Unconfirmed? then 1 else 0
  }

  lemma NextMarkAdvances(s: State, slot: Slot)
    requires CanConfirm(s.headers.At(slot)) && s.progress.Chosen?
    ensures var e := NextMark(s.headers.At(slot), slot);
            IsMarking(e) && Enabled(s, e) && Apply(s, e).progress == s.progress
            && Apply(s, e).headers.At(slot.Other()) == s.headers.At(slot.Other())
            && (var h := Apply(s, e).headers.At(slot);
                Distance(h) < Distance(s.headers.At(slot)) && (CanConfirm(h) || StatusOf(h).Confirmed?))
  {
    hide StatusOf, MayMark, IsErased, Nor.Program, InfoBytes;
    var h := s.headers.At(slot);
    if IsErased(h) {
      InitializedBlank(h, 0);
      MarkStages(Nor.Program(h, 0, InfoBytes(0)), WRITE_DONE);
    } else {
      var offset := NextMark(h, slot).offset;
      WaysToMark(h);
      MarkStages(h, offset);
      MarkedStatus(h, offset);
      WholeMark(h, offset);
      TornMark(h, offset, Nor.Program(h, offset, [FLAG_SET]));
      StatusMeansMarked(Nor.Program(h, offset, [FLAG_SET]));
    }
  }

  lemma WaysToMark(h: Header)
    ensures StatusOf(h).Pending? ==> MayMark(h, BOOT_ATTEMPTED)
    ensures StatusOf(h).Unconfirmed? ==> MayMark(h, BOOT_SUCCESS)
  {
  }

  lemma StatusMeansMarked(h: Header)
    ensures !StatusOf(h).Invalid? ==> !MayMark(h, WRITE_DONE)
  {
  }

  lemma {:induction false} ConfirmByMarking(s: State, slot: Slot) returns (events: seq<Event>, t: State)
    requires s.progress.Chosen? && (CanConfirm(s.headers.At(slot)) || s.headers.Status(slot).Confirmed?)
    ensures Reaches(s, events, t) && forall i | 0 <= i < |events| :: IsMarking(events[i])
    ensures t.progress == s.progress && t.headers.Status(slot).Confirmed?
    ensures t.headers.At(slot.Other()) == s.headers.At(slot.Other())
    decreases Distance(s.headers.At(slot))
  {
    hide CanConfirm, Distance, NextMark, Apply, Enabled, StatusOf;
    if s.headers.Status(slot).Confirmed? {
      events, t := [], s;
    } else {
      NextMarkAdvances(s, slot);
      var e := NextMark(s.headers.At(slot), slot);
      var rest;
      rest, t := ConfirmByMarking(Apply(s, e), slot);
      events := [e] + rest;
      assert events[1..] == rest;
    }
  }

  /**
   * Erasing a target can lose the only confirmed slot exactly when, at the time it was chosen, no slot was confirmed and
   * its own header could still become so.
   */
  lemma TargetIsUnsafeExactlyWhen(hs: Headers)
    ensures CanLoseConfirmed(hs) <==> !SomeConfirmed(hs) && CanConfirm(hs.At(UpgradeTarget(hs).slot))
  {
    hide StatusOf, CanConfirm, Reaches, IsErased;
    var target := UpgradeTarget(hs);
    var start := State(hs, Chosen(target));
    if !SomeConfirmed(hs) && CanConfirm(hs.At(target.slot)) {
      var events, t := ConfirmByMarking(start, target.slot);
      ErasingErases(t.headers.At(target.slot));
      BlankIsInvalid(Apply(t, EraseTarget).headers.At(target.slot));
      assert LosesConfirmed(hs, events, t);
    }
    forall events, t | LosesConfirmed(hs, events, t) ensures !SomeConfirmed(hs) && CanConfirm(hs.At(target.slot)) {
      LosersAreUnsafe(hs, events, t);
    }
  }

  /** For instance: a target still unconfirmed, confirmed after the choice, is lost with its erasure. */
  lemma EarlyTargetLosesConfirmed(hs: Headers)
    requires !SomeConfirmed(hs) && hs.Status(UpgradeTarget(hs).slot).Unconfirmed?
    ensures var confirmed := Apply(Apply(State(hs, Idle), Select(true)), Mark(UpgradeTarget(hs).slot, BOOT_SUCCESS, None));
            SomeConfirmed(confirmed.headers) && Enabled(confirmed, EraseTarget)
            && !SomeConfirmed(Apply(confirmed, EraseTarget).headers)
  {
    hide StatusOf, IsErased, Nor.Program;
    var slot := UpgradeTarget(hs).slot;
    WaysToMark(hs.At(slot));
    MarkedStatus(hs.At(slot), BOOT_SUCCESS);
    var confirmed := Apply(Apply(State(hs, Idle), Select(true)), Mark(slot, BOOT_SUCCESS, None));
    ErasingErases(confirmed.headers.At(slot));
    BlankIsInvalid(Apply(confirmed, EraseTarget).headers.At(slot));
  }

  lemma LosersAreUnsafe(hs: Headers, events: seq<Event>, t: State)
    requires LosesConfirmed(hs, events, t)
    ensures !SomeConfirmed(hs) && CanConfirm(hs.At(UpgradeTarget(hs).slot))
  {
    hide StatusOf, CanConfirm, Reaches, IsErased;
    var target := UpgradeTarget(hs);
    var start := State(hs, Chosen(target));
    if SomeConfirmed(hs) {
      SelectKeeps(hs);
      ConfirmedIsSettled(hs.At(target.slot.Other()));
      MarkingKeepsSettled(start, events, t, target.slot.Other());
    }
    if !CanConfirm(hs.At(target.slot)) {
      MarkingKeepsSettled(start, events, t, target.slot);
    }
  }

  lemma ConfirmedIsSettled(h: Header)
    requires StatusOf(h).Confirmed?
    ensures !CanConfirm(h)
  {
    assert h[WRITE_DONE] == FLAG_SET;
  }

  lemma BlankIsInvalid(h: Header)
    requires IsErased(h)
    ensures StatusOf(h).Invalid? && forall offset :: !MayMark(h, offset)
  {
    assert h[4] == Nor.ERASED;
  }
}
