/** The pipeline cannot stall: by themselves the three tasks return every ADU. */
module GatewayProgress {
  import opened Bytes
  import opened Rtu
  import opened Mbap
  import opened AduPool
  import opened Gateway
  import opened GatewayProof

  /** Steps the tasks take on work already begun, whatever clients and points do. */
  predicate IsInternal(step: Step) {
    match step
    case Accept(_) | Receive(_, _) | Close(_) | Send(_, _) | CollectorAllocate(_, _, _) => false
    case _ => true
  }

  // ---- how much work is left

  function RequestWork(q: Option<Request>, chosen: bool): nat {
    if q.None? then 0 else if chosen then 7 else 8
  }

  function SchedulerWork(task: SchedulerTask): nat {
    match task
    case Transacting(_, _) => 6
    case Responding(_, _) => 5
    case _ => 0
  }

  function HighResponseWork(q: Option<Response>, tcp: TcpTask): nat {
    if q.None? then 0 else if tcp.TcpMatched? || tcp.TcpExpired? then 3 else 4
  }

  function CollectorWork(task: CollectorTask): nat {
    match task
    case CollectorSubmitting(_) => 10
    case CollectorReleasing(_) => 2
    case _ => 0
  }

  function ClientWork(clients: seq<Client>): nat
    requires |clients| == MAX_CLIENTS
  {
    10 * (One(clients[0].open && clients[0].state == Submitting) + One(clients[1].open && clients[1].state == Submitting)
          + One(clients[2].open && clients[2].state == Submitting) + One(clients[3].open && clients[3].state == Submitting))
  }

  /** An upper bound on the internal steps left: every place an ADU can be, weighted by its distance from the pool. */
  function Work(s: State): nat
    requires |s.clients| == MAX_CLIENTS
  {
    ClientWork(s.clients) + |s.queueSet|
    + RequestWork(s.highRequest, s.scheduler == ReceivingRequest(true))
    + RequestWork(s.lowRequest, s.scheduler == ReceivingRequest(false))
    + SchedulerWork(s.scheduler) + HighResponseWork(s.highResponse, s.tcp)
    + (if s.lowResponse.Some? then 4 else 0) + (if s.tcp.TcpReleasing? then 2 else 0) + CollectorWork(s.collector)
  }

  lemma ClientWorkKept(clients: seq<Client>, i: nat, c: Client)
    requires |clients| == MAX_CLIENTS && i < MAX_CLIENTS
    ensures (c.open && c.state == Submitting) == (clients[i].open && clients[i].state == Submitting) ==>
              ClientWork(clients[i := c]) == ClientWork(clients)
    ensures !(c.open && c.state == Submitting) && clients[i].open && clients[i].state == Submitting ==>
              ClientWork(clients[i := c]) == ClientWork(clients) - 10
  {
  }

  // ---- internal steps only ever reduce it

  ghost predicate Reduces(s: State, t: State)
    requires |s.clients| == MAX_CLIENTS == |t.clients|
  {
    t == s || Work(t) < Work(s)
  }

  lemma SubmitWorks(s: State, i: nat)
    requires |s.clients| == MAX_CLIENTS && IsClient(s, i, Submitting)
    ensures Reduces(s, SubmitRequest(s, i))
  {
    hide ClientWork;
    ClientWorkKept(s.clients, i, s.clients[i].(state := Waiting));
  }

  lemma PeekWorks(s: State, i: nat)
    requires |s.clients| == MAX_CLIENTS && i < MAX_CLIENTS && s.tcp == TcpIdle
    ensures Reduces(s, PeekFor(s, i)) && Reduces(s, PeekForExpired(s))
  {
    hide ClientWork, Token, HasWaitingClient;
  }

  lemma TakeWorks(s: State, i: nat, c: Client, adu: nat)
    requires |s.clients| == MAX_CLIENTS && s.tcp == TcpMatched(i) && i < MAX_CLIENTS && s.highResponse.Some?
    requires s.clients[i].state == Waiting && c.state == Sending
    ensures Reduces(s, WithClient(s, i, c).(highResponse := None, tcp := TcpReleasing(adu, Some(i))))
  {
    hide ClientWork;
    ClientWorkKept(s.clients, i, c);
  }

  lemma CleanupWorks(s: State)
    requires |s.clients| == MAX_CLIENTS
    ensures s.tcp == TcpExpired && s.highResponse.Some? ==> Reduces(s, TakeUnclaimed(s))
    ensures s.tcp.TcpReleasing? && s.tcp.adu < |s.adus| == |s.available| ==> Reduces(s, ReleaseHeld(s))
  {
    hide ClientWork;
  }

  lemma ChooseWorks(s: State)
    requires |s.clients| == MAX_CLIENTS && s.scheduler == Selecting
    requires (s.selectedHigh > 0 ==> s.highRequest.Some?) && (s.selectedLow > 0 ==> s.lowRequest.Some?)
    ensures s.queueSet != [] ==> Reduces(s, SelectEvent(s))
    ensures s.selectedHigh + s.selectedLow > 0 ==> Reduces(s, ChooseNext(s))
  {
    hide ClientWork;
  }

  lemma ReceiveWorks(s: State)
    requires |s.clients| == MAX_CLIENTS && s.scheduler.ReceivingRequest? && RequestQueue(s, s.scheduler.high).Some?
    ensures Reduces(s, ReceiveChosen(s))
  {
    hide ClientWork;
  }

  lemma TransactWorks(s: State, outcome: PortOutcome)
    requires |s.clients| == MAX_CLIENTS && s.scheduler.Transacting? && s.scheduler.request.adu < |s.adus|
    requires ValidateRequest(s.adus[s.scheduler.request.adu]) == RtuOk
    ensures Reduces(s, Transacted(s, outcome))
  {
    hide ClientWork, ValidateRequest, Transact, IsForwarded;
  }

  lemma RespondWorks(s: State)
    requires |s.clients| == MAX_CLIENTS && s.scheduler.Responding? && ResponseQueue(s, s.scheduler.high).None?
    ensures Reduces(s, PostResponse(s))
  {
    hide ClientWork;
  }

  lemma CollectorWorks(s: State)
    requires |s.clients| == MAX_CLIENTS
    ensures s.collector.CollectorSubmitting? ==> Reduces(s, CollectorSubmitted(s))
    ensures s.collector.CollectorWaiting? && s.lowResponse.Some? ==> Reduces(s, CollectorReceived(s))
    ensures s.collector.CollectorReleasing? && s.collector.adu < |s.adus| == |s.available| ==> Reduces(s, CollectorReleased(s))
  {
    hide ClientWork;
  }

  lemma MatchedIsWaiting(s: State)
    requires Inv(s) && s.tcp.TcpMatched?
    ensures s.tcp.client < |s.clients| && s.clients[s.tcp.client].state == Waiting
  {
    hide Owned, HighSerialsOk, ClientSerialsOk, ContentsOk, LowChainOk, Scheduling, ClientsOk, HasWaitingClient, Token;
  }

  /** What the scheduler has chosen or is about to choose is queued. */
  lemma SelectedIsQueued(s: State)
    requires Inv(s)
    ensures s.scheduler == Selecting && s.selectedHigh > 0 ==> s.highRequest.Some?
    ensures s.scheduler == Selecting && s.selectedLow > 0 ==> s.lowRequest.Some?
    ensures s.scheduler == Selecting && s.queueSet == [] && s.selectedHigh + s.selectedLow == 0 ==>
              s.highRequest.None? && s.lowRequest.None?
    ensures s.scheduler.ReceivingRequest? ==> RequestQueue(s, s.scheduler.high).Some?
  {
    hide Traffic, ClientsOk, OvertakesOk;
  }

  /** Every internal step leaves the state alone or reduces the work left. */
  lemma InternalStepsWork(s: State, step: Step)
    requires Inv(s) && Enabled(s, step) && IsInternal(step)
    ensures |Apply(s, step).clients| == MAX_CLIENTS == |s.clients|
    ensures Reduces(s, Apply(s, step))
  {
    hide Inv, Reduces, ValidateRequest, PointRequest, IsRequest, IsForwarded, PortOutcomeIsPossible, TransactionReply;
    InvShape(s);
    match step {
      case Submit(i) => SubmitWorks(s, i);
      case PeekResponse(i) => PeekWorks(s, i);
      case PeekExpired => PeekWorks(s, 0);
      case TakeResponse =>
        MatchedIsWaiting(s);
        var i := s.tcp.client;
        TakeWorks(s, i, TakeMatched(s).clients[i], s.highResponse.value.adu);
      case TakeExpired => CleanupWorks(s);
      case ReleaseAdu => CleanupWorks(s);
      case Select =>
        SelectedIsQueued(s);
        ChooseWorks(s);
      case Choose =>
        SelectedIsQueued(s);
        ChooseWorks(s);
      case ReceiveRequest => ReceiveWorks(s);
      case RunTransaction(outcome) => TransactWorks(s, outcome);
      case Respond => RespondWorks(s);
      case CollectorSubmit => CollectorWorks(s);
      case CollectorReceive => CollectorWorks(s);
      case CollectorRelease => CollectorWorks(s);
    }
  }

  // ---- and while an ADU is out, one of them is enabled

  /** What can be done next, looking at the TCP task and its response queue first. */
  ghost function NextStep(s: State): Step {
    if s.tcp.TcpReleasing? then ReleaseAdu
    else if s.tcp.TcpMatched? then TakeResponse
    else if s.tcp.TcpExpired? then TakeExpired
    else if s.highResponse.Some? then
      if HasWaitingClient(s.clients, Token(s.highResponse.value.serial)) then PeekResponse(WaitingClient(s)) else PeekExpired
    else if s.collector.CollectorSubmitting? then CollectorSubmit
    else if s.collector.CollectorReleasing? then CollectorRelease
    else if s.lowResponse.Some? then CollectorReceive
    else
      match s.scheduler
      case Responding(_, _) => Respond
      case Transacting(_, _) => RunTransaction(SlaveTimeout)
      case ReceivingRequest(_) => ReceiveRequest
      case Selecting =>
        if s.queueSet != [] then Select
        else if s.selectedHigh + s.selectedLow > 0 then Choose
        else if IsClient(s, 0, Submitting) then Submit(0)
        else if IsClient(s, 1, Submitting) then Submit(1)
        else if IsClient(s, 2, Submitting) then Submit(2)
        else Submit(3)
  }

  /** The client a queued response is for. */
  ghost function WaitingClient(s: State): nat
    requires s.highResponse.Some? && HasWaitingClient(s.clients, Token(s.highResponse.value.serial))
  {
    var i :| 0 <= i < |s.clients| && s.clients[i].open && s.clients[i].state == Waiting
             && Token(s.clients[i].serial) == Token(s.highResponse.value.serial);
    i
  }

  /** Nothing of a request is anywhere in the pipeline. */
  ghost predicate IsQuiet(s: State) {
    s.tcp == TcpIdle && s.highResponse.None? && s.lowResponse.None? && s.highRequest.None? && s.lowRequest.None?
    && s.scheduler == Selecting && s.queueSet == [] && (s.collector == CollectorIdle || s.collector.CollectorWaiting?)
    && forall i | 0 <= i < |s.clients| :: !IsClient(s, i, Submitting)
  }

  /** The step is enabled and does something. */
  ghost predicate Moves(s: State, step: Step) {
    IsInternal(step) && Enabled(s, step) && Apply(s, step) != s
  }

  lemma ReleaseMoves(s: State)
    requires Shape(s) && s.tcp.TcpReleasing? && s.tcp.adu < CAPACITY
    ensures Moves(s, ReleaseAdu)
  {
    assert ReleaseHeld(s).tcp == TcpIdle;
  }

  lemma TakeMoves(s: State)
    requires Shape(s) && CanTake(s)
    ensures Moves(s, TakeResponse)
  {
    hide IsRequest, IsForwarded, TransactionReply;
    assert TakeMatched(s).tcp.TcpReleasing?;
  }

  lemma ExpiredMoves(s: State)
    requires Shape(s) && s.tcp == TcpExpired && s.highResponse.Some?
    ensures Moves(s, TakeExpired)
  {
    assert TakeUnclaimed(s).tcp.TcpReleasing?;
  }

  lemma PeekMoves(s: State)
    requires Shape(s) && s.tcp == TcpIdle && s.highResponse.Some?
    ensures HasWaitingClient(s.clients, Token(s.highResponse.value.serial)) ==> Moves(s, PeekResponse(WaitingClient(s)))
    ensures !HasWaitingClient(s.clients, Token(s.highResponse.value.serial)) ==> Moves(s, PeekExpired)
  {
    hide Token;
    if HasWaitingClient(s.clients, Token(s.highResponse.value.serial)) {
      var i := WaitingClient(s);
      assert PeekFor(s, i).tcp == TcpMatched(i);
    } else {
      hide HasWaitingClient;
      assert PeekForExpired(s).tcp == TcpExpired;
    }
  }

  lemma CollectorMoves(s: State)
    requires Shape(s)
    ensures s.collector.CollectorSubmitting? ==> Moves(s, CollectorSubmit)
    ensures s.collector.CollectorReleasing? && s.collector.adu < CAPACITY ==> Moves(s, CollectorRelease)
    ensures s.collector.CollectorWaiting? && s.lowResponse.Some? ==> Moves(s, CollectorReceive)
  {
    assert s.collector.CollectorSubmitting? ==> CollectorSubmitted(s).collector != s.collector;
    assert s.collector.CollectorReleasing? && s.collector.adu < CAPACITY ==> CollectorReleased(s).collector == CollectorIdle;
    assert s.collector.CollectorWaiting? && s.lowResponse.Some? ==> CollectorReceived(s).collector.CollectorReleasing?;
  }

  lemma TransactMoves(s: State)
    requires Shape(s) && s.scheduler.Transacting? && s.scheduler.request.adu < CAPACITY
    requires ValidateRequest(s.adus[s.scheduler.request.adu]) == RtuOk
    ensures Moves(s, RunTransaction(SlaveTimeout))
  {
    hide ValidateRequest, Transact, IsForwarded;
    assert Transacted(s, SlaveTimeout).scheduler.Responding?;
  }

  lemma SchedulerMoves(s: State)
    requires Shape(s)
    ensures s.scheduler.Responding? && ResponseQueue(s, s.scheduler.high).None? ==> Moves(s, Respond)
    ensures s.scheduler.ReceivingRequest? && RequestQueue(s, s.scheduler.high).Some? ==> Moves(s, ReceiveRequest)
    ensures s.scheduler == Selecting && s.queueSet != [] ==> Moves(s, Select)
    ensures s.scheduler == Selecting && s.queueSet == [] && s.selectedHigh + s.selectedLow > 0 ==> Moves(s, Choose)
  {
    assert s.scheduler.Responding? ==> PostResponse(s).scheduler == Selecting;
    assert s.scheduler.ReceivingRequest? && RequestQueue(s, s.scheduler.high).Some? ==> ReceiveChosen(s).scheduler.Transacting?;
    assert s.queueSet != [] ==> |SelectEvent(s).queueSet| < |s.queueSet|;
    assert s.selectedHigh + s.selectedLow > 0 ==> ChooseNext(s).scheduler.ReceivingRequest?;
  }

  lemma SubmitMoves(s: State, i: nat)
    requires Shape(s) && s.tcp == TcpIdle && IsClient(s, i, Submitting) && s.highRequest.None?
    ensures Moves(s, Submit(i))
  {
    assert SubmitRequest(s, i).highRequest.Some?;
  }

  lemma TcpNext(s: State)
    requires Inv(s) && (s.tcp != TcpIdle || s.highResponse.Some?)
    ensures Moves(s, NextStep(s))
  {
    hide Inv, Moves, CanTake, Token, HasWaitingClient, ValidateRequest;
    InvShape(s);
    TcpHolds(s);
    match s.tcp {
      case TcpReleasing(_, _) => ReleaseMoves(s);
      case TcpMatched(_) =>
        MatchedReply(s);
        TakeMoves(s);
      case TcpExpired => ExpiredMoves(s);
      case TcpIdle => PeekMoves(s);
    }
  }

  lemma TcpHolds(s: State)
    requires Inv(s)
    ensures s.tcp.TcpReleasing? ==> s.tcp.adu < CAPACITY && !s.available[s.tcp.adu]
    ensures s.tcp.TcpMatched? || s.tcp == TcpExpired ==> s.highResponse.Some?
    ensures s.collector.CollectorReleasing? ==> s.collector.adu < CAPACITY
    ensures s.lowResponse.Some? ==> s.collector.CollectorWaiting?
    ensures s.scheduler.Transacting? ==>
              s.scheduler.request.adu < CAPACITY && ValidateRequest(s.adus[s.scheduler.request.adu]) == RtuOk
  {
    hide HighSerialsOk, ClientSerialsOk, Scheduling, ClientsOk, HasWaitingClient, Token, ValidateRequest, CarriesFor;
    assert s.tcp.TcpReleasing? ==> HolderAt(s, TCP).Some?;
    assert s.collector.CollectorReleasing? ==> HolderAt(s, COLLECTOR).Some?;
    assert s.scheduler.Transacting? ==> FlightAt(s, s.scheduler.high, 1).Some?;
    assert s.lowResponse.Some? ==> FlightAt(s, false, 2).Some?;
  }

  lemma OtherNext(s: State)
    requires Inv(s) && s.tcp == TcpIdle && s.highResponse.None? && !IsQuiet(s)
    ensures Moves(s, NextStep(s))
  {
    hide Inv, Moves, ValidateRequest;
    InvShape(s);
    TcpHolds(s);
    SelectedIsQueued(s);
    CollectorMoves(s);
    SchedulerMoves(s);
    if s.scheduler.Transacting? {
      TransactMoves(s);
    }
    if s.scheduler == Selecting && s.queueSet == [] && s.selectedHigh + s.selectedLow == 0 && NextStep(s).Submit? {
      SubmitMoves(s, NextStep(s).i);
    }
  }

  /** Where nothing is under way, every ADU is free. */
  lemma QuietIsFree(s: State)
    requires Inv(s) && IsQuiet(s)
    ensures forall a | 0 <= a < CAPACITY :: s.available[a]
  {
    InvShape(s);
    NobodyHolds(s);
    OwnedByNobody(s);
  }

  lemma OwnedByNobody(s: State)
    requires Inv(s) && forall p | 0 <= p < PLACES :: HolderAt(s, p).None?
    ensures forall a | 0 <= a < CAPACITY :: s.available[a]
  {
    hide HolderAt, HighSerialsOk, ClientSerialsOk, Scheduling, ClientsOk, ContentsOk, LowChainOk, TcpOk;
  }

  lemma NobodyHolds(s: State)
    requires Shape(s) && IsQuiet(s)
    ensures forall p | 0 <= p < PLACES :: HolderAt(s, p).None?
  {
    forall p | 0 <= p < PLACES ensures HolderAt(s, p).None? {
      if p < MAX_CLIENTS {
        assert !IsClient(s, p, Submitting);
      }
    }
  }

  // ---- the theorems

  /**
   * No stall. In every reachable state with an ADU out of the pool some task can take a step that brings the pipeline
   * nearer to returning it.
   */
  lemma PipelineDoesNotStall(run: seq<Step>, s: State, a: nat)
    requires Reaches(run, s) && a < CAPACITY
    ensures Shape(s)
    ensures !s.available[a] ==>
      exists step :: IsInternal(step) && Enabled(s, step) && Shape(Apply(s, step)) && Work(Apply(s, step)) < Work(s)
  {
    hide Inv, Work, NextStep, Apply, Enabled, IsQuiet;
    ReachedInv(run, s);
    InvShape(s);
    if !s.available[a] {
      if IsQuiet(s) {
        QuietIsFree(s);
      }
      BusyStep(s);
    }
  }

  lemma BusyStep(s: State)
    requires Inv(s) && !IsQuiet(s)
    ensures Shape(s) && Enabled(s, NextStep(s)) && IsInternal(NextStep(s))
    ensures Inv(Apply(s, NextStep(s))) && Shape(Apply(s, NextStep(s))) && Work(Apply(s, NextStep(s))) < Work(s)
  {
    hide Inv, Work, NextStep, Apply, Enabled, IsQuiet, IsInternal;
    InvShape(s);
    if s.tcp != TcpIdle || s.highResponse.Some? {
      TcpNext(s);
    } else {
      OtherNext(s);
    }
    StepKeeps(s, NextStep(s));
    InvShape(Apply(s, NextStep(s)));
    InternalStepsWork(s, NextStep(s));
  }

  /**
   * A response that waits for an idle TCP task is either for an open client that waits for that very request, and the
   * task's next look at that client finds it, or belongs to nobody, and the task's cleanup finds it expired.
   */
  lemma ResponseIsClaimedOrExpired(run: seq<Step>, s: State)
    requires Reaches(run, s) && s.tcp == TcpIdle && s.highResponse.Some?
    ensures Shape(s)
    ensures (exists i: nat :: IsClient(s, i, Waiting) && s.clients[i].serial == s.highResponse.value.serial && Moves(s, PeekResponse(i)))
            || ((forall i: nat | IsClient(s, i, Waiting) :: s.clients[i].serial != s.highResponse.value.serial) && Moves(s, PeekExpired))
  {
    hide Inv, Moves, Token, HasWaitingClient;
    ReachedInv(run, s);
    InvShape(s);
    PeekMoves(s);
    if HasWaitingClient(s.clients, Token(s.highResponse.value.serial)) {
      ClaimedByToken(s, WaitingClient(s));
    } else {
      ExpiredIsNobodys(s);
    }
  }

  /** Equal tokens are equal requests. */
  lemma ClaimedByToken(s: State, i: nat)
    requires Inv(s) && s.highResponse.Some? && IsClient(s, i, Waiting)
    requires Token(s.clients[i].serial) == Token(s.highResponse.value.serial)
    ensures s.clients[i].serial == s.highResponse.value.serial
  {
    hide HighSerialsOk, ClientSerialsOk, ContentsOk, Owned, LowChainOk, Scheduling, ClientsOk, TcpOk, Token;
    PeekedSerial(s, i);
  }

  lemma ExpiredIsNobodys(s: State)
    requires s.highResponse.Some? && !HasWaitingClient(s.clients, Token(s.highResponse.value.serial))
    ensures forall i: nat | IsClient(s, i, Waiting) :: s.clients[i].serial != s.highResponse.value.serial
  {
    hide Token;
  }

  /** From every reachable state the tasks by themselves come to a state in which every ADU is back in the pool. */
  lemma {:induction false} EveryAduComesBack(run: seq<Step>, s: State) returns (more: seq<Step>, t: State)
    requires Reaches(run, s)
    ensures Shape(s) && Shape(t) && Reaches(run + more, t) && |more| <= Work(s)
    ensures forall i | 0 <= i < |more| :: IsInternal(more[i])
    ensures forall a | 0 <= a < CAPACITY :: t.available[a]
    decreases (ReachedInv(run, s); InvShape(s); Work(s))
  {
    hide Inv, Work, NextStep, Apply, Enabled, IsQuiet, Reaches;
    ReachedInv(run, s);
    InvShape(s);
    if IsQuiet(s) {
      more, t := [], s;
      assert run + [] == run;
      QuietIsFree(s);
    } else {
      BusyStep(s);
      var step := NextStep(s);
      ReachesStep(run, s, step);
      var rest;
      rest, t := EveryAduComesBack(run + [step], Apply(s, step));
      more := [step] + rest;
      assert run + more == run + [step] + rest;
    }
  }

  lemma ReachesStep(run: seq<Step>, s: State, step: Step)
    requires Reaches(run, s) && Enabled(s, step)
    ensures Reaches(run + [step], Apply(s, step))
  {
    hide Enabled, Apply;
    var longer := run + [step];
    assert longer[..|longer| - 1] == run;
  }
}
