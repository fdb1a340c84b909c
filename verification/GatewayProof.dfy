/** Invariants of the gateway over every interleaving, and what they mean for its users. */
module GatewayProof {
  import opened Bytes
  import opened Rtu
  import opened Mbap
  import opened AduPool
  import opened Gateway
  import opened GatewayClients

  // ---- ownership

  function ClientSlot(c: Client): Option<nat> {
    if c.open && c.state == Submitting then Some(c.adu) else None
  }

  function TcpSlot(s: State): Option<nat> {
    if s.tcp.TcpReleasing? then Some(s.tcp.adu) else None
  }

  function SchedulerSlot(s: State): Option<nat> {
    match s.scheduler
    case Transacting(_, r) => Some(r.adu)
    case Responding(_, r) => Some(r.adu)
    case _ => None
  }

  function CollectorSlot(s: State): Option<nat> {
    match s.collector
    case CollectorSubmitting(r) => Some(r.adu)
    case CollectorReleasing(a) => Some(a)
    case _ => None
  }

  function RequestSlot(q: Option<Request>): Option<nat> {
    if q.Some? then Some(q.value.adu) else None
  }

  function ResponseSlot(q: Option<Response>): Option<nat> {
    if q.Some? then Some(q.value.adu) else None
  }

  const TCP := 4
  const HIGH_REQUEST := 5
  const SCHEDULER := 6
  const HIGH_RESPONSE := 7
  const LOW_REQUEST := 8
  const LOW_RESPONSE := 9
  const COLLECTOR := 10

  const PLACES := 11

  /** What each place that can hold an ADU holds: the four submitting clients, the TCP task, the queues, the
      scheduler and the collector. */
  function HolderAt(s: State, p: nat): Option<nat>
    requires |s.clients| == MAX_CLIENTS
  {
    if p < MAX_CLIENTS then ClientSlot(s.clients[p])
    else if p == TCP then TcpSlot(s)
    else if p == HIGH_REQUEST then RequestSlot(s.highRequest)
    else if p == SCHEDULER then SchedulerSlot(s)
    else if p == HIGH_RESPONSE then ResponseSlot(s.highResponse)
    else if p == LOW_REQUEST then RequestSlot(s.lowRequest)
    else if p == LOW_RESPONSE then ResponseSlot(s.lowResponse)
    else if p == COLLECTOR then CollectorSlot(s)
    else None
  }

  ghost predicate Holds(s: State, a: nat)
    requires |s.clients| == MAX_CLIENTS
  {
    exists p :: 0 <= p < PLACES && HolderAt(s, p) == Some(a)
  }

  /** No two places hold the same ADU, and an ADU is available exactly when no place holds it. */
  ghost predicate Owned(s: State)
    requires |s.clients| == MAX_CLIENTS
  {
    && (forall p | 0 <= p < PLACES && HolderAt(s, p).Some? ::
          HolderAt(s, p).value < |s.available| && !s.available[HolderAt(s, p).value])
    && (forall p, q | 0 <= p < q < PLACES && HolderAt(s, p).Some? :: HolderAt(s, p) != HolderAt(s, q))
    && (forall a | 0 <= a < |s.available| && !s.available[a] :: Holds(s, a))
  }

  ghost predicate SameHolders(s: State, t: State)
    requires |s.clients| == MAX_CLIENTS == |t.clients|
  {
    s.available == t.available && forall p | 0 <= p < PLACES :: HolderAt(t, p) == HolderAt(s, p)
  }

  lemma SameKeeps(s: State, t: State)
    requires Shape(s) && Shape(t) && Owned(s) && SameHolders(s, t)
    ensures Owned(t)
  {
    forall a | 0 <= a < |t.available| && !t.available[a] ensures Holds(t, a) {
      assert Holds(s, a);
    }
  }

  lemma MoveKeeps(s: State, t: State, i: nat, j: nat)
    requires Shape(s) && Shape(t) && Owned(s) && t.available == s.available
    requires i < PLACES && j < PLACES && i != j && HolderAt(s, j).None?
    requires HolderAt(t, j) == HolderAt(s, i) && HolderAt(t, i).None?
    requires forall p | 0 <= p < PLACES && p != i && p != j :: HolderAt(t, p) == HolderAt(s, p)
    ensures Owned(t)
  {
    forall a | 0 <= a < |t.available| && !t.available[a] ensures Holds(t, a) {
      assert Holds(s, a);
      var k :| 0 <= k < PLACES && HolderAt(s, k) == Some(a);
      assert HolderAt(t, if k == i then j else k) == Some(a);
    }
    forall p, q | 0 <= p < q < PLACES && HolderAt(t, p).Some? ensures HolderAt(t, p) != HolderAt(t, q) {
      var p', q' := if p == j then i else p, if q == j then i else q;
      assert HolderAt(s, p') == HolderAt(t, p);
      assert p' != q' || q == i;
    }
  }

  lemma TakeKeeps(s: State, t: State, a: nat, j: nat)
    requires Shape(s) && Shape(t) && Owned(s) && a < CAPACITY && s.available[a] && t.available == s.available[a := false]
    requires j < PLACES && HolderAt(s, j).None? && HolderAt(t, j) == Some(a)
    requires forall p | 0 <= p < PLACES && p != j :: HolderAt(t, p) == HolderAt(s, p)
    ensures Owned(t)
  {
    forall b | 0 <= b < |t.available| && !t.available[b] ensures Holds(t, b) {
      if b != a {
        assert Holds(s, b);
        var k :| 0 <= k < PLACES && HolderAt(s, k) == Some(b);
        assert HolderAt(t, k) == Some(b);
      }
    }
  }

  lemma DropKeeps(s: State, t: State, i: nat)
    requires Shape(s) && Shape(t) && Owned(s) && i < PLACES && HolderAt(s, i).Some? && HolderAt(s, i).value < CAPACITY
    requires t.available == s.available[HolderAt(s, i).value := true] && HolderAt(t, i).None?
    requires forall p | 0 <= p < PLACES && p != i :: HolderAt(t, p) == HolderAt(s, p)
    ensures Owned(t)
  {
    forall b | 0 <= b < |t.available| && !t.available[b] ensures Holds(t, b) {
      assert Holds(s, b);
      var k :| 0 <= k < PLACES && HolderAt(s, k) == Some(b);
      assert HolderAt(t, k) == Some(b);
    }
  }

  // ---- the invariant

  ghost predicate Shape(s: State) {
    |s.clients| == MAX_CLIENTS && |s.available| == CAPACITY && |s.adus| == CAPACITY
  }

  /** A request issued as `serial` can still be told apart by its token. */
  predicate InWindow(s: State, serial: nat) {
    serial < s.issued <= serial + 0x1_0000_0000
  }

  ghost predicate HighSerialsOk(s: State) {
    && (forall k | 0 <= k < 3 && FlightAt(s, true, k).Some? :: InWindow(s, FlightAt(s, true, k).value.serial))
    && (forall k, l | 0 <= k < l < 3 && FlightAt(s, true, k).Some? && FlightAt(s, true, l).Some? ::
          FlightAt(s, true, k).value.serial != FlightAt(s, true, l).value.serial)
  }

  ghost predicate ClientSerialsOk(s: State) {
    && (forall i | 0 <= i < |s.clients| && IsLive(s.clients[i]) :: InWindow(s, s.clients[i].serial))
    && (forall i, j | 0 <= i < j < |s.clients| && IsLive(s.clients[i]) && IsLive(s.clients[j]) ::
          s.clients[i].serial != s.clients[j].serial)
    && (forall i, k | 0 <= i < |s.clients| && 0 <= k < 3 && IsClient(s, i, Submitting) && FlightAt(s, true, k).Some? ::
          FlightAt(s, true, k).value.serial != s.clients[i].serial)
    && (forall i | 0 <= i < |s.clients| && IsClient(s, i, Waiting) :: InFlight(s, s.clients[i].serial))
  }

  ghost predicate InFlight(s: State, serial: nat) {
    exists k :: 0 <= k < 3 && FlightAt(s, true, k).Some? && FlightAt(s, true, k).value.serial == serial
  }

  /** What the ADU of a request on its way holds for the client waiting for it. */
  ghost predicate CarriesFor(adu: seq<byte>, done: Option<Exchange>, request: seq<byte>) {
    IsRequest(request) ==>
      match done
      case None => adu == RtuFrame(request)
      case Some(x) => x.asked == RtuFrame(request) && ExchangeOk(x) && (IsForwarded(x.result) ==> adu == x.outcome.bytes)
  }

  ghost predicate ContentsOk(s: State)
    requires Shape(s)
  {
    && (forall high: bool, k | 0 <= k < 3 && FlightAt(s, high, k).Some? ::
          && FlightAt(s, high, k).value.adu < CAPACITY
          && (FlightAt(s, high, k).value.done.None? ==> ValidateRequest(s.adus[FlightAt(s, high, k).value.adu]) == RtuOk))
    && (s.collector.CollectorSubmitting? ==>
          s.collector.request.adu < CAPACITY && ValidateRequest(s.adus[s.collector.request.adu]) == RtuOk)
    && (forall i | 0 <= i < MAX_CLIENTS && IsClient(s, i, Submitting) ::
          && s.clients[i].adu < CAPACITY
          && CarriesFor(s.adus[s.clients[i].adu], None, s.clients[i].recv)
          && ValidateRequest(s.adus[s.clients[i].adu]) == RtuOk)
    && (forall i, k | 0 <= i < MAX_CLIENTS && 0 <= k < 3 && IsClient(s, i, Waiting) && FlightAt(s, true, k).Some?
                      && FlightAt(s, true, k).value.serial == s.clients[i].serial ::
          CarriesFor(s.adus[FlightAt(s, true, k).value.adu], FlightAt(s, true, k).value.done, s.clients[i].recv))
  }

  ghost predicate TcpOk(s: State) {
    match s.tcp
    case TcpMatched(i) =>
      IsClient(s, i, Waiting) && s.highResponse.Some? && s.highResponse.value.serial == s.clients[i].serial
    case TcpExpired =>
      s.highResponse.Some? && !HasWaitingClient(s.clients, Token(s.highResponse.value.serial))
    case TcpReleasing(_, Some(i)) => IsClient(s, i, Sending)
    case _ => true
  }

  function One(b: bool): nat {
    if b then 1 else 0
  }

  /** The collector has exactly one request under way while it waits, and none otherwise. */
  ghost predicate LowChainOk(s: State) {
    var f0, f1, f2 := FlightAt(s, false, 0), FlightAt(s, false, 1), FlightAt(s, false, 2);
    if s.collector.CollectorWaiting? then
      && One(f0.Some?) + One(f1.Some?) + One(f2.Some?) == 1
      && (f0.Some? ==> f0.value.serial == s.collector.serial)
      && (f1.Some? ==> f1.value.serial == s.collector.serial)
      && (f2.Some? ==> f2.value.serial == s.collector.serial)
    else f0.None? && f1.None? && f2.None?
  }

  function Pending(queueSet: seq<bool>, high: bool): nat {
    if queueSet == [] then 0 else One(queueSet[0] == high) + Pending(queueSet[1..], high)
  }

  /** Events pending in the queue set, events already selected and the one being served add up to the
      occupancy of each request queue. */
  ghost predicate QueueSetOk(s: State) {
    && Pending(s.queueSet, true) + s.selectedHigh + One(s.scheduler == ReceivingRequest(true)) == One(s.highRequest.Some?)
    && Pending(s.queueSet, false) + s.selectedLow + One(s.scheduler == ReceivingRequest(false)) == One(s.lowRequest.Some?)
  }

  ghost predicate OvertakesOk(s: State) {
    && (s.lastLow ==> s.consecutiveHigh == 0)
    && (s.scheduler == ReceivingRequest(true) ==> s.consecutiveHigh >= 1)
    && (s.lowRequest.Some? ==>
          && s.overtakes + One(s.scheduler == ReceivingRequest(true)) <= MAX_CONSECUTIVE_HIGH
          && (s.scheduler != ReceivingRequest(false) ==>
                s.overtakes + One(s.scheduler == ReceivingRequest(true)) <= s.consecutiveHigh))
  }

  ghost predicate ClientsOk(clients: seq<Client>) {
    forall i | 0 <= i < |clients| :: ClientOk(clients[i])
  }

  /** Where the ADUs are and what they carry. */
  ghost predicate Traffic(s: State) {
    && Shape(s)
    && Owned(s)
    && HighSerialsOk(s) && ClientSerialsOk(s) && ContentsOk(s)
    && TcpOk(s) && LowChainOk(s)
  }

  /** The scheduler's counters. */
  ghost predicate Scheduling(s: State) {
    QueueSetOk(s) && OvertakesOk(s)
  }

  ghost predicate Inv(s: State) {
    Traffic(s) && Scheduling(s) && ClientsOk(s.clients)
  }

  lemma InitialInv()
    ensures Inv(INITIAL)
  {
    var s := INITIAL;
    assert forall p | 0 <= p < PLACES :: HolderAt(s, p) == None;
    assert forall k | 0 <= k < 3 :: FlightAt(s, true, k) == None && FlightAt(s, false, k) == None;
    assert forall i | 0 <= i < MAX_CLIENTS :: s.clients[i] == CLOSED_CLIENT;
    assert ClientOk(CLOSED_CLIENT);
  }

  lemma PendingAppend(q: seq<bool>, e: bool, high: bool)
    ensures Pending(q + [e], high) == Pending(q, high) + One(e == high)
  {
    if q == [] {
    } else {
      assert (q + [e])[1..] == q[1..] + [e];
      PendingAppend(q[1..], e, high);
    }
  }

  // ---- what every step that adds no request keeps

  /** The holder index of a request on its way. */
  function PlaceOf(high: bool, k: nat): nat {
    if k == 1 then SCHEDULER
    else if high then (if k == 0 then HIGH_REQUEST else HIGH_RESPONSE)
    else (if k == 0 then LOW_REQUEST else LOW_RESPONSE)
  }

  lemma FlightIsHeld(s: State, high: bool, k: nat)
    requires Shape(s) && k < 3 && FlightAt(s, high, k).Some?
    ensures HolderAt(s, PlaceOf(high, k)) == Some(FlightAt(s, high, k).value.adu)
  {
  }

  /** Live clients, requests on their way and the collector's request of `t` are those of `s`, with the same ADUs. */
  ghost predicate NothingAdded(s: State, t: State)
    requires Shape(s) && Shape(t)
  {
    && (forall high: bool, k | 0 <= k < 3 && FlightAt(t, high, k).Some? ::
          FlightAt(t, high, k) == FlightAt(s, high, k) && SameAdu(s, t, FlightAt(t, high, k).value.adu))
    && (forall i | 0 <= i < MAX_CLIENTS && IsLive(t.clients[i]) :: t.clients[i] == s.clients[i])
    && (forall i | 0 <= i < MAX_CLIENTS && IsClient(t, i, Submitting) :: SameAdu(s, t, t.clients[i].adu))
    && (t.collector.CollectorSubmitting? ==> t.collector == s.collector && SameAdu(s, t, t.collector.request.adu))
  }

  predicate SameAdu(s: State, t: State, a: nat) {
    |s.adus| == |t.adus| && (a < |s.adus| ==> s.adus[a] == t.adus[a])
  }

  lemma ContentsKept(s: State, t: State)
    requires Shape(s) && Shape(t) && ContentsOk(s) && NothingAdded(s, t)
    ensures ContentsOk(t)
  {
  }

  lemma SerialsKept(s: State, t: State)
    requires Shape(s) && Shape(t) && HighSerialsOk(s) && ClientSerialsOk(s) && NothingAdded(s, t) && t.issued == s.issued
    requires forall i | 0 <= i < MAX_CLIENTS && IsClient(t, i, Waiting) :: InFlight(t, t.clients[i].serial)
    ensures HighSerialsOk(t) && ClientSerialsOk(t)
  {
    assert forall i | 0 <= i < MAX_CLIENTS && IsLive(t.clients[i]) :: IsLive(s.clients[i]);
    forall i, k | 0 <= i < MAX_CLIENTS && 0 <= k < 3 && IsClient(t, i, Submitting) && FlightAt(t, true, k).Some?
      ensures FlightAt(t, true, k).value.serial != t.clients[i].serial
    {
      assert IsClient(s, i, Submitting) && FlightAt(s, true, k).Some?;
    }
  }

  /** When flights stay where they are, waiting clients stay in flight. */
  lemma StillInFlight(s: State, t: State)
    requires Shape(s) && Shape(t) && ClientSerialsOk(s) && NothingAdded(s, t)
    requires forall k | 0 <= k < 3 :: FlightAt(t, true, k) == FlightAt(s, true, k)
    ensures forall i | 0 <= i < MAX_CLIENTS && IsClient(t, i, Waiting) :: InFlight(t, t.clients[i].serial)
  {
    forall i | 0 <= i < MAX_CLIENTS && IsClient(t, i, Waiting) ensures InFlight(t, t.clients[i].serial) {
      assert IsClient(s, i, Waiting);
      var k :| 0 <= k < 3 && FlightAt(s, true, k).Some? && FlightAt(s, true, k).value.serial == s.clients[i].serial;
      assert FlightAt(t, true, k).Some?;
    }
  }

  lemma LowKept(s: State, t: State)
    requires LowChainOk(s) && t.collector == s.collector
    requires forall k | 0 <= k < 3 :: FlightAt(t, false, k) == FlightAt(s, false, k)
    ensures LowChainOk(t)
  {
  }

  lemma SchedulingKept(s: State, t: State)
    requires Scheduling(s)
    requires t.queueSet == s.queueSet && t.selectedHigh == s.selectedHigh && t.selectedLow == s.selectedLow
    requires t.consecutiveHigh == s.consecutiveHigh && t.scheduler == s.scheduler
    requires t.highRequest.Some? == s.highRequest.Some? && t.lowRequest.Some? == s.lowRequest.Some?
    requires t.overtakes == s.overtakes && t.lastLow == s.lastLow
    ensures Scheduling(t)
  {
  }

  // ---- scheduler steps

  /** The parts of the state that `Traffic` reads. */
  ghost predicate SameTraffic(s: State, t: State) {
    && s.clients == t.clients && s.adus == t.adus && s.available == t.available && s.issued == t.issued && s.tcp == t.tcp
    && s.highRequest == t.highRequest && s.highResponse == t.highResponse
    && s.lowRequest == t.lowRequest && s.lowResponse == t.lowResponse && s.collector == t.collector
    && SchedulerSlot(t) == SchedulerSlot(s)
    && FlightAt(t, true, 1) == FlightAt(s, true, 1) && FlightAt(t, false, 1) == FlightAt(s, false, 1)
  }

  lemma TrafficKept(s: State, t: State)
    requires Traffic(s) && SameTraffic(s, t)
    ensures Traffic(t)
  {
    hide Token, ContentsOk, HighSerialsOk, ClientSerialsOk, Owned, LowChainOk, HasWaitingClient;
    assert forall high: bool, k | 0 <= k < 3 :: FlightAt(t, high, k) == FlightAt(s, high, k);
    ContentsKept(s, t);
    StillInFlight(s, t);
    SameKeeps(s, t);
    SerialsKept(s, t);
    LowKept(s, t);
  }

  lemma SelectKeeps(s: State)
    requires Inv(s) && s.scheduler == Selecting && s.queueSet != []
    ensures Inv(SelectEvent(s))
  {
    hide Traffic, ClientsOk;
    TrafficKept(s, SelectEvent(s));
  }

  lemma ChooseKeeps(s: State)
    requires Inv(s) && s.scheduler == Selecting && s.queueSet == [] && s.selectedHigh + s.selectedLow > 0
    ensures Inv(ChooseNext(s))
    ensures ChooseNext(s).lastLow ==> !(s.lastLow && s.selectedHigh > 0)
  {
    hide Traffic, ClientsOk;
    TrafficKept(s, ChooseNext(s));
  }

  /** A request moves from place `k` to place `k + 1` of its priority. */
  ghost predicate FlightMoves(s: State, t: State, high: bool, k: nat) {
    && k < 2
    && s.clients == t.clients && s.adus == t.adus && s.available == t.available && s.issued == t.issued && s.tcp == t.tcp
    && s.collector == t.collector
    && FlightAt(s, high, k).Some? && FlightAt(s, high, k + 1).None?
    && FlightAt(t, high, k).None? && FlightAt(t, high, k + 1) == FlightAt(s, high, k)
    && FlightAt(t, high, 2 - 2 * k) == FlightAt(s, high, 2 - 2 * k)
    && (forall h: bool, l | 0 <= l < 3 && h != high :: FlightAt(t, h, l) == FlightAt(s, h, l))
  }

  lemma MovedContents(s: State, t: State, high: bool, k: nat)
    requires Shape(s) && Shape(t) && ContentsOk(s) && FlightMoves(s, t, high, k)
    ensures ContentsOk(t)
  {
    forall h: bool, l | 0 <= l < 3 && FlightAt(t, h, l).Some?
      ensures FlightAt(s, h, if h == high && l == k + 1 then k else l) == FlightAt(t, h, l)
    {
    }
    forall i, l | 0 <= i < MAX_CLIENTS && 0 <= l < 3 && IsClient(t, i, Waiting) && FlightAt(t, true, l).Some?
                  && FlightAt(t, true, l).value.serial == t.clients[i].serial
      ensures CarriesFor(t.adus[FlightAt(t, true, l).value.adu], FlightAt(t, true, l).value.done, t.clients[i].recv)
    {
      assert IsClient(s, i, Waiting);
      assert FlightAt(s, true, if high && l == k + 1 then k else l) == FlightAt(t, true, l);
    }
  }

  lemma MovedSerials(s: State, t: State, high: bool, k: nat)
    requires Shape(s) && Shape(t) && HighSerialsOk(s) && ClientSerialsOk(s) && FlightMoves(s, t, high, k)
    ensures HighSerialsOk(t) && ClientSerialsOk(t)
  {
    forall l | 0 <= l < 3 && FlightAt(t, true, l).Some?
      ensures FlightAt(s, true, if high && l == k + 1 then k else l) == FlightAt(t, true, l)
    {
    }
    forall i, l | 0 <= i < MAX_CLIENTS && 0 <= l < 3 && IsClient(t, i, Submitting) && FlightAt(t, true, l).Some?
      ensures FlightAt(t, true, l).value.serial != t.clients[i].serial
    {
      assert IsClient(s, i, Submitting);
      assert FlightAt(s, true, if high && l == k + 1 then k else l).Some?;
    }
    forall i | 0 <= i < MAX_CLIENTS && IsClient(t, i, Waiting) ensures InFlight(t, t.clients[i].serial) {
      assert IsClient(s, i, Waiting);
      var l :| 0 <= l < 3 && FlightAt(s, true, l).Some? && FlightAt(s, true, l).value.serial == s.clients[i].serial;
      assert FlightAt(t, true, if high && l == k then k + 1 else l) == FlightAt(s, true, l);
    }
  }

  lemma MovedLow(s: State, t: State, high: bool, k: nat)
    requires LowChainOk(s) && FlightMoves(s, t, high, k)
    ensures LowChainOk(t)
  {
  }

  lemma ReceiveRequestKeeps(s: State)
    requires Inv(s) && s.scheduler.ReceivingRequest? && RequestQueue(s, s.scheduler.high).Some?
    ensures Inv(ReceiveChosen(s))
  {
    hide Token, ContentsOk, HighSerialsOk, ClientSerialsOk, Owned, LowChainOk, HasWaitingClient, ClientsOk, Pending;
    var t, high := ReceiveChosen(s), s.scheduler.high;
    MoveKeeps(s, t, if high then HIGH_REQUEST else LOW_REQUEST, SCHEDULER);
    MovedContents(s, t, high, 0);
    MovedSerials(s, t, high, 0);
    MovedLow(s, t, high, 0);
  }

  lemma RespondKeeps(s: State)
    requires Inv(s) && s.scheduler.Responding? && ResponseQueue(s, s.scheduler.high).None?
    ensures Inv(PostResponse(s))
  {
    hide Token, ContentsOk, HighSerialsOk, ClientSerialsOk, Owned, LowChainOk, HasWaitingClient, ClientsOk, Pending;
    var t, high := PostResponse(s), s.scheduler.high;
    MoveKeeps(s, t, SCHEDULER, if high then HIGH_RESPONSE else LOW_RESPONSE);
    MovedContents(s, t, high, 1);
    MovedSerials(s, t, high, 1);
    MovedLow(s, t, high, 1);
  }

  /** The ADU of one place is not the ADU of another. */
  lemma HeldApart(s: State, p: nat)
    requires Shape(s) && Owned(s) && p < PLACES && HolderAt(s, p).Some?
    ensures var a := HolderAt(s, p).value;
            && a < CAPACITY
            && (forall high: bool, k | 0 <= k < 3 && FlightAt(s, high, k).Some? && PlaceOf(high, k) != p ::
                  FlightAt(s, high, k).value.adu != a)
            && (forall i | 0 <= i < MAX_CLIENTS && IsClient(s, i, Submitting) && i != p :: s.clients[i].adu != a)
            && (s.collector.CollectorSubmitting? && p != COLLECTOR ==> s.collector.request.adu != a)
  {
    forall high: bool, k | 0 <= k < 3 && FlightAt(s, high, k).Some? && PlaceOf(high, k) != p
      ensures FlightAt(s, high, k).value.adu != HolderAt(s, p).value
    {
      FlightIsHeld(s, high, k);
      assert HolderAt(s, PlaceOf(high, k)) != HolderAt(s, p);
    }
    forall i | 0 <= i < MAX_CLIENTS && IsClient(s, i, Submitting) && i != p ensures s.clients[i].adu != HolderAt(s, p).value {
      assert HolderAt(s, i) == Some(s.clients[i].adu) && HolderAt(s, i) != HolderAt(s, p);
    }
    if s.collector.CollectorSubmitting? && p != COLLECTOR {
      assert HolderAt(s, COLLECTOR) == Some(s.collector.request.adu) && HolderAt(s, COLLECTOR) != HolderAt(s, p);
    }
  }

  /** An available ADU is nobody's. */
  lemma FreeApart(s: State, a: nat)
    requires Shape(s) && Owned(s) && a < CAPACITY && s.available[a]
    ensures forall high: bool, k | 0 <= k < 3 && FlightAt(s, high, k).Some? :: FlightAt(s, high, k).value.adu != a
    ensures forall i | 0 <= i < MAX_CLIENTS && IsClient(s, i, Submitting) :: s.clients[i].adu != a
    ensures s.collector.CollectorSubmitting? ==> s.collector.request.adu != a
  {
    forall high: bool, k | 0 <= k < 3 && FlightAt(s, high, k).Some? ensures FlightAt(s, high, k).value.adu != a {
      FlightIsHeld(s, high, k);
    }
    forall i | 0 <= i < MAX_CLIENTS && IsClient(s, i, Submitting) ensures s.clients[i].adu != a {
      assert HolderAt(s, i) == Some(s.clients[i].adu);
    }
    assert s.collector.CollectorSubmitting? ==> HolderAt(s, COLLECTOR) == Some(s.collector.request.adu);
  }

  /** Only the ADU and the result of the running transaction change. */
  lemma TransactedFrame(s: State, outcome: PortOutcome)
    requires Shape(s) && Owned(s)
    requires s.scheduler.Transacting? && s.scheduler.request.adu < |s.adus|
    requires ValidateRequest(s.adus[s.scheduler.request.adu]) == RtuOk
    ensures var t, high := Transacted(s, outcome), s.scheduler.high;
            && (forall h: bool, k | 0 <= k < 3 && (h != high || k != 1) ::
                  FlightAt(t, h, k) == FlightAt(s, h, k) && (FlightAt(s, h, k).Some? ==> SameAdu(s, t, FlightAt(s, h, k).value.adu)))
            && (forall i | 0 <= i < MAX_CLIENTS && IsClient(s, i, Submitting) :: SameAdu(s, t, s.clients[i].adu))
            && (s.collector.CollectorSubmitting? ==> SameAdu(s, t, s.collector.request.adu))
  {
    hide ValidateRequest, Transact, Owned, HolderAt;
    FlightIsHeld(s, s.scheduler.high, 1);
    HeldApart(s, SCHEDULER);
    var t := Transacted(s, outcome);
    forall h: bool, k | 0 <= k < 3 && (h != s.scheduler.high || k != 1) && FlightAt(s, h, k).Some?
      ensures SameAdu(s, t, FlightAt(s, h, k).value.adu)
    {
      assert PlaceOf(h, k) != SCHEDULER;
    }
  }

  lemma TransactedContents(s: State, outcome: PortOutcome)
    requires Shape(s) && Owned(s) && ContentsOk(s) && PortOutcomeIsPossible(outcome)
    requires s.scheduler.Transacting? && s.scheduler.request.adu < |s.adus|
    requires ValidateRequest(s.adus[s.scheduler.request.adu]) == RtuOk
    ensures ContentsOk(Transacted(s, outcome))
  {
    hide ValidateRequest, Transact, Owned, HolderAt, RtuFrame, IsRequest, AnswersRequest;
    var t, a, high := Transacted(s, outcome), s.scheduler.request.adu, s.scheduler.high;
    var x := Exchange(s.adus[a], outcome, Transact(s.adus[a], outcome));
    TransactedFrame(s, outcome);
    assert FlightAt(t, high, 1) == Some(Flight(s.scheduler.request.serial, a, Some(x)));
    if IsForwarded(x.result) {
      ForwardedAnswersRequest(s.adus[a], outcome);
      assert t.adus[a] == outcome.bytes;
    }
    forall i, k | 0 <= i < MAX_CLIENTS && 0 <= k < 3 && IsClient(t, i, Waiting) && FlightAt(t, true, k).Some?
                  && FlightAt(t, true, k).value.serial == t.clients[i].serial
      ensures CarriesFor(t.adus[FlightAt(t, true, k).value.adu], FlightAt(t, true, k).value.done, t.clients[i].recv)
    {
      assert IsClient(s, i, Waiting) && FlightAt(s, true, k).Some? && FlightAt(s, true, k).value.serial == s.clients[i].serial;
    }
  }

  lemma SerialsSame(s: State, t: State)
    requires Shape(s) && HighSerialsOk(s) && ClientSerialsOk(s) && t.clients == s.clients && t.issued == s.issued
    requires forall k | 0 <= k < 3 :: FlightAt(t, true, k).Some? == FlightAt(s, true, k).Some?
    requires forall k | 0 <= k < 3 && FlightAt(t, true, k).Some? :: FlightAt(t, true, k).value.serial == FlightAt(s, true, k).value.serial
    ensures HighSerialsOk(t) && ClientSerialsOk(t)
  {
    forall i | 0 <= i < MAX_CLIENTS && IsClient(t, i, Waiting) ensures InFlight(t, t.clients[i].serial) {
      assert IsClient(s, i, Waiting);
      var k :| 0 <= k < 3 && FlightAt(s, true, k).Some? && FlightAt(s, true, k).value.serial == s.clients[i].serial;
      assert FlightAt(t, true, k).Some?;
    }
    forall i, k | 0 <= i < MAX_CLIENTS && 0 <= k < 3 && IsClient(t, i, Submitting) && FlightAt(t, true, k).Some?
      ensures FlightAt(t, true, k).value.serial != t.clients[i].serial
    {
      assert IsClient(s, i, Submitting) && FlightAt(s, true, k).Some?;
    }
  }

  lemma RunTransactionKeeps(s: State, outcome: PortOutcome)
    requires Inv(s) && PortOutcomeIsPossible(outcome)
    requires s.scheduler.Transacting? && s.scheduler.request.adu < |s.adus|
    requires ValidateRequest(s.adus[s.scheduler.request.adu]) == RtuOk
    ensures Inv(Transacted(s, outcome))
  {
    hide Token, ContentsOk, HighSerialsOk, ClientSerialsOk, Owned, HasWaitingClient, ClientsOk, Pending, ValidateRequest, Transact;
    var t := Transacted(s, outcome);
    TransactedContents(s, outcome);
    SameKeeps(s, t);
    SerialsSame(s, t);
  }

  // ---- collector steps

  lemma CollectorAllocateTraffic(s: State, encoded: Option<seq<byte>>)
    requires Traffic(s) && s.collector == CollectorIdle && (encoded.Some? ==> ValidateRequest(encoded.value) == RtuOk)
    ensures Traffic(CollectorAllocated(s, encoded))
  {
    hide Token, HighSerialsOk, ClientSerialsOk, Owned, HasWaitingClient, ValidateRequest, CarriesFor, FirstFree, LowChainOk;
    var t, free := CollectorAllocated(s, encoded), FirstFree(s.available);
    if free.Some? {
      FreeIsFree(s.available);
      FreeApart(s, free.value);
      TakeKeeps(s, t, free.value, COLLECTOR);
      assert forall high: bool, k | 0 <= k < 3 :: FlightAt(t, high, k) == FlightAt(s, high, k);
      SerialsSame(s, t);
      LowIdle(s, t);
    }
  }

  lemma LowIdle(s: State, t: State)
    requires LowChainOk(s) && !s.collector.CollectorWaiting? && !t.collector.CollectorWaiting?
    requires forall k | 0 <= k < 3 :: FlightAt(t, false, k) == FlightAt(s, false, k)
    ensures LowChainOk(t)
  {
  }

  lemma CollectorAllocateKeeps(s: State, encoded: Option<seq<byte>>)
    requires Inv(s) && s.collector == CollectorIdle && (encoded.Some? ==> ValidateRequest(encoded.value) == RtuOk)
    ensures Inv(CollectorAllocated(s, encoded))
  {
    hide Traffic, Scheduling, ClientsOk, ValidateRequest, FirstFree;
    CollectorAllocateTraffic(s, encoded);
    ShapeOf(s);
    SchedulingKept(s, CollectorAllocated(s, encoded));
  }

  lemma CollectorSubmitKeeps(s: State)
    requires Inv(s) && s.collector.CollectorSubmitting?
    ensures Inv(CollectorSubmitted(s)) && s.lowRequest.None?
  {
    hide Token, HighSerialsOk, ClientSerialsOk, Owned, HasWaitingClient, ClientsOk, ValidateRequest, CarriesFor;
    var t := CollectorSubmitted(s);
    assert FlightAt(s, false, 0).None?;
    MoveKeeps(s, t, COLLECTOR, LOW_REQUEST);
    assert forall k | 0 <= k < 3 :: FlightAt(t, true, k) == FlightAt(s, true, k);
    assert FlightAt(t, false, 1) == FlightAt(s, false, 1) && FlightAt(t, false, 2) == FlightAt(s, false, 2);
    SerialsSame(s, t);
    PendingAppend(s.queueSet, false, true);
    PendingAppend(s.queueSet, false, false);
  }

  lemma CollectorReceiveKeeps(s: State)
    requires Inv(s) && s.collector.CollectorWaiting? && s.lowResponse.Some?
    ensures Inv(CollectorReceived(s)) && s.lowResponse.value.serial == s.collector.serial
  {
    hide Token, Scheduling, HighSerialsOk, ClientSerialsOk, Owned, HasWaitingClient, ClientsOk, ValidateRequest, CarriesFor, ContentsOk;
    var t := CollectorReceived(s);
    SchedulingKept(s, t);
    MoveKeeps(s, t, LOW_RESPONSE, COLLECTOR);
    assert FlightAt(s, false, 2).Some? && FlightAt(s, false, 0).None? && FlightAt(s, false, 1).None?;
    assert forall k | 0 <= k < 3 :: FlightAt(t, true, k) == FlightAt(s, true, k);
    SerialsSame(s, t);
    ContentsKept(s, t);
  }

  lemma CollectorReleaseKeeps(s: State)
    requires Inv(s) && s.collector.CollectorReleasing? && s.collector.adu < |s.adus|
    ensures Inv(CollectorReleased(s))
  {
    hide Token, Scheduling, HighSerialsOk, ClientSerialsOk, Owned, HasWaitingClient, ClientsOk, ValidateRequest, CarriesFor, ContentsOk;
    var t := CollectorReleased(s);
    SchedulingKept(s, t);
    HeldApart(s, COLLECTOR);
    DropKeeps(s, t, COLLECTOR);
    assert forall high: bool, k | 0 <= k < 3 :: FlightAt(t, high, k) == FlightAt(s, high, k);
    SerialsSame(s, t);
    ContentsKept(s, t);
  }

  // ---- TCP server steps

  lemma TokensTellApart(s: State, n: nat, m: nat)
    requires InWindow(s, n) && InWindow(s, m) && Token(n) == Token(m)
    ensures n == m
  {
    var w := 0x1_0000_0000;
    assert n == n / w * w + Token(n) && m == m / w * w + Token(m);
  }

  /** A client that does not hold or await anything changes. */
  lemma QuietClientKeeps(s: State, i: nat, c: Client)
    requires Inv(s) && s.tcp == TcpIdle && i < MAX_CLIENTS && !IsLive(s.clients[i]) && !IsLive(c) && ClientOk(c)
    ensures Inv(WithClient(s, i, c))
  {
    hide Token, Scheduling, HighSerialsOk, ClientSerialsOk, Owned, HasWaitingClient, ContentsOk, ClientOk, LowChainOk;
    var t := WithClient(s, i, c);
    SchedulingKept(s, t);
    assert forall high: bool, k | 0 <= k < 3 :: FlightAt(t, high, k) == FlightAt(s, high, k);
    LowKept(s, t);
    StillInFlight(s, t);
    SameKeeps(s, t);
    SerialsKept(s, t);
    ContentsKept(s, t);
  }

  lemma AcceptStepKeeps(s: State, i: nat)
    requires Inv(s) && s.tcp == TcpIdle && i < MAX_CLIENTS && !s.clients[i].open
    ensures Inv(AcceptClient(s, i))
  {
    AcceptKeeps(s.clients[i]);
    hide Inv, ClientOk;
    QuietClientKeeps(s, i, s.clients[i].(open := true, state := Receiving, recv := [], stream := [], out := [], replies := [], origins := []));
  }

  lemma SendStepKeeps(s: State, i: nat, count: nat)
    requires Inv(s) && s.tcp == TcpIdle && IsClient(s, i, Sending)
    requires 1 <= count && s.clients[i].sendOffset + count <= |s.clients[i].send|
    ensures Inv(WithClient(s, i, SendBytes(s.clients[i], count)))
  {
    hide Traffic, Scheduling, ClientOk;
    SendKeeps(s.clients[i], count);
    QuietClientKeeps(s, i, SendBytes(s.clients[i], count)) by { assert Shape(s) by { ShapeOf(s); } }
  }

  lemma ShapeOf(s: State)
    requires Traffic(s)
    ensures Shape(s)
  {
  }

  lemma PeekedSerial(s: State, i: nat)
    requires Shape(s) && HighSerialsOk(s) && ClientSerialsOk(s) && IsClient(s, i, Waiting) && s.highResponse.Some?
    requires Token(s.highResponse.value.serial) == Token(s.clients[i].serial)
    ensures s.highResponse.value.serial == s.clients[i].serial
  {
    assert FlightAt(s, true, 2).Some? && IsLive(s.clients[i]);
    TokensTellApart(s, s.highResponse.value.serial, s.clients[i].serial);
  }

  lemma PeekResponseKeeps(s: State, i: nat)
    requires Inv(s) && s.tcp == TcpIdle && IsClient(s, i, Waiting)
    ensures Inv(PeekFor(s, i))
  {
    hide Token, Scheduling, Owned, HasWaitingClient, ContentsOk, ClientsOk, LowChainOk, HighSerialsOk, ClientSerialsOk;
    var t := PeekFor(s, i);
    SchedulingKept(s, t);
    if t != s {
      PeekedSerial(s, i);
      assert forall high: bool, k | 0 <= k < 3 :: FlightAt(t, high, k) == FlightAt(s, high, k);
      LowKept(s, t);
      SameKeeps(s, t);
      SerialsSame(s, t);
      ContentsKept(s, t);
    }
  }

  lemma PeekExpiredKeeps(s: State)
    requires Inv(s) && s.tcp == TcpIdle
    ensures Inv(PeekForExpired(s))
  {
    hide Token, Scheduling, Owned, HasWaitingClient, ContentsOk, ClientsOk, LowChainOk, HighSerialsOk, ClientSerialsOk;
    var t := PeekForExpired(s);
    if t != s {
      SchedulingKept(s, t);
      assert forall high: bool, k | 0 <= k < 3 :: FlightAt(t, high, k) == FlightAt(s, high, k);
      LowKept(s, t);
      SameKeeps(s, t);
      SerialsSame(s, t);
      ContentsKept(s, t);
    }
  }

  lemma ReleaseAduKeeps(s: State)
    requires Inv(s) && s.tcp.TcpReleasing? && s.tcp.adu < |s.adus|
    ensures Inv(ReleaseHeld(s))
  {
    hide Token, Scheduling, Owned, HasWaitingClient, ContentsOk, ClientsOk, LowChainOk, HighSerialsOk, ClientSerialsOk;
    var t := ReleaseHeld(s);
    SchedulingKept(s, t);
    HeldApart(s, TCP);
    DropKeeps(s, t, TCP);
    assert forall high: bool, k | 0 <= k < 3 :: FlightAt(t, high, k) == FlightAt(s, high, k);
    LowKept(s, t);
    SerialsSame(s, t);
    ContentsKept(s, t);
  }

  /** The response leaves its queue; every client still waiting waits for another one. */
  lemma ResponseTaken(s: State, t: State)
    requires Shape(s) && Shape(t) && HighSerialsOk(s) && ClientSerialsOk(s) && NothingAdded(s, t) && t.issued == s.issued
    requires s.highResponse.Some? && t.highResponse.None?
    requires FlightAt(t, true, 0) == FlightAt(s, true, 0) && FlightAt(t, true, 1) == FlightAt(s, true, 1)
    requires forall i | 0 <= i < MAX_CLIENTS && IsClient(t, i, Waiting) :: t.clients[i].serial != s.highResponse.value.serial
    ensures HighSerialsOk(t) && ClientSerialsOk(t)
  {
    forall i | 0 <= i < MAX_CLIENTS && IsClient(t, i, Waiting) ensures InFlight(t, t.clients[i].serial) {
      assert IsClient(s, i, Waiting);
      var k :| 0 <= k < 3 && FlightAt(s, true, k).Some? && FlightAt(s, true, k).value.serial == s.clients[i].serial;
      assert FlightAt(t, true, k) == FlightAt(s, true, k);
    }
    SerialsKept(s, t);
  }

  lemma TakeExpiredKeeps(s: State)
    requires Inv(s) && s.tcp == TcpExpired && s.highResponse.Some?
    ensures Inv(TakeUnclaimed(s))
  {
    hide Token, Scheduling, Owned, ContentsOk, ClientsOk, LowChainOk, HighSerialsOk, ClientSerialsOk;
    var t := TakeUnclaimed(s);
    SchedulingKept(s, t);
    MoveKeeps(s, t, HIGH_RESPONSE, TCP);
    assert forall high: bool, k | 0 <= k < 3 && !(high && k == 2) :: FlightAt(t, high, k) == FlightAt(s, high, k);
    LowKept(s, t);
    ResponseTaken(s, t);
    ContentsKept(s, t);
  }

  /** The response peeked for a client is still there, and can be turned into its reply. */
  ghost predicate CanTake(s: State) {
    && s.tcp.TcpMatched? && s.tcp.client < |s.clients| && s.highResponse.Some?
    && s.highResponse.value.adu < |s.adus| && IsRequest(s.clients[s.tcp.client].recv)
    && (IsForwarded(s.highResponse.value.exchange.result) ==>
          MIN_LENGTH <= |s.adus[s.highResponse.value.adu]| <= MAX_LENGTH)
  }

  /** What the matched response is worth to its client. */
  lemma MatchedReply(s: State)
    requires Inv(s) && s.tcp.TcpMatched?
    ensures CanTake(s) && ClientOk(TakeMatched(s).clients[s.tcp.client])
  {
    hide Token, Owned, Pending, LowChainOk, HighSerialsOk, ClientSerialsOk, RtuFrame, Answers, TransactionReply, ValidateRequest;
    var i, r := s.tcp.client, s.highResponse.value;
    var c := s.clients[i];
    var x := r.exchange;
    assert FlightAt(s, true, 2) == Some(Flight(r.serial, r.adu, Some(x)));
    PendingIsRequest(c);
    assert CarriesFor(s.adus[r.adu], Some(x), c.recv);
    if IsForwarded(x.result) {
      ForwardedAnswersRequest(x.asked, x.outcome);
    }
    TransactionReplyAnswers(c.recv, x.result, s.adus[r.adu]);
    ReplyWithoutAdu(c.recv, x.result, s.adus[r.adu]);
    StartReplyKeeps(c, TransactionReply(c.recv, x.result, s.adus[r.adu]), Bus(x));
  }

  lemma ReplyWithoutAdu(request: seq<byte>, result: TransactionResult, adu: seq<byte>)
    requires IsRequest(request) && (IsForwarded(result) ==> MIN_LENGTH <= |adu| <= MAX_LENGTH)
    ensures !IsForwarded(result) ==> TransactionReply(request, result, adu) == TransactionReply(request, result, [])
  {
  }

  lemma TakeResponseTraffic(s: State)
    requires Traffic(s) && s.tcp.TcpMatched? && CanTake(s)
    ensures Traffic(TakeMatched(s))
  {
    hide Token, Owned, ContentsOk, LowChainOk, HighSerialsOk, HasWaitingClient, TransactionReply, IsRequest;
    var t, i := TakeMatched(s), s.tcp.client;
    MoveKeeps(s, t, HIGH_RESPONSE, TCP);
    assert forall high: bool, k | 0 <= k < 3 && !(high && k == 2) :: FlightAt(t, high, k) == FlightAt(s, high, k);
    LowKept(s, t);
    assert forall j | 0 <= j < MAX_CLIENTS && IsClient(t, j, Waiting) :: j != i && IsLive(s.clients[j]);
    ResponseTaken(s, t);
    ContentsKept(s, t);
  }

  lemma TakeResponseKeeps(s: State)
    requires Inv(s) && s.tcp.TcpMatched? && CanTake(s)
    ensures Inv(TakeMatched(s))
  {
    hide Traffic, Scheduling, ClientOk, TransactionReply, IsRequest;
    MatchedReply(s);
    TakeResponseTraffic(s);
    SchedulingKept(s, TakeMatched(s));
  }

  lemma CloseTraffic(s: State, i: nat)
    requires Traffic(s) && s.tcp == TcpIdle && i < MAX_CLIENTS && s.clients[i].open
    requires s.clients[i].state == Submitting ==> s.clients[i].adu < |s.adus|
    ensures Traffic(CloseClient(s, i))
  {
    hide Token, Owned, ContentsOk, LowChainOk, HighSerialsOk, ClientSerialsOk, HasWaitingClient;
    var t := CloseClient(s, i);
    if s.clients[i].state == Submitting {
      HeldApart(s, i);
      DropKeeps(s, t, i);
    } else {
      SameKeeps(s, t);
    }
    assert forall high: bool, k | 0 <= k < 3 :: FlightAt(t, high, k) == FlightAt(s, high, k);
    LowKept(s, t);
    StillInFlight(s, t);
    SerialsKept(s, t);
    ContentsKept(s, t);
  }

  lemma CloseStepKeeps(s: State, i: nat)
    requires Inv(s) && s.tcp == TcpIdle && i < MAX_CLIENTS && s.clients[i].open
    requires s.clients[i].state == Submitting ==> s.clients[i].adu < |s.adus|
    ensures Inv(CloseClient(s, i))
  {
    hide Traffic, Scheduling, ClientOk;
    ShapeOf(s);
    CloseTraffic(s, i);
    ClosedOk(s.clients[i].(open := false));
    SchedulingKept(s, CloseClient(s, i));
  }

  lemma SubmitSerials(s: State, i: nat)
    requires Shape(s) && HighSerialsOk(s) && ClientSerialsOk(s) && IsClient(s, i, Submitting) && s.highRequest.None?
    ensures HighSerialsOk(SubmitRequest(s, i)) && ClientSerialsOk(SubmitRequest(s, i))
  {
    hide InWindow;
    var t, c := SubmitRequest(s, i), s.clients[i];
    assert FlightAt(t, true, 0) == Some(Flight(c.serial, c.adu, None));
    assert forall k | 1 <= k < 3 :: FlightAt(t, true, k) == FlightAt(s, true, k);
    assert InWindow(s, c.serial) && IsLive(c);
    assert forall n: nat :: InWindow(t, n) == InWindow(s, n) by { WindowSame(s, t); }
    assert forall k | 1 <= k < 3 && FlightAt(t, true, k).Some? :: FlightAt(t, true, k).value.serial != c.serial;
    assert forall j | 0 <= j < MAX_CLIENTS && j != i :: t.clients[j] == s.clients[j];
    forall j, k | 0 <= j < MAX_CLIENTS && 0 <= k < 3 && IsClient(t, j, Submitting) && FlightAt(t, true, k).Some?
      ensures FlightAt(t, true, k).value.serial != t.clients[j].serial
    {
      assert j != i && IsClient(s, j, Submitting) && IsLive(s.clients[j]);
    }
    forall j | 0 <= j < MAX_CLIENTS && IsClient(t, j, Waiting) ensures InFlight(t, t.clients[j].serial) {
      if j != i {
        assert IsClient(s, j, Waiting);
        var k :| 0 <= k < 3 && FlightAt(s, true, k).Some? && FlightAt(s, true, k).value.serial == s.clients[j].serial;
        assert k != 0 && FlightAt(t, true, k).Some?;
      } else {
        assert FlightAt(t, true, 0).value.serial == t.clients[j].serial;
      }
    }
  }

  lemma WindowSame(s: State, t: State)
    requires s.issued == t.issued
    ensures forall n: nat :: InWindow(t, n) == InWindow(s, n)
  {
  }

  lemma SubmitContents(s: State, i: nat)
    requires Shape(s) && ContentsOk(s) && ClientSerialsOk(s) && IsClient(s, i, Submitting) && s.highRequest.None?
    ensures ContentsOk(SubmitRequest(s, i))
  {
    hide CarriesFor, ValidateRequest, InWindow;
    var t, c := SubmitRequest(s, i), s.clients[i];
    assert FlightAt(t, true, 0) == Some(Flight(c.serial, c.adu, None));
    assert forall high: bool, k | 0 <= k < 3 && (!high || k > 0) :: FlightAt(t, high, k) == FlightAt(s, high, k);
    assert IsLive(c);
    forall j, k | 0 <= j < MAX_CLIENTS && 0 <= k < 3 && IsClient(t, j, Waiting) && FlightAt(t, true, k).Some?
                  && FlightAt(t, true, k).value.serial == t.clients[j].serial
      ensures CarriesFor(t.adus[FlightAt(t, true, k).value.adu], FlightAt(t, true, k).value.done, t.clients[j].recv)
    {
      if j == i {
        assert k == 0;
      } else {
        assert IsClient(s, j, Waiting) && IsLive(s.clients[j]) && k != 0;
      }
    }
  }

  lemma SubmitStepKeeps(s: State, i: nat)
    requires Inv(s) && s.tcp == TcpIdle && IsClient(s, i, Submitting)
    ensures Inv(SubmitRequest(s, i))
  {
    hide Token, Owned, ContentsOk, LowChainOk, HighSerialsOk, ClientSerialsOk, HasWaitingClient, ClientOk;
    var t := SubmitRequest(s, i);
    SubmittedOk(s.clients[i]);
    if s.highRequest.None? {
      MoveKeeps(s, t, i, HIGH_REQUEST);
      SubmitSerials(s, i);
      SubmitContents(s, i);
      LowKept(s, t);
      PendingAppend(s.queueSet, true, true);
      PendingAppend(s.queueSet, true, false);
    }
  }

  lemma SubmittedOk(c: Client)
    requires ClientOk(c) && c.open && c.state == Submitting
    ensures ClientOk(c.(state := Waiting))
  {
  }

  // ---- receiving a request

  /** A client with a complete valid request takes a free ADU and a fresh token. */
  lemma IssueSerials(s: State, t: State, i: nat)
    requires Shape(s) && Shape(t) && HighSerialsOk(s) && ClientSerialsOk(s) && TokensSuffice(s)
    requires i < MAX_CLIENTS && t.issued == s.issued + 1
    requires IsClient(t, i, Submitting) && t.clients[i].serial == s.issued
    requires forall j | 0 <= j < MAX_CLIENTS && j != i :: t.clients[j] == s.clients[j]
    requires forall k | 0 <= k < 3 :: FlightAt(t, true, k) == FlightAt(s, true, k)
    ensures HighSerialsOk(t) && ClientSerialsOk(t)
  {
    assert forall j | 0 <= j < MAX_CLIENTS && j != i && IsLive(t.clients[j]) :: s.clients[j] in s.clients && InWindow(t, t.clients[j].serial);
    forall j | 0 <= j < MAX_CLIENTS && IsClient(t, j, Waiting) ensures InFlight(t, t.clients[j].serial) {
      assert IsClient(s, j, Waiting);
      var k :| 0 <= k < 3 && FlightAt(s, true, k).Some? && FlightAt(s, true, k).value.serial == s.clients[j].serial;
      assert FlightAt(t, true, k).Some?;
    }
    forall j, k | 0 <= j < MAX_CLIENTS && 0 <= k < 3 && IsClient(t, j, Submitting) && FlightAt(t, true, k).Some?
      ensures FlightAt(t, true, k).value.serial != t.clients[j].serial
    {
      assert FlightAt(s, true, k).Some? && (j != i ==> IsClient(s, j, Submitting));
    }
  }

  lemma IssueTraffic(s: State, i: nat, c: Client, a: nat)
    requires Traffic(s) && s.tcp == TcpIdle && TokensSuffice(s) && i < MAX_CLIENTS && !IsLive(s.clients[i])
    requires c.open && IsRequest(c.recv) && a < CAPACITY && s.available[a] && ValidateRequest(RtuFrame(c.recv)) == RtuOk
    ensures var s1 := s.(available := s.available[a := false], adus := s.adus[a := RtuFrame(c.recv)]);
            Traffic(WithClient(s1, i, c.(state := Submitting, serial := s.issued, adu := a)).(issued := s.issued + 1))
  {
    hide Token, Owned, LowChainOk, HighSerialsOk, ClientSerialsOk, HasWaitingClient, IsRequest, RtuFrame, ValidateRequest, TokensSuffice;
    var s1 := s.(available := s.available[a := false], adus := s.adus[a := RtuFrame(c.recv)]);
    var t := WithClient(s1, i, c.(state := Submitting, serial := s.issued, adu := a)).(issued := s.issued + 1);
    assert forall high: bool, k | 0 <= k < 3 :: FlightAt(t, high, k) == FlightAt(s, high, k);
    TakeKeeps(s, t, a, i);
    IssueSerials(s, t, i);
    FreeApart(s, a);
    LowKept(s, t);
  }

  /** A request that fails validation keeps its ADU only until the TCP task releases it. */
  lemma RefuseTraffic(s: State, i: nat, c: Client, a: nat, frame: seq<byte>)
    requires Traffic(s) && s.tcp == TcpIdle && i < MAX_CLIENTS && !IsLive(s.clients[i])
    requires c.open && c.state == Sending && a < CAPACITY && s.available[a]
    ensures var s1 := s.(available := s.available[a := false], adus := s.adus[a := frame]);
            Traffic(WithClient(s1, i, c).(tcp := TcpReleasing(a, Some(i))))
  {
    hide Token, Owned, LowChainOk, HighSerialsOk, ClientSerialsOk, HasWaitingClient, ContentsOk;
    var s1 := s.(available := s.available[a := false], adus := s.adus[a := frame]);
    var t := WithClient(s1, i, c).(tcp := TcpReleasing(a, Some(i)));
    assert forall high: bool, k | 0 <= k < 3 :: FlightAt(t, high, k) == FlightAt(s, high, k);
    TakeKeeps(s, t, a, TCP);
    FreeApart(s, a);
    LowKept(s, t);
    StillInFlight(s, t);
    SerialsKept(s, t);
    ContentsKept(s, t);
  }

  /** No free ADU: the server answers at once. */
  lemma AnswerKeeps(s: State, i: nat, c: Client, code: byte)
    requires Inv(s) && s.tcp == TcpIdle && i < MAX_CLIENTS && !IsLive(s.clients[i])
    requires c.open && HoldsPending(c) && IsRequest(c.recv) && MayRefuse(c.recv, code)
    ensures Inv(WithClient(s, i, StartReply(c, ExceptionReply(c.recv, code), Local(code))))
  {
    hide Inv, HoldsPending, IsRequest, Answers, ExceptionReply, ClientOk, MayRefuse;
    InvShape(s);
    LocalReply(c, code);
    QuietClientKeeps(s, i, StartReply(c, ExceptionReply(c.recv, code), Local(code)));
  }

  /** An exception of the server's own is a reply to the pending request. */
  lemma LocalReply(c: Client, code: byte)
    requires HoldsPending(c) && IsRequest(c.recv) && MayRefuse(c.recv, code)
    ensures ClientOk(StartReply(c, ExceptionReply(c.recv, code), Local(code)))
  {
    hide HoldsPending, IsRequest, Answers, ExceptionReply, ClientOk, MayRefuse;
    ExceptionReplyAnswers(c.recv, code);
    StartReplyKeeps(c, ExceptionReply(c.recv, code), Local(code));
  }

  /** A valid request with a free ADU waits to be submitted. */
  lemma IssueKeeps(s: State, i: nat, c: Client, a: nat)
    requires Inv(s) && s.tcp == TcpIdle && TokensSuffice(s) && i < MAX_CLIENTS && !IsLive(s.clients[i])
    requires c.open && HoldsPending(c) && IsRequest(c.recv)
    requires a < CAPACITY && s.available[a] && ValidateRequest(RtuFrame(c.recv)) == RtuOk
    ensures var s1 := s.(available := s.available[a := false], adus := s.adus[a := RtuFrame(c.recv)]);
            Inv(WithClient(s1, i, c.(state := Submitting, serial := s.issued, adu := a)).(issued := s.issued + 1))
  {
    hide Traffic, Scheduling, HoldsPending, IsRequest, RtuFrame, ValidateRequest, TokensSuffice, ClientOk;
    ShapeOf(s);
    var s1 := s.(available := s.available[a := false], adus := s.adus[a := RtuFrame(c.recv)]);
    var t := WithClient(s1, i, c.(state := Submitting, serial := s.issued, adu := a)).(issued := s.issued + 1);
    IssueTraffic(s, i, c, a);
    SchedulingKept(s, t);
    PendingStates(c, s.issued, a);
  }

  /** A request that fails validation is answered, and its ADU is about to be released. */
  lemma RefuseKeeps(s: State, i: nat, c: Client, a: nat, frame: seq<byte>, code: byte)
    requires Inv(s) && s.tcp == TcpIdle && i < MAX_CLIENTS && !IsLive(s.clients[i])
    requires c.open && HoldsPending(c) && IsRequest(c.recv) && a < CAPACITY && s.available[a] && MayRefuse(c.recv, code)
    ensures var s1 := s.(available := s.available[a := false], adus := s.adus[a := frame]);
            Inv(WithClient(s1, i, StartReply(c, ExceptionReply(c.recv, code), Local(code))).(tcp := TcpReleasing(a, Some(i))))
  {
    hide Traffic, Scheduling, HoldsPending, IsRequest, ExceptionReply, ClientOk, MayRefuse;
    ShapeOf(s);
    var d := StartReply(c, ExceptionReply(c.recv, code), Local(code));
    var s1 := s.(available := s.available[a := false], adus := s.adus[a := frame]);
    LocalReply(c, code);
    RefuseTraffic(s, i, d, a, frame);
    SchedulingKept(s, WithClient(s1, i, d).(tcp := TcpReleasing(a, Some(i))));
  }

  lemma HandleRequestKeeps(s: State, i: nat, c: Client)
    requires Inv(s) && s.tcp == TcpIdle && TokensSuffice(s) && i < MAX_CLIENTS && !IsLive(s.clients[i])
    requires c.open && c.state == Receiving && HoldsPending(c) && IsRequest(c.recv)
    ensures Inv(HandleRequest(s, i, c))
  {
    hide Inv, HoldsPending, IsRequest, RtuFrame, ValidateRequest, TokensSuffice, ExceptionReply, FirstFree, ValidationException, WithClient,
         StartReply, IsLive;
    InvShape(s);
    var free, frame := FirstFree(s.available), RtuFrame(c.recv);
    FreeIsFree(s.available);
    if free.None? {
      AnswerKeeps(s, i, c, 4);
    } else if ValidateRequest(frame) == RtuOk {
      IssueKeeps(s, i, c, free.value);
    } else {
      RefuseKeeps(s, i, c, free.value, frame, ValidationException(ValidateRequest(frame)));
    }
  }

  lemma FreeIsFree(available: seq<bool>)
    ensures var r := FirstFree(available); r.Some? ==> r.value < |available| && available[r.value]
  {
  }

  lemma PendingStates(c: Client, serial: nat, adu: nat)
    requires HoldsPending(c)
    ensures ClientOk(c.(state := Submitting, serial := serial, adu := adu))
  {
  }

  lemma ReceiveStepKeeps(s: State, i: nat, data: seq<byte>)
    requires Inv(s) && s.tcp == TcpIdle && TokensSuffice(s) && IsClient(s, i, Receiving)
    requires 1 <= |data| <= MaxBytes(s.clients[i].recv)
    ensures Inv(ReceiveData(s, i, data))
  {
    hide Traffic, Scheduling, HoldsPending, ClientOk, TokensSuffice, IsRequest, HandleRequest, HeaderIsBad, MaxBytes;
    ShapeOf(s);
    var before := s.clients[i].recv;
    var c := s.clients[i].(recv := before + data, stream := s.clients[i].stream + data);
    ReceiveKeeps(s.clients[i], data);
    if |before| < HEADER_LENGTH && |c.recv| >= HEADER_LENGTH {
      var d := c.(open := !HeaderIsBad(c.recv));
      if HeaderIsBad(c.recv) {
        ClosedOk(d);
      } else {
        assert d == c;
      }
      QuietClientKeeps(s, i, d);
    } else if IsRequest(c.recv) {
      HandleRequestKeeps(s, i, c);
    } else {
      QuietClientKeeps(s, i, c);
    }
  }

  lemma ClosedOk(c: Client)
    requires !c.open
    ensures ClientOk(c)
  {
  }

  // ---- every run

  lemma StepKeeps(s: State, step: Step)
    requires Inv(s) && Enabled(s, step)
    ensures Inv(Apply(s, step))
  {
    hide Inv, TokensSuffice, ValidateRequest, PointRequest, IsRequest, MaxBytes, IsForwarded, PortOutcomeIsPossible, RequestQueue, ResponseQueue;
    InvShape(s);
    match step {
      case Accept(i) => AcceptStepKeeps(s, i);
      case Receive(i, data) => ReceiveStepKeeps(s, i, data);
      case Close(i) => CloseStepKeeps(s, i);
      case Submit(i) => SubmitStepKeeps(s, i);
      case PeekResponse(i) => PeekResponseKeeps(s, i);
      case TakeResponse => TakeResponseKeeps(s);
      case PeekExpired => PeekExpiredKeeps(s);
      case TakeExpired => TakeExpiredKeeps(s);
      case ReleaseAdu => ReleaseAduKeeps(s);
      case Send(i, count) => SendStepKeeps(s, i, count);
      case Select => SelectKeeps(s);
      case Choose => ChooseKeeps(s);
      case ReceiveRequest => ReceiveRequestKeeps(s);
      case RunTransaction(outcome) => RunTransactionKeeps(s, outcome);
      case Respond => RespondKeeps(s);
      case CollectorAllocate(slave, source, address) => CollectorAllocateKeeps(s, PointRequest(slave, source, address));
      case CollectorSubmit => CollectorSubmitKeeps(s);
      case CollectorReceive => CollectorReceiveKeeps(s);
      case CollectorRelease => CollectorReleaseKeeps(s);
    }
  }

  lemma InvShape(s: State)
    requires Inv(s)
    ensures Shape(s)
  {
  }

  lemma {:induction false} ReachedInv(run: seq<Step>, s: State)
    requires Reaches(run, s)
    ensures Inv(s)
    decreases |run|
  {
    hide Inv, Enabled, Apply;
    if run == [] {
      InitialInv();
    } else {
      var n := |run| - 1;
      var p :| Reaches(run[..n], p) && Enabled(p, run[n]) && s == Apply(p, run[n]);
      ReachedInv(run[..n], p);
      StepKeeps(p, run[n]);
    }
  }

  /** Ownership. In every run each ADU is either available and held by nobody, or held by exactly one of the
      eleven places; none leaks, none is shared, none can be released twice. */
  lemma EachAduHasOneHolder(run: seq<Step>, s: State, a: nat)
    requires Reaches(run, s) && a < CAPACITY
    ensures Shape(s)
    ensures s.available[a] <==> !Holds(s, a)
    ensures forall p, q | 0 <= p < PLACES && 0 <= q < PLACES && HolderAt(s, p) == Some(a) && HolderAt(s, q) == Some(a) :: p == q
  {
    ReachedInv(run, s);
    hide HolderAt;
  }

  /** Every receive and release the tasks make without checking succeeds: the peeked response is still queued and
      belongs to the client it was matched with, the chosen request queue is not empty, the frame on the bus
      is valid, and the collector never meets a full queue nor a foreign token. */
  lemma UncheckedCallsSucceed(run: seq<Step>, s: State)
    requires Reaches(run, s)
    ensures Shape(s)
    ensures s.tcp.TcpMatched? ==> CanTake(s) && s.highResponse.value.serial == s.clients[s.tcp.client].serial
    ensures s.tcp == TcpExpired ==> s.highResponse.Some? && !HasWaitingClient(s.clients, Token(s.highResponse.value.serial))
    ensures s.tcp.TcpReleasing? ==> s.tcp.adu < CAPACITY && !s.available[s.tcp.adu]
    ensures s.scheduler.ReceivingRequest? ==> RequestQueue(s, s.scheduler.high).Some?
    ensures s.scheduler.Transacting? ==>
              s.scheduler.request.adu < CAPACITY && ValidateRequest(s.adus[s.scheduler.request.adu]) == RtuOk
    ensures s.collector.CollectorSubmitting? ==> s.lowRequest.None?
    ensures s.collector.CollectorWaiting? && s.lowResponse.Some? ==> s.lowResponse.value.serial == s.collector.serial
  {
    hide ValidateRequest, IsRequest, ClientOk, CarriesFor, Token;
    ReachedInv(run, s);
    if s.tcp.TcpMatched? {
      MatchedReply(s);
    }
    assert s.tcp.TcpReleasing? ==> HolderAt(s, TCP).Some?;
    if s.scheduler.Transacting? {
      assert FlightAt(s, s.scheduler.high, 1).Some?;
    }
    assert FlightAt(s, false, 0).Some? <==> s.lowRequest.Some?;
    assert FlightAt(s, false, 2).Some? <==> s.lowResponse.Some?;
  }

  /** For every byte stream, every fragmentation and every interleaving, an open connection is served exactly. */
  lemma ConnectionIsServed(run: seq<Step>, s: State, i: nat)
    requires Reaches(run, s) && i < MAX_CLIENTS
    ensures Shape(s)
    ensures s.clients[i].open ==> Served(s.clients[i])
  {
    hide Scheduling, ClientOk, Served, ContentsOk, HighSerialsOk, ClientSerialsOk, Owned;
    ReachedInv(run, s);
    if s.clients[i].open {
      ClientIsServed(s.clients[i]);
    }
  }

  /** Bounded overtaking. While a low-priority request is queued, at most two high-priority transactions are
      received before it. */
  lemma LowRequestIsOvertakenTwice(run: seq<Step>, s: State)
    requires Reaches(run, s) && s.lowRequest.Some?
    ensures s.overtakes <= MAX_CONSECUTIVE_HIGH
  {
    ReachedInv(run, s);
  }

  /** Two low-priority transactions are never chosen in a row while a high-priority one is visible. */
  lemma LowIsNotChosenTwice(run: seq<Step>, s: State)
    requires Reaches(run, s) && Enabled(s, Choose) && s.lastLow && s.selectedHigh > 0
    ensures Apply(s, Choose).scheduler == ReceivingRequest(true)
  {
    ReachedInv(run, s);
  }

  /** Selected and pending events add up to the occupancy of each queue. */
  lemma EventsMatchOccupancy(run: seq<Step>, s: State)
    requires Reaches(run, s)
    ensures QueueSetOk(s) && |s.queueSet| <= 2
  {
    ReachedInv(run, s);
    PendingCounts(s.queueSet);
  }

  lemma {:induction false} PendingCounts(q: seq<bool>)
    ensures Pending(q, true) + Pending(q, false) == |q|
  {
    if q != [] {
      PendingCounts(q[1..]);
    }
  }
}
