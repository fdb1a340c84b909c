/** The gateway pipeline as one transition system: the TCP server task, the transaction scheduler task and
    the collector task exchange pooled ADUs through queues of length one.

    Every pool call, queue send, queue receive, queue peek and queue-set select is one atomic step;
    the code of a task between two of them only touches data of that task and is folded into the
    step before it. Steps of the three tasks interleave in any order, and a client may be closed at any
    point where its task could notice. */
module Gateway {
  import opened Bytes
  import opened Rtu
  import opened Mbap
  import opened AduPool

  const MAX_CLIENTS := 4
  const MAX_CONSECUTIVE_HIGH := 2

  /** Requests are named by how many were issued before them; the code compares this 32-bit token. */
  function Token(serial: nat): u32 {
    serial % 0x1_0000_0000
  }

  datatype Request = Request(serial: nat, adu: nat)

  /** What went over the bus in one transaction: the frame sent, the outcome of the port, and the verdict. */
  datatype Exchange = Exchange(asked: seq<byte>, outcome: PortOutcome, result: TransactionResult)

  /** A response; its `exchange` holds the result, and as history the frame and the outcome behind it. */
  datatype Response = Response(serial: nat, adu: nat, exchange: Exchange)

  /** Where a reply came from: made up by the server, or from one transaction. */
  datatype Origin = Local(code: byte) | Bus(exchange: Exchange)

  datatype ClientState = Receiving | Submitting | Waiting | Sending

  /** One slot of `clients[]`. The last four fields are the history of the current connection: bytes
      received, bytes sent, the replies started, and where each reply came from. */
  datatype Client = Client(
    open: bool, state: ClientState, recv: seq<byte>, serial: nat, adu: nat, send: seq<byte>, sendOffset: nat,
    stream: seq<byte>, out: seq<byte>, replies: seq<seq<byte>>, origins: seq<Origin>)

  /** Where the TCP task stands: between clients, about to receive a response it peeked for a client or found
      expired, or about to release an ADU (of an open client, or of a dropped response). */
  datatype TcpTask = TcpIdle | TcpMatched(client: nat) | TcpExpired | TcpReleasing(adu: nat, owner: Option<nat>)

  datatype SchedulerTask =
    | Selecting
    | ReceivingRequest(high: bool)
    | Transacting(high: bool, request: Request)
    | Responding(high: bool, response: Response)

  datatype CollectorTask =
    | CollectorIdle
    | CollectorSubmitting(request: Request)
    | CollectorWaiting(serial: nat)
    | CollectorReleasing(adu: nat)

  /** `overtakes` counts the high transactions received since the low request now queued was posted;
      `lastLow` tells whether the last choice of the scheduler was low. Both are history. */
  datatype State = State(
    clients: seq<Client>, available: seq<bool>, adus: seq<seq<byte>>, tcp: TcpTask,
    highRequest: Option<Request>, highResponse: Option<Response>,
    lowRequest: Option<Request>, lowResponse: Option<Response>,
    queueSet: seq<bool>, selectedHigh: nat, selectedLow: nat, consecutiveHigh: nat, scheduler: SchedulerTask,
    collector: CollectorTask, issued: nat, collectorIssued: nat,
    overtakes: nat, lastLow: bool)

  const CLOSED_CLIENT := Client(false, Receiving, [], 0, 0, [], 0, [], [], [], [])

  const INITIAL := State(
    [CLOSED_CLIENT, CLOSED_CLIENT, CLOSED_CLIENT, CLOSED_CLIENT],
    [true, true, true, true, true, true], [[], [], [], [], [], []], TcpIdle,
    None, None, None, None, [], 0, 0, 0, Selecting, CollectorIdle, 0, 0, 0, false)

  datatype Step =
    | Accept(i: nat)
    | Receive(i: nat, data: seq<byte>)
    | Close(i: nat)
    | Submit(i: nat)
    | PeekResponse(i: nat)
    | TakeResponse
    | PeekExpired
    | TakeExpired
    | ReleaseAdu
    | Send(i: nat, count: nat)
    | Select
    | Choose
    | ReceiveRequest
    | RunTransaction(outcome: PortOutcome)
    | Respond
    | CollectorAllocate(slave: byte, source: byte, address: u16)
    | CollectorSubmit
    | CollectorReceive
    | CollectorRelease

  // ---- requests on their way

  /** A request somewhere between submission and the receipt of its response. */
  datatype Flight = Flight(serial: nat, adu: nat, done: Option<Exchange>)

  /** The three places a request of one priority can be: request queue, scheduler, response queue. */
  function FlightAt(s: State, high: bool, k: nat): Option<Flight> {
    if k == 0 then
      var q := RequestQueue(s, high);
      if q.Some? then Some(Flight(q.value.serial, q.value.adu, None)) else None
    else if k == 1 then
      match s.scheduler
      case Transacting(h, r) => if h == high then Some(Flight(r.serial, r.adu, None)) else None
      case Responding(h, r) => if h == high then Some(Flight(r.serial, r.adu, Some(r.exchange))) else None
      case _ => None
    else if k == 2 then
      var q := ResponseQueue(s, high);
      if q.Some? then Some(Flight(q.value.serial, q.value.adu, Some(q.value.exchange))) else None
    else None
  }

  predicate IsLive(c: Client) {
    c.open && (c.state == Submitting || c.state == Waiting)
  }

  /** A token may be issued only while fewer than 2^32 were issued since any request still on its way. */
  ghost predicate TokensSuffice(s: State) {
    && (forall k | 0 <= k < 3 && FlightAt(s, true, k).Some? :: s.issued < FlightAt(s, true, k).value.serial + 0x1_0000_0000)
    && (forall c | c in s.clients && IsLive(c) :: s.issued < c.serial + 0x1_0000_0000)
  }

  // ---- the TCP server task

  predicate IsClient(s: State, i: nat, state: ClientState) {
    i < |s.clients| && s.clients[i].open && s.clients[i].state == state
  }

  function WithClient(s: State, i: nat, c: Client): State
    requires i < |s.clients|
  {
    s.(clients := s.clients[i := c])
  }

  function StartReply(c: Client, reply: seq<byte>, origin: Origin): Client {
    c.(state := Sending, send := reply, sendOffset := 0, replies := c.replies + [reply], origins := c.origins + [origin])
  }

  /** `server_accept` */
  function AcceptClient(s: State, i: nat): State
    requires i < |s.clients|
  {
    WithClient(s, i, s.clients[i].(open := true, state := Receiving, recv := [], stream := [], out := [], replies := [], origins := []))
  }

  /** `client_submit_rtu_request` */
  function SubmitRequest(s: State, i: nat): State
    requires i < |s.clients|
  {
    var c := s.clients[i];
    if s.highRequest.Some? then s
    else WithClient(s, i, c.(state := Waiting))
         .(highRequest := Some(Request(c.serial, c.adu)), queueSet := s.queueSet + [true])
  }

  /** The peek of `client_recv_rtu_response`. */
  function PeekFor(s: State, i: nat): State
    requires i < |s.clients|
  {
    if s.highResponse.Some? && Token(s.highResponse.value.serial) == Token(s.clients[i].serial)
    then s.(tcp := TcpMatched(i)) else s
  }

  /** The rest of `client_recv_rtu_response` up to the release. */
  function TakeMatched(s: State): State
    requires s.tcp.TcpMatched? && s.tcp.client < |s.clients| && s.highResponse.Some?
    requires s.highResponse.value.adu < |s.adus| && IsRequest(s.clients[s.tcp.client].recv)
    requires IsForwarded(s.highResponse.value.exchange.result) ==>
               MIN_LENGTH <= |s.adus[s.highResponse.value.adu]| <= MAX_LENGTH
  {
    var i, r := s.tcp.client, s.highResponse.value;
    var reply := TransactionReply(s.clients[i].recv, r.exchange.result, s.adus[r.adu]);
    WithClient(s, i, StartReply(s.clients[i], reply, Bus(r.exchange)))
    .(highResponse := None, tcp := TcpReleasing(r.adu, Some(i)))
  }

  /** The expired-response cleanup of `tcp_task`: peek and search. */
  function PeekForExpired(s: State): State {
    if s.highResponse.Some? && !HasWaitingClient(s.clients, Token(s.highResponse.value.serial))
    then s.(tcp := TcpExpired) else s
  }

  function TakeUnclaimed(s: State): State
    requires s.highResponse.Some?
  {
    s.(highResponse := None, tcp := TcpReleasing(s.highResponse.value.adu, None))
  }

  function ReleaseHeld(s: State): State
    requires s.tcp.TcpReleasing? && s.tcp.adu < |s.adus| && s.tcp.adu < |s.available|
  {
    Released(s, s.tcp.adu).(tcp := TcpIdle)
  }

  /** `client_recv_tcp_request` once a whole request is in the buffer of `c`. */
  function HandleRequest(s: State, i: nat, c: Client): State
    requires i < |s.clients| && IsRequest(c.recv) && |s.available| == |s.adus|
  {
    var free := FirstFree(s.available);
    if free.None? then
      WithClient(s, i, StartReply(c, ExceptionReply(c.recv, 4), Local(4)))
    else
      var a, frame := free.value, RtuFrame(c.recv);
      var s1 := s.(available := s.available[a := false], adus := s.adus[a := frame]);
      var result := ValidateRequest(frame);
      if result == RtuOk then
        WithClient(s1, i, c.(state := Submitting, serial := s.issued, adu := a)).(issued := s.issued + 1)
      else
        var code := ValidationException(result);
        WithClient(s1, i, StartReply(c, ExceptionReply(c.recv, code), Local(code)))
        .(tcp := TcpReleasing(a, Some(i)))
  }

  /** `client_recv_tcp_request` after `recv` returned `data`. */
  function ReceiveData(s: State, i: nat, data: seq<byte>): State
    requires i < |s.clients| && |s.available| == |s.adus|
  {
    var before := s.clients[i].recv;
    var c := s.clients[i].(recv := before + data, stream := s.clients[i].stream + data);
    if |before| < HEADER_LENGTH && |c.recv| >= HEADER_LENGTH then
      WithClient(s, i, c.(open := !HeaderIsBad(c.recv)))
    else if IsRequest(c.recv) then HandleRequest(s, i, c)
    else WithClient(s, i, c)
  }

  /** `modbus_rtu_adu_pool_release` */
  function Released(s: State, a: nat): State
    requires a < |s.adus| && a < |s.available|
  {
    s.(adus := s.adus[a := []], available := s.available[a := true])
  }

  /** `client_close` */
  function CloseClient(s: State, i: nat): State
    requires i < |s.clients|
    requires s.clients[i].state == Submitting ==> s.clients[i].adu < |s.adus| && s.clients[i].adu < |s.available|
  {
    var c := s.clients[i];
    var s1 := if c.state == Submitting then Released(s, c.adu) else s;
    WithClient(s1, i, c.(open := false))
  }

  /** The client of the response in the queue, as the expiry check looks for it. */
  predicate HasWaitingClient(clients: seq<Client>, token: u32) {
    exists i :: 0 <= i < |clients| && clients[i].open && clients[i].state == Waiting && Token(clients[i].serial) == token
  }

  function SendBytes(c: Client, count: nat): Client
    requires c.sendOffset + count <= |c.send|
  {
    var c1 := c.(sendOffset := c.sendOffset + count, out := c.out + c.send[c.sendOffset..c.sendOffset + count]);
    if c1.sendOffset == |c1.send| then c1.(state := Receiving, recv := []) else c1
  }

  // ---- the scheduler task

  /** One turn of the loop of `select_available_request_queues`. */
  function SelectEvent(s: State): State
    requires s.queueSet != []
  {
    if s.queueSet[0] then s.(queueSet := s.queueSet[1..], selectedHigh := s.selectedHigh + 1)
    else s.(queueSet := s.queueSet[1..], selectedLow := s.selectedLow + 1)
  }

  /** The choice of `receive_next_transaction`, made once the queue set is drained. */
  function ChooseHigh(s: State): bool {
    s.selectedHigh > 0 && (s.consecutiveHigh < MAX_CONSECUTIVE_HIGH || s.selectedLow == 0)
  }

  function ChooseNext(s: State): State
    requires s.selectedHigh + s.selectedLow > 0
  {
    if ChooseHigh(s) then
      s.(selectedHigh := s.selectedHigh - 1, scheduler := ReceivingRequest(true), lastLow := false,
         consecutiveHigh := if s.consecutiveHigh < 255 then s.consecutiveHigh + 1 else s.consecutiveHigh)
    else
      s.(selectedLow := s.selectedLow - 1, scheduler := ReceivingRequest(false), lastLow := true,
         consecutiveHigh := 0)
  }

  function RequestQueue(s: State, high: bool): Option<Request> {
    if high then s.highRequest else s.lowRequest
  }

  function ResponseQueue(s: State, high: bool): Option<Response> {
    if high then s.highResponse else s.lowResponse
  }

  /** `transaction_scheduler_task` around `modbus_rtu_transact`. */
  function Transacted(s: State, outcome: PortOutcome): State
    requires s.scheduler.Transacting? && s.scheduler.request.adu < |s.adus|
    requires ValidateRequest(s.adus[s.scheduler.request.adu]) == RtuOk
  {
    var Transacting(high, r) := s.scheduler;
    var result := Transact(s.adus[r.adu], outcome);
    var s1 := s.(scheduler := Responding(high, Response(r.serial, r.adu, Exchange(s.adus[r.adu], outcome, result))));
    if IsForwarded(result) && outcome.Received? then s1.(adus := s.adus[r.adu := outcome.bytes]) else s1
  }

  /** The unchecked `xQueueReceive` of `receive_next_transaction`. */
  function ReceiveChosen(s: State): State
    requires s.scheduler.ReceivingRequest? && RequestQueue(s, s.scheduler.high).Some?
  {
    var high := s.scheduler.high;
    var s1 := s.(scheduler := Transacting(high, RequestQueue(s, high).value));
    if high then s1.(highRequest := None, overtakes := if s.lowRequest.Some? then s.overtakes + 1 else s.overtakes)
    else s1.(lowRequest := None)
  }

  function PostResponse(s: State): State
    requires s.scheduler.Responding?
  {
    if s.scheduler.high then s.(highResponse := Some(s.scheduler.response), scheduler := Selecting)
    else s.(lowResponse := Some(s.scheduler.response), scheduler := Selecting)
  }

  // ---- the collector task

  /** The function code that reads a point's source, if it has one. */
  function ReadFunction(source: byte): Option<byte> {
    match source
    case 0 => Some(READ_COILS)
    case 1 => Some(READ_DISCRETE_INPUTS)
    case 2 => Some(READ_HOLDING_REGISTERS)
    case 3 => Some(READ_INPUT_REGISTERS)
    case _ => None
  }

  /** `modbus_collector_codec_encode_request`: a read of one value, if the point can be encoded. */
  function PointRequest(slave: byte, source: byte, address: u16): (r: Option<seq<byte>>)
    ensures r.Some? <==> 1 <= slave <= 247 && source <= 3
    ensures r.Some? ==> ValidateRequest(r.value) == RtuOk
    ensures r.Some? ==>
      |r.value| == 8 && r.value[..6] == [slave, source + 1, address / 256, address % 256, 0, 1]
  {
    var f := ReadFunction(source);
    if f.None? then None
    else
      var (result, request) := EncodeReadRequest(slave, f.value, address, 1);
      EncodedRequestIsValid(slave, f.value, address, 1);
      assert WriteU16Be(1) == [0, 1];
      if result == RtuOk then Some(request) else None
  }

  /** `process_point` up to the queue send; `encoded` is the encoder's request, if it made one. */
  function CollectorAllocated(s: State, encoded: Option<seq<byte>>): State
    requires |s.available| == |s.adus|
  {
    var free := FirstFree(s.available);
    if free.None? then s
    else
      var s1 := s.(available := s.available[free.value := false]);
      if encoded.None? then s1.(collector := CollectorReleasing(free.value))
      else s1.(adus := s.adus[free.value := encoded.value], collectorIssued := s.collectorIssued + 1,
               collector := CollectorSubmitting(Request(s.collectorIssued, free.value)))
  }

  function CollectorSubmitted(s: State): State
    requires s.collector.CollectorSubmitting?
  {
    var r := s.collector.request;
    if s.lowRequest.Some? then s.(collector := CollectorReleasing(r.adu))
    else s.(lowRequest := Some(r), queueSet := s.queueSet + [false], collector := CollectorWaiting(r.serial), overtakes := 0)
  }

  function CollectorReceived(s: State): State
    requires s.lowResponse.Some?
  {
    s.(lowResponse := None, collector := CollectorReleasing(s.lowResponse.value.adu))
  }

  function CollectorReleased(s: State): State
    requires s.collector.CollectorReleasing? && s.collector.adu < |s.adus| && s.collector.adu < |s.available|
  {
    Released(s, s.collector.adu).(collector := CollectorIdle)
  }

  // ---- steps

  ghost predicate Enabled(s: State, step: Step) {
    && |s.available| == |s.adus|
    && match step
       case Accept(i) => s.tcp == TcpIdle && i < |s.clients| && !s.clients[i].open && forall j | 0 <= j < i :: s.clients[j].open
       case Receive(i, data) =>
         s.tcp == TcpIdle && IsClient(s, i, Receiving) && 1 <= |data| <= MaxBytes(s.clients[i].recv) && TokensSuffice(s)
       case Close(i) =>
         && s.tcp == TcpIdle && i < |s.clients| && s.clients[i].open
         && (s.clients[i].state == Submitting ==> s.clients[i].adu < |s.adus|)
       case Submit(i) => s.tcp == TcpIdle && IsClient(s, i, Submitting)
       case PeekResponse(i) => s.tcp == TcpIdle && IsClient(s, i, Waiting)
       case TakeResponse =>
         && s.tcp.TcpMatched? && s.tcp.client < |s.clients| && s.highResponse.Some?
         && s.highResponse.value.adu < |s.adus| && IsRequest(s.clients[s.tcp.client].recv)
         && (IsForwarded(s.highResponse.value.exchange.result) ==>
               MIN_LENGTH <= |s.adus[s.highResponse.value.adu]| <= MAX_LENGTH)
       case PeekExpired => s.tcp == TcpIdle
       case TakeExpired => s.tcp == TcpExpired && s.highResponse.Some?
       case ReleaseAdu => s.tcp.TcpReleasing? && s.tcp.adu < |s.adus|
       case Send(i, count) =>
         && s.tcp == TcpIdle && IsClient(s, i, Sending)
         && 1 <= count && s.clients[i].sendOffset + count <= |s.clients[i].send|
       case Select => s.scheduler == Selecting && s.queueSet != []
       case Choose => s.scheduler == Selecting && s.queueSet == [] && s.selectedHigh + s.selectedLow > 0
       case ReceiveRequest => s.scheduler.ReceivingRequest? && RequestQueue(s, s.scheduler.high).Some?
       case RunTransaction(outcome) =>
         && PortOutcomeIsPossible(outcome)
         && s.scheduler.Transacting? && s.scheduler.request.adu < |s.adus|
         && ValidateRequest(s.adus[s.scheduler.request.adu]) == RtuOk
       case Respond => s.scheduler.Responding? && ResponseQueue(s, s.scheduler.high).None?
       case CollectorAllocate(_, _, _) => s.collector == CollectorIdle
       case CollectorSubmit => s.collector.CollectorSubmitting?
       case CollectorReceive => s.collector.CollectorWaiting? && s.lowResponse.Some?
       case CollectorRelease => s.collector.CollectorReleasing? && s.collector.adu < |s.adus|
  }

  ghost function Apply(s: State, step: Step): State
    requires Enabled(s, step)
  {
    match step
    case Accept(i) => AcceptClient(s, i)
    case Receive(i, data) => ReceiveData(s, i, data)
    case Close(i) => CloseClient(s, i)
    case Submit(i) => SubmitRequest(s, i)
    case PeekResponse(i) => PeekFor(s, i)
    case TakeResponse => TakeMatched(s)
    case PeekExpired => PeekForExpired(s)
    case TakeExpired => TakeUnclaimed(s)
    case ReleaseAdu => ReleaseHeld(s)
    case Send(i, count) => WithClient(s, i, SendBytes(s.clients[i], count))
    case Select => SelectEvent(s)
    case Choose => ChooseNext(s)
    case ReceiveRequest => ReceiveChosen(s)
    case RunTransaction(outcome) => Transacted(s, outcome)
    case Respond => PostResponse(s)
    case CollectorAllocate(slave, source, address) => CollectorAllocated(s, PointRequest(slave, source, address))
    case CollectorSubmit => CollectorSubmitted(s)
    case CollectorReceive => CollectorReceived(s)
    case CollectorRelease => CollectorReleased(s)
  }

  /** `s` is reached from the initial state by the steps of `run`. */
  ghost predicate Reaches(run: seq<Step>, s: State)
    decreases |run|
  {
    if run == [] then s == INITIAL
    else
      var n := |run| - 1;
      exists p :: Reaches(run[..n], p) && Enabled(p, run[n]) && s == Apply(p, run[n])
  }
}
