/**
 * The session machine of `management_transport.c`: one task against four interrupt handlers. A step is a critical
 * section, a handler call, or a stretch of task code between critical sections.
 */
module Transport {
  import opened Bytes
  import Frames

  const RX_BUF_MAX_LEN := 128
  const MESSAGE_RESTART: byte := 4

  /** A received byte and the session it arrived in. */
  datatype Tagged = Tagged(session: nat, value: byte)

  function Values(s: seq<Tagged>): seq<byte> {
    seq(|s|, i requires 0 <= i < |s| => s[i].value)
  }

  predicate AllFrom(s: seq<Tagged>, session: nat) {
    forall i | 0 <= i < |s| :: s[i].session == session
  }

  function Tag(data: seq<byte>, session: nat): (s: seq<Tagged>)
    ensures Values(s) == data && AllFrom(s, session)
  {
    seq(|data|, i requires 0 <= i < |data| => Tagged(session, data[i]))
  }

  /** The reply in the transmit buffer: the request it answers and the received bytes the request was found in. */
  datatype Reply = Reply(request: Frames.Frame, source: seq<Tagged>)

  /** The request really is the first frame of bytes received in `session`. */
  predicate IsReplyOf(r: Reply, session: nat) {
    AllFrom(r.source, session)
    && var frames := Frames.Parse(Values(r.source)).0; frames != [] && r.request == frames[0]
  }

  predicate IsRestart(f: Frames.Frame) {
    f.messageType == MESSAGE_RESTART && f.payload == []
  }

  datatype Transfer = Transfer(session: nat, reply: Reply)

  /** What handlers and task share, under critical sections. */
  datatype Shared = Shared(
    session: nat,
    isOpen: bool,
    rx: seq<Tagged>,
    rxInProgress: bool,
    rxCompleted: bool,
    txInProgress: bool,
    txCompleted: bool)

  /** The USB side: the transfer under way, and the last one completed. */
  datatype Device = Device(inFlight: Option<Transfer>, done: Option<Transfer>)

  datatype Mode = IdleMode | Receiving | Sending

  datatype Point = Events | ResetCheck | Feed | Dispatch(request: Frames.Frame, source: seq<Tagged>) | Finish | Submit | Halted

  datatype Task = Task(
    lastSession: nat,
    mode: Mode,
    parser: seq<Tagged>,
    rxCopy: seq<Tagged>,
    tx: Option<Reply>,
    txSuccessful: bool,
    resetPending: bool,
    at: Point)

  datatype State = State(shared: Shared, device: Device, task: Task)

  datatype Event =
    | Open
    | Close
    | Receive(data: seq<byte>)
    | Complete
    | TaskStep(accepted: bool)   // the device's answer, where the step asks for one

  const INITIAL := State(Shared(0, false, [], false, false, false, false), Device(None, None),
                         Task(0, IdleMode, [], [], None, false, false, Events))

  // ---- handlers

  /** Opening a session drops whatever the device was still sending. */
  function OnOpen(s: State): State {
    s.(shared := Shared(s.shared.session + 1, true, [], true, false, false, false), device := s.device.(inFlight := None))
  }

  function OnClose(s: State): State {
    s.(shared := s.shared.(isOpen := false))
  }

  predicate Refuses(s: State, data: seq<byte>) {
    !s.shared.isOpen || |data| > RX_BUF_MAX_LEN || (s.task.lastSession == s.shared.session && s.task.mode.Sending?)
  }

  function OnReceive(s: State, data: seq<byte>): State {
    if Refuses(s, data) then s.(shared := s.shared.(rxInProgress := false))
    else s.(shared := s.shared.(rxInProgress := false, rx := Tag(data, s.shared.session), rxCompleted := true))
  }

  function OnComplete(s: State): State {
    s.(shared := s.shared.(txInProgress := false, txCompleted := true),
       device := Device(None, s.device.inFlight))
  }

  // ---- the task

  /** First critical section: notice a new or closed session, then take one receive or transmit event. */
  function TakeEvents(s: State): State {
    var sh, t := s.shared, s.task;
    if !sh.isOpen then
      s.(task := Task(sh.session, IdleMode, [], [], None, false, false, Events))
    else
      var t' := if t.lastSession != sh.session then Task(sh.session, Receiving, [], [], None, false, false, Events) else t;
      TakeOne(s.(task := t'))
  }

  function TakeOne(s: State): State {
    var sh, t := s.shared, s.task;
    if t.mode.Receiving? && sh.rxCompleted then
      Onward(s.(shared := sh.(rxCompleted := false, rx := []), task := t.(rxCopy := sh.rx)))
    else if t.mode.Sending? && sh.txCompleted then
      Onward(s.(shared := sh.(txCompleted := false), task := t.(txSuccessful := true)))
    else
      Onward(s)
  }

  function Onward(s: State): State {
    s.(task := s.task.(at := if s.task.resetPending && s.task.txSuccessful then ResetCheck else Feed))
  }

  predicate Resets(s: State) {
    s.task.at.ResetCheck? && s.task.lastSession == s.shared.session && s.shared.isOpen
  }

  function CheckReset(s: State): State {
    s.(task := s.task.(at := if Resets(s) then Halted else Feed))
  }

  /** The bytes that may still become a frame stay in the parser. */
  function AwaitMore(s: State, left: seq<Tagged>): State {
    s.(task := s.task.(parser := left, rxCopy := [], at := Finish))
  }

  /** A request was found: it is answered next, and what follows it is dropped. */
  function FoundRequest(s: State, request: Frames.Frame, source: seq<Tagged>): State {
    s.(task := s.task.(mode := Sending, parser := [], rxCopy := [], at := Dispatch(request, source)))
  }

  /** The last `n` bytes, if there are that many. */
  function Last(s: seq<Tagged>, n: nat): seq<Tagged> {
    if n <= |s| then s[|s| - n..] else []
  }

  /** Feed the copy to the parser; the first complete frame, if a request is awaited, is answered. */
  function FeedParser(s: State): State {
    var t := s.task;
    if t.rxCopy == [] then s.(task := t.(at := Finish))
    else
      var all := t.parser + t.rxCopy;
      var parsed := Frames.Parse(Values(all));
      if parsed.0 != [] && t.mode.Receiving? then FoundRequest(s, parsed.0[0], all)
      else AwaitMore(s, Last(all, |parsed.1|))
  }

  /** Build the reply in the transmit buffer. */
  function DispatchRequest(s: State): State
    requires s.task.at.Dispatch?
  {
    var Dispatch(request, source) := s.task.at;
    s.(task := s.task.(tx := Some(Reply(request, source)), resetPending := IsRestart(request), at := Finish))
  }

  function FinishWork(s: State): State {
    s.(task := if s.task.txSuccessful then s.task.(mode := Receiving, txSuccessful := false, at := Submit)
               else s.task.(at := Submit))
  }

  predicate Arms(s: State) {
    s.task.at.Submit? && s.task.lastSession == s.shared.session && s.shared.isOpen && s.task.mode.Receiving? && !s.shared.rxInProgress
  }

  predicate Sends(s: State) {
    s.task.at.Submit? && s.task.lastSession == s.shared.session && s.shared.isOpen && s.task.mode.Sending? && !s.shared.txInProgress
    && s.task.tx.Some?
  }

  /** Last critical section: start a transfer for the current session, or go back to taking events. */
  function SubmitWork(s: State, accepted: bool): State {
    if s.task.lastSession != s.shared.session || !s.shared.isOpen then TakeEvents(s)
    else
      var next := s.(task := s.task.(at := Events));
      if Arms(s) && accepted then next.(shared := s.shared.(rxInProgress := true))
      else if Sends(s) && accepted then
        next.(shared := s.shared.(txInProgress := true),
              device := s.device.(inFlight := Some(Transfer(s.shared.session, s.task.tx.value))))
      else next
  }

  function OnTask(s: State, accepted: bool): State {
    match s.task.at
    case Events => TakeEvents(s)
    case ResetCheck => CheckReset(s)
    case Feed => FeedParser(s)
    case Dispatch(_, _) => DispatchRequest(s)
    case Finish => FinishWork(s)
    case Submit => SubmitWork(s, accepted)
    case Halted => s
  }

  // ---- runs

  /** A packet arrives only on an armed endpoint; a transfer completes only once, and only in the session it was submitted in. */
  predicate Enabled(s: State, e: Event) {
    match e
    case Open | Close => true
    case Receive(_) => s.shared.rxInProgress
    case Complete => s.device.inFlight.Some? && s.device.inFlight.value.session == s.shared.session
    case TaskStep(_) => !s.task.at.Halted?
  }

  function Apply(s: State, e: Event): State {
    match e
    case Open => OnOpen(s)
    case Close => OnClose(s)
    case Receive(data) => OnReceive(s, data)
    case Complete => OnComplete(s)
    case TaskStep(accepted) => OnTask(s, accepted)
  }

  predicate Reaches(s: State, events: seq<Event>, t: State)
    decreases |events|
  {
    if events == [] then s == t
    else Enabled(s, events[0]) && Reaches(Apply(s, events[0]), events[1..], t)
  }

  // ---- what every run keeps

  /** Everything the task holds comes from the session it last noticed. */
  predicate Origins(s: State) {
    var t := s.task;
    AllFrom(t.parser, t.lastSession) && AllFrom(t.rxCopy, t.lastSession)
    && (t.tx.Some? ==> IsReplyOf(t.tx.value, t.lastSession))
    && (t.at.Dispatch? ==> IsReplyOf(Reply(t.at.request, t.at.source), t.lastSession))
  }

  predicate Sessions(s: State) {
    s.task.lastSession <= s.shared.session
    && AllFrom(s.shared.rx, s.shared.session)
    && (s.task.lastSession == s.shared.session && s.task.mode.IdleMode? ==> !s.shared.isOpen)
  }

  /** Before the task has noticed a new session nothing is sent in it; afterwards the flag follows the device. */
  predicate Flags(s: State) {
    var sh, d, t := s.shared, s.device, s.task;
    (t.lastSession != sh.session ==> d.inFlight.None? && !sh.txInProgress && !sh.txCompleted)
    && (t.lastSession == sh.session && !t.mode.IdleMode? ==> (sh.txInProgress <==> d.inFlight.Some?))
    && (d.inFlight.Some? ==> d.inFlight.value.session == sh.session)
  }

  /** What the task's position says about its own fields. */
  predicate Positions(s: State) {
    var t := s.task;
    (t.at.Dispatch? ==> t.mode.Sending?)
    && (t.mode.Sending? ==> t.parser == [])
    && (t.mode.Sending? && !t.at.Dispatch? ==> t.tx.Some? && (t.resetPending <==> IsRestart(t.tx.value.request)))
    && (t.at.ResetCheck? ==> t.resetPending && t.txSuccessful)
    && (t.txSuccessful ==> t.mode.Sending? && !t.at.Dispatch? && !t.at.Events? && !t.at.Submit?)
    && (t.rxCopy != [] ==> t.mode.Receiving? && t.at.Feed?)
  }

  predicate Always(s: State) {
    Origins(s) && Sessions(s) && Flags(s) && Positions(s)
  }

  lemma HandlerKeepsAlways(s: State, e: Event)
    requires Always(s) && Enabled(s, e) && !e.TaskStep?
    ensures Always(Apply(s, e))
  {
    hide IsReplyOf, IsRestart;
  }

  lemma EventsKeepAlways(s: State)
    requires Always(s) && (s.task.at.Events? || s.task.at.Submit?)
    ensures Always(TakeEvents(s))
  {
    hide IsReplyOf, IsRestart;
  }

  lemma AwaitKeepsAlways(s: State, left: seq<Tagged>)
    requires Always(s) && s.task.at.Feed? && s.task.mode.Receiving? && AllFrom(left, s.task.lastSession)
    ensures Always(AwaitMore(s, left))
  {
    hide IsReplyOf, IsRestart;
  }

  lemma FoundKeepsAlways(s: State, request: Frames.Frame, source: seq<Tagged>)
    requires Always(s) && s.task.at.Feed? && s.task.mode.Receiving? && IsReplyOf(Reply(request, source), s.task.lastSession)
    ensures Always(FoundRequest(s, request, source))
  {
    hide IsReplyOf, IsRestart;
  }

  lemma NothingToFeed(s: State)
    requires Always(s) && s.task.at.Feed? && s.task.rxCopy == []
    ensures Always(s.(task := s.task.(at := Finish)))
  {
    hide IsReplyOf, IsRestart;
  }

  lemma FeedKeepsAlways(s: State)
    requires Always(s) && s.task.at.Feed?
    ensures Always(FeedParser(s))
  {
    var t := s.task;
    assert t.rxCopy != [] ==> t.mode.Receiving?;
    assert AllFrom(t.parser, t.lastSession) && AllFrom(t.rxCopy, t.lastSession);
    hide Always, Frames.Parse, AllFrom, IsReplyOf, Values, AwaitMore, FoundRequest, Last;
    if t.rxCopy == [] {
      NothingToFeed(s);
    } else {
      var all := t.parser + t.rxCopy;
      var parsed := Frames.Parse(Values(all));
      AllFromBoth(t.parser, t.rxCopy, t.lastSession, |parsed.1|);
      if parsed.0 != [] {
        FirstFrameIsRequest(all, t.lastSession);
        FoundKeepsAlways(s, parsed.0[0], all);
      } else {
        AwaitKeepsAlways(s, Last(all, |parsed.1|));
      }
    }
  }

  lemma AllFromBoth(a: seq<Tagged>, b: seq<Tagged>, session: nat, n: nat)
    requires AllFrom(a, session) && AllFrom(b, session)
    ensures AllFrom(a + b, session) && AllFrom(Last(a + b, n), session)
  {
  }

  lemma FirstFrameIsRequest(source: seq<Tagged>, session: nat)
    requires AllFrom(source, session)
    ensures var frames := Frames.Parse(Values(source)).0;
            frames != [] ==> IsReplyOf(Reply(frames[0], source), session)
  {
    hide Frames.Parse, AllFrom, Values;
  }

  lemma TaskKeepsAlways(s: State, accepted: bool)
    requires Always(s) && Enabled(s, TaskStep(accepted))
    ensures Always(OnTask(s, accepted))
  {
    hide IsReplyOf, IsRestart, FeedParser, TakeEvents;
    match s.task.at {
      case Events => EventsKeepAlways(s);
      case Feed => FeedKeepsAlways(s);
      case Submit => EventsKeepAlways(s);
      case _ =>
    }
  }

  lemma StepKeepsAlways(s: State, e: Event)
    requires Always(s) && Enabled(s, e)
    ensures Always(Apply(s, e))
  {
    hide Always;
    if e.TaskStep? {
      TaskKeepsAlways(s, e.accepted);
    } else {
      HandlerKeepsAlways(s, e);
    }
  }

  lemma {:induction false} ReachedAlways(s: State, events: seq<Event>, t: State)
    requires Always(s) && Reaches(s, events, t)
    ensures Always(t)
    decreases |events|
  {
    hide Always, Apply, Enabled;
    if events != [] {
      StepKeepsAlways(s, events[0]);
      ReachedAlways(Apply(s, events[0]), events[1..], t);
    }
  }

  lemma InitialAlways()
    ensures Always(INITIAL)
  {
  }

  lemma FeedSendsNothing(s: State)
    ensures FeedParser(s).device == s.device && FeedParser(s).shared == s.shared
    ensures FeedParser(s).task.tx == s.task.tx && !FeedParser(s).task.at.Halted?
  {
  }

  /** A reply is submitted only in the open session whose bytes asked for it, and only while no other transfer runs. */
  lemma RepliesStayInSession(events: seq<Event>, s: State, accepted: bool)
    requires Reaches(INITIAL, events, s) && Enabled(s, TaskStep(accepted))
    requires Apply(s, TaskStep(accepted)).device.inFlight != s.device.inFlight
    ensures s.shared.isOpen && s.device.inFlight.None?
    ensures exists reply :: IsReplyOf(reply, s.shared.session)
                            && Apply(s, TaskStep(accepted)).device.inFlight == Some(Transfer(s.shared.session, reply))
  {
    InitialAlways();
    ReachedAlways(INITIAL, events, s);
    hide IsReplyOf, FeedParser;
    FeedSendsNothing(s);
    assert Sends(s);
  }

  // ---- what runs without a resend keep

  /**
   * The completion interrupt came between the two critical sections of one round: the last section sees no transfer
   * in progress, has not seen the completion, and submits the reply a second time.
   */
  predicate Resends(s: State) {
    Sends(s) && s.shared.txCompleted && !s.task.resetPending
  }

  predicate IsClean(s: State, e: Event) {
    e == TaskStep(true) ==> !Resends(s)
  }

  predicate ReachesCleanly(s: State, events: seq<Event>, t: State)
    decreases |events|
  {
    if events == [] then s == t
    else Enabled(s, events[0]) && IsClean(s, events[0]) && ReachesCleanly(Apply(s, events[0]), events[1..], t)
  }

  /** While a session is served, the transfer under way is of the buffer as it is. */
  predicate Transfers(s: State) {
    var sh, d, t := s.shared, s.device, s.task;
    t.lastSession == sh.session && !t.mode.IdleMode? ==>
      && (d.inFlight.Some? ==> t.tx == Some(d.inFlight.value.reply) && !t.at.Dispatch?
                               && (t.mode.Sending? || (t.at.Submit? && !sh.isOpen))
                               && ((!sh.txCompleted && !t.txSuccessful) || t.resetPending))
      && (sh.txCompleted ==> t.tx.Some? && d.done == Some(Transfer(sh.session, t.tx.value)) && !t.at.Dispatch?
                             && (t.mode.Sending? || (t.at.Submit? && !sh.isOpen))
                             && (!t.txSuccessful || t.resetPending))
  }

  /** A transfer noted as successful is the completed one, of the reply still in the buffer. */
  predicate Outcomes(s: State) {
    var d, t := s.device, s.task;
    (t.txSuccessful ==> t.tx.Some? && d.done == Some(Transfer(t.lastSession, t.tx.value)))
    && (t.resetPending && t.txSuccessful && (t.at.Feed? || t.at.Finish?) ==> t.lastSession != s.shared.session || !s.shared.isOpen)
  }

  predicate Inv(s: State) {
    Always(s) && Transfers(s) && Outcomes(s)
  }

  lemma HandlerKeeps(s: State, e: Event)
    requires Inv(s) && Enabled(s, e) && !e.TaskStep?
    ensures Inv(Apply(s, e))
  {
    HandlerKeepsAlways(s, e);
    hide IsReplyOf, IsRestart, Origins;
  }

  lemma EventsKeep(s: State)
    requires Inv(s) && (s.task.at.Events? || s.task.at.Submit?)
    ensures Inv(TakeEvents(s))
  {
    EventsKeepAlways(s);
    hide IsReplyOf, IsRestart, Origins;
  }

  lemma FeedKeeps(s: State)
    requires Inv(s) && s.task.at.Feed?
    ensures Inv(FeedParser(s))
  {
    FeedKeepsAlways(s);
    hide IsReplyOf, IsRestart, Origins, Frames.Parse;
  }

  lemma SubmitKeeps(s: State, accepted: bool)
    requires Inv(s) && s.task.at.Submit? && IsClean(s, TaskStep(accepted))
    ensures Inv(SubmitWork(s, accepted))
  {
    TaskKeepsAlways(s, accepted);
    hide IsReplyOf, IsRestart, Origins, TakeEvents;
    if s.task.lastSession != s.shared.session || !s.shared.isOpen {
      EventsKeep(s);
    }
  }

  lemma TaskKeeps(s: State, accepted: bool)
    requires Inv(s) && Enabled(s, TaskStep(accepted)) && IsClean(s, TaskStep(accepted))
    ensures Inv(OnTask(s, accepted))
  {
    TaskKeepsAlways(s, accepted);
    hide IsReplyOf, IsRestart, Origins, FeedParser, TakeEvents, SubmitWork;
    match s.task.at {
      case Events => EventsKeep(s);
      case Feed => FeedKeeps(s);
      case Submit => SubmitKeeps(s, accepted);
      case _ =>
    }
  }

  lemma {:induction false} CleanInv(s: State, events: seq<Event>, t: State)
    requires Inv(s) && ReachesCleanly(s, events, t)
    ensures Inv(t)
    decreases |events|
  {
    hide Inv, Enabled, IsClean, OnOpen, OnClose, OnReceive, OnComplete, OnTask;
    if events != [] {
      if events[0].TaskStep? {
        TaskKeeps(s, events[0].accepted);
      } else {
        HandlerKeeps(s, events[0]);
      }
      CleanInv(Apply(s, events[0]), events[1..], t);
    }
  }

  lemma InitialInv()
    ensures Inv(INITIAL)
  {
  }

  /** Without a resend, the transmit buffer is never rewritten while the session served has a transfer under way. */
  lemma BufferIsStableInFlight(events: seq<Event>, s: State, accepted: bool)
    requires ReachesCleanly(INITIAL, events, s) && Enabled(s, TaskStep(accepted))
    requires s.device.inFlight.Some? && s.task.lastSession == s.shared.session && !s.task.mode.IdleMode?
    ensures s.task.tx == Some(s.device.inFlight.value.reply) && !s.task.at.Dispatch?
    ensures s.shared.isOpen ==> Apply(s, TaskStep(accepted)).task.tx == s.task.tx
  {
    InitialInv();
    CleanInv(INITIAL, events, s);
    hide IsReplyOf, FeedParser;
    FeedSendsNothing(s);
  }

  /**
   * Without a resend, the system resets only after the reply to a restart request has gone out in the session that
   * asked for it, which is still open.
   */
  lemma ResetIsAcknowledged(events: seq<Event>, s: State, accepted: bool)
    requires ReachesCleanly(INITIAL, events, s) && Enabled(s, TaskStep(accepted)) && Apply(s, TaskStep(accepted)).task.at.Halted?
    ensures s.shared.isOpen && s.device.done.Some? && s.device.done.value.session == s.shared.session
    ensures var reply := s.device.done.value.reply; IsReplyOf(reply, s.shared.session) && IsRestart(reply.request)
  {
    InitialInv();
    CleanInv(INITIAL, events, s);
    hide IsReplyOf, FeedParser;
    FeedSendsNothing(s);
    assert Resets(s);
  }

  // ---- and why a resend must not happen

  lemma {:induction false} ReachesMore(s: State, events: seq<Event>, t: State, e: Event)
    requires Reaches(s, events, t) && Enabled(t, e)
    ensures Reaches(s, events + [e], Apply(t, e))
    decreases |events|
  {
    hide Enabled, Apply;
    if events == [] {
      assert (events + [e])[1..] == [];
      assert Reaches(Apply(t, e), [], Apply(t, e));
    } else {
      ReachesMore(Apply(s, events[0]), events[1..], t, e);
      assert (events + [e])[1..] == events[1..] + [e];
    }
  }

  /** A reply is under way, yet the task awaits the next request in the same open session. */
  predicate AwaitsInFlight(s: State, reply: Reply) {
    var sh, d, t := s.shared, s.device, s.task;
    sh.isOpen && t.lastSession == sh.session && t.mode.Receiving? && t.at.Events? && t.parser == [] && t.rxCopy == []
    && !t.txSuccessful && !t.resetPending && sh.rxInProgress && sh.txInProgress && !sh.txCompleted
    && d.inFlight == Some(Transfer(sh.session, reply)) && t.tx == Some(reply)
  }

  lemma ResendGoesOn(start: State, before: seq<Event>, s: State) returns (events: seq<Event>, t: State)
    requires Reaches(start, before, s) && Always(s) && Resends(s)
    ensures Reaches(start, events, t) && AwaitsInFlight(t, s.task.tx.value) && !IsRestart(s.task.tx.value.request)
  {
    hide Reaches, IsReplyOf, Frames.Parse;
    events, t := before, s;
    ReachesMore(start, events, t, TaskStep(true));
    events, t := events + [TaskStep(true)], OnTask(t, true);
    ReachesMore(start, events, t, TaskStep(true));
    events, t := events + [TaskStep(true)], OnTask(t, true);
    ReachesMore(start, events, t, TaskStep(true));
    events, t := events + [TaskStep(true)], OnTask(t, true);
    ReachesMore(start, events, t, TaskStep(true));
    events, t := events + [TaskStep(true)], OnTask(t, true);
    ReachesMore(start, events, t, TaskStep(true));
    events, t := events + [TaskStep(true)], OnTask(t, true);
  }

  const RESTART := Frames.Frame(MESSAGE_RESTART, 0, [])

  /** The task is about to overwrite a buffer that is being sent. */
  predicate OverwritesInFlight(s: State, reply: Reply) {
    var sh, d, t := s.shared, s.device, s.task;
    sh.isOpen && t.lastSession == sh.session && t.mode.Sending? && t.at.Dispatch? && t.at.request == RESTART && t.rxCopy == []
    && !t.txSuccessful && sh.txInProgress && !sh.txCompleted && d.inFlight == Some(Transfer(sh.session, reply)) && t.tx == Some(reply)
  }

  lemma RequestParses(f: Frames.Frame)
    requires |f.payload| <= Frames.MAX_PAYLOAD_LENGTH
    ensures Frames.Parse(Frames.Encode(f)).0 == [f]
  {
    hide Frames.Judge, Frames.FrameAt, Frames.Encode;
    Frames.EncodeIsTaken(f, []);
    assert Frames.Encode(f) + [] == Frames.Encode(f);
    Frames.ParseStep(Frames.Encode(f));
    Frames.NothingWaits();
  }

  lemma NextRequestIsDispatched(start: State, before: seq<Event>, s: State, reply: Reply) returns (events: seq<Event>, t: State)
    requires Reaches(start, before, s) && AwaitsInFlight(s, reply)
    ensures Reaches(start, events, t) && OverwritesInFlight(t, reply)
  {
    hide Reaches, IsReplyOf, Frames.Parse, Frames.Encode;
    RequestParses(RESTART);
    var data := Frames.Encode(RESTART);
    events, t := before, s;
    ReachesMore(start, events, t, Receive(data));
    events, t := events + [Receive(data)], OnReceive(t, data);
    ReachesMore(start, events, t, TaskStep(true));
    events, t := events + [TaskStep(true)], OnTask(t, true);
    assert t.task.parser + t.task.rxCopy == Tag(data, s.shared.session);
    ReachesMore(start, events, t, TaskStep(true));
    events, t := events + [TaskStep(true)], OnTask(t, true);
  }

  lemma OldCompletionResets(start: State, before: seq<Event>, s: State, reply: Reply) returns (events: seq<Event>, t: State)
    requires Reaches(start, before, s) && OverwritesInFlight(s, reply)
    ensures Reaches(start, events, t) && Resets(t) && t.device.done == Some(Transfer(t.shared.session, reply))
  {
    hide Reaches, IsReplyOf, Frames.Parse;
    events, t := before, s;
    ReachesMore(start, events, t, TaskStep(true));
    events, t := events + [TaskStep(true)], OnTask(t, true);
    ReachesMore(start, events, t, TaskStep(true));
    events, t := events + [TaskStep(true)], OnTask(t, true);
    ReachesMore(start, events, t, TaskStep(true));
    events, t := events + [TaskStep(true)], OnTask(t, true);
    ReachesMore(start, events, t, Complete);
    events, t := events + [Complete], OnComplete(t);
    ReachesMore(start, events, t, TaskStep(true));
    events, t := events + [TaskStep(true)], OnTask(t, true);
  }

  /**
   * Every run that comes to an accepted resend can go on to overwrite the buffer in flight, and then to a system reset
   * although no restart request was ever answered: the completion that releases it is the resent reply's.
   */
  lemma ResendBreaksBoth(events: seq<Event>, s: State)
    returns (toOverwrite: seq<Event>, t: State, toReset: seq<Event>, u: State)
    requires Reaches(INITIAL, events, s) && Resends(s)
    ensures Reaches(INITIAL, toOverwrite, t) && t.task.at.Dispatch? && t.task.lastSession == t.shared.session
    ensures t.device.inFlight == Some(Transfer(t.shared.session, s.task.tx.value)) && t.task.tx == s.task.tx
    ensures Reaches(INITIAL, toReset, u) && Apply(u, TaskStep(true)).task.at.Halted?
    ensures u.device.done.Some? && !IsRestart(u.device.done.value.reply.request)
  {
    hide Reaches, Always, TakeEvents, FeedParser, DispatchRequest, FinishWork, SubmitWork;
    InitialAlways();
    ReachedAlways(INITIAL, events, s);
    var a, sa := ResendGoesOn(INITIAL, events, s);
    var b, sb := NextRequestIsDispatched(INITIAL, a, sa, s.task.tx.value);
    var c, sc := OldCompletionResets(INITIAL, b, sb, s.task.tx.value);
    return b, sb, c, sc;
  }

  /** A resend does happen: any short request other than a restart, and a completion at the wrong moment. */
  lemma ResendHappens(f: Frames.Frame) returns (events: seq<Event>, s: State)
    requires |f.payload| <= RX_BUF_MAX_LEN - 17 && !IsRestart(f)
    ensures Reaches(INITIAL, events, s) && Resends(s) && s.task.tx.value.request == f
  {
    hide Reaches, Frames.Parse, Frames.Encode;
    events, s := [], INITIAL;
    ReachesSelf(INITIAL);
    ReachesMore(INITIAL, events, s, Open);
    events, s := events + [Open], OnOpen(s);
    ReachesMore(INITIAL, events, s, TaskStep(true));
    events, s := events + [TaskStep(true)], OnTask(s, true);
    ReachesMore(INITIAL, events, s, TaskStep(true));
    events, s := events + [TaskStep(true)], OnTask(s, true);
    ReachesMore(INITIAL, events, s, TaskStep(true));
    events, s := events + [TaskStep(true)], OnTask(s, true);
    ReachesMore(INITIAL, events, s, TaskStep(true));
    events, s := events + [TaskStep(true)], OnTask(s, true);
    assert s == State(Shared(1, true, [], true, false, false, false), Device(None, None),
                      Task(1, Receiving, [], [], None, false, false, Events));
    events, s := RequestIsSent(INITIAL, events, s, f);
    ReachesMore(INITIAL, events, s, TaskStep(true));
    events, s := events + [TaskStep(true)], OnTask(s, true);
    ReachesMore(INITIAL, events, s, TaskStep(true));
    events, s := events + [TaskStep(true)], OnTask(s, true);
    ReachesMore(INITIAL, events, s, Complete);
    events, s := events + [Complete], OnComplete(s);
    ReachesMore(INITIAL, events, s, TaskStep(true));
    events, s := events + [TaskStep(true)], OnTask(s, true);
  }

  /** From a fresh session: a request comes in and its reply goes out. */
  lemma RequestIsSent(start: State, before: seq<Event>, s: State, f: Frames.Frame) returns (events: seq<Event>, t: State)
    requires |f.payload| <= RX_BUF_MAX_LEN - 17 && !IsRestart(f) && Reaches(start, before, s)
    requires s == State(Shared(1, true, [], true, false, false, false), Device(None, None),
                        Task(1, Receiving, [], [], None, false, false, Events))
    ensures Reaches(start, events, t) && t.shared.session == 1 && t.shared.isOpen && t.shared.txInProgress && !t.shared.txCompleted
    ensures t.task.lastSession == 1 && t.task.mode.Sending? && t.task.at.Events? && !t.task.txSuccessful && !t.task.resetPending
    ensures t.task.rxCopy == [] && t.task.tx.Some? && t.task.tx.value.request == f
    ensures t.device.inFlight == Some(Transfer(1, t.task.tx.value))
  {
    hide Reaches, Frames.Parse, Frames.Encode;
    RequestParses(f);
    var data := Frames.Encode(f);
    events, t := before, s;
    ReachesMore(start, events, t, Receive(data));
    events, t := events + [Receive(data)], OnReceive(t, data);
    ReachesMore(start, events, t, TaskStep(true));
    events, t := events + [TaskStep(true)], OnTask(t, true);
    assert t.task.parser + t.task.rxCopy == Tag(data, 1);
    ReachesMore(start, events, t, TaskStep(true));
    events, t := events + [TaskStep(true)], OnTask(t, true);
    ReachesMore(start, events, t, TaskStep(true));
    events, t := events + [TaskStep(true)], OnTask(t, true);
    ReachesMore(start, events, t, TaskStep(true));
    events, t := events + [TaskStep(true)], OnTask(t, true);
    ReachesMore(start, events, t, TaskStep(true));
    events, t := events + [TaskStep(true)], OnTask(t, true);
  }

  // ---- received packets

  /** A packet is waiting and the endpoint is armed for another. */
  predicate Exposed(s: State) {
    s.shared.rxInProgress && s.shared.rxCompleted
  }

  /** The packet came between the two critical sections of one round: the last section arms the endpoint all the same. */
  predicate Exposes(s: State, e: Event) {
    e == TaskStep(true) && Arms(s) && s.shared.rxCompleted
  }

  lemma ArmingExposes(s: State, e: Event)
    requires Enabled(s, e) && !Exposed(s)
    ensures Exposed(Apply(s, e)) <==> Exposes(s, e)
  {
    hide Frames.Parse;
  }

  predicate ReachesCarefully(s: State, events: seq<Event>, t: State)
    decreases |events|
  {
    if events == [] then s == t
    else Enabled(s, events[0]) && !Exposes(s, events[0]) && ReachesCarefully(Apply(s, events[0]), events[1..], t)
  }

  lemma {:induction false} CarefulIsNotExposed(s: State, events: seq<Event>, t: State)
    requires !Exposed(s) && ReachesCarefully(s, events, t)
    ensures !Exposed(t)
    decreases |events|
  {
    hide Exposed, Exposes, Apply, Enabled;
    if events != [] {
      ArmingExposes(s, events[0]);
      CarefulIsNotExposed(Apply(s, events[0]), events[1..], t);
    }
  }

  /** The packet that waits is still there, or has just been taken over by the task. */
  predicate IsKept(s: State, t: State) {
    (t.shared.rxCompleted && t.shared.rx == s.shared.rx) || t.task.rxCopy == s.shared.rx
  }

  /**
   * In every run that never arms the endpoint while a packet waits, no packet finds another one waiting, and a waiting
   * packet stays until the task takes it or its session is over.
   */
  lemma PacketsAreKept(events: seq<Event>, s: State, e: Event)
    requires ReachesCarefully(INITIAL, events, s) && Enabled(s, e)
    ensures e.Receive? ==> !s.shared.rxCompleted
    ensures s.shared.rxCompleted && !e.Open? ==> IsKept(s, Apply(s, e))
  {
    hide Apply, IsKept, ReachesCarefully;
    CarefulIsNotExposed(INITIAL, events, s);
    if s.shared.rxCompleted && !e.Open? {
      WaitingStays(s, e);
    }
  }

  lemma WaitingStays(s: State, e: Event)
    requires s.shared.rxCompleted && Enabled(s, e) && !e.Open? && !e.Receive?
    ensures IsKept(s, Apply(s, e))
  {
    hide FeedParser;
    FeedSendsNothing(s);
  }

  /** And in every run that does, the waiting packet can be lost to any next one: nothing of it is left. */
  lemma ExposedPacketIsLost(events: seq<Event>, s: State, next: seq<byte>) returns (more: seq<Event>, t: State)
    requires Reaches(INITIAL, events, s) && Exposes(s, TaskStep(true)) && |next| <= RX_BUF_MAX_LEN
    ensures more == events + [TaskStep(true), Receive(next)] && Reaches(INITIAL, more, t)
    ensures t.shared.rx == Tag(next, s.shared.session) && t.shared.rxCompleted
    ensures t.task == s.task.(at := Events) && s.task.rxCopy == []
  {
    InitialAlways();
    ReachedAlways(INITIAL, events, s);
    hide Reaches, Frames.Parse, IsReplyOf;
    ReachesMore(INITIAL, events, s, TaskStep(true));
    var armed := OnTask(s, true);
    ReachesMore(INITIAL, events + [TaskStep(true)], armed, Receive(next));
    more, t := events + [TaskStep(true)] + [Receive(next)], OnReceive(armed, next);
    assert more == events + [TaskStep(true), Receive(next)];
  }

  /** Such runs exist, for any two packets: the second one is what the task gets to see. */
  lemma WaitingPacketCanBeLost(first: seq<byte>, second: seq<byte>)
    returns (events: seq<Event>, s: State)
    requires 0 < |first| <= RX_BUF_MAX_LEN && 0 < |second| <= RX_BUF_MAX_LEN
    ensures Reaches(INITIAL, events, s) && Exposes(s, TaskStep(true)) && s.shared.rx == Tag(first, s.shared.session)
    ensures var later := OnTask(OnReceive(OnTask(s, true), second), true);
            later.task.rxCopy == Tag(second, s.shared.session) && !later.shared.rxCompleted
  {
    hide Reaches, Frames.Parse;
    events, s := [], INITIAL;
    ReachesSelf(INITIAL);
    ReachesMore(INITIAL, events, s, Open);
    events, s := events + [Open], OnOpen(s);
    ReachesMore(INITIAL, events, s, TaskStep(true));
    events, s := events + [TaskStep(true)], OnTask(s, true);
    ReachesMore(INITIAL, events, s, TaskStep(true));
    events, s := events + [TaskStep(true)], OnTask(s, true);
    ReachesMore(INITIAL, events, s, TaskStep(true));
    events, s := events + [TaskStep(true)], OnTask(s, true);
    ReachesMore(INITIAL, events, s, Receive(first));
    events, s := events + [Receive(first)], OnReceive(s, first);
  }

  lemma ReachesSelf(s: State)
    ensures Reaches(s, [], s)
  {
  }
}
