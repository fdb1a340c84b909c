/** What the session machine of `management_transport.c` does for its user: every request, however cut up, is answered. */
module TransportService {
  import opened Bytes
  import opened Frames
  import opened FrameParser
  import opened Transport

  // ---- unfinished frames

  /** What is kept are the last bytes of what was given. */
  lemma {:induction false} RestIsSuffix(s: seq<byte>)
    ensures |Parse(s).1| <= |s| && Parse(s).1 == s[|s| - |Parse(s).1|..]
    decreases |s|
  {
    hide Judge, FrameAt, Parse;
    ParseStep(s);
    match Judge(s) {
      case Wait =>
      case Drop => RestIsSuffix(s[1..]);
      case Take(n) => RestIsSuffix(s[n..]);
    }
  }

  lemma ValuesOfLast(all: seq<Tagged>)
    ensures Values(Last(all, |Parse(Values(all)).1|)) == Parse(Values(all)).1
  {
    hide Parse;
    RestIsSuffix(Values(all));
  }

  lemma ValuesOfBoth(a: seq<Tagged>, b: seq<Tagged>)
    ensures Values(a + b) == Values(a) + Values(b)
  {
  }

  /** Until its last byte has come, an encoded frame is kept whole. */
  lemma PartOfFrameWaits(f: Frame, n: nat)
    requires |f.payload| <= MAX_PAYLOAD_LENGTH && n < |Encode(f)|
    ensures Parse(Encode(f)[..n]) == ([], Encode(f)[..n])
  {
    hide Encode, Judge, FrameAt, Parse;
    PartIsJudged(f, n);
    ParseStep(Encode(f)[..n]);
  }

  lemma PartIsJudged(f: Frame, n: nat)
    requires |f.payload| <= MAX_PAYLOAD_LENGTH && n < |Encode(f)|
    ensures Judge(Encode(f)[..n]) == Wait
  {
    hide Encode, Crc32.Crc, ReadU32Le, WriteU32Le;
    var e, p := Encode(f), Encode(f)[..n];
    assert e + [] == e;
    EncodedFields(f, [], e);
    assert forall j | 0 <= j < 4 && j < n :: p[j] == e[..4][j];
    if n >= HEADER_LENGTH {
      assert p[9..13] == e[9..13];
      ReadU32LeSlice(p, 9, WriteU32Le(|f.payload|));
      U32LeRoundTrip(|f.payload|);
    }
  }

  // ---- the states between which the machine moves

  /** The session is open, and the task waits for (the rest of) a request. */
  predicate Awaits(s: State) {
    var sh, t := s.shared, s.task;
    t.at.Events? && sh.isOpen && t.lastSession == sh.session && t.mode.Receiving? && t.rxCopy == [] && !t.txSuccessful && !t.resetPending
    && sh.rxInProgress && !sh.rxCompleted && !sh.txInProgress && !sh.txCompleted && s.device.inFlight.None?
    && Parse(Values(t.parser)) == ([], Values(t.parser))
  }

  /** A request has been found and is about to be dealt with. */
  predicate HasFound(s: State, request: Frame, bytes: seq<byte>) {
    var sh, t := s.shared, s.task;
    t.at.Dispatch? && t.at.request == request && Values(t.at.source) == bytes
    && sh.isOpen && t.lastSession == sh.session && t.mode.Sending? && t.rxCopy == [] && t.parser == [] && !t.txSuccessful
    && !sh.rxInProgress && !sh.rxCompleted && !sh.txInProgress && !sh.txCompleted && s.device.inFlight.None?
  }

  /** Its reply is on its way. */
  predicate IsAnswering(s: State, request: Frame, bytes: seq<byte>) {
    var sh, t := s.shared, s.task;
    t.at.Events? && sh.isOpen && t.lastSession == sh.session && t.mode.Sending? && t.rxCopy == [] && t.parser == [] && !t.txSuccessful
    && t.resetPending == IsRestart(request) && !sh.rxInProgress && !sh.rxCompleted && sh.txInProgress && !sh.txCompleted
    && t.tx.Some? && t.tx.value.request == request && Values(t.tx.value.source) == bytes
    && s.device.inFlight == Some(Transfer(sh.session, t.tx.value))
  }

  /** The run `events` from `start` ends in `t`. */
  lemma Step(start: State, events: seq<Event>, s: State) returns (more: seq<Event>, t: State)
    requires Reaches(start, events, s) && !s.task.at.Halted?
    ensures t == OnTask(s, true) && Reaches(start, more, t)
  {
    hide Reaches, OnTask;
    ReachesMore(start, events, s, TaskStep(true));
    more, t := events + [TaskStep(true)], OnTask(s, true);
  }

  // ---- receiving

  /** A packet arrives and is fed to the parser. */
  lemma PacketIsFed(start: State, before: seq<Event>, s: State, data: seq<byte>) returns (events: seq<Event>, t: State)
    requires Reaches(start, before, s) && Awaits(s) && |data| <= RX_BUF_MAX_LEN && data != []
    ensures Reaches(start, events, t)
    ensures t == FeedParser(Fed(s, data))
  {
    hide Reaches, Parse, FeedParser;
    ReachesMore(start, before, s, Receive(data));
    events, t := before + [Receive(data)], OnReceive(s, data);
    events, t := Step(start, events, t);
    assert t == Fed(s, data);
    events, t := Step(start, events, t);
  }

  /** The task has taken the packet over. */
  function Fed(s: State, data: seq<byte>): State {
    s.(shared := s.shared.(rxInProgress := false, rx := []), task := s.task.(rxCopy := Tag(data, s.shared.session), at := Feed))
  }

  lemma FeedDecides(s: State, data: seq<byte>)
    requires Awaits(s) && |data| <= RX_BUF_MAX_LEN && data != []
    ensures var t, bytes := FeedParser(Fed(s, data)), Values(s.task.parser) + data;
            if Parse(bytes).0 != [] then HasFound(t, Parse(bytes).0[0], bytes)
            else t == AwaitMore(Fed(s, data), t.task.parser) && Values(t.task.parser) == Parse(bytes).1
  {
    hide Parse, Values, Last;
    var all := s.task.parser + Tag(data, s.shared.session);
    ValuesOfBoth(s.task.parser, Tag(data, s.shared.session));
    ValuesOfLast(all);
  }

  /** A packet that completes no frame: what it leaves unfinished is kept, and the endpoint is armed again. */
  lemma PacketIsKept(start: State, before: seq<Event>, s: State, data: seq<byte>) returns (events: seq<Event>, t: State)
    requires Reaches(start, before, s) && Awaits(s) && |data| <= RX_BUF_MAX_LEN && data != []
    requires Parse(Values(s.task.parser) + data).0 == []
    ensures Reaches(start, events, t) && Awaits(t) && t.shared.session == s.shared.session
    ensures Values(t.task.parser) == Parse(Values(s.task.parser) + data).1
  {
    hide Reaches, Parse, Values, FeedParser;
    FeedDecides(s, data);
    events, t := PacketIsFed(start, before, s, data);
    SettledRest(Values(s.task.parser) + data);
    events, t := Step(start, events, t);
    events, t := Step(start, events, t);
  }

  lemma SettledRest(s: seq<byte>)
    ensures Parse(Parse(s).1) == ([], Parse(s).1)
  {
    hide Parse, Judge;
    RestIsSettled(s);
    SettledKeeps(Parse(s).1);
  }

  predicate ArePackets(packets: seq<seq<byte>>) {
    forall i | 0 <= i < |packets| :: packets[i] != [] && |packets[i]| <= RX_BUF_MAX_LEN
  }

  /** Packets that complete no frame together, one after another. */
  lemma {:induction false} PacketsAreKeptWhole(start: State, before: seq<Event>, s: State, packets: seq<seq<byte>>)
    returns (events: seq<Event>, t: State)
    requires Reaches(start, before, s) && Awaits(s) && ArePackets(packets)
    requires Parse(Values(s.task.parser) + Concat(packets)).0 == []
    ensures Reaches(start, events, t) && Awaits(t) && t.shared.session == s.shared.session
    ensures Values(t.task.parser) == Parse(Values(s.task.parser) + Concat(packets)).1
    decreases |packets|
  {
    hide Reaches, Parse, Values;
    var kept := Values(s.task.parser);
    if packets == [] {
      events, t := before, s;
      assert kept + [] == kept;
    } else {
      var rest := packets[1..];
      assert kept + Concat(packets) == (kept + packets[0]) + Concat(rest);
      ParseAppend(kept + packets[0], Concat(rest));
      events, t := PacketIsKept(start, before, s, packets[0]);
      events, t := PacketsAreKeptWhole(start, events, t, rest);
    }
  }

  /**
   * A stream that holds no complete frame until its last packet: that packet brings the first frame the batch parser
   * finds in the whole stream to be dealt with.
   */
  lemma FirstFrameIsFound(start: State, before: seq<Event>, s: State, packets: seq<seq<byte>>, last: seq<byte>)
    returns (events: seq<Event>, t: State)
    requires Reaches(start, before, s) && Awaits(s) && s.task.parser == [] && ArePackets(packets + [last])
    requires BatchParse(Concat(packets)).0 == [] && BatchParse(Concat(packets) + last).0 != []
    ensures Reaches(start, events, t) && t.shared.session == s.shared.session
    ensures t.task.at.Dispatch? && t.task.at.request == BatchParse(Concat(packets) + last).0[0]
    ensures HasFound(t, t.task.at.request, Values(t.task.at.source))
  {
    hide Reaches, Parse, BatchParse, Values, FeedParser;
    var sent := Concat(packets);
    BatchParseIsParse(sent);
    BatchParseIsParse(sent + last);
    NoBytes(s.task.parser);
    assert [] + sent == sent;
    assert ArePackets(packets) && last != [] && |last| <= RX_BUF_MAX_LEN by { LastIsPacket(packets, last); }
    events, t := PacketsAreKeptWhole(start, before, s, packets);
    ParseAppend(sent, last);
    assert Parse(sent).0 + Parse(Parse(sent).1 + last).0 == Parse(Parse(sent).1 + last).0;
    FeedDecides(t, last);
    FeedSendsNothing(Fed(t, last));
    events, t := PacketIsFed(start, events, t, last);
  }

  lemma NoBytes(s: seq<Tagged>)
    ensures s == [] ==> Values(s) == []
  {
  }

  lemma LastIsPacket(packets: seq<seq<byte>>, last: seq<byte>)
    requires ArePackets(packets + [last])
    ensures ArePackets(packets) && last != [] && |last| <= RX_BUF_MAX_LEN
  {
    assert (packets + [last])[|packets|] == last;
    assert forall i | 0 <= i < |packets| :: (packets + [last])[i] == packets[i];
  }

  // ---- answering

  /** What was found is answered: the reply goes out. */
  lemma FoundIsAnswered(start: State, before: seq<Event>, s: State, request: Frame, bytes: seq<byte>)
    returns (events: seq<Event>, t: State)
    requires Reaches(start, before, s) && HasFound(s, request, bytes)
    ensures Reaches(start, events, t) && IsAnswering(t, request, bytes) && t.shared.session == s.shared.session
  {
    hide Reaches, Parse, Values, IsRestart;
    events, t := Step(start, before, s);
    events, t := Step(start, events, t);
    events, t := Step(start, events, t);
  }

  /** When the reply has gone out the task awaits the next request, or, after a restart request, resets the system. */
  lemma AnsweredGoesOn(start: State, before: seq<Event>, s: State, request: Frame, bytes: seq<byte>)
    returns (events: seq<Event>, t: State)
    requires Reaches(start, before, s) && IsAnswering(s, request, bytes)
    ensures Reaches(start, events, t) && t.device.done == s.device.inFlight
    ensures if IsRestart(request) then t.task.at.Halted? else Awaits(t) && t.task.parser == [] && t.shared.session == s.shared.session
  {
    hide Reaches, Parse, IsRestart;
    ReachesMore(start, before, s, Complete);
    events, t := before + [Complete], OnComplete(s);
    events, t := Step(start, events, t);
    events, t := Step(start, events, t);
    if !IsRestart(request) {
      events, t := Step(start, events, t);
      events, t := Step(start, events, t);
      NothingWaits();
      NoBytes([]);
    }
  }

  /**
   * Every request is answered: whatever the frame, and however its bytes are cut into packets, a session that awaits a
   * request comes to send the reply to exactly that frame.
   */
  lemma EveryRequestIsAnswered(start: State, before: seq<Event>, s: State, f: Frame, packets: seq<seq<byte>>, last: seq<byte>)
    returns (events: seq<Event>, t: State)
    requires Reaches(start, before, s) && Awaits(s) && s.task.parser == []
    requires |f.payload| <= MAX_PAYLOAD_LENGTH && ArePackets(packets + [last]) && Concat(packets) + last == Encode(f)
    ensures Reaches(start, events, t) && IsAnswering(t, f, Encode(f)) && t.shared.session == s.shared.session
  {
    hide Reaches, Parse, BatchParse, Values, FeedParser, Encode;
    var sent := Concat(packets);
    LastIsPacket(packets, last);
    assert sent == Encode(f)[..|sent|];
    PartOfFrameWaits(f, |sent|);
    RequestParses(f);
    NoBytes(s.task.parser);
    assert [] + sent == sent;
    events, t := PacketsAreKeptWhole(start, before, s, packets);
    FeedDecides(t, last);
    FeedSendsNothing(Fed(t, last));
    events, t := PacketIsFed(start, events, t, last);
    events, t := FoundIsAnswered(start, events, t, f, Encode(f));
  }

  // ---- sessions

  /** The state a task comes to in a session it has just noticed. */
  lemma NewSessionIsAwaited(start: State, before: seq<Event>, s: State) returns (events: seq<Event>, t: State)
    requires Reaches(start, before, s) && (s.task.at.Events? || s.task.at.Submit?) && IsNew(s)
    ensures Reaches(start, events, t) && Awaits(t) && t.task.parser == [] && t.shared.session == s.shared.session
  {
    hide Reaches, Parse;
    events, t := Step(start, before, s);
    events, t := Step(start, events, t);
    events, t := Step(start, events, t);
    events, t := Step(start, events, t);
    NothingWaits();
    NoBytes([]);
  }

  /** A session has been opened and nothing has happened in it yet. */
  predicate IsNew(s: State) {
    var sh := s.shared;
    s.task.lastSession != sh.session && sh.isOpen && sh.rxInProgress && !sh.rxCompleted && !sh.txInProgress && !sh.txCompleted
    && s.device.inFlight.None?
  }

  /** How many steps a round still has before its last critical section. */
  function Rounding(at: Point): nat {
    match at
    case ResetCheck => 4
    case Feed => 3
    case Dispatch(_, _) => 2
    case Finish => 1
    case _ => 0
  }

  lemma {:induction false} RoundEnds(start: State, before: seq<Event>, s: State) returns (events: seq<Event>, t: State)
    requires Reaches(start, before, s) && IsNew(s) && !s.task.at.Halted?
    ensures Reaches(start, events, t) && IsNew(t) && (t.task.at.Events? || t.task.at.Submit?) && t.shared.session == s.shared.session
    decreases Rounding(s.task.at)
  {
    hide Reaches, Parse, Values, Last, IsRestart;
    if s.task.at.Events? || s.task.at.Submit? {
      events, t := before, s;
    } else {
      events, t := Step(start, before, s);
      events, t := RoundEnds(start, events, t);
    }
  }

  /** Wherever the task stands, opening a session makes it come to await that session's first request. */
  lemma OpenedSessionIsServed(before: seq<Event>, s: State) returns (events: seq<Event>, t: State)
    requires Reaches(INITIAL, before, s) && !s.task.at.Halted?
    ensures Reaches(INITIAL, events, t) && Awaits(t) && t.task.parser == [] && t.shared.session == s.shared.session + 1
  {
    InitialAlways();
    ReachedAlways(INITIAL, before, s);
    hide Reaches, Parse, IsReplyOf;
    ReachesMore(INITIAL, before, s, Open);
    events, t := RoundEnds(INITIAL, before + [Open], OnOpen(s));
    events, t := NewSessionIsAwaited(INITIAL, events, t);
  }
}
