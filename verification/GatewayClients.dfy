/** What the TCP server keeps about one client connection, whatever the other tasks do. */
module GatewayClients {
  import opened Bytes
  import opened Rtu
  import opened Mbap
  import opened Gateway
  import opened Crc16
  import opened RtuVerdicts

  function Flatten(parts: seq<seq<byte>>): seq<byte> {
    if parts == [] then [] else Flatten(parts[..|parts| - 1]) + parts[|parts| - 1]
  }

  /** The verdict of a transaction is the one `modbus_rtu_transact` gives for its frame and outcome. */
  ghost predicate ExchangeOk(x: Exchange) {
    && ValidateRequest(x.asked) == RtuOk && PortOutcomeIsPossible(x.outcome)
    && x.result == Transact(x.asked, x.outcome)
    && (IsForwarded(x.result) ==> x.outcome.Received? && MIN_LENGTH <= |x.outcome.bytes| <= MAX_LENGTH)
  }

  /** No ADU was free, or the request failed validation in this way. */
  predicate MayRefuse(request: seq<byte>, code: byte)
    requires IsRequest(request)
  {
    var result := ValidateRequest(RtuFrame(request));
    code == 4 || (result != RtuOk && code == ValidationException(result))
  }

  /** The reply is an exception of the server's own, or what the transaction of exactly this request gave. */
  ghost predicate Explains(request: seq<byte>, reply: seq<byte>, origin: Origin) {
    && IsRequest(request)
    && match origin
       case Local(code) => reply == ExceptionReply(request, code) && MayRefuse(request, code)
       case Bus(x) =>
         && x.asked == RtuFrame(request) && ExchangeOk(x)
         && reply == TransactionReply(request, x.result, if IsForwarded(x.result) then x.outcome.bytes else [])
  }

  /** Reply number j answers request number j, and comes from it. */
  ghost predicate AllAnswered(requests: seq<seq<byte>>, c: Client) {
    && |c.origins| == |c.replies| <= |requests|
    && (forall j | 0 <= j < |c.replies| :: Answers(requests[j], c.replies[j]))
    && (forall j | 0 <= j < |c.replies| :: Explains(requests[j], c.replies[j], c.origins[j]))
  }

  /** Every request but the last one is answered; the last one is in the receive buffer. */
  ghost predicate HoldsPending(c: Client) {
    var (requests, rest) := Split(c.stream);
    && AllAnswered(requests, c)
    && rest == [] && |requests| == |c.replies| + 1
    && c.recv == requests[|requests| - 1]
    && c.out == Flatten(c.replies)
  }

  /** The stream received so far, cut by the batch specification, against the replies sent so far. */
  ghost predicate ClientOk(c: Client) {
    c.open ==>
      match c.state
      case Receiving =>
        var (requests, rest) := Split(c.stream);
        && AllAnswered(requests, c)
        && rest == c.recv && IsPartial(c.recv) && |requests| == |c.replies|
        && c.out == Flatten(c.replies)
      case Sending =>
        var (requests, rest) := Split(c.stream);
        var n := |c.replies| - 1;
        && AllAnswered(requests, c)
        && rest == [] && |requests| == n + 1 && n >= 0
        && c.recv == requests[n] && c.send == c.replies[n] && c.sendOffset < |c.send|
        && c.out == Flatten(c.replies[..n]) + c.send[..c.sendOffset]
      case _ => HoldsPending(c)
  }

  lemma PendingIsRequest(c: Client)
    requires HoldsPending(c)
    ensures IsRequest(c.recv)
  {
    SplitYieldsRequests(c.stream);
  }

  lemma SendingIsRequest(c: Client)
    requires ClientOk(c) && c.open && c.state == Sending
    ensures IsRequest(c.recv)
  {
    SplitYieldsRequests(c.stream);
  }

  /** Adding what `recv` returned either completes the header, completes the request, or does neither. */
  lemma ReceiveKeeps(c: Client, data: seq<byte>)
    requires ClientOk(c) && c.open && c.state == Receiving && 1 <= |data| <= MaxBytes(c.recv)
    ensures var d := c.(recv := c.recv + data, stream := c.stream + data);
            if |c.recv| < HEADER_LENGTH && |d.recv| >= HEADER_LENGTH then !HeaderIsBad(d.recv) ==> ClientOk(d)
            else if IsRequest(d.recv) then HoldsPending(d)
            else ClientOk(d)
  {
    hide Answers, Explains;
    var d := c.(recv := c.recv + data, stream := c.stream + data);
    SplitAppend(c.stream, data);
    assert Split(c.stream).1 == c.recv;
    if |c.recv| >= HEADER_LENGTH {
      assert LengthField(d.recv) == LengthField(c.recv) && HeaderIsBad(d.recv) == HeaderIsBad(c.recv);
    }
    if IsRequest(d.recv) {
      SplitRequest(d.recv);
    } else if |d.recv| < HEADER_LENGTH || !HeaderIsBad(d.recv) {
      assert !HoldsRequest(d.recv);
      assert Split(d.stream).0 == Split(c.stream).0;
    }
  }

  lemma StartReplyKeeps(c: Client, reply: seq<byte>, origin: Origin)
    requires HoldsPending(c) && Answers(c.recv, reply) && Explains(c.recv, reply, origin)
    ensures ClientOk(StartReply(c, reply, origin))
  {
    hide Explains;
    var d := StartReply(c, reply, origin);
    assert d.replies[..|d.replies| - 1] == c.replies;
    assert reply[..0] == [];
  }

  lemma SendKeeps(c: Client, count: nat)
    requires ClientOk(c) && c.open && c.state == Sending && 1 <= count && c.sendOffset + count <= |c.send|
    ensures ClientOk(SendBytes(c, count))
  {
    hide Answers, Explains;
    var n := |c.replies| - 1;
    assert c.send[..c.sendOffset] + c.send[c.sendOffset..c.sendOffset + count] == c.send[..c.sendOffset + count];
    assert Flatten(c.replies[..n]) + c.send[..c.sendOffset] + c.send[c.sendOffset..c.sendOffset + count]
        == Flatten(c.replies[..n]) + c.send[..c.sendOffset + count];
    assert c.send[..|c.send|] == c.send;
  }

  lemma AcceptKeeps(c: Client)
    ensures ClientOk(c.(open := true, state := Receiving, recv := [], stream := [], out := [], replies := [], origins := []))
  {
    assert Split([]) == ([], []);
  }

  // ---- requests, byte by byte

  /** Section 3.1.3 of the messaging guide: protocol 0, a length field that counts what follows it, at most 260 bytes. */
  lemma RequestBytes(s: seq<byte>)
    ensures IsRequest(s) <==> 8 <= |s| <= ADU_MAX_LENGTH && s[2] == 0 && s[3] == 0 && Field(s, 4) == |s| - 6
  {
  }

  /** Requests sent one after another are cut apart again, and nothing is left over. */
  lemma {:induction false} RequestsSplitBack(requests: seq<seq<byte>>)
    requires forall i | 0 <= i < |requests| :: IsRequest(requests[i])
    ensures Split(Flatten(requests)) == (requests, [])
  {
    hide IsRequest;
    if requests == [] {
      assert Split([]) == ([], []);
    } else {
      var n := |requests| - 1;
      RequestsSplitBack(requests[..n]);
      SplitAppend(Flatten(requests[..n]), requests[n]);
      SplitRequest(requests[n]);
      assert [] + requests[n] == requests[n];
      assert requests[..n] + [requests[n]] == requests;
    }
  }

  // ---- replies, byte by byte

  predicate IsLegalFunction(f: byte) {
    f in {1, 2, 3, 4, 5, 6, 15, 16}
  }

  /** The request has the length its function code calls for. */
  predicate LengthFits(request: seq<byte>)
    requires |request| >= 8
  {
    if request[7] <= 6 then |request| == 12 else |request| >= 13 && |request| == 13 + request[12] as int
  }

  /** Reads and multiple writes name a range: its quantity is one the function allows. */
  predicate QuantityFits(request: seq<byte>)
    requires |request| >= 12
  {
    var f, quantity := request[7], Field(request, 10);
    1 <= quantity <= (if f <= 2 then 2000 else if f <= 4 then 125 else if f == 15 then 1968 else 123)
  }

  /** The exception code of a request that cannot go on the bus. */
  function RefusalCode(request: seq<byte>): byte
    requires |request| >= 8
  {
    if !IsLegalFunction(request[7]) then 1
    else if !LengthFits(request) then 3
    else if !(1 <= request[6] <= 247) then 10
    else if !(request[7] in {5, 6}) && QuantityFits(request) && Field(request, 8) + Field(request, 10) > 0x1_0000 then 2
    else 3
  }

  /** Each refusal has the code that the first thing wrong with the request calls for. */
  lemma RefusalCodes(request: seq<byte>)
    requires IsRequest(request) && ValidateRequest(RtuFrame(request)) != RtuOk
    ensures ValidationException(ValidateRequest(RtuFrame(request))) == RefusalCode(request)
  {
    hide HasValidCrc, PaddingBitsAreZero, WithCrc;
    FrameBytes(request);
  }

  lemma FrameBytes(request: seq<byte>)
    requires IsRequest(request)
    ensures var frame := RtuFrame(request);
            4 <= |frame| == |request| - 4 <= MAX_LENGTH && HasValidCrc(frame) && frame[..|request| - 6] == request[6..]
            && forall i | 0 <= i < |request| - 6 :: frame[i] == request[i + 6]
  {
    var frame := RtuFrame(request);
    forall i | 0 <= i < |request| - 6 ensures frame[i] == request[i + 6] {
      assert frame[i] == frame[..|request| - 6][i] == request[6..][i];
    }
  }

  predicate IsErrorReply(request: seq<byte>, reply: seq<byte>, code: byte)
    requires |request| >= 8
  {
    |reply| == 9 && reply[7] as int == (if request[7] < 128 then request[7] as int + 128 else request[7] as int) && reply[8] == code
  }

  /**
   * What the bytes of a reply are. Its header is the request's with its own length. A request of the server's own refusal
   * gets the code for what is wrong with it, or 4 when no ADU was free. One that went on the bus went there unchanged; an
   * accepted response comes back unchanged but for its CRC, and anything else becomes code 10 or 11.
   */
  ghost predicate Carries(request: seq<byte>, reply: seq<byte>, origin: Origin) {
    && |request| >= 8 && |reply| >= 9
    && reply[..2] == request[..2] && reply[2] == 0 && reply[3] == 0 && Field(reply, 4) == |reply| - 6 && reply[6] == request[6]
    && match origin
       case Local(code) => IsErrorReply(request, reply, code) && (code == 4 || code == RefusalCode(request))
       case Bus(x) =>
         && |x.asked| == |request| - 4 && x.asked[..|request| - 6] == request[6..] && HasValidCrc(x.asked)
         && ValidateRequest(x.asked) == RtuOk
         && if IsForwarded(Transact(x.asked, x.outcome)) then
              x.outcome.Received? && |reply| == |x.outcome.bytes| + 4 && reply[6..] == x.outcome.bytes[..|x.outcome.bytes| - 2]
            else IsErrorReply(request, reply, if x.outcome.UartError? then 10 else 11)
  }

  lemma ExplainedCarries(request: seq<byte>, reply: seq<byte>, origin: Origin)
    requires Explains(request, reply, origin)
    ensures Carries(request, reply, origin)
  {
    match origin {
      case Local(code) => RefusalCarries(request, code);
      case Bus(x) =>
        FrameBytes(request);
        if IsForwarded(x.result) {
          ForwardCarries(request, x);
        } else {
          FailureCarries(request, x);
        }
    }
  }

  lemma RefusalCarries(request: seq<byte>, code: byte)
    requires IsRequest(request) && MayRefuse(request, code)
    ensures Carries(request, ExceptionReply(request, code), Local(code))
  {
    hide ValidateRequest, HasValidCrc, WithCrc, ValidationException, RefusalCode;
    if code != 4 {
      RefusalCodes(request);
    }
  }

  lemma ForwardCarries(request: seq<byte>, x: Exchange)
    requires IsRequest(request) && x.asked == RtuFrame(request) && ExchangeOk(x) && IsForwarded(x.result)
    ensures Carries(request, TransactionReply(request, x.result, x.outcome.bytes), Bus(x))
  {
    hide ValidateRequest, HasValidCrc, WithCrc, Transact;
    FrameBytes(request);
    ForwardedIsReceived(x);
    var reply := TransactionReply(request, x.result, x.outcome.bytes);
    assert reply[6..] == x.outcome.bytes[..|x.outcome.bytes| - 2];
    assert reply[6] == reply[6..][0];
  }

  /** A response let through begins with the slave address it was sent to, and is no shorter than five bytes. */
  lemma ForwardedIsReceived(x: Exchange)
    requires ExchangeOk(x) && IsForwarded(x.result)
    ensures |x.outcome.bytes| >= 5 && x.outcome.bytes[0] == x.asked[0]
  {
    hide HasValidCrc, PaddingBitsAreZero;
    LegalFunction(x.asked);
  }

  lemma FailureCarries(request: seq<byte>, x: Exchange)
    requires IsRequest(request) && x.asked == RtuFrame(request) && ExchangeOk(x) && !IsForwarded(x.result)
    ensures Carries(request, TransactionReply(request, x.result, []), Bus(x))
  {
    hide ValidateRequest, HasValidCrc, WithCrc, CheckResponseLength, CheckResponseData;
    FrameBytes(request);
    OnlyTheAdapterFails(x);
  }

  lemma OnlyTheAdapterFails(x: Exchange)
    requires ExchangeOk(x)
    ensures x.result == AdapterIoError <==> x.outcome.UartError?
  {
    hide ValidateRequest, HasValidCrc;
  }

  /** One reply for each complete request, in order, but for the request still being served; reply j answers
      request j, comes from it and carries what it should; and what was sent is these replies, up to the unsent part of the last. */
  ghost predicate Served(c: Client) {
    var requests := Split(c.stream).0;
    && AllAnswered(requests, c)
    && (forall j | 0 <= j < |c.replies| :: Carries(requests[j], c.replies[j], c.origins[j]))
    && |c.recv| <= ADU_MAX_LENGTH
    && |requests| == |c.replies| + (if c.state == Submitting || c.state == Waiting then 1 else 0)
    && (if c.state == Sending then
          && c.replies != [] && c.sendOffset < |c.send| <= ADU_MAX_LENGTH
          && c.out + c.send[c.sendOffset..] == Flatten(c.replies)
        else c.out == Flatten(c.replies))
  }

  lemma ClientIsServed(c: Client)
    requires ClientOk(c) && c.open
    ensures Served(c)
  {
    hide Explains, Carries;
    var requests := Split(c.stream).0;
    forall j | 0 <= j < |c.replies| ensures Carries(requests[j], c.replies[j], c.origins[j]) {
      ExplainedCarries(requests[j], c.replies[j], c.origins[j]);
    }
    if c.state == Submitting || c.state == Waiting {
      PendingIsRequest(c);
    } else if c.state == Sending {
      SendingIsRequest(c);
      var n := |c.replies| - 1;
      assert Answers(Split(c.stream).0[n], c.replies[n]);
      SendingTail(c);
    }
  }

  lemma SendingTail(c: Client)
    requires c.replies != [] && c.send == c.replies[|c.replies| - 1] && c.sendOffset <= |c.send|
    requires c.out == Flatten(c.replies[..|c.replies| - 1]) + c.send[..c.sendOffset]
    ensures c.out + c.send[c.sendOffset..] == Flatten(c.replies)
  {
    assert c.send[..c.sendOffset] + c.send[c.sendOffset..] == c.send;
  }
}
