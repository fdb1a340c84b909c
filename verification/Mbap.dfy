/** Modbus TCP framing of one client connection (`modbus_tcp_server.c`): cutting the byte stream into
    MBAP requests, the RTU frame of a request, and the replies. */
module Mbap {
  import opened Bytes
  import opened Crc16
  import opened Rtu

  const HEADER_LENGTH := 7
  const ADU_MAX_LENGTH := 260

  function LengthField(s: seq<byte>): u16
    requires |s| >= 6
  {
    ReadU16Be(s, 4)
  }

  /** The check made the first time the whole header is present. */
  predicate HeaderIsBad(s: seq<byte>)
    requires |s| >= HEADER_LENGTH
  {
    LengthField(s) > 254 || LengthField(s) < 2 || ReadU16Be(s, 2) != 0
  }

  /** How many bytes the next `recv` asks for. */
  function MaxBytes(recv: seq<byte>): int {
    if |recv| < HEADER_LENGTH then HEADER_LENGTH - |recv| else LengthField(recv) + 6 - |recv|
  }

  /** A receive buffer still waiting for bytes of an acceptable request. */
  predicate IsPartial(recv: seq<byte>) {
    |recv| < HEADER_LENGTH || (!HeaderIsBad(recv) && |recv| < LengthField(recv) + 6)
  }

  /** One complete acceptable request. */
  predicate IsRequest(s: seq<byte>) {
    |s| >= HEADER_LENGTH && !HeaderIsBad(s) && |s| == LengthField(s) + 6
  }

  /** Batch specification: the complete requests at the front of a stream and what follows them.
      Section 3.1.3 of the MODBUS Messaging on TCP/IP Implementation Guide V1.0b. */
  function Split(s: seq<byte>): (r: (seq<seq<byte>>, seq<byte>))
    decreases |s|
  {
    if !HoldsRequest(s) then ([], s)
    else
      var n := LengthField(s) + 6;
      var (requests, rest) := Split(s[n..]);
      ([s[..n]] + requests, rest)
  }

  predicate HoldsRequest(s: seq<byte>) {
    |s| >= HEADER_LENGTH && !HeaderIsBad(s) && |s| >= LengthField(s) + 6
  }

  lemma HeaderKept(s: seq<byte>, data: seq<byte>)
    requires HoldsRequest(s)
    ensures var n := LengthField(s) + 6;
            && HoldsRequest(s + data) && LengthField(s + data) == LengthField(s)
            && (s + data)[n..] == s[n..] + data && (s + data)[..n] == s[..n]
  {
  }

  lemma {:induction false} SplitAppend(s: seq<byte>, data: seq<byte>)
    ensures Split(s + data).0 == Split(s).0 + Split(Split(s).1 + data).0
    ensures Split(s + data).1 == Split(Split(s).1 + data).1
    decreases |s|
  {
    if HoldsRequest(s) {
      var n := LengthField(s) + 6;
      HeaderKept(s, data);
      SplitAppend(s[n..], data);
      assert Split(s + data).0 == [s[..n]] + Split(s[n..] + data).0;
      assert Split(s).0 == [s[..n]] + Split(s[n..]).0;
    }
  }

  lemma SplitRequest(s: seq<byte>)
    requires IsRequest(s)
    ensures Split(s) == ([s], [])
  {
    assert s[..|s|] == s && s[|s|..] == [];
    assert Split([]) == ([], []);
    assert [s] + [] == [s];
  }

  lemma {:induction false} SplitYieldsRequests(s: seq<byte>)
    ensures forall r | r in Split(s).0 :: IsRequest(r)
    decreases |s|
  {
    if HoldsRequest(s) {
      var n := LengthField(s) + 6;
      SplitYieldsRequests(s[n..]);
      assert LengthField(s[..n]) == LengthField(s) && ReadU16Be(s[..n], 2) == ReadU16Be(s, 2);
    }
  }

  // ---- requests and replies

  /** The RTU frame of a request: unit id and PDU with a CRC appended. */
  function RtuFrame(request: seq<byte>): seq<byte>
    requires IsRequest(request)
  {
    WithCrc(request[6..])
  }

  /** The copy loop and CRC of `client_recv_tcp_request`. */
  method BuildRtuFrame(recvBuffer: array<byte>, length: nat, data: array<byte>)
    requires length <= recvBuffer.Length && IsRequest(recvBuffer[..length])
    requires data.Length == MAX_LENGTH && recvBuffer != data
    modifies data
    ensures data[..length - 4] == RtuFrame(recvBuffer[..length])
  {
    var count := length - 6;
    var i := 0;
    while i < count
      invariant 0 <= i <= count
      invariant forall k | 0 <= k < i :: data[k] == recvBuffer[k + 6]
    {
      data[i] := recvBuffer[i + 6];
      i := i + 1;
    }
    assert data[..count] == recvBuffer[..length][6..];
    var crc := CalculateCrc(data, count);
    data[count + 1] := crc / 256;
    data[count] := crc % 256;
    assert data[..count] == recvBuffer[..length][6..];
  }

  /** `client_set_send_exception_response` */
  function ExceptionReply(request: seq<byte>, code: byte): seq<byte>
    requires IsRequest(request)
  {
    request[..2] + [0, 0, 0, 3, request[6], ExceptionFunction(request[7]), code]
  }

  /** The forwarded RTU response without its CRC. */
  function ForwardReply(request: seq<byte>, response: seq<byte>): seq<byte>
    requires IsRequest(request) && MIN_LENGTH <= |response| <= MAX_LENGTH
  {
    request[..2] + [0, 0] + WriteU16Be(|response| - 2) + response[..|response| - 2]
  }

  function ValidationException(result: RtuResult): byte {
    match result
    case FunctionUnsupported => 1
    case SlaveAddressInvalid => 10
    case AddressRangeInvalid => 2
    case ByteCountInvalid => 3
    case ValueInvalid => 3
    case QuantityInvalid => 3
    case LengthInvalid => 3
    case _ => 4
  }

  function TransactionException(result: TransactionResult): byte {
    if result == AdapterIoError then 10 else 11
  }

  /** The reply to a request once its transaction is over. */
  function TransactionReply(request: seq<byte>, result: TransactionResult, response: seq<byte>): seq<byte>
    requires IsRequest(request)
    requires IsForwarded(result) ==> MIN_LENGTH <= |response| <= MAX_LENGTH
  {
    if IsForwarded(result) then ForwardReply(request, response)
    else ExceptionReply(request, TransactionException(result))
  }

  /** `reply` is a well-formed answer to `request`: same transaction and unit id, protocol 0, its own length,
      and function f or f|0x80. */
  predicate Answers(request: seq<byte>, reply: seq<byte>) {
    && |request| >= 8 && 8 <= |reply| <= ADU_MAX_LENGTH
    && ReadU16Be(reply, 0) == ReadU16Be(request, 0)
    && ReadU16Be(reply, 2) == 0
    && ReadU16Be(reply, 4) == |reply| - 6
    && reply[6] == request[6]
    && (reply[7] == request[7] || reply[7] == ExceptionFunction(request[7]))
  }

  lemma ExceptionReplyAnswers(request: seq<byte>, code: byte)
    requires IsRequest(request)
    ensures Answers(request, ExceptionReply(request, code))
  {
  }

  lemma TransactionReplyAnswers(request: seq<byte>, result: TransactionResult, response: seq<byte>)
    requires IsRequest(request)
    requires IsForwarded(result) ==> AnswersRequest(RtuFrame(request), response)
    ensures Answers(request, TransactionReply(request, result, response))
  {
    if IsForwarded(result) {
      var frame, reply := RtuFrame(request), ForwardReply(request, response);
      assert frame[..|request| - 6] == request[6..];
      assert frame[0] == request[6..][0] && frame[1] == request[6..][1];
      assert reply[6] == response[0] && reply[7] == response[1];
    }
  }
}
