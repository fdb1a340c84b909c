/** Modbus RTU frames (`modbus_rtu.c`): request validation, read-request encoders, the checks of one
    transaction, and the decoders of read responses.

    An ADU is the byte string `data[..length]` of `modbus_rtu_adu_t`. The serial port is the outcome
    of one transceive: an adapter error, a timeout, or at most 256 received bytes. */
module Rtu {
  import opened Bytes
  import opened Bits
  import opened Crc16

  const MAX_LENGTH := 256
  const MIN_LENGTH := 4

  const READ_COILS: byte := 1
  const READ_DISCRETE_INPUTS: byte := 2
  const READ_HOLDING_REGISTERS: byte := 3
  const READ_INPUT_REGISTERS: byte := 4
  const WRITE_SINGLE_COIL: byte := 5
  const WRITE_SINGLE_REGISTER: byte := 6
  const WRITE_MULTIPLE_COILS: byte := 15
  const WRITE_MULTIPLE_REGISTERS: byte := 16

  const MAX_BITS: u16 := 2000
  const MAX_REGISTERS: u16 := 125

  datatype RtuResult =
    | RtuOk | LengthInvalid | SlaveAddressInvalid | CrcInvalid | FunctionUnsupported | FunctionMismatch
    | AddressRangeInvalid | ByteCountInvalid | ValueInvalid | QuantityInvalid

  predicate IsBitRead(function_: byte) {
    function_ == READ_COILS || function_ == READ_DISCRETE_INPUTS
  }

  predicate IsRegisterRead(function_: byte) {
    function_ == READ_HOLDING_REGISTERS || function_ == READ_INPUT_REGISTERS
  }

  predicate IsRead(function_: byte) {
    IsBitRead(function_) || IsRegisterRead(function_)
  }

  predicate IsWriteSingle(function_: byte) {
    function_ == WRITE_SINGLE_COIL || function_ == WRITE_SINGLE_REGISTER
  }

  predicate IsWriteMultiple(function_: byte) {
    function_ == WRITE_MULTIPLE_COILS || function_ == WRITE_MULTIPLE_REGISTERS
  }

  function MaxQuantity(function_: byte): u16 {
    if IsBitRead(function_) then MAX_BITS else MAX_REGISTERS
  }

  predicate SlaveIsRoutable(slave: byte) {
    1 <= slave <= 247
  }

  predicate IsLegalExceptionCode(code: byte) {
    code in {1, 2, 3, 4, 5, 6, 8, 10, 11}
  }

  /** `function | 0x80` */
  function ExceptionFunction(f: byte): byte {
    if f < 128 then f + 128 else f
  }

  /** `padding_bits_are_zero`: the bits above the last used one in the last byte. */
  predicate PaddingBitsAreZero(data: seq<byte>, quantity: u16)
    requires quantity >= 1 && (quantity - 1) / 8 < |data|
  {
    var used := quantity % 8;
    used == 0 || MaskedClear(data[(quantity - 1) / 8], used)
  }

  function ValidateAddressQuantity(start: u16, quantity: u16, maximum: u16): RtuResult {
    if quantity < 1 || quantity > maximum then QuantityInvalid
    else if start + quantity - 1 > 0xFFFF then AddressRangeInvalid
    else RtuOk
  }

  /** `validate_request_length` */
  function ValidateRequestLength(rtu: seq<byte>): RtuResult {
    if |rtu| < MIN_LENGTH || |rtu| > MAX_LENGTH then LengthInvalid
    else if IsRead(rtu[1]) || IsWriteSingle(rtu[1]) then
      if |rtu| == 8 then RtuOk else LengthInvalid
    else if IsWriteMultiple(rtu[1]) then
      if |rtu| >= 9 && |rtu| == 9 + (rtu[6] as int) then RtuOk else LengthInvalid
    else FunctionUnsupported
  }

  /** `modbus_rtu_validate_request` */
  function ValidateRequest(rtu: seq<byte>): RtuResult {
    var length := ValidateRequestLength(rtu);
    if length != RtuOk then length
    else if !HasValidCrc(rtu) then CrcInvalid
    else if !SlaveIsRoutable(rtu[0]) then SlaveAddressInvalid
    else
      var f, start, quantity := rtu[1], ReadU16Be(rtu, 2), ReadU16Be(rtu, 4);
      if IsRead(f) then ValidateAddressQuantity(start, quantity, MaxQuantity(f))
      else if f == WRITE_SINGLE_COIL then (if quantity == 0 || quantity == 0xFF00 then RtuOk else ValueInvalid)
      else if f == WRITE_SINGLE_REGISTER then RtuOk
      else if f == WRITE_MULTIPLE_COILS then
        var range := ValidateAddressQuantity(start, quantity, 1968);
        if range != RtuOk then range
        else if rtu[6] != (quantity + 7) / 8 then ByteCountInvalid
        else if !PaddingBitsAreZero(rtu[7..], quantity) then ValueInvalid
        else RtuOk
      else
        var range := ValidateAddressQuantity(start, quantity, 123);
        if range != RtuOk then range
        else if rtu[6] != quantity * 2 then ByteCountInvalid
        else RtuOk
  }

  /** `encode_address_quantity_request` with the function code and limit its four callers pass. */
  function EncodeReadRequest(slave: byte, f: byte, start: u16, quantity: u16): (RtuResult, seq<byte>)
    requires IsRead(f)
  {
    if !SlaveIsRoutable(slave) then (SlaveAddressInvalid, [])
    else
      var range := ValidateAddressQuantity(start, quantity, MaxQuantity(f));
      if range != RtuOk then (range, [])
      else (RtuOk, WithCrc([slave, f] + WriteU16Be(start) + WriteU16Be(quantity)))
  }

  /** Every request an encoder produces passes validation, and carries the encoder's arguments. */
  lemma EncodedRequestIsValid(slave: byte, f: byte, start: u16, quantity: u16)
    requires IsRead(f)
    ensures var (result, request) := EncodeReadRequest(slave, f, start, quantity);
            result == RtuOk ==>
              && ValidateRequest(request) == RtuOk
              && request[0] == slave && request[1] == f
              && ReadU16Be(request, 2) == start && ReadU16Be(request, 4) == quantity
  {
    var (result, request) := EncodeReadRequest(slave, f, start, quantity);
    if result == RtuOk {
      var body := [slave, f] + WriteU16Be(start) + WriteU16Be(quantity);
      assert forall i | 0 <= i < 6 :: request[i] == request[..6][i];
      assert request[..6] == body;
    }
  }

  // ---- one transaction

  datatype PortOutcome = UartError | SlaveTimeout | Received(bytes: seq<byte>)

  predicate PortOutcomeIsPossible(outcome: PortOutcome) {
    outcome.Received? ==> |outcome.bytes| <= MAX_LENGTH
  }

  datatype TransactionResult =
    | TransactionOk | ExceptionResponse | AdapterIoError | ResponseTimeout | ResponseLengthInvalid
    | ResponseCrcInvalid | ResponseSlaveAddressMismatch | ResponseFunctionMismatch | ResponseFunctionInvalid
    | ResponseDataMismatch | ResponseDataInvalid

  /** The response length its own function code implies, or the reason it implies none. */
  function CheckResponseLength(response: seq<byte>): TransactionResult {
    if |response| < MIN_LENGTH then ResponseLengthInvalid
    else if IsRead(response[1]) then
      if |response| == 5 + (response[2] as int) then TransactionOk else ResponseLengthInvalid
    else if IsWriteSingle(response[1]) || IsWriteMultiple(response[1]) then
      if |response| == 8 then TransactionOk else ResponseLengthInvalid
    else if response[1] > 0x80 then
      if |response| == 5 then TransactionOk else ResponseLengthInvalid
    else ResponseFunctionInvalid
  }

  /** `modbus_rtu_transact` for a request that passed validation. */
  function Transact(request: seq<byte>, outcome: PortOutcome): TransactionResult
    requires ValidateRequest(request) == RtuOk
  {
    match outcome
    case UartError => AdapterIoError
    case SlaveTimeout => ResponseTimeout
    case Received(response) =>
      var length := CheckResponseLength(response);
      if length != TransactionOk then length
      else if !HasValidCrc(response) then ResponseCrcInvalid
      else if response[0] != request[0] then ResponseSlaveAddressMismatch
      else if response[1] != request[1] && response[1] != ExceptionFunction(request[1]) then ResponseFunctionMismatch
      else if response[1] == ExceptionFunction(request[1]) then
        if IsLegalExceptionCode(response[2]) then ExceptionResponse else ResponseDataInvalid
      else CheckResponseData(request, response)
  }

  /** The last switch of `modbus_rtu_transact`. */
  function CheckResponseData(request: seq<byte>, response: seq<byte>): TransactionResult
    requires ValidateRequest(request) == RtuOk
    requires CheckResponseLength(response) == TransactionOk && response[1] == request[1]
  {
    var f, quantity := request[1], ReadU16Be(request, 4);
    if IsBitRead(f) then
      if response[2] != (quantity + 7) / 8 then ResponseDataMismatch
      else if !PaddingBitsAreZero(response[3..], quantity) then ResponseDataInvalid
      else TransactionOk
    else if IsRegisterRead(f) then
      if response[2] % 2 != 0 then ResponseDataInvalid
      else if quantity != response[2] / 2 then ResponseDataMismatch
      else TransactionOk
    else if ReadU16Be(request, 2) != ReadU16Be(response, 2) || quantity != ReadU16Be(response, 4) then ResponseDataMismatch
    else TransactionOk
  }

  predicate IsForwarded(result: TransactionResult) {
    result == TransactionOk || result == ExceptionResponse
  }

  /** What every response the gateway forwards has in common with its request. */
  predicate AnswersRequest(request: seq<byte>, response: seq<byte>) {
    && |request| >= 4 && MIN_LENGTH <= |response| <= MAX_LENGTH
    && HasValidCrc(response)
    && response[0] == request[0]
    && (response[1] == request[1] || response[1] == ExceptionFunction(request[1]))
  }

  lemma ForwardedAnswersRequest(request: seq<byte>, outcome: PortOutcome)
    requires ValidateRequest(request) == RtuOk && PortOutcomeIsPossible(outcome)
    requires IsForwarded(Transact(request, outcome))
    ensures outcome.Received? && AnswersRequest(request, outcome.bytes)
  {
  }

  // ---- decoders of read responses

  /** The checks of `decode_bit_response`, in its order. */
  function CheckBitResponse(response: seq<byte>, f: byte, maximum: u16, quantity: u16): RtuResult {
    if quantity < 1 || quantity > maximum then QuantityInvalid
    else if |response| < 5 || |response| > MAX_LENGTH then LengthInvalid
    else if |response| != (response[2] as int) + 5 then LengthInvalid
    else if !HasValidCrc(response) then CrcInvalid
    else if response[1] != f then FunctionMismatch
    else if !SlaveIsRoutable(response[0]) then SlaveAddressInvalid
    else if response[2] != (quantity + 7) / 8 then ByteCountInvalid
    else if !PaddingBitsAreZero(response[3..], quantity) then ValueInvalid
    else RtuOk
  }

  /** The checks of `decode_register_response`, in its order. */
  function CheckRegisterResponse(response: seq<byte>, f: byte, maximum: u16, quantity: u16): RtuResult {
    if quantity < 1 || quantity > maximum then QuantityInvalid
    else if |response| < 5 || |response| > MAX_LENGTH then LengthInvalid
    else if |response| != (response[2] as int) + 5 then LengthInvalid
    else if !HasValidCrc(response) then CrcInvalid
    else if !SlaveIsRoutable(response[0]) then SlaveAddressInvalid
    else if response[1] != f then FunctionMismatch
    else if response[2] % 2 != 0 then ByteCountInvalid
    else if quantity != response[2] / 2 then ByteCountInvalid
    else RtuOk
  }

  /** Sections 6.1 and 6.2 of MODBUS Application Protocol V1.1b3: eight values to a byte, first value lowest. */
  function PackBits(bits: seq<bool>): seq<nat> {
    if bits == [] then []
    else if |bits| <= 8 then [FromBits(bits)]
    else [FromBits(bits[..8])] + PackBits(bits[8..])
  }

  /** Sections 6.3 and 6.4: two bytes to a register, high byte first. */
  function PackRegisters(values: seq<u16>): seq<byte> {
    if values == [] then [] else WriteU16Be(values[0]) + PackRegisters(values[1..])
  }

  /** `quantity` values read off `data`, as the loop of the decoder does. */
  function UnpackBits(data: seq<byte>, quantity: nat): (bits: seq<bool>)
    requires quantity <= 8 * |data|
    ensures |bits| == quantity
  {
    seq(quantity, i requires 0 <= i < quantity => Bit(data[i / 8], i % 8))
  }

  function UnpackRegisters(data: seq<byte>, quantity: nat): (values: seq<u16>)
    requires 2 * quantity <= |data|
    ensures |values| == quantity
  {
    seq(quantity, i requires 0 <= i < quantity => ReadU16Be(data, 2 * i))
  }

  lemma FirstBits(data: seq<byte>, quantity: nat, n: nat)
    requires n <= 8 && n <= quantity <= 8 * |data| && |data| > 0
    ensures UnpackBits(data, quantity)[..n] == LowBits(data[0], n)
  {
    var bits := UnpackBits(data, quantity)[..n];
    forall k | 0 <= k < n ensures bits[k] == LowBits(data[0], n)[k] {
      LowBitsAt(data[0], n, k);
      assert k / 8 == 0 && k % 8 == k;
    }
  }

  lemma LaterBits(data: seq<byte>, quantity: nat)
    requires 8 <= quantity <= 8 * |data|
    ensures UnpackBits(data, quantity)[8..] == UnpackBits(data[1..], quantity - 8)
  {
    var bits, rest := UnpackBits(data, quantity)[8..], UnpackBits(data[1..], quantity - 8);
    forall k | 0 <= k < quantity - 8 ensures bits[k] == rest[k] {
      assert (k + 8) / 8 == k / 8 + 1 && (k + 8) % 8 == k % 8;
    }
  }

  /** The number of values in the last byte. */
  function UsedBits(quantity: nat): nat {
    if quantity % 8 == 0 then 8 else quantity % 8
  }

  /** With clear padding the last byte only holds its used bits. */
  lemma LastByteRange(data: seq<byte>, quantity: u16)
    requires 1 <= quantity && |data| == (quantity + 7) / 8 && PaddingBitsAreZero(data, quantity)
    ensures data[|data| - 1] < Pow2(UsedBits(quantity)) && quantity == 8 * (|data| - 1) + UsedBits(quantity)
  {
    hide MaskedClear, Pow2;
    var used := quantity % 8;
    assert quantity == 8 * (quantity / 8) + used;
    assert (quantity - 1) / 8 == |data| - 1;
    if used == 0 {
      EightBits();
    } else {
      MaskClear(data[|data| - 1], used);
    }
  }

  lemma {:induction false} PackUnpack(data: seq<byte>, used: nat)
    requires |data| >= 1 && 1 <= used <= 8 && data[|data| - 1] < Pow2(used)
    ensures PackBits(UnpackBits(data, 8 * (|data| - 1) + used)) == data
    decreases |data|
  {
    hide FromBits, LowBits, Bit, Pow2;
    var quantity := 8 * (|data| - 1) + used;
    var bits := UnpackBits(data, quantity);
    if |data| == 1 {
      FirstBits(data, quantity, used);
      assert bits[..used] == bits;
      FromLowBits(data[0], used);
    } else {
      FirstBits(data, quantity, 8);
      assert data[0] < Pow2(8) by { EightBits(); }
      FromLowBits(data[0], 8);
      LaterBits(data, quantity);
      PackUnpack(data[1..], used);
    }
  }

  /** Values read off data with clear padding pack back to exactly that data. */
  lemma PackUnpackBits(data: seq<byte>, quantity: u16)
    requires 1 <= quantity && |data| == (quantity + 7) / 8 && PaddingBitsAreZero(data, quantity)
    ensures PackBits(UnpackBits(data, quantity)) == data
  {
    LastByteRange(data, quantity);
    PackUnpack(data, UsedBits(quantity));
  }

  lemma {:induction false} PackUnpackRegisters(data: seq<byte>, quantity: nat)
    requires |data| == 2 * quantity
    ensures PackRegisters(UnpackRegisters(data, quantity)) == data
    decreases quantity
  {
    if quantity > 0 {
      var values := UnpackRegisters(data, quantity);
      PackUnpackRegisters(data[2..], quantity - 1);
      assert values[1..] == UnpackRegisters(data[2..], quantity - 1);
      assert WriteU16Be(values[0]) == data[..2];
      assert data == data[..2] + data[2..];
    }
  }

  /** `decode_bit_response`: on success the values written pack back to the data bytes of the response. */
  method DecodeBitResponse(response: seq<byte>, f: byte, maximum: u16, quantity: u16, values: array<bool>)
    returns (result: RtuResult, slave: byte)
    requires quantity <= values.Length && maximum <= MAX_BITS
    modifies values
    ensures result == CheckBitResponse(response, f, maximum, quantity)
    ensures result == RtuOk ==>
              && slave == response[0]
              && PackBits(values[..quantity]) == response[3..|response| - 2]
              && values[quantity..] == old(values[quantity..])
    ensures result != RtuOk ==> values[..] == old(values[..])
  {
    result := CheckBitResponse(response, f, maximum, quantity);
    slave := 0;
    if result != RtuOk {
      return;
    }
    ghost var data := response[3..|response| - 2];
    var index := 0;
    while index < quantity
      invariant 0 <= index <= quantity
      invariant forall i | 0 <= i < index :: values[i] == Bit(data[i / 8], i % 8)
      invariant values[quantity..] == old(values[quantity..])
    {
      assert response[3 + index / 8] == data[index / 8];
      values[index] := Bit(response[3 + index / 8], index % 8);
      index := index + 1;
    }
    slave := response[0];
    assert values[..quantity] == UnpackBits(data, quantity);
    assert PaddingBitsAreZero(data, quantity) by {
      assert data[(quantity - 1) / 8] == response[3..][(quantity - 1) / 8];
    }
    PackUnpackBits(data, quantity);
  }

  /** `decode_register_response` */
  method DecodeRegisterResponse(response: seq<byte>, f: byte, maximum: u16, quantity: u16, values: array<u16>)
    returns (result: RtuResult, slave: byte)
    requires quantity <= values.Length
    modifies values
    ensures result == CheckRegisterResponse(response, f, maximum, quantity)
    ensures result == RtuOk ==>
              && slave == response[0]
              && PackRegisters(values[..quantity]) == response[3..|response| - 2]
              && values[quantity..] == old(values[quantity..])
    ensures result != RtuOk ==> values[..] == old(values[..])
  {
    result := CheckRegisterResponse(response, f, maximum, quantity);
    slave := 0;
    if result != RtuOk {
      return;
    }
    ghost var data := response[3..|response| - 2];
    var index := 0;
    while index < quantity
      invariant 0 <= index <= quantity
      invariant forall i | 0 <= i < index :: values[i] == ReadU16Be(data, 2 * i)
      invariant values[quantity..] == old(values[quantity..])
    {
      assert response[3 + 2 * index] == data[2 * index] && response[4 + 2 * index] == data[2 * index + 1];
      values[index] := ReadU16Be(response, 3 + 2 * index);
      index := index + 1;
    }
    slave := response[0];
    assert values[..quantity] == UnpackRegisters(data, quantity);
    PackUnpackRegisters(data, quantity);
  }

  /** A read transaction that succeeded leaves a response its decoder accepts, from the addressed slave, and
      the requested number of values in it is exactly its data. */
  lemma ReadResponseDecodes(request: seq<byte>, outcome: PortOutcome)
    requires ValidateRequest(request) == RtuOk && IsRead(request[1]) && PortOutcomeIsPossible(outcome)
    requires Transact(request, outcome) == TransactionOk
    ensures outcome.Received? && |outcome.bytes| >= 5 && outcome.bytes[0] == request[0]
    ensures var f, quantity, data := request[1], ReadU16Be(request, 4), outcome.bytes[3..|outcome.bytes| - 2];
            if IsBitRead(f) then
              && CheckBitResponse(outcome.bytes, f, MAX_BITS, quantity) == RtuOk
              && quantity <= 8 * |data|
              && PackBits(UnpackBits(data, quantity)) == data
            else
              && CheckRegisterResponse(outcome.bytes, f, MAX_REGISTERS, quantity) == RtuOk
              && 2 * quantity == |data|
              && PackRegisters(UnpackRegisters(data, quantity)) == data
  {
    var f, quantity, data := request[1], ReadU16Be(request, 4), outcome.bytes[3..|outcome.bytes| - 2];
    if IsBitRead(f) {
      assert data[(quantity - 1) / 8] == outcome.bytes[3..][(quantity - 1) / 8];
      PackUnpackBits(data, quantity);
    } else {
      PackUnpackRegisters(data, quantity);
    }
  }
}
