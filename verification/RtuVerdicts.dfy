/** Which requests and which responses `modbus_rtu.c` accepts, byte by byte. */
module RtuVerdicts {
  import opened Bytes
  import opened Bits
  import opened Crc16
  import opened Rtu

  function Field(s: seq<byte>, at: nat): int
    requires at + 2 <= |s|
  {
    256 * (s[at] as int) + s[at + 1]
  }

  /** The last of the bytes that hold `quantity` bits has no bit set above the last one used. */
  predicate PaddingIsClear(last: byte, quantity: int)
    requires quantity >= 1
  {
    last < Pow2(UsedBits(quantity))
  }

  lemma PaddingMeans(data: seq<byte>, quantity: u16)
    requires quantity >= 1 && (quantity - 1) / 8 < |data|
    ensures PaddingBitsAreZero(data, quantity) <==> PaddingIsClear(data[(quantity - 1) / 8], quantity)
  {
    hide MaskedClear, Pow2;
    EightBits();
    if quantity % 8 != 0 {
      MaskClear(data[(quantity - 1) / 8], quantity % 8);
    }
  }

  // ---- requests

  /** Sections 6.1 to 6.4: a read of 1 to 2000 bits or 1 to 125 registers inside the address space. */
  predicate IsReadRequest(s: seq<byte>) {
    |s| == 8 && 1 <= s[1] <= 4 && 1 <= Field(s, 4) <= (if s[1] <= 2 then 2000 else 125) && Field(s, 2) + Field(s, 4) <= 0x1_0000
  }

  /** Sections 6.5 and 6.6. */
  predicate IsSingleWrite(s: seq<byte>) {
    |s| == 8 && (s[1] == 6 || (s[1] == 5 && (Field(s, 4) == 0 || Field(s, 4) == 0xFF00)))
  }

  /** Sections 6.11 and 6.12: 1 to 1968 bits with clear padding, or 1 to 123 registers, and just their bytes. */
  predicate IsMultipleWrite(s: seq<byte>) {
    |s| >= 9 && (s[1] == 15 || s[1] == 16) && Field(s, 2) + Field(s, 4) <= 0x1_0000
    && 1 <= Field(s, 4) <= (if s[1] == 15 then 1968 else 123)
    && s[6] as int == (if s[1] == 15 then (Field(s, 4) + 7) / 8 else 2 * Field(s, 4)) && |s| == 9 + s[6] as int
    && (s[1] == 15 ==> PaddingIsClear(s[6 + s[6] as int], Field(s, 4)))
  }

  /** What a request must be to go on the bus. */
  lemma AcceptedRequests(s: seq<byte>)
    ensures ValidateRequest(s) == RtuOk
            <==> |s| >= MIN_LENGTH && HasValidCrc(s) && 1 <= s[0] <= 247 && (IsReadRequest(s) || IsSingleWrite(s) || IsMultipleWrite(s))
  {
    hide HasValidCrc, PaddingBitsAreZero, PaddingIsClear;
    if |s| >= 9 && s[1] == 15 && 1 <= Field(s, 4) <= 1968 && s[6] as int == (Field(s, 4) + 7) / 8 && |s| == 9 + s[6] as int {
      PaddingMeans(s[7..], Field(s, 4));
      assert s[7..][(Field(s, 4) - 1) / 8] == s[6 + s[6] as int];
    }
  }

  // ---- responses

  /** A write is acknowledged exactly by the echo of its address and its value or quantity. */
  lemma AcceptedWriteResponses(request: seq<byte>, r: seq<byte>)
    requires ValidateRequest(request) == RtuOk && !IsRead(request[1])
    ensures Transact(request, Received(r)) == TransactionOk <==> |r| == 8 && HasValidCrc(r) && r[..6] == request[..6]
  {
    hide HasValidCrc, PaddingBitsAreZero;
    LegalFunction(request);
    if |r| == 8 {
      SameFields(request, r);
    }
  }

  lemma SameFields(a: seq<byte>, b: seq<byte>)
    requires |a| >= 6 && |b| >= 6
    ensures a[..6] == b[..6]
            <==> a[0] == b[0] && a[1] == b[1] && ReadU16Be(a, 2) == ReadU16Be(b, 2) && ReadU16Be(a, 4) == ReadU16Be(b, 4)
  {
    SameWord(a[2], a[3], b[2], b[3]);
    SameWord(a[4], a[5], b[4], b[5]);
    if a[..6] == b[..6] {
      assert forall i | 0 <= i < 6 :: a[i] == a[..6][i] == b[..6][i] == b[i];
    }
  }

  lemma SameWord(a: byte, b: byte, c: byte, d: byte)
    ensures 256 * (a as int) + b as int == 256 * (c as int) + d as int <==> a == c && b == d
  {
  }

  lemma LegalFunction(request: seq<byte>)
    requires ValidateRequest(request) == RtuOk
    ensures |request| >= 8 && request[1] in {1, 2, 3, 4, 5, 6, 15, 16}
  {
    hide HasValidCrc, PaddingBitsAreZero;
  }

  /** The number of data bytes that answer a read. */
  function DataBytes(request: seq<byte>): int
    requires |request| >= 6
  {
    if request[1] <= 2 then (Field(request, 4) + 7) / 8 else 2 * Field(request, 4)
  }

  /** A read is answered exactly by its own slave and function with the bytes of its quantity, padding clear. */
  lemma AcceptedReadResponses(request: seq<byte>, r: seq<byte>)
    requires ValidateRequest(request) == RtuOk && IsRead(request[1])
    ensures Transact(request, Received(r)) == TransactionOk
            <==> |r| == 5 + DataBytes(request) && HasValidCrc(r) && r[..2] == request[..2] && r[2] as int == DataBytes(request)
                 && (request[1] <= 2 ==> PaddingIsClear(r[2 + DataBytes(request)], Field(request, 4)))
  {
    hide HasValidCrc, PaddingBitsAreZero, PaddingIsClear;
    LegalFunction(request);
    ReadQuantity(request);
    if |r| >= 2 {
      assert r[..2] == [r[0], r[1]] && request[..2] == [request[0], request[1]];
    }
    if |r| == 5 + DataBytes(request) && request[1] <= 2 {
      PaddingMeans(r[3..], Field(request, 4));
      assert r[3..][(Field(request, 4) - 1) / 8] == r[2 + DataBytes(request)];
    }
  }

  lemma ReadQuantity(request: seq<byte>)
    requires ValidateRequest(request) == RtuOk && IsRead(request[1])
    ensures Field(request, 4) == ReadU16Be(request, 4) && 1 <= Field(request, 4) <= (if request[1] <= 2 then 2000 else 125)
  {
    hide HasValidCrc, PaddingBitsAreZero;
  }

  /** An error response is accepted exactly when it is five bytes with the function's top bit set and a code of the protocol. */
  lemma AcceptedErrorResponses(request: seq<byte>, r: seq<byte>)
    requires ValidateRequest(request) == RtuOk
    ensures Transact(request, Received(r)) == ExceptionResponse
            <==> |r| == 5 && HasValidCrc(r) && r[0] == request[0] && r[1] as int == request[1] as int + 128
                 && r[2] in {1, 2, 3, 4, 5, 6, 8, 10, 11}
  {
    hide HasValidCrc, PaddingBitsAreZero, MaskedClear;
    LegalFunction(request);
  }
}
