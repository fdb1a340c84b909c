/** The streaming parser and the in-place encoder of `management_frame.c`, on the buffers they update. */
module FrameParser {
  import opened Bytes
  import opened Frames
  import Crc32

  datatype Result = Ok | InvalidArgument | PayloadTooLong | BufferTooSmall

  /** `memmove` within one buffer: every byte is read before any is written. */
  method Move(buffer: array<byte>, to: nat, from: nat, count: nat)
    requires to + count <= buffer.Length && from + count <= buffer.Length
    modifies buffer
    ensures buffer[to..to + count] == old(buffer[from..from + count])
    ensures buffer[..to] == old(buffer[..to]) && buffer[to + count..] == old(buffer[to + count..])
  {
    forall i | 0 <= i < count {
      buffer[to + i] := buffer[from + i];
    }
  }

  /** `memcmp` with the first `count` bytes of the magic. */
  method MatchesMagic(bytes: array<byte>, at: nat, count: nat) returns (same: bool)
    requires at + count <= bytes.Length && count <= 4
    ensures same <==> bytes[at..at + count] == MAGIC[..count]
  {
    var k := 0;
    while k < count
      invariant 0 <= k <= count
      invariant bytes[at..at + k] == MAGIC[..k]
    {
      if bytes[at + k] != MAGIC[k] {
        assert bytes[at..at + count][k] != MAGIC[..count][k];
        return false;
      }
      k := k + 1;
    }
    same := true;
  }

  method FindMagicIn(bytes: array<byte>, length: nat) returns (index: nat)
    requires length <= bytes.Length
    ensures index == FindMagic(bytes[..length])
  {
    if length < 4 {
      return length;
    }
    index := 0;
    assert bytes[0..length] == bytes[..length];
    while index <= length - 4
      invariant 0 <= index <= length - 3
      invariant FindMagic(bytes[..length]) == index + FindMagic(bytes[index..length])
    {
      var here := MatchesMagic(bytes, index, 4);
      assert bytes[index..length][..4] == bytes[index..index + 4];
      if here {
        return index;
      }
      assert bytes[index..length][1..] == bytes[index + 1..length];
      index := index + 1;
    }
    index := length;
  }

  method MagicSuffixLength(bytes: array<byte>, length: nat) returns (candidate: nat)
    requires length <= bytes.Length
    ensures candidate == KeepLength(bytes[..length], if length < 3 then length else 3)
  {
    hide KeepLength, EndsWithMagic;
    ghost var s := bytes[..length];
    candidate := 3;
    if candidate > length {
      candidate := length;
    }
    while candidate != 0
      invariant candidate <= 3 && candidate <= length
      invariant KeepLength(s, candidate) == KeepLength(s, if length < 3 then length else 3)
    {
      KeepStep(s, candidate);
      var here := EndMatches(bytes, length, candidate);
      if here {
        return;
      }
      candidate := candidate - 1;
    }
    KeepStep(s, 0);
  }

  method EndMatches(bytes: array<byte>, length: nat, count: nat) returns (same: bool)
    requires count <= 3 && count <= length <= bytes.Length
    ensures same <==> EndsWithMagic(bytes[..length], count)
  {
    same := MatchesMagic(bytes, length - count, count);
    assert bytes[..length][length - count..] == bytes[length - count..length - count + count];
  }

  method ReadU32(bytes: array<byte>, at: nat) returns (v: u32)
    requires at + 4 <= bytes.Length
    ensures v == ReadU32Le(bytes[..], at)
  {
    v := bytes[at] + 0x100 * (bytes[at + 1] as int) + 0x1_0000 * (bytes[at + 2] as int) + 0x100_0000 * (bytes[at + 3] as int);
  }

  class Parser {
    var storage: array?<byte>
    var length: nat

    ghost predicate Valid()
      reads this
    {
      storage != null ==> length <= storage.Length
    }

    ghost function Buffered(): seq<byte>
      requires Valid()
      reads this, storage
    {
      if storage == null then [] else storage[..length]
    }

    /** Between calls: room for the longest frame, and nothing more to parse. */
    ghost predicate Ready()
      reads this, storage
    {
      Valid() && storage != null && storage.Length >= MAX_LENGTH && Judge(Buffered()) == Wait
    }

    constructor ()
      ensures Valid() && storage == null
    {
      storage := null;
      length := 0;
    }

    method Init(buffer: array?<byte>) returns (result: Result)
      modifies this
      ensures result.Ok? <==> buffer != null && buffer.Length >= MAX_LENGTH
      ensures result.Ok? ==> Ready() && storage == buffer && Buffered() == []
      ensures !result.Ok? ==> result == (if buffer == null then InvalidArgument else BufferTooSmall)
      ensures !result.Ok? ==> storage == old(storage) && length == old(length)
    {
      if buffer == null {
        return InvalidArgument;
      }
      if buffer.Length < MAX_LENGTH {
        return BufferTooSmall;
      }
      storage := buffer;
      length := 0;
      NothingWaits();
      result := Ok;
    }

    /** Remove the first `count` buffered bytes. */
    method Drop(count: nat)
      requires Valid() && storage != null && count <= length
      modifies this`length, storage
      ensures Valid() && Buffered() == old(Buffered()[count..])
    {
      ghost var all := storage[..length];
      length := length - count;
      assert all[count..] == storage[count..count + length];
      if length != 0 {
        Move(storage, 0, count, length);
      }
      assert storage[..length] == storage[0..0 + length];
    }

    /** Bring the first magic to the front, or keep only a suffix that may become one. */
    method SeekMagic() returns (found: bool)
      requires Valid() && storage != null
      modifies this`length, storage
      ensures Valid() && length <= old(length)
      ensures Parse(Buffered()) == old(Parse(Buffered()))
      ensures found ==> length >= 4 && Buffered()[..4] == MAGIC
      ensures !found ==> Parse(Buffered()) == ([], Buffered())
    {
      hide Parse, Judge, FindMagic, KeepLength;
      ghost var before := Buffered();
      var magicIndex := FindMagicIn(storage, length);
      found := magicIndex != length;
      if found {
        ParseToMagic(before);
        if magicIndex != 0 {
          Drop(magicIndex);
        }
        assert Buffered() == before[magicIndex..];
      } else {
        var suffixLength := MagicSuffixLength(storage, length);
        ParseNoMagic(before, if length < 3 then length else 3);
        RestIsSettled(before);
        SettledKeeps(Parse(before).1);
        Drop(length - suffixLength);
      }
    }

    /** Length, completeness and checksum of the frame at the front. */
    method Examine() returns (verdict: Verdict, frame: Frame)
      requires Valid() && storage != null && length >= 4 && Buffered()[..4] == MAGIC
      ensures verdict == Judge(Buffered())
      ensures verdict.Take? ==> frame == FrameAt(Buffered(), verdict.length)
    {
      hide Crc32.Crc, ReadU32Le;
      ghost var front := Buffered();
      frame := Frame(0, 0, []);
      assert forall j | 0 <= j < 4 :: front[j] == front[..4][j];
      if length < HEADER_LENGTH {
        return Wait, frame;
      }
      assert storage[..] == front + storage[length..];
      ReadU32LeAppend(front, storage[length..], 9);
      ReadU32LeAppend(front, storage[length..], 5);
      var payloadLength := ReadU32(storage, 9);
      if payloadLength > MAX_PAYLOAD_LENGTH {
        return Verdict.Drop, frame;
      }
      var crcAt := HEADER_LENGTH + payloadLength;
      if length < crcAt + CRC_LENGTH {
        return Wait, frame;
      }
      ReadU32LeAppend(front, storage[length..], crcAt);
      var expectedCrc := ReadU32(storage, crcAt);
      var crc := Crc32.Calculate(storage, 0, crcAt);
      assert storage[0..0 + crcAt] == front[..crcAt];
      if crc != expectedCrc {
        return Verdict.Drop, frame;
      }
      var transactionId := ReadU32(storage, 5);
      frame := Frame(storage[4], transactionId, storage[HEADER_LENGTH..crcAt]);
      assert frame.payload == front[HEADER_LENGTH..crcAt];
      verdict := Take(crcAt + CRC_LENGTH);
    }

    /** `management_frame_parser_process`: hand on every complete frame, keep only what may still become one. */
    method Process() returns (frames: seq<Frame>)
      requires Valid() && storage != null
      modifies this`length, storage
      ensures Valid()
      ensures frames == old(Parse(Buffered()).0) && Buffered() == old(Parse(Buffered()).1)
    {
      hide Judge, FrameAt, Parse, Remains;
      frames := [];
      ghost var whole := Buffered();
      RemainsAll(whole);
      while true
        invariant Valid() && Remains(whole, frames, Buffered())
        decreases length
      {
        ghost var before := Buffered();
        var found := SeekMagic();
        RemainsSame(whole, frames, before, Buffered());
        if !found {
          RemainsNothing(whole, frames, Buffered());
          return;
        }
        ghost var front := Buffered();
        var verdict, frame := Examine();
        RemainsStep(whole, frames, front);
        match verdict {
          case Wait =>
            RemainsNothing(whole, frames, front);
            return;
          case Drop =>
            Drop(1);
          case Take(n) =>
            frames := frames + [frame];
            Drop(n);
        }
        if length == 0 {
          assert Buffered() == [];
          NothingWaits();
          RemainsNothing(whole, frames, []);
          return;
        }
      }
    }

    /** `management_frame_parser_feed`: a buffer that is full is discarded, but between frames it never is. */
    method Feed(data: seq<byte>) returns (result: Result, frames: seq<Frame>)
      requires Valid()
      modifies this`length, storage
      ensures Valid()
      ensures old(Ready()) ==> result.Ok? && Ready()
      ensures old(Ready()) ==> frames == old(Parse(Buffered() + data).0) && Buffered() == old(Parse(Buffered() + data).1)
      ensures old(storage) == null ==> result == InvalidArgument && length == old(length) && frames == []
      ensures result.BufferTooSmall? ==> length == 0
    {
      hide Parse, Judge;
      frames := [];
      if storage == null {
        return InvalidArgument, frames;
      }
      ghost var start, ready := Buffered(), Ready();
      assert start + data[..0] == start;
      if ready {
        SettledKeeps(start);
      }
      var index := 0;
      while index < |data|
        invariant 0 <= index <= |data|
        invariant Valid()
        invariant ready ==> Ready()
        invariant ready ==> frames == Parse(start + data[..index]).0 && Buffered() == Parse(start + data[..index]).1
      {
        if ready {
          SettledKeeps(Buffered());
        }
        if length >= storage.Length {
          length := 0;
          return BufferTooSmall, frames;
        }
        ghost var before := Buffered();
        storage[length] := data[index];
        length := length + 1;
        assert Buffered() == before + [data[index]];
        var more := Process();
        frames := frames + more;
        assert start + data[..index + 1] == (start + data[..index]) + [data[index]];
        ParseAppend(start + data[..index], [data[index]]);
        RestIsSettled(before + [data[index]]);
        index := index + 1;
      }
      assert data[..index] == data;
      result := Ok;
    }
  }

  // ---- what is left to parse

  /** `frames` have been handed on, and the frames of `left` are those still to come. */
  ghost predicate Remains(whole: seq<byte>, frames: seq<Frame>, left: seq<byte>) {
    Parse(whole).0 == frames + Parse(left).0 && Parse(whole).1 == Parse(left).1
  }

  lemma RemainsAll(whole: seq<byte>)
    ensures Remains(whole, [], whole)
  {
    hide Parse;
    assert [] + Parse(whole).0 == Parse(whole).0;
  }

  lemma RemainsSame(whole: seq<byte>, frames: seq<Frame>, left: seq<byte>, now: seq<byte>)
    requires Remains(whole, frames, left) && Parse(now) == Parse(left)
    ensures Remains(whole, frames, now)
  {
    hide Parse;
  }

  lemma RemainsNothing(whole: seq<byte>, frames: seq<Frame>, left: seq<byte>)
    requires Remains(whole, frames, left) && Parse(left) == ([], left)
    ensures Parse(whole) == (frames, left)
  {
    hide Parse;
    assert frames + [] == frames;
  }

  lemma RemainsStep(whole: seq<byte>, frames: seq<Frame>, left: seq<byte>)
    requires Remains(whole, frames, left)
    ensures Judge(left).Wait? ==> Parse(left) == ([], left)
    ensures Judge(left).Drop? ==> Remains(whole, frames, left[1..])
    ensures Judge(left).Take? ==> Remains(whole, frames + [FrameAt(left, Judge(left).length)], left[Judge(left).length..])
  {
    hide Parse, Judge, FrameAt;
    ParseStep(left);
    if Judge(left).Take? {
      var n := Judge(left).length;
      assert frames + ([FrameAt(left, n)] + Parse(left[n..]).0) == (frames + [FrameAt(left, n)]) + Parse(left[n..]).0;
    }
  }

  // ---- the encoder

  /** `m` with `x` stored at `at`. */
  function Splice(m: seq<byte>, at: nat, x: seq<byte>): (r: seq<byte>)
    requires at + |x| <= |m|
    ensures |r| == |m|
  {
    m[..at] + x + m[at + |x|..]
  }

  lemma SpliceOn(m: seq<byte>, at: nat, x: seq<byte>, y: seq<byte>)
    requires at + |x| + |y| <= |m|
    ensures Splice(Splice(m, at, x), at + |x|, y) == Splice(m, at, x + y)
    ensures Splice(Splice(m, at + |x|, y), at, x) == Splice(m, at, x + y)
    ensures Splice(m, at, x)[at..at + |x|] == x
  {
  }

  method Store(bytes: array<byte>, at: nat, x: seq<byte>)
    requires at + |x| <= bytes.Length
    modifies bytes
    ensures bytes[..] == Splice(old(bytes[..]), at, x)
  {
    forall i | 0 <= i < |x| {
      bytes[at + i] := x[i];
    }
  }

  method WriteU32(bytes: array<byte>, at: nat, v: u32)
    requires at + 4 <= bytes.Length
    modifies bytes
    ensures bytes[..] == Splice(old(bytes[..]), at, WriteU32Le(v))
  {
    bytes[at] := v % 256;
    bytes[at + 1] := v / 0x100 % 256;
    bytes[at + 2] := v / 0x1_0000 % 256;
    bytes[at + 3] := v / 0x100_0000;
  }

  /** Magic, message type, transaction id and payload length, one after the other. */
  method WriteHeader(memory: array<byte>, at: nat, ghost f: Frame, messageType: byte, transactionId: u32, payloadLength: nat)
    requires at + HEADER_LENGTH <= memory.Length
    requires |f.payload| == payloadLength <= MAX_PAYLOAD_LENGTH && f.messageType == messageType && f.transactionId == transactionId
    modifies memory
    ensures memory[..] == Splice(old(memory[..]), at, Header(f))
  {
    hide WriteU32Le, Splice;
    ghost var m := memory[..];
    Store(memory, at, MAGIC);
    Store(memory, at + 4, [messageType]);
    SpliceOn(m, at, MAGIC, [messageType]);
    WriteU32(memory, at + 5, transactionId);
    SpliceOn(m, at, MAGIC + [messageType], WriteU32Le(transactionId));
    WriteU32(memory, at + 9, payloadLength);
    SpliceOn(m, at, MAGIC + [messageType] + WriteU32Le(transactionId), WriteU32Le(payloadLength));
  }

  /**
   * `management_frame_encode`, with payload and frame anywhere in one memory: however they overlap, the frame is
   * the encoding of the payload as it was, and nothing outside the frame changes.
   */
  method EncodeInto(memory: array<byte>, messageType: byte, transactionId: u32, payloadAt: nat, payloadLength: nat,
                    frameAt: nat, capacity: nat)
    returns (result: Result, frameLength: nat)
    requires payloadAt + payloadLength <= memory.Length && frameAt + capacity <= memory.Length
    modifies memory
    ensures result.PayloadTooLong? <==> payloadLength > MAX_PAYLOAD_LENGTH
    ensures result.BufferTooSmall? <==> payloadLength <= MAX_PAYLOAD_LENGTH && capacity < HEADER_LENGTH + payloadLength + CRC_LENGTH
    ensures !result.InvalidArgument?
    ensures !result.Ok? ==> memory[..] == old(memory[..])
    ensures result.Ok? ==>
      var f := Frame(messageType, transactionId, old(memory[payloadAt..payloadAt + payloadLength]));
      frameLength == |Encode(f)| <= capacity && memory[..] == Splice(old(memory[..]), frameAt, Encode(f))
  {
    hide Crc32.Crc, WriteU32Le, Splice, Header;
    if payloadLength > MAX_PAYLOAD_LENGTH {
      return PayloadTooLong, 0;
    }
    var required := HEADER_LENGTH + payloadLength + CRC_LENGTH;
    if capacity < required {
      return BufferTooSmall, 0;
    }
    ghost var m, f := memory[..], Frame(messageType, transactionId, memory[payloadAt..payloadAt + payloadLength]);
    if payloadLength != 0 {
      Move(memory, frameAt + HEADER_LENGTH, payloadAt, payloadLength);
    }
    MovedIsSpliced(m, memory[..], frameAt + HEADER_LENGTH, f.payload);
    WriteHeader(memory, frameAt, f, messageType, transactionId, payloadLength);
    SpliceOn(m, frameAt, Header(f), f.payload);
    ghost var body := Header(f) + f.payload;
    SpliceOn(m, frameAt, body, []);
    Seal(memory, frameAt, HEADER_LENGTH + payloadLength);
    SpliceOn(m, frameAt, body, WriteU32Le(Crc32.Crc(body)));
    return Ok, required;
  }

  /** Append the checksum of `n` bytes to them. */
  method Seal(memory: array<byte>, at: nat, n: nat)
    requires at + n + CRC_LENGTH <= memory.Length
    modifies memory
    ensures memory[..] == Splice(old(memory[..]), at + n, WriteU32Le(Crc32.Crc(old(memory[..])[at..at + n])))
  {
    hide Crc32.Crc, WriteU32Le, Splice;
    var crc := Crc32.Calculate(memory, at, n);
    assert memory[at..at + n] == memory[..][at..at + n];
    WriteU32(memory, at + n, crc);
  }

  lemma MovedIsSpliced(m: seq<byte>, r: seq<byte>, at: nat, x: seq<byte>)
    requires |r| == |m| && at + |x| <= |m|
    requires r[..at] == m[..at] && r[at..at + |x|] == x && r[at + |x|..] == m[at + |x|..]
    ensures r == Splice(m, at, x)
  {
  }

  // ---- whole streams

  function Concat(chunks: seq<seq<byte>>): seq<byte> {
    if chunks == [] then [] else chunks[0] + Concat(chunks[1..])
  }

  /** What successive calls of `Feed` give, by its contract. */
  function FeedAll(buffered: seq<byte>, chunks: seq<seq<byte>>): (seq<Frame>, seq<byte>)
    decreases |chunks|
  {
    if chunks == [] then ([], buffered)
    else
      var (frames, kept) := Parse(buffered + chunks[0]);
      var (more, last) := FeedAll(kept, chunks[1..]);
      (frames + more, last)
  }

  lemma {:induction false} FeedAllIsParse(s: seq<byte>, chunks: seq<seq<byte>>)
    requires Judge(s) == Wait
    ensures FeedAll(s, chunks) == Parse(s + Concat(chunks))
    decreases |chunks|
  {
    hide Judge;
    if chunks == [] {
      SettledKeeps(s);
      assert s + [] == s;
    } else {
      var whole := s + chunks[0];
      RestIsSettled(whole);
      FeedAllIsParse(Parse(whole).1, chunks[1..]);
      ParseAppend(whole, Concat(chunks[1..]));
      assert s + Concat(chunks) == whole + Concat(chunks[1..]);
    }
  }

  /** However the stream is cut up, the streaming parser emits what the batch parser finds in the whole stream. */
  lemma FragmentationIsIrrelevant(chunks: seq<seq<byte>>)
    ensures FeedAll([], chunks) == BatchParse(Concat(chunks))
  {
    NothingWaits();
    FeedAllIsParse([], chunks);
    BatchParseIsParse(Concat(chunks));
    assert [] + Concat(chunks) == Concat(chunks);
  }
}
