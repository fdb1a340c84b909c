/** Programming the internal flash (`internal_flash.c`) by words, half-words and bytes. */
module InternalFlash {
  import opened Bytes
  import Nor

  const BASE := 0x0800_0000
  const SIZE := 0x10_0000

  datatype Width = Word | HalfWord | Byte

  function Size(w: Width): (n: nat)
    ensures 1 <= n <= 4
  {
    match w case Word => 4 case HalfWord => 2 case Byte => 1
  }

  /** The bytes a write of `value` stores, lowest first. */
  function Stored(w: Width, value: u32): (s: seq<byte>)
    ensures |s| == Size(w)
  {
    match w
    case Word => WriteU32Le(value)
    case HalfWord => WriteU16Le(value % 0x1_0000)
    case Byte => [value % 256]
  }

  /** The value `internal_flash_program` assembles from its source bytes. */
  function Assembled(w: Width, source: seq<byte>): u32
    requires |source| >= Size(w)
  {
    match w
    case Word => ReadU32Le(source, 0)
    case HalfWord => source[0] + 0x100 * (source[1] as int)
    case Byte => source[0]
  }

  lemma StoredIsSource(w: Width, source: seq<byte>)
    requires |source| >= Size(w)
    ensures Stored(w, Assembled(w, source)) == source[..Size(w)]
  {
    match w {
      case Word =>
        U32LeCanonical(source, 0);
        assert source[..4] == source[0..4];
      case HalfWord =>
        assert source[..2] == [source[0], source[1]];
      case Byte =>
    }
  }

  /** The same, for the bytes of a source that are up next. */
  lemma StoredIsNext(w: Width, source: seq<byte>, done: nat)
    requires done + Size(w) <= |source|
    ensures Stored(w, Assembled(w, source[done..])) == source[done..done + Size(w)]
  {
    hide Stored, Assembled;
    StoredIsSource(w, source[done..]);
    assert source[done..][..Size(w)] == source[done..done + Size(w)];
  }

  datatype Result = Ok | InvalidArgument | Failed

  /** A write succeeds or fails leaving these cells. */
  type Device = (seq<byte>, nat, seq<byte>) -> Option<seq<byte>>

  ghost predicate IsDevice(device: Device) {
    forall cells, at: nat, data | at + |data| <= |cells| && device(cells, at, data).Some? ::
      Nor.Torn(cells, at, data, device(cells, at, data).value)
  }

  ghost predicate IsReliable(device: Device) {
    forall cells, at, data :: device(cells, at, data).None?
  }

  class Flash {
    var cells: seq<byte>

    constructor (bytes: seq<byte>)
      ensures cells == bytes
    {
      cells := bytes;
    }

    /** `HAL_FLASH_Program`: only naturally aligned accesses are allowed. */
    method HalProgram(device: Device, w: Width, address: nat, value: u32) returns (ok: bool)
      requires IsDevice(device) && |cells| == SIZE
      requires BASE <= address && address + Size(w) <= BASE + SIZE && address % Size(w) == 0
      modifies this`cells
      ensures ok ==> cells == Nor.Program(old(cells), address - BASE, Stored(w, value))
      ensures !ok ==> Nor.Torn(old(cells), address - BASE, Stored(w, value), cells) && !IsReliable(device)
    {
      var fault := device(cells, address - BASE, Stored(w, value));
      ok := fault.None?;
      cells := if ok then Nor.Program(cells, address - BASE, Stored(w, value)) else fault.value;
    }

    /** `internal_flash_program`: whatever mix of widths is used, the effect is one bytewise program. */
    method Program(device: Device, unlocks: bool, locks: bool, start: nat, source: seq<byte>) returns (result: Result)
      requires |cells| == SIZE && IsDevice(device)
      modifies this`cells
      ensures result.InvalidArgument? <==> source == [] || start < BASE || start + |source| > BASE + SIZE
      ensures result.InvalidArgument? ==> cells == old(cells)
      ensures result.Ok? ==> cells == Nor.Program(old(cells), start - BASE, source)
      ensures result.Failed? ==> Nor.Torn(old(cells), start - BASE, source, cells) && !(unlocks && locks && IsReliable(device))
    {
      hide Nor.Torn, Nor.Program, Assembled, Stored;
      if |source| == 0 || start < BASE || start > BASE + SIZE - 1 || |source| > BASE + SIZE - start {
        return InvalidArgument;
      }
      Nor.NothingProgrammed(cells, start - BASE, source);
      if !unlocks {
        return Failed;
      }
      ghost var before := cells;
      var address, length := start, |source|;
      while length > 0
        invariant 0 <= length <= |source| && address == start + (|source| - length)
        invariant |cells| == SIZE && cells == Nor.Program(before, start - BASE, source[..|source| - length])
      {
        var done := |source| - length;
        var w := if address % 4 == 0 && length >= 4 then Word else if address % 2 == 0 && length >= 2 then HalfWord else Byte;
        var value := Assembled(w, source[done..]);
        StoredIsNext(w, source, done);
        var ok := HalProgram(device, w, address, value);
        if !ok {
          Nor.TornAfter(before, start - BASE, source, done, Size(w), cells);
          return Failed;
        }
        Nor.ProgramMore(before, start - BASE, source, done, Size(w));
        address := address + Size(w);
        length := length - Size(w);
      }
      assert source[..|source|] == source;
      Nor.ProgrammedIsTorn(before, start - BASE, source, |source|);
      result := if locks then Ok else Failed;
    }

    /** `internal_flash_is_erased`, 64 bytes at a time. */
    method IsErased(start: nat, count: nat) returns (result: Result, erased: bool)
      requires |cells| == SIZE
      ensures result.InvalidArgument? <==> count == 0 || start < BASE || start + count > BASE + SIZE
      ensures !result.Failed?
      ensures result.Ok? ==> (erased <==> Nor.IsErased(cells, start - BASE, start - BASE + count))
    {
      erased := false;
      if count == 0 || start < BASE || start > BASE + SIZE - 1 || count > BASE + SIZE - start {
        return InvalidArgument, false;
      }
      var at, length := start - BASE, count;
      while length != 0
        invariant 0 <= length <= count && at == start - BASE + (count - length)
        invariant Nor.IsErased(cells, start - BASE, at)
      {
        var n := if length > 64 then 64 else length;
        var buffer := cells[at..at + n];
        var i := 0;
        while i < n
          invariant 0 <= i <= n
          invariant Nor.IsErased(cells, start - BASE, at + i)
        {
          if buffer[i] != Nor.ERASED {
            assert cells[at + i] != Nor.ERASED;
            return Ok, false;
          }
          i := i + 1;
        }
        at := at + n;
        length := length - n;
      }
      return Ok, true;
    }
  }
}
