/** Programming the external flash (`external_flash.c`), whose page program wraps inside 256-byte pages. */
module ExternalFlash {
  import opened Bytes
  import Nor

  const CAPACITY := 0x100_0000
  const PAGE_SIZE := 256

  function PageOf(address: nat): nat {
    address - address % PAGE_SIZE
  }

  /** Which byte of a page program starting at `address` reaches the cell at `p` of its page. */
  function PageIndex(address: nat, p: nat): nat {
    (p - address) % PAGE_SIZE
  }

  predicate Reached(address: nat, count: nat, p: nat) {
    PageOf(address) <= p < PageOf(address) + PAGE_SIZE && PageIndex(address, p) < count
  }

  /** The device: bytes that run past the end of the page go to its beginning. */
  function PageProgram(cells: seq<byte>, address: nat, data: seq<byte>): (r: seq<byte>)
    requires |data| <= PAGE_SIZE
    ensures |r| == |cells|
    ensures forall p | 0 <= p < |cells| ::
      r[p] == if Reached(address, |data|, p) then Nor.ProgramCell(cells[p], data[PageIndex(address, p)]) else cells[p]
  {
    seq(|cells|, p requires 0 <= p < |cells| =>
      if Reached(address, |data|, p) then Nor.ProgramCell(cells[p], data[PageIndex(address, p)]) else cells[p])
  }

  predicate TornPage(cells: seq<byte>, address: nat, data: seq<byte>, left: seq<byte>)
    requires |data| <= PAGE_SIZE
  {
    |left| == |cells|
    && forall p | 0 <= p < |cells| ::
      if Reached(address, |data|, p) then Nor.TornCell(cells[p], data[PageIndex(address, p)], left[p]) else left[p] == cells[p]
  }

  predicate Fits(address: nat, count: nat) {
    address % PAGE_SIZE + count <= PAGE_SIZE
  }

  /** Without an overrun the cells reached are the cells addressed. */
  lemma FitsReached(address: nat, count: nat, p: nat)
    requires Fits(address, count)
    ensures Reached(address, count, p) <==> address <= p < address + count
    ensures Reached(address, count, p) ==> PageIndex(address, p) == p - address
  {
    if p >= address {
      IndexAhead(address, p);
    } else {
      IndexBehind(address, p);
    }
  }

  lemma IndexAhead(address: nat, p: nat)
    requires address <= p
    ensures p < PageOf(address) + PAGE_SIZE ==> PageIndex(address, p) == p - address
  {
  }

  lemma IndexBehind(address: nat, p: nat)
    requires p < address
    ensures PageOf(address) <= p ==> PageIndex(address, p) == p - address + PAGE_SIZE
  {
  }

  lemma PageProgramFits(cells: seq<byte>, address: nat, data: seq<byte>)
    requires Fits(address, |data|) && address + |data| <= |cells|
    ensures PageProgram(cells, address, data) == Nor.Program(cells, address, data)
  {
    hide Nor.ProgramCell, Reached, PageIndex;
    forall p | 0 <= p < |cells| ensures PageProgram(cells, address, data)[p] == Nor.Program(cells, address, data)[p] {
      FitsReached(address, |data|, p);
    }
  }

  lemma TornPageFits(cells: seq<byte>, address: nat, data: seq<byte>, left: seq<byte>)
    requires Fits(address, |data|) && address + |data| <= |cells| && TornPage(cells, address, data, left)
    ensures Nor.Torn(cells, address, data, left)
  {
    hide Nor.TornCell, Reached, PageIndex;
    forall p | 0 <= p < |cells|
      ensures if address <= p < address + |data| then Nor.TornCell(cells[p], data[p - address], left[p]) else left[p] == cells[p]
    {
      FitsReached(address, |data|, p);
    }
  }

  /** An overrun does reach cells before the address. */
  lemma OverrunWraps(address: nat, count: nat)
    requires !Fits(address, count) && address % PAGE_SIZE != 0 && count <= PAGE_SIZE
    ensures Reached(address, count, PageOf(address)) && PageOf(address) < address
  {
    IndexBehind(address, PageOf(address));
  }

  datatype Result = Ok | NotInitialized | InvalidArgument | OutOfRange | Failed

  /** What happens to one page: done, refused before any byte, or cut off leaving these cells. */
  datatype Answer = Done | Refused | Cut(left: seq<byte>)

  type Device = (seq<byte>, nat, seq<byte>) -> Answer

  ghost predicate IsDevice(device: Device) {
    forall cells, address, data | |data| <= PAGE_SIZE && device(cells, address, data).Cut? ::
      TornPage(cells, address, data, device(cells, address, data).left)
  }

  ghost predicate IsReliable(device: Device) {
    forall cells, address, data :: device(cells, address, data).Done?
  }

  class Flash {
    var initialized: bool
    var cells: seq<byte>

    constructor (bytes: seq<byte>)
      ensures !initialized && cells == bytes
    {
      initialized := false;
      cells := bytes;
    }

    method Init()
      modifies this`initialized
      ensures initialized
    {
      initialized := true;
    }

    /** `external_flash_program`: success is one bytewise program, failure is a torn one, inside the range either way. */
    method Program(device: Device, ready: bool, start: nat, source: seq<byte>) returns (result: Result)
      requires |cells| == CAPACITY && IsDevice(device)
      modifies this`cells
      ensures result.NotInitialized? <==> !initialized
      ensures result.InvalidArgument? <==> initialized && source == []
      ensures result.OutOfRange? <==> initialized && source != [] && start + |source| > CAPACITY
      ensures !result.Ok? && !result.Failed? ==> cells == old(cells)
      ensures result.Ok? ==> cells == Nor.Program(old(cells), start, source)
      ensures result.Failed? ==> Nor.Torn(old(cells), start, source, cells) && !(ready && IsReliable(device))
    {
      hide Nor.Torn, TornPage, Nor.Program;
      if !initialized {
        return NotInitialized;
      }
      if |source| == 0 {
        return InvalidArgument;
      }
      if !(start < CAPACITY && |source| <= CAPACITY - start) {
        return OutOfRange;
      }
      Nor.NothingProgrammed(cells, start, source);
      if !ready {
        return Failed;
      }
      var address, remaining := start, |source|;
      while remaining > 0
        invariant 0 <= remaining <= |source| && address == start + (|source| - remaining)
        invariant |cells| == CAPACITY && cells == Nor.Program(old(cells), start, source[..|source| - remaining])
      {
        var pageRemaining := PAGE_SIZE - address % PAGE_SIZE;
        var count := if remaining < pageRemaining then remaining else pageRemaining;
        var done := |source| - remaining;
        var data := source[done..done + count];
        match device(cells, address, data) {
          case Refused =>
            Nor.ProgrammedIsTorn(old(cells), start, source, done);
            return Failed;
          case Cut(left) =>
            TornPageFits(cells, address, data, left);
            Nor.TornAfter(old(cells), start, source, done, count, left);
            cells := left;
            return Failed;
          case Done =>
            PageProgramFits(cells, address, data);
            Nor.ProgramMore(old(cells), start, source, done, count);
            cells := PageProgram(cells, address, data);
        }
        address := address + count;
        remaining := remaining - count;
      }
      assert source[..|source|] == source;
      result := Ok;
    }
  }
}
