/** NOR flash cells: programming clears bits, erasing sets whole ranges, a torn program clears some of the bits meant. */
module Nor {
  import opened Bytes
  import opened Bits

  const ERASED: byte := 255

  function ProgramCell(was: byte, data: byte): byte {
    AndBelow(was, data);
    And(was, data)
  }

  lemma {:induction false} AndBelow(a: nat, b: nat)
    ensures And(a, b) <= a
  {
    if a > 0 && b > 0 {
      AndBelow(a / 2, b / 2);
    }
  }

  /** Every bit of `x` is a bit of `y`. */
  predicate BitsWithin(x: nat, y: nat) {
    And(x, y) == x
  }

  /** Some of the bits that programming would clear have been cleared, and no others. */
  predicate TornCell(was: byte, data: byte, now: byte) {
    BitsWithin(now, was) && BitsWithin(ProgramCell(was, data), now)
  }

  function Program(cells: seq<byte>, at: nat, data: seq<byte>): (r: seq<byte>)
    requires at + |data| <= |cells|
    ensures |r| == |cells|
    ensures forall i | 0 <= i < |cells| ::
      r[i] == if at <= i < at + |data| then ProgramCell(cells[i], data[i - at]) else cells[i]
  {
    seq(|cells|, i requires 0 <= i < |cells| =>
      if at <= i < at + |data| then ProgramCell(cells[i], data[i - at]) else cells[i])
  }

  predicate Torn(cells: seq<byte>, at: nat, data: seq<byte>, r: seq<byte>)
    requires at + |data| <= |cells|
  {
    |r| == |cells|
    && forall i | 0 <= i < |cells| ::
      if at <= i < at + |data| then TornCell(cells[i], data[i - at], r[i]) else r[i] == cells[i]
  }

  function Erase(cells: seq<byte>, at: nat, length: nat): (r: seq<byte>)
    requires at + length <= |cells|
    ensures |r| == |cells|
    ensures forall i | 0 <= i < |cells| :: r[i] == if at <= i < at + length then ERASED else cells[i]
  {
    seq(|cells|, i requires 0 <= i < |cells| => if at <= i < at + length then ERASED else cells[i])
  }

  predicate IsErased(cells: seq<byte>, from: nat, to: nat)
    requires from <= to <= |cells|
  {
    forall i | from <= i < to :: cells[i] == ERASED
  }

  /** Programming erased cells stores the data and leaves the rest alone. */
  lemma ProgramErased(cells: seq<byte>, at: nat, data: seq<byte>)
    requires at + |data| <= |cells| && IsErased(cells, at, at + |data|)
    ensures Program(cells, at, data)[at..at + |data|] == data
    ensures Program(cells, at, data)[..at] == cells[..at]
    ensures Program(cells, at, data)[at + |data|..] == cells[at + |data|..]
  {
    forall i | at <= i < at + |data| ensures Program(cells, at, data)[i] == data[i - at] {
      AndErased(data[i - at]);
    }
  }

  /** An untouched cell and a finished one are both torn cells: tearing ranges from nothing to everything. */
  lemma TornExtremes(was: byte, data: byte)
    ensures TornCell(was, data, was) && TornCell(was, data, ProgramCell(was, data))
  {
    AndSelf(was);
    AndSelf(And(was, data));
    AndAgain(was, data);
  }

  lemma {:induction false} AndAgain(a: nat, b: nat)
    ensures And(And(a, b), a) == And(a, b)
    decreases a
  {
    if a > 0 && b > 0 {
      var x := And(a, b);
      AndStep(a, b);
      AndStep(x, a);
      AndAgain(a / 2, b / 2);
      Same(And(x, a), x);
    }
  }

  /** Programming piece by piece is programming the whole. */
  lemma ProgramMore(cells: seq<byte>, at: nat, data: seq<byte>, done: nat, n: nat)
    requires at + |data| <= |cells| && done + n <= |data|
    ensures Program(Program(cells, at, data[..done]), at + done, data[done..done + n]) == Program(cells, at, data[..done + n])
  {
    hide ProgramCell;
  }

  /** A piece torn after the ones before it succeeded: the whole is torn. */
  lemma TornAfter(cells: seq<byte>, at: nat, data: seq<byte>, done: nat, n: nat, left: seq<byte>)
    requires at + |data| <= |cells| && done + n <= |data|
    requires Torn(Program(cells, at, data[..done]), at + done, data[done..done + n], left)
    ensures Torn(cells, at, data, left)
  {
    hide ProgramCell, TornCell;
    var now := Program(cells, at, data[..done]);
    forall i | 0 <= i < |cells|
      ensures if at <= i < at + |data| then TornCell(cells[i], data[i - at], left[i]) else left[i] == cells[i]
    {
      if at <= i < at + |data| {
        TornExtremes(cells[i], data[i - at]);
        if at + done <= i < at + done + n {
          assert data[done..done + n][i - (at + done)] == data[i - at];
        }
      }
    }
  }

  lemma NothingProgrammed(cells: seq<byte>, at: nat, data: seq<byte>)
    requires at + |data| <= |cells|
    ensures Program(cells, at, data[..0]) == cells && Torn(cells, at, data, cells)
  {
    ProgrammedIsTorn(cells, at, data, 0);
    assert Program(cells, at, data[..0]) == cells;
  }

  lemma ProgrammedIsTorn(cells: seq<byte>, at: nat, data: seq<byte>, done: nat)
    requires at + |data| <= |cells| && done <= |data|
    ensures Torn(cells, at, data, Program(cells, at, data[..done]))
  {
    hide ProgramCell, TornCell;
    var r := Program(cells, at, data[..done]);
    forall i | 0 <= i < |cells|
      ensures if at <= i < at + |data| then TornCell(cells[i], data[i - at], r[i]) else r[i] == cells[i]
    {
      if at <= i < at + |data| {
        TornExtremes(cells[i], data[i - at]);
      }
    }
  }
}
