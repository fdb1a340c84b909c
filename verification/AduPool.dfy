/** The pool of shared ADUs (`modbus_rtu_adu_pool.c`). */
module AduPool {
  import opened Bytes

  const CAPACITY := 6

  /** The first available index from `at` on. */
  function FirstFreeFrom(available: seq<bool>, at: nat): (r: Option<nat>)
    requires at <= |available|
    ensures r.Some? ==> at <= r.value < |available| && available[r.value]
    ensures r.None? ==> forall i | at <= i < |available| :: !available[i]
    decreases |available| - at
  {
    if at == |available| then None
    else if available[at] then Some(at)
    else FirstFreeFrom(available, at + 1)
  }

  function FirstFree(available: seq<bool>): Option<nat> {
    FirstFreeFrom(available, 0)
  }

  class Pool {
    var available: array<bool>
    var adus: array<seq<byte>>

    ghost predicate Valid()
      reads this
    {
      available.Length == adus.Length == CAPACITY
    }

    /** `modbus_rtu_adu_pool_init` */
    constructor ()
      ensures Valid() && fresh(available) && fresh(adus)
      ensures forall i | 0 <= i < CAPACITY :: available[i] && adus[i] == []
    {
      available := new bool[CAPACITY](_ => true);
      adus := new seq<byte>[CAPACITY](_ => []);
    }

    /** `modbus_rtu_adu_pool_allocate`: the lowest free index, now taken, or none. */
    method Allocate() returns (index: Option<nat>)
      requires Valid()
      modifies available
      ensures index == FirstFree(old(available[..]))
      ensures available[..] == if index.Some? then old(available[..])[index.value := false]
                               else old(available[..])
    {
      index := None;
      var i := 0;
      while i < CAPACITY
        invariant 0 <= i <= CAPACITY
        invariant index == None && available[..] == old(available[..])
        invariant FirstFree(available[..]) == FirstFreeFrom(available[..], i)
      {
        if available[i] {
          available[i] := false;
          index := Some(i);
          break;
        }
        i := i + 1;
      }
    }

    /** `modbus_rtu_adu_pool_release` */
    method Release(index: nat)
      requires Valid() && index < CAPACITY
      modifies available, adus
      ensures available[..] == old(available[..])[index := true]
      ensures adus[..] == old(adus[..])[index := []]
    {
      adus[index] := [];
      available[index] := true;
    }
  }
}
