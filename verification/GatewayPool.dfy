/** When the pool of six ADUs can run out. */
module GatewayPool {
  import opened Bytes
  import opened AduPool
  import opened Gateway
  import opened GatewayProof

  /** An open client waits for the request issued as `serial`. */
  ghost predicate Claimed(s: State, serial: nat) {
    exists i :: 0 <= i < |s.clients| && IsClient(s, i, Waiting) && s.clients[i].serial == serial
  }

  /** A high-priority request still on its way although its client is gone. */
  ghost predicate IsOrphan(s: State, k: nat) {
    FlightAt(s, true, k).Some? && !Claimed(s, FlightAt(s, true, k).value.serial)
  }

  /** The ADUs held for clients that are gone: orphans on their way, and one the TCP task is dropping. */
  ghost function Orphans(s: State): nat {
    One(IsOrphan(s, 0)) + One(IsOrphan(s, 1)) + One(IsOrphan(s, 2))
    + One(s.tcp.TcpReleasing? && s.tcp.owner.None?)
  }

  // ---- pigeonhole: six taken ADUs need six holders

  function HeldBelow(s: State, n: nat): nat
    requires Shape(s)
  {
    if n == 0 then 0 else HeldBelow(s, n - 1) + One(HolderAt(s, n - 1).Some?)
  }

  ghost function AdusBelow(s: State, n: nat): set<nat>
    requires Shape(s)
  {
    if n == 0 then {}
    else if HolderAt(s, n - 1).Some? then AdusBelow(s, n - 1) + {HolderAt(s, n - 1).value}
    else AdusBelow(s, n - 1)
  }

  lemma {:induction false} HoldersSuffice(s: State, n: nat)
    requires Shape(s)
    ensures |AdusBelow(s, n)| <= HeldBelow(s, n)
    ensures forall p | 0 <= p < n && HolderAt(s, p).Some? :: HolderAt(s, p).value in AdusBelow(s, n)
  {
    if n > 0 {
      HoldersSuffice(s, n - 1);
      hide HolderAt;
    }
  }

  lemma {:induction false} SubsetSize(x: set<nat>, y: set<nat>)
    requires x <= y
    ensures |x| <= |y|
  {
    if x != {} {
      var e :| e in x;
      SubsetSize(x - {e}, y - {e});
    }
  }

  lemma SixHolders(s: State)
    requires Shape(s) && Owned(s) && forall a | 0 <= a < CAPACITY :: !s.available[a]
    ensures HeldBelow(s, PLACES) >= 6
  {
    hide HolderAt;
    HoldersSuffice(s, PLACES);
    var all: set<nat> := {0, 1, 2, 3, 4, 5};
    forall a | a in all ensures a in AdusBelow(s, PLACES) {
      assert Holds(s, a);
    }
    SubsetSize(all, AdusBelow(s, PLACES));
  }

  lemma HeldSum(s: State)
    requires Shape(s)
    ensures HeldBelow(s, PLACES)
         == One(HolderAt(s, 0).Some?) + One(HolderAt(s, 1).Some?) + One(HolderAt(s, 2).Some?) + One(HolderAt(s, 3).Some?)
            + One(HolderAt(s, TCP).Some?) + One(HolderAt(s, HIGH_REQUEST).Some?) + One(HolderAt(s, SCHEDULER).Some?)
            + One(HolderAt(s, HIGH_RESPONSE).Some?) + One(HolderAt(s, LOW_REQUEST).Some?)
            + One(HolderAt(s, LOW_RESPONSE).Some?) + One(HolderAt(s, COLLECTOR).Some?)
  {
    hide HolderAt;
    var a := One(HolderAt(s, 0).Some?) + One(HolderAt(s, 1).Some?);
    var b := One(HolderAt(s, 2).Some?) + One(HolderAt(s, 3).Some?);
    assert HeldBelow(s, 1) == One(HolderAt(s, 0).Some?);
    assert HeldBelow(s, 2) == a;
    assert HeldBelow(s, 4) == a + b;
    assert HeldBelow(s, 6) == a + b + One(HolderAt(s, 4).Some?) + One(HolderAt(s, 5).Some?);
    assert HeldBelow(s, 8) == HeldBelow(s, 6) + One(HolderAt(s, 6).Some?) + One(HolderAt(s, 7).Some?);
    assert HeldBelow(s, 10) == HeldBelow(s, 8) + One(HolderAt(s, 8).Some?) + One(HolderAt(s, 9).Some?);
  }

  // ---- claimed requests have distinct waiting clients

  /** Distinct claimants are no more than those who can claim. */
  lemma Claimants(w: seq<bool>, x: Option<nat>, y: Option<nat>, z: Option<nat>)
    requires |w| == 4
    requires x.Some? ==> x.value < 4 && w[x.value]
    requires y.Some? ==> y.value < 4 && w[y.value]
    requires z.Some? ==> z.value < 4 && w[z.value]
    requires x.Some? && y.Some? ==> x != y
    requires x.Some? && z.Some? ==> x != z
    requires y.Some? && z.Some? ==> y != z
    ensures One(x.Some?) + One(y.Some?) + One(z.Some?) <= One(w[0]) + One(w[1]) + One(w[2]) + One(w[3])
  {
  }

  ghost predicate IsWaiter(s: State, k: nat, w: Option<nat>) {
    if FlightAt(s, true, k).Some? && !IsOrphan(s, k) then
      w.Some? && IsClient(s, w.value, Waiting) && s.clients[w.value].serial == FlightAt(s, true, k).value.serial
    else w.None?
  }

  lemma Waiter(s: State, k: nat) returns (w: Option<nat>)
    requires Shape(s)
    ensures IsWaiter(s, k, w)
  {
    if FlightAt(s, true, k).Some? && !IsOrphan(s, k) {
      var i: nat :| i < |s.clients| && IsClient(s, i, Waiting) && s.clients[i].serial == FlightAt(s, true, k).value.serial;
      w := Some(i);
    } else {
      w := None;
    }
  }

  lemma WaitersDiffer(s: State, k: nat, l: nat, x: Option<nat>, y: Option<nat>)
    requires HighSerialsOk(s) && k < l < 3 && IsWaiter(s, k, x) && IsWaiter(s, l, y)
    ensures x.Some? && y.Some? ==> x != y
  {
    hide IsOrphan, InWindow, FlightAt;
  }

  lemma WaiterCounts(s: State, k: nat, w: Option<nat>)
    requires Shape(s) && IsWaiter(s, k, w)
    ensures One(FlightAt(s, true, k).Some?) == One(IsOrphan(s, k)) + One(w.Some?)
    ensures w.Some? ==> w.value < 4 && IsClient(s, w.value, Waiting)
  {
  }

  lemma ClaimedRequests(s: State)
    requires Shape(s) && HighSerialsOk(s)
    ensures One(FlightAt(s, true, 0).Some?) + One(FlightAt(s, true, 1).Some?) + One(FlightAt(s, true, 2).Some?)
         <= One(IsOrphan(s, 0)) + One(IsOrphan(s, 1)) + One(IsOrphan(s, 2))
            + One(IsClient(s, 0, Waiting)) + One(IsClient(s, 1, Waiting))
            + One(IsClient(s, 2, Waiting)) + One(IsClient(s, 3, Waiting))
  {
    hide IsOrphan, FlightAt, IsWaiter, HighSerialsOk, IsClient;
    var x := Waiter(s, 0);
    var y := Waiter(s, 1);
    var z := Waiter(s, 2);
    WaitersDiffer(s, 0, 1, x, y);
    WaitersDiffer(s, 0, 2, x, z);
    WaitersDiffer(s, 1, 2, y, z);
    WaiterCounts(s, 0, x);
    WaiterCounts(s, 1, y);
    WaiterCounts(s, 2, z);
    Claimants([IsClient(s, 0, Waiting), IsClient(s, 1, Waiting), IsClient(s, 2, Waiting), IsClient(s, 3, Waiting)], x, y, z);
  }

  lemma LowHoldsOne(s: State)
    requires Shape(s) && LowChainOk(s)
    ensures One(HolderAt(s, LOW_REQUEST).Some?) + One(HolderAt(s, LOW_RESPONSE).Some?) + One(HolderAt(s, COLLECTOR).Some?)
            + One(HolderAt(s, SCHEDULER).Some?)
         <= One(FlightAt(s, true, 1).Some?) + One(s.collector != CollectorIdle)
  {
  }

  ghost function Clients(s: State, state: ClientState): nat {
    One(IsClient(s, 0, state)) + One(IsClient(s, 1, state)) + One(IsClient(s, 2, state)) + One(IsClient(s, 3, state))
  }

  /** Each open client accounts for at most one ADU; a receiving client for none. */
  lemma ClientsHoldOne(s: State)
    requires Shape(s) && TcpOk(s)
    ensures One(HolderAt(s, 0).Some?) + One(HolderAt(s, 1).Some?) + One(HolderAt(s, 2).Some?) + One(HolderAt(s, 3).Some?)
            + One(HolderAt(s, TCP).Some?) + Clients(s, Waiting)
         <= 4 + One(s.tcp.TcpReleasing? && s.tcp.owner.None?)
            - One(s.tcp == TcpIdle && Clients(s, Receiving) > 0)
  {
  }

  /** Allocation, by the TCP server for a receiving client or by the collector, fails only while at least two
      ADUs are held for clients that are gone. */
  lemma PoolRunsOut(run: seq<Step>, s: State)
    requires Reaches(run, s) && FirstFree(s.available).None?
    requires (s.tcp == TcpIdle && Clients(s, Receiving) > 0) || s.collector == CollectorIdle
    ensures Orphans(s) >= 2
  {
    hide HolderAt, IsClient, FlightAt, IsOrphan, Owned, ContentsOk, HighSerialsOk, ClientSerialsOk, LowChainOk, TcpOk, ClientsOk,
         HeldBelow, Scheduling;
    ReachedInv(run, s);
    SixHolders(s);
    HeldSum(s);
    ClaimedRequests(s);
    LowHoldsOne(s);
    ClientsHoldOne(s);
    HighHolders(s);
  }

  lemma HighHolders(s: State)
    requires Shape(s)
    ensures HolderAt(s, HIGH_REQUEST).Some? == FlightAt(s, true, 0).Some?
    ensures HolderAt(s, HIGH_RESPONSE).Some? == FlightAt(s, true, 2).Some?
  {
  }
}
