/** The scheduler task's own code (`modbus_rtu_transaction_scheduler.c`) between two transactions. */
module GatewayScheduler {
  import opened Bytes
  import opened Gateway
  import opened GatewayProof

  datatype Next = Next(high: bool, request: Request)

  class Scheduler {
    var queueSet: seq<bool>
    var highRequest: Option<Request>
    var lowRequest: Option<Request>
    var selectedHigh: nat
    var selectedLow: nat
    var consecutiveHigh: nat

    /** Events already selected and events still pending add up to the requests queued. */
    ghost predicate Valid()
      reads this
    {
      selectedHigh + Pending(queueSet, true) == One(highRequest.Some?)
      && selectedLow + Pending(queueSet, false) == One(lowRequest.Some?)
      && consecutiveHigh <= 255
    }

    constructor ()
      ensures Valid() && highRequest.None? && lowRequest.None? && consecutiveHigh == 0
    {
      queueSet, highRequest, lowRequest, selectedHigh, selectedLow, consecutiveHigh := [], None, None, 0, 0, 0;
    }

    /** A request is posted: the queue and, with it, the queue set. */
    method Post(high: bool, request: Request) returns (posted: bool)
      requires Valid()
      modifies this
      ensures Valid() && selectedHigh == old(selectedHigh) && selectedLow == old(selectedLow) && consecutiveHigh == old(consecutiveHigh)
      ensures posted <==> (if high then old(highRequest) else old(lowRequest)).None?
      ensures highRequest == (if posted && high then Some(request) else old(highRequest))
      ensures lowRequest == (if posted && !high then Some(request) else old(lowRequest))
    {
      posted := (if high then highRequest else lowRequest).None?;
      if posted {
        PendingAppend(queueSet, high, true);
        PendingAppend(queueSet, high, false);
        queueSet := queueSet + [high];
        if high {
          highRequest := Some(request);
        } else {
          lowRequest := Some(request);
        }
      }
    }

    /** `select_available_request_queues`: drain the queue set into the two counts. */
    method SelectAvailableRequestQueues()
      requires Valid()
      modifies this`queueSet, this`selectedHigh, this`selectedLow
      ensures Valid() && queueSet == []
      ensures selectedHigh == One(highRequest.Some?) && selectedLow == One(lowRequest.Some?)
    {
      while queueSet != []
        invariant Valid()
        decreases |queueSet|
      {
        var isHigh := queueSet[0];
        queueSet := queueSet[1..];
        if isHigh {
          selectedHigh := selectedHigh + 1;
        } else {
          selectedLow := selectedLow + 1;
        }
      }
    }

    /**
     * `receive_next_transaction`: there is a next transaction exactly when a request is queued, the receive from the
     * chosen queue succeeds, and of two queued requests the high one goes first unless two in a row have gone already.
     */
    method ReceiveNextTransaction() returns (next: Option<Next>)
      requires Valid()
      modifies this
      ensures Valid()
      ensures next.None? <==> old(highRequest).None? && old(lowRequest).None?
      ensures next.Some? ==> Some(next.value.request) == if next.value.high then old(highRequest) else old(lowRequest)
      ensures next.Some? ==> (next.value.high <==>
        old(highRequest).Some? && (old(consecutiveHigh) < MAX_CONSECUTIVE_HIGH || old(lowRequest).None?))
      ensures highRequest == (if next.Some? && next.value.high then None else old(highRequest))
      ensures lowRequest == (if next.Some? && !next.value.high then None else old(lowRequest))
      ensures next.None? ==> consecutiveHigh == old(consecutiveHigh)
      ensures next.Some? && !next.value.high ==> consecutiveHigh == 0
      ensures next.Some? && next.value.high ==> consecutiveHigh == if old(consecutiveHigh) < 255 then old(consecutiveHigh) + 1 else 255
    {
      SelectAvailableRequestQueues();
      if selectedHigh == 0 && selectedLow == 0 {
        return None;
      }
      if selectedHigh > 0 && (consecutiveHigh < MAX_CONSECUTIVE_HIGH || selectedLow == 0) {
        selectedHigh := selectedHigh - 1;
        if consecutiveHigh < 255 {
          consecutiveHigh := consecutiveHigh + 1;
        }
        next := Some(Next(true, highRequest.value));
        highRequest := None;
      } else {
        selectedLow := selectedLow - 1;
        consecutiveHigh := 0;
        next := Some(Next(false, lowRequest.value));
        lowRequest := None;
      }
    }
  }
}
