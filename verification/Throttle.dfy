/** The throttle in front of sends to the toolstack: a hundred fast sends, and two more for every second. */
module Throttle {
  import opened Bytes

  const MAX_CREDIT: u32 := 100
  const CREDIT_PER_SECOND: nat := 2
  const WRAP: nat := 0x1_0000_0000

  datatype Bucket = Bucket(lastTime: int, credit: u32)

  /** One call: the clock as read on entry, and as read again after the sleep of a call that finds no credit. */
  datatype Call = Call(now: int, woken: int)

  /** The credit after a refill; the sum wraps in 32 bits before it is capped. */
  function Refill(credit: u32, elapsed: int): u32 {
    var sum := (credit + elapsed * CREDIT_PER_SECOND) % WRAP;
    if sum > MAX_CREDIT then MAX_CREDIT else sum
  }

  predicate IsFast(b: Bucket, call: Call) {
    Refill(b.credit, call.now - b.lastTime) > 0
  }

  function Next(b: Bucket, call: Call): Bucket {
    var credit := Refill(b.credit, call.now - b.lastTime);
    if credit > 0 then Bucket(call.now, credit - 1) else Bucket(call.woken, 0)
  }

  class Throttle {
    var lastTime: int
    var sendCredit: u32

    constructor ()
      ensures State() == Bucket(0, MAX_CREDIT)
    {
      lastTime, sendCredit := 0, MAX_CREDIT;
    }

    function State(): Bucket
      reads this
    {
      Bucket(lastTime, sendCredit)
    }

    /** Lets one send through, at once or after a sleep; the credit never exceeds its cap from here on. */
    method Send(call: Call) returns (fast: bool)
      modifies this
      ensures fast == IsFast(old(State()), call) && State() == Next(old(State()), call)
      ensures sendCredit < MAX_CREDIT
    {
      var elapsed := call.now - lastTime;
      lastTime := call.now;
      sendCredit := (sendCredit + elapsed * CREDIT_PER_SECOND) % WRAP;
      if sendCredit > MAX_CREDIT {
        sendCredit := MAX_CREDIT;
      }
      if sendCredit > 0 {
        sendCredit := sendCredit - 1;
        fast := true;
      } else {
        lastTime := call.woken;
        fast := false;
      }
    }
  }

  /** Clock readings that never go back, from `start` on. */
  predicate Forward(start: int, calls: seq<Call>)
    decreases |calls|
  {
    calls != [] ==> start <= calls[0].now <= calls[0].woken && Forward(calls[0].woken, calls[1..])
  }

  /** How many of the calls are let through without a sleep. */
  function FastSends(b: Bucket, calls: seq<Call>): nat
    decreases |calls|
  {
    if calls == [] then 0
    else (if IsFast(b, calls[0]) then 1 else 0) + FastSends(Next(b, calls[0]), calls[1..])
  }

  /** A refill gives no more than was saved and earned exactly when the sum is not below zero, or wraps to zero. */
  lemma EarnedIff(credit: u32, elapsed: int)
    ensures var sum := credit + elapsed * CREDIT_PER_SECOND;
            Refill(credit, elapsed) <= (if sum < 0 then 0 else sum) <==> sum >= 0 || sum % WRAP == 0
  {
    var sum := credit + elapsed * CREDIT_PER_SECOND;
    if 0 <= sum {
      assert sum % WRAP <= sum;
    }
  }

  /** A clock set back by a second fills an empty bucket. */
  lemma ClockSetBackRefills(now: int)
    ensures var b, call := Bucket(now, 0), Call(now - 1, now - 1);
            IsFast(b, call) && Next(b, call).credit == MAX_CREDIT - 1
  {
    assert -2 % WRAP == WRAP - 2;
  }

  lemma RefillBound(credit: u32, elapsed: nat)
    ensures Refill(credit, elapsed) <= credit + elapsed * CREDIT_PER_SECOND
    ensures Refill(credit, elapsed) <= MAX_CREDIT
    ensures credit <= MAX_CREDIT ==> Refill(credit, 0) == credit
  {
  }

  lemma ForwardFrom(start: int, calls: seq<Call>, earlier: int)
    requires Forward(start, calls) && earlier <= start
    ensures Forward(earlier, calls)
  {
  }

  /** Along forward readings, fast sends are paid from the credit saved at the start and the seconds since. */
  lemma {:induction false} FastSendsArePaid(b: Bucket, calls: seq<Call>)
    requires calls != [] && Forward(b.lastTime, calls)
    ensures FastSends(b, calls) <= b.credit + (calls[|calls| - 1].now - b.lastTime) * CREDIT_PER_SECOND
    decreases |calls|
  {
    var call, next := calls[0], Next(b, calls[0]);
    RefillBound(b.credit, call.now - b.lastTime);
    if |calls| > 1 {
      ForwardFrom(call.woken, calls[1..], next.lastTime);
      FastSendsArePaid(next, calls[1..]);
    }
  }

  /**
   The rate limit: whatever the bucket held before, in a stretch of calls whose clock readings do not go back at most
   a hundred sends, and two for every second between its first and its last reading, go through without a sleep.
   */
  lemma RateLimit(b: Bucket, calls: seq<Call>)
    requires calls != [] && Forward(calls[0].now, calls)
    ensures FastSends(b, calls)
            <= MAX_CREDIT + (calls[|calls| - 1].now - calls[0].now) * CREDIT_PER_SECOND
  {
    var first := calls[0].now;
    var refilled := Bucket(first, Refill(b.credit, first - b.lastTime));
    RefillBound(refilled.credit, 0);
    assert Next(refilled, calls[0]) == Next(b, calls[0]);
    FastSendsArePaid(refilled, calls);
  }

  // ---- Credit that is earned is given

  /** A forward clock earns two credits a second up to the cap, as long as the sum does not wrap. */
  lemma RefillIs(credit: u32, elapsed: nat)
    requires credit <= MAX_CREDIT && credit + 2 * elapsed < 0x1_0000_0000
    ensures Refill(credit, elapsed) == if credit + 2 * elapsed > 100 then 100 else credit + 2 * elapsed
  {
  }

  /** Calls at the time of the last one go through without a sleep exactly as long as there is credit. */
  lemma {:induction false} BurstIsExact(b: Bucket, calls: seq<Call>)
    requires |calls| <= b.credit <= MAX_CREDIT
    requires forall i :: 0 <= i < |calls| ==> calls[i].now == b.lastTime
    ensures FastSends(b, calls) == |calls|
    decreases |calls|
  {
    if calls != [] {
      RefillIs(b.credit, 0);
      BurstIsExact(Next(b, calls[0]), calls[1..]);
    }
  }

  /** With an empty bucket and no second gone by, a call sleeps and leaves the bucket empty. */
  lemma EmptyBucketSleeps(now: int, woken: int)
    ensures !IsFast(Bucket(now, 0), Call(now, woken)) && Next(Bucket(now, 0), Call(now, woken)) == Bucket(woken, 0)
  {
    RefillIs(0, 0);
  }

  /** After fifty idle seconds a hundred sends go through at once. */
  lemma FullAfterIdle(b: Bucket, now: int, calls: seq<Call>)
    requires b.credit <= MAX_CREDIT && b.lastTime + 50 <= now < b.lastTime + 0x7FFF_FF00
    requires 0 < |calls| <= 100 && forall i :: 0 <= i < |calls| ==> calls[i].now == now
    ensures FastSends(b, calls) == |calls|
  {
    RefillIs(b.credit, now - b.lastTime);
    BurstIsExact(Next(b, calls[0]), calls[1..]);
  }
}
