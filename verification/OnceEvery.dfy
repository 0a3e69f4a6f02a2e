/** A rate limiter: of all calls, run at most one per interval
    (kontrol/onceevery/onceevery.go). Times are nanoseconds. */
module OnceEvery {
  import opened Wrappers

  /** A call at time now runs: the last run is more than an interval ago. */
  predicate Due(last: Option<int>, interval: int, now: int)
  {
    last.None? || last.value + interval < now
  }

  class Limiter {
    const interval: int
    var last: Option<int>

    constructor (d: int)
      ensures interval == d && last == None
    {
      interval, last := d, None;
    }

    method Do(now: int) returns (run: bool)
      modifies this
      ensures run <==> Due(old(last), interval, now)
      ensures last == if run then Some(now) else old(last)
    {
      run := Due(last, interval, now);
      if run { last := Some(now); }
    }
  }

  /** The last run after the first n calls of a limiter. */
  function LastRun(times: seq<int>, n: nat, interval: int): Option<int>
    requires n <= |times|
  {
    if n == 0 then None
    else
      var before := LastRun(times, n - 1, interval);
      if Due(before, interval, times[n - 1]) then Some(times[n - 1]) else before
  }

  predicate Runs(times: seq<int>, i: nat, interval: int)
    requires i < |times|
  {
    Due(LastRun(times, i, interval), interval, times[i])
  }

  predicate Ordered(times: seq<int>) { forall i, j | 0 <= i < j < |times| :: times[i] <= times[j] }

  lemma {:induction false} LastRunIsRun(times: seq<int>, n: nat, interval: int) returns (j: nat)
    requires n <= |times| && LastRun(times, n, interval).Some?
    ensures j < n && Runs(times, j, interval) && LastRun(times, n, interval) == Some(times[j])
    ensures forall i: nat | j < i < n :: !Runs(times, i, interval)
  {
    if Runs(times, n - 1, interval) {
      j := n - 1;
    } else {
      j := LastRunIsRun(times, n - 1, interval);
    }
  }

  /** Over any run of calls in time order: two runs are more than an interval
      apart, and a call that does not run has a run at most an interval before. */
  lemma {:induction false} Spacing(times: seq<int>, interval: int)
    requires interval >= 0 && Ordered(times)
    ensures forall i: nat, j: nat | i < j < |times| && Runs(times, i, interval) && Runs(times, j, interval) ::
              times[i] + interval < times[j]
    ensures forall j: nat | j < |times| && !Runs(times, j, interval) ::
              exists i: nat | i < j :: Runs(times, i, interval) && times[j] <= times[i] + interval
  {
    forall i: nat, j: nat | i < j < |times| && Runs(times, i, interval) && Runs(times, j, interval)
      ensures times[i] + interval < times[j]
    {
      KeepsLast(times, i, j, interval);
    }
    forall j: nat | j < |times| && !Runs(times, j, interval)
      ensures exists i: nat | i < j :: Runs(times, i, interval) && times[j] <= times[i] + interval
    {
      var i := LastRunIsRun(times, j, interval);
    }
  }

  lemma {:induction false} KeepsLast(times: seq<int>, i: nat, n: nat, interval: int)
    requires i < n <= |times| && Runs(times, i, interval) && interval >= 0 && Ordered(times)
    ensures LastRun(times, n, interval).Some? && LastRun(times, n, interval).value >= times[i]
  {
    if i < n - 1 { KeepsLast(times, i, n - 1, interval); }
  }
}
