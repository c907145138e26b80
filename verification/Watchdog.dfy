/** The watchdog that stops an exporter which stays unhealthy. */
module Watchdog {
  import opened Options
  import opened Arithmetic

  /** One health check and the clock reading that goes with it. */
  datatype Check = Check(healthy: bool, at: int)

  type Checks = seq<Check>

  predicate Ordered(checks: Checks) { forall i, j | 0 <= i < j < |checks| :: checks[i].at <= checks[j].at }

  predicate Failing(checks: Checks, i: int, j: int)
    requires 0 <= i <= j < |checks|
  {
    forall k | i <= k <= j :: !checks[k].healthy
  }

  /** At check j some streak of failures has lasted for longer than the limit. */
  predicate Overdue(checks: Checks, limit: int, j: int)
    requires 0 <= j < |checks|
  {
    exists i :: 0 <= i < j && Failing(checks, i, j) && checks[j].at - checks[i].at > limit
  }

  /** Runs until it stops the exporter or, with `None`, until the checks end because the context does.
      It remembers one time only, yet stops exactly at the first overdue check. */
  method Watch(checks: Checks, limit: int) returns (stoppedAt: Option<nat>)
    requires Ordered(checks)
    ensures stoppedAt.Some? ==>
              && stoppedAt.value < |checks| && Overdue(checks, limit, stoppedAt.value)
              && forall j | 0 <= j < stoppedAt.value :: !Overdue(checks, limit, j)
    ensures stoppedAt.None? ==> forall j | 0 <= j < |checks| :: !Overdue(checks, limit, j)
  {
    var failingSince: Option<int> := None;
    ghost var start := 0;
    var n := 0;
    while n < |checks|
      invariant 0 <= start <= n <= |checks|
      invariant failingSince.None? <==> start == n
      invariant failingSince.Some? ==> failingSince.value == checks[start].at
      invariant forall k | start <= k < n :: !checks[k].healthy
      invariant start > 0 ==> checks[start - 1].healthy
      invariant forall j | 0 <= j < n :: !Overdue(checks, limit, j)
    {
      var now := checks[n].at;
      if checks[n].healthy {
        failingSince := None;
        start := n + 1;
        assert !Overdue(checks, limit, n);
      } else if failingSince.None? {
        failingSince := Some(now);
        assert !Overdue(checks, limit, n);
      } else if now - failingSince.value > limit {
        assert Failing(checks, start, n);
        return Some(n);
      } else {
        assert forall i | 0 <= i < n && Failing(checks, i, n) :: start <= i;
      }
      n := n + 1;
    }
    return None;
  }

  /** With a limit that is not negative the streak may as well be counted from the check itself. */
  lemma OverdueFromAnyStart(checks: Checks, limit: int, j: int)
    requires 0 <= j < |checks| && limit >= 0
    ensures Overdue(checks, limit, j) <==>
            exists i :: 0 <= i <= j && Failing(checks, i, j) && checks[j].at - checks[i].at > limit
  {
  }

  /** With checks a fixed interval apart the stop comes floor(limit / interval) + 1 checks after the
      streak began, if the streak lasts that long. */
  lemma EvenlySpaced(checks: Checks, limit: int, interval: int, start: nat, j: nat)
    requires interval > 0 && limit >= 0 && start <= j < |checks|
    requires forall k | 0 <= k < |checks| :: checks[k].at == checks[0].at + k * interval
    requires Failing(checks, start, j) && (start > 0 ==> checks[start - 1].healthy)
    ensures Overdue(checks, limit, j) <==> j >= start + limit / interval + 1
  {
    forall i | 0 <= i <= j
      ensures checks[j].at - checks[i].at > limit <==> j - i >= limit / interval + 1
    {
      assert checks[j].at - checks[i].at == (j - i) * interval;
      StepsToExceed(limit, interval, j - i);
    }
    if j >= start + limit / interval + 1 {
      assert Failing(checks, start, j);
    }
    assert forall i | 0 <= i < j && Failing(checks, i, j) :: start <= i;
  }

  lemma StepsToExceed(limit: int, interval: int, steps: int)
    requires interval > 0 && limit >= 0
    ensures steps * interval > limit <==> steps >= limit / interval + 1
  {
    var q := limit / interval;
    assert limit == q * interval + limit % interval;
    Multiples(q, steps, interval);
    Multiples(steps, q, interval);
  }
}
