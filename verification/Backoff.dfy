/** Reconnect backoff and the re-login count, over every run of the supervisor. */
module Backoff {
  import opened Options
  import opened Arithmetic
  import opened Sequences
  import opened Supervision

  predicate Heard(c: Config, e: Event) { e.Message? && c.Accepts(e.sn) }

  const MINUTE := 60 * 1_000_000_000

  /** The pause after the k-th granted attempt of a data-free stretch. */
  function Delay(threshold: int, k: nat): int {
    if k == 0 then 0 else Min(Pow2(k - 1) * threshold, 10 * MINUTE)
  }

  /** The pauses after attempts k up to n - 1. */
  function DelaySum(threshold: int, k: nat, n: nat): int {
    if n <= k then 0 else DelaySum(threshold, k, n - 1) + Delay(threshold, n - 1)
  }

  // What a run did since the last message of a configured device.

  /** Granted reconnect attempts, re-logins included. */
  function Attempts(c: Config, r: Run): nat {
    if r == [] || Heard(c, Last(r).event) then 0
    else Attempts(c, Init(r)) + if Last(r).event == Attempt(true) then 1 else 0
  }

  /** Calls of reloginDue. */
  function Counted(c: Config, r: Run): nat {
    if r == [] || Heard(c, Last(r).event) then 0
    else Counted(c, Init(r)) + if Last(r).event.CountAttempt? then 1 else 0
  }

  function LatestGrant(r: Run): int {
    if r == [] then 0 else if Last(r).event == Attempt(true) then Last(r).at else LatestGrant(Init(r))
  }

  /** No message of a configured device strictly between two positions. */
  predicate Quiet(c: Config, r: Run, i: nat, j: nat)
    requires j <= |r|
  {
    forall m | i < m < j :: !Heard(c, r[m].event)
  }

  /** Every message lands between two ticks. */
  predicate Undisturbed(c: Config, r: Run)
    requires Legal(c, r)
    decreases |r|
  {
    r == [] ||
    (Undisturbed(c, Init(r)) && (Heard(c, Last(r).event) ==> After(c, Init(r)).phase.Idle?))
  }

  lemma {:induction false} DelayDoubles(threshold: int, k: nat)
    requires threshold > 0
    ensures Delay(threshold, k + 1) == Min(Max(2 * Delay(threshold, k), threshold), MAX_RECONNECT_DELAY)
    ensures Delay(threshold, k + 1) > 0
  {
    if k > 0 {
      assert Pow2(k) * threshold == 2 * (Pow2(k - 1) * threshold);
      PowPositive(k - 1);
      assert Pow2(k - 1) * threshold >= threshold;
    }
  }

  /** The invariant behind the backoff: the mutable fields are functions of the history. */
  lemma {:induction false} BackoffState(c: Config, r: Run)
    requires c.Valid() && Legal(c, r)
    ensures var s, k := After(c, r).status, Attempts(c, r);
      && s.reconnectDelay == Delay(c.offlineThreshold, k)
      && s.nextReconnect ==
         if k == 0 then None else Some(LatestGrant(r) + Delay(c.offlineThreshold, k))
  {
    if r != [] {
      BackoffState(c, Init(r));
      match Last(r).event {
        case Attempt(_) => DelayDoubles(c.offlineThreshold, Attempts(c, Init(r)));
        case _ =>
      }
    }
  }

  /** An attempt is granted exactly when it is the first since the last message or the previous
      pause is over, and the k-th one sets the pause to min(2^(k-1) * threshold, 10 min). */
  lemma AttemptGranted(c: Config, r: Run, i: nat)
    requires c.Valid() && Legal(c, r) && i < |r| && r[i].event.Attempt?
    ensures Legal(c, r[..i]) && Legal(c, r[..i + 1])
    ensures var k := Attempts(c, r[..i]);
      r[i].event.granted <==>
      (k == 0 || r[i].at >= LatestGrant(r[..i]) + Delay(c.offlineThreshold, k))
    ensures r[i].event.granted ==>
      var k := Attempts(c, r[..i + 1]);
      && k == Attempts(c, r[..i]) + 1
      && After(c, r[..i + 1]).status.reconnectDelay == Min(Pow2(k - 1) * c.offlineThreshold, 10 * MINUTE)
  {
    LegalPrefix(c, r, i);
    BackoffState(c, r[..i]);
    BackoffState(c, r[..i + 1]);
    assert Init(r[..i + 1]) == r[..i];
  }

  /** In every interleaving the n-th attempt of a data-free stretch comes at least the pauses of the
      k-th up to the (n-1)-th attempt after the k-th one. */
  lemma {:induction false} AttemptsSpaced(c: Config, r: Run, i: nat, j: nat)
    requires c.Valid() && Legal(c, r) && i < j < |r| && Quiet(c, r, i, j)
    requires r[i].event == Attempt(true) && r[j].event == Attempt(true)
    ensures var k, n := Attempts(c, r[..i + 1]), Attempts(c, r[..j + 1]);
      && 1 <= k < n
      && r[j].at - r[i].at >= DelaySum(c.offlineThreshold, k, n)
      && r[j].at - r[i].at >= Delay(c.offlineThreshold, k)
  {
    StretchGrows(c, r, i, j);
    AttemptGranted(c, r, i);
    AttemptGranted(c, r, j);
    var k, m := Attempts(c, r[..i + 1]), Attempts(c, r[..j]);
    DelaySumBound(c.offlineThreshold, k, m + 1);
  }

  /** The special case counted from the first attempt of the stretch. */
  lemma StretchFromFirstAttempt(c: Config, r: Run, i: nat, j: nat)
    requires c.Valid() && Legal(c, r) && i < j < |r| && Quiet(c, r, i, j)
    requires r[i].event == Attempt(true) && r[j].event == Attempt(true)
    requires Attempts(c, r[..i]) == 0
    ensures r[j].at >= r[i].at + DelaySum(c.offlineThreshold, 1, Attempts(c, r[..j + 1]))
  {
    AttemptGranted(c, r, i);
    AttemptsSpaced(c, r, i, j);
  }

  lemma {:induction false} DelaySumBound(threshold: int, k: nat, n: nat)
    requires threshold > 0 && 1 <= k < n
    ensures DelaySum(threshold, k, n) >= Delay(threshold, k)
  {
    if n > k + 1 {
      DelaySumBound(threshold, k, n - 1);
      DelayDoubles(threshold, n - 2);
    } else {
      assert DelaySum(threshold, k, k) == 0;
    }
  }

  lemma {:induction false} StretchGrows(c: Config, r: Run, i: nat, j: nat)
    requires c.Valid() && Legal(c, r) && i < j <= |r| && Quiet(c, r, i, j)
    requires r[i].event == Attempt(true)
    ensures var k, n := Attempts(c, r[..i + 1]), Attempts(c, r[..j]);
      && 1 <= k <= n
      && LatestGrant(r[..j]) - r[i].at >= DelaySum(c.offlineThreshold, k, n)
    decreases j
  {
    if j == i + 1 {
      assert Init(r[..j]) == r[..i];
    } else {
      StretchGrows(c, r, i, j - 1);
      assert Init(r[..j]) == r[..j - 1];
      if r[j - 1].event == Attempt(true) {
        AttemptGranted(c, r, j - 1);
      }
    }
  }

  // ---------------------------------------------------------------------------
  // Re-logins
  // ---------------------------------------------------------------------------

  /** The counter is the number of calls since the last message modulo three, and calls and attempts
      never differ by more than one, in either direction. */
  lemma CounterState(c: Config, r: Run)
    requires Legal(c, r)
    ensures After(c, r).status.fruitlessReconnects == Counted(c, r) % 3
    ensures var ahead := Attempts(c, r) - Counted(c, r);
      if After(c, r).phase.Counting? then 0 <= ahead <= 1 else -1 <= ahead <= 0
  {
    CounterValue(c, r);
    CallsAndAttempts(c, r);
  }

  lemma {:induction false} CounterValue(c: Config, r: Run)
    requires Legal(c, r)
    ensures After(c, r).status.fruitlessReconnects == Counted(c, r) % 3
  {
    if r != [] { CounterValue(c, Init(r)); }
  }

  lemma {:induction false} CallsAndAttempts(c: Config, r: Run)
    requires Legal(c, r)
    ensures var ahead := Attempts(c, r) - Counted(c, r);
      if After(c, r).phase.Counting? then 0 <= ahead <= 1 else -1 <= ahead <= 0
  {
    if r != [] { CallsAndAttempts(c, Init(r)); }
  }

  /** Every third call since the last message asks for a re-login, and no other. */
  lemma EveryThirdCallAsks(c: Config, r: Run, i: nat)
    requires Legal(c, r) && i < |r| && r[i].event.CountAttempt?
    ensures r[i].event.login <==> (Counted(c, r[..i]) + 1) % 3 == 0
  {
    LegalPrefix(c, r, i);
    CounterState(c, r[..i]);
  }

  lemma {:induction false} CallsMatchAttempts(c: Config, r: Run)
    requires Legal(c, r) && Undisturbed(c, r)
    ensures Attempts(c, r) == Counted(c, r) + if After(c, r).phase.Counting? then 1 else 0
  {
    if r != [] { CallsMatchAttempts(c, Init(r)); }
  }

  /** When no message lands inside a tick, the third, sixth, ... attempt of a data-free stretch is
      itself the re-login: two reconnects come before it, not three. */
  lemma {:induction false} ThirdAttemptIsTheLogin(c: Config, r: Run, i: nat)
    requires Legal(c, r) && Undisturbed(c, r) && i < |r| && r[i].event.CountAttempt?
    ensures r[i].event.login <==> Attempts(c, r[..i]) % 3 == 0
  {
    EveryThirdCallAsks(c, r, i);
    LegalPrefix(c, r, i);
    UndisturbedPrefix(c, r, i);
    CallsMatchAttempts(c, r[..i]);
  }

  lemma {:induction false} UndisturbedPrefix(c: Config, r: Run, n: nat)
    requires Legal(c, r) && Undisturbed(c, r) && n <= |r|
    ensures Legal(c, r[..n]) && Undisturbed(c, r[..n])
  {
    if n < |r| {
      UndisturbedPrefix(c, Init(r), n);
      assert Init(r)[..n] == r[..n];
    } else {
      assert r[..n] == r;
    }
  }

  // ---------------------------------------------------------------------------
  // The re-login channel
  // ---------------------------------------------------------------------------

  function Requests(r: Run): nat {
    if r == [] then 0 else Requests(Init(r)) + if Last(r).event.RequestRelogin? then 1 else 0
  }

  function Logins(r: Run): nat {
    if r == [] then 0 else Logins(Init(r)) + if Last(r).event.TakeRelogin? then 1 else 0
  }

  /** Requests that found the one-slot channel already full. */
  function Merged(c: Config, r: Run): nat
    requires Legal(c, r)
    decreases |r|
  {
    if r == [] then 0
    else Merged(c, Init(r)) +
         if Last(r).event.RequestRelogin? && After(c, Init(r)).reloginPending then 1 else 0
  }

  /** Calls of reloginDue that answered true, over the whole run. */
  function LoginsAsked(r: Run): nat {
    if r == [] then 0
    else LoginsAsked(Init(r)) + if Last(r).event == CountAttempt(true) then 1 else 0
  }

  /** No request is lost and none is served twice: every request was served, is pending, or was made
      while another one was pending; and each stems from one positive answer of reloginDue. */
  lemma {:induction false} ChannelConservation(c: Config, r: Run)
    requires Legal(c, r)
    ensures Requests(r) == Logins(r) + Merged(c, r) + if After(c, r).reloginPending then 1 else 0
    ensures LoginsAsked(r) == Requests(r) + if After(c, r).phase.Requesting? then 1 else 0
  {
    if r != [] { ChannelConservation(c, Init(r)); }
  }
}
