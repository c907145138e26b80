/** Retrying with a pause that doubles up to a maximum. */
module Retry {
  import opened Arithmetic

  /** What the environment does in one round: whether the function succeeds, and whether the context
      ends the pause that follows a failure. */
  datatype Round = Round(succeeds: bool, cancelled: bool)

  /** `Running` when the rounds were used up before the loop was. */
  datatype Outcome = Succeeded | Cancelled | Exhausted | Running

  /** The pause after the k-th failed call, counted from 1. Durations may be negative. */
  function Pause(initial: int, maxDelay: int, k: nat): int
    requires k >= 1
  {
    if k == 1 then initial
    else Min(initial * Pow2(k - 1), if maxDelay < 0 then maxDelay * Pow2(k - 2) else maxDelay)
  }

  /** `calls` counts the calls of the function and `waits` lists the pauses begun. With a negative
      number of attempts the function is not called at all. */
  method RetryWithBackoff(rounds: seq<Round>, attempts: int, initial: int, maxDelay: int)
    returns (outcome: Outcome, calls: nat, waits: seq<int>)
    ensures attempts < 0 ==> outcome == Exhausted && calls == 0 && waits == []
    ensures calls <= |rounds| && (attempts > 0 ==> calls <= attempts)
    ensures forall k | 0 <= k < calls - 1 :: !rounds[k].succeeds && !rounds[k].cancelled
    ensures outcome.Running? ==>
              && calls == |rounds| && (attempts == 0 || calls < attempts)
              && forall k | 0 <= k < calls :: !rounds[k].succeeds && !rounds[k].cancelled
    ensures attempts >= 0 && !outcome.Running? ==>
              calls > 0 && (rounds[calls - 1].succeeds || calls == attempts || rounds[calls - 1].cancelled)
    ensures outcome.Succeeded? <==> calls > 0 && rounds[calls - 1].succeeds
    ensures outcome.Cancelled? <==>
              calls > 0 && calls != attempts && !rounds[calls - 1].succeeds && rounds[calls - 1].cancelled
    ensures outcome.Exhausted? <==> attempts < 0 || (calls > 0 && calls == attempts && !rounds[calls - 1].succeeds)
    ensures attempts == 0 ==> !outcome.Exhausted?
    ensures |waits| == if outcome.Succeeded? || (outcome.Exhausted? && calls > 0) then calls - 1 else calls
    ensures forall k | 0 <= k < |waits| :: waits[k] == Pause(initial, maxDelay, k + 1)
    ensures waits != [] ==> waits[0] == initial
    ensures forall k | 0 < k < |waits| :: waits[k] == Min(2 * waits[k - 1], maxDelay)
  {
    var delay := initial;
    outcome, calls, waits := Running, 0, [];
    var attempt := 1;
    while attempts == 0 || attempt <= attempts
      invariant calls == attempt - 1 <= |rounds| && |waits| == calls
      invariant outcome == Running
      invariant attempts > 0 ==> calls < attempts
      invariant attempts < 0 ==> calls == 0
      invariant delay == Pause(initial, maxDelay, attempt)
      invariant forall k | 0 <= k < calls :: !rounds[k].succeeds && !rounds[k].cancelled
      invariant forall k | 0 <= k < |waits| :: waits[k] == Pause(initial, maxDelay, k + 1)
      invariant |waits| > 0 ==> waits[0] == initial && delay == Min(2 * waits[|waits| - 1], maxDelay)
      invariant |waits| == 0 ==> delay == initial
      invariant forall k | 0 < k < |waits| :: waits[k] == Min(2 * waits[k - 1], maxDelay)
      decreases |rounds| - calls
    {
      if calls == |rounds| { return; }
      var round := rounds[calls];
      calls := calls + 1;
      if round.succeeds { return Succeeded, calls, waits; }
      if attempts != 0 && attempt == attempts { break; }
      waits := waits + [delay];
      if round.cancelled { return Cancelled, calls, waits; }
      PauseDoubles(initial, maxDelay, attempt);
      delay := Min(2 * delay, maxDelay);
      attempt := attempt + 1;
    }
    return Exhausted, calls, waits;
  }

  lemma PauseDoubles(initial: int, maxDelay: int, k: nat)
    requires k >= 1
    ensures Pause(initial, maxDelay, k + 1) == Min(2 * Pause(initial, maxDelay, k), maxDelay)
  {
    assert initial * Pow2(k) == 2 * (initial * Pow2(k - 1));
    if k > 1 {
      PowPositive(k - 2);
      assert maxDelay * Pow2(k - 1) == 2 * (maxDelay * Pow2(k - 2));
      if maxDelay < 0 { assert maxDelay * Pow2(k - 2) <= maxDelay; }
    }
  }

  /** The closed form min(initial * 2^(k-1), maxDelay) holds for the first pause, and so for all of them,
      exactly when the initial pause is not above the maximum. */
  lemma ClosedForm(initial: int, maxDelay: int)
    ensures (forall k: nat | k >= 1 :: Pause(initial, maxDelay, k) == Min(initial * Pow2(k - 1), maxDelay))
       <==> initial <= maxDelay
  {
    assert Pow2(0) == 1;
    assert Pause(initial, maxDelay, 1) == initial;
    assert Min(initial * Pow2(1 - 1), maxDelay) == Min(initial, maxDelay);
    if initial <= maxDelay < 0 {
      forall k: nat | k >= 1 ensures Pause(initial, maxDelay, k) == Min(initial * Pow2(k - 1), maxDelay) {
        if k > 1 {
          PowPositive(k - 2);
          BelowZero(initial, maxDelay, Pow2(k - 2));
        }
      }
    }
  }

  lemma BelowZero(initial: int, maxDelay: int, p: nat)
    requires initial <= maxDelay < 0
    ensures p >= 1 ==> initial * (2 * p) <= maxDelay * p <= maxDelay
  {
    assert maxDelay * p - initial * (2 * p) == (maxDelay - initial) * p - initial * p;
    assert (maxDelay - initial) * p >= 0 && initial * p <= 0;
    if p >= 1 { assert maxDelay * (p - 1) <= 0; }
  }
}
