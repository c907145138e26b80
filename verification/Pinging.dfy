/** Keepalives and periodic state refreshes. */
module Pinging {
  import opened Arithmetic

  datatype Kind = Keepalive | StateRefresh

  datatype Send = Send(sn: string, kind: Kind)

  /** Durations are positive, so the truncated quotient is the floor. */
  function TicksPerRefresh(refreshInterval: int, pingInterval: int): int
    requires pingInterval > 0
  {
    Max(refreshInterval / pingInterval, 1)
  }

  function Connected(ticks: seq<bool>): nat {
    if ticks == [] then 0 else Connected(ticks[..|ticks| - 1]) + if ticks[|ticks| - 1] then 1 else 0
  }

  function Count(sends: multiset<Send>, sn: string, kind: Kind): nat { sends[Send(sn, kind)] }

  /** Tick i asks all devices for their state: it is connected, and every N-th of those. */
  predicate Refreshes(ticks: seq<bool>, every: int, i: nat)
    requires every > 0 && i < |ticks|
  {
    ticks[i] && Connected(ticks[..i + 1]) % every == 0
  }

  /** What tick i sends to each of the devices, if anything. */
  function Sent(ticks: seq<bool>, every: int, i: nat, kind: Kind): nat
    requires every > 0 && i < |ticks|
  {
    if ticks[i] && kind == (if Refreshes(ticks, every, i) then StateRefresh else Keepalive) then 1 else 0
  }

  ghost predicate AreRounds(rounds: seq<multiset<Send>>, devices: set<string>, ticks: seq<bool>, every: int)
    requires every > 0
  {
    && |rounds| == |ticks|
    && forall i, sn, kind | 0 <= i < |ticks| ::
         Count(rounds[i], sn, kind) == if sn in devices then Sent(ticks, every, i, kind) else 0
  }

  function Total(rounds: seq<multiset<Send>>): multiset<Send> {
    if rounds == [] then multiset{} else Total(rounds[..|rounds| - 1]) + rounds[|rounds| - 1]
  }

  /** `ticks` says at which ticks the client is connected. The requests of one tick run in parallel, so
      they are collected without an order, tick by tick. */
  method PingRoutine(devices: set<string>, ticks: seq<bool>, refreshInterval: int, pingInterval: int)
    returns (rounds: seq<multiset<Send>>)
    requires refreshInterval > 0 && pingInterval > 0
    ensures AreRounds(rounds, devices, ticks, TicksPerRefresh(refreshInterval, pingInterval))
    ensures forall i, sn | 0 <= i < |ticks| && sn in devices ::
              Count(rounds[i], sn, StateRefresh) + Count(rounds[i], sn, Keepalive) == if ticks[i] then 1 else 0
    ensures var n, every := Connected(ticks), TicksPerRefresh(refreshInterval, pingInterval);
      && (forall sn | sn in devices ::
            Count(Total(rounds), sn, StateRefresh) == n / every && Count(Total(rounds), sn, Keepalive) == n - n / every)
      && (forall sn, kind | sn !in devices :: Count(Total(rounds), sn, kind) == 0)
  {
    rounds := [];
    var tickCount := 0;
    var ticksPerRefresh := Max(refreshInterval / pingInterval, 1);
    var i := 0;
    while i < |ticks|
      invariant 0 <= i <= |ticks| && |rounds| == i && tickCount == Connected(ticks[..i])
      invariant forall k, sn, kind | 0 <= k < i ::
                  Count(rounds[k], sn, kind) == if sn in devices then Sent(ticks, ticksPerRefresh, k, kind) else 0
    {
      assert ticks[..i + 1][..i] == ticks[..i];
      var sends := multiset{};
      if ticks[i] {
        tickCount := tickCount + 1;
        var useStateRefresh := tickCount % ticksPerRefresh == 0;
        sends := PingAll(devices, if useStateRefresh then StateRefresh else Keepalive);
      }
      rounds := rounds + [sends];
      i := i + 1;
    }
    assert ticks[..i] == ticks;
    RoundsAddUp(rounds, devices, ticks, ticksPerRefresh);
  }

  method PingAll(devices: set<string>, kind: Kind) returns (sends: multiset<Send>)
    ensures forall sn, k :: Count(sends, sn, k) == if sn in devices && k == kind then 1 else 0
  {
    sends := multiset{};
    var remaining := devices;
    while remaining != {}
      invariant remaining <= devices
      invariant forall sn, k :: Count(sends, sn, k) == if sn in devices - remaining && k == kind then 1 else 0
      decreases remaining
    {
      var sn :| sn in remaining;
      OneMoreSend(sends, sn, kind);
      sends := sends + multiset{Send(sn, kind)};
      remaining := remaining - {sn};
    }
  }

  lemma OneMoreSend(sends: multiset<Send>, sn: string, kind: Kind)
    ensures forall s, k ::
              Count(sends + multiset{Send(sn, kind)}, s, k) ==
              Count(sends, s, k) + if (s, k) == (sn, kind) then 1 else 0
  {
  }

  lemma {:induction false} RoundsAddUp(rounds: seq<multiset<Send>>, devices: set<string>, ticks: seq<bool>, every: int)
    requires every > 0 && AreRounds(rounds, devices, ticks, every)
    ensures var n, total := Connected(ticks), Total(rounds);
      && (forall sn | sn in devices ::
            Count(total, sn, StateRefresh) == n / every && Count(total, sn, Keepalive) == n - n / every)
      && (forall sn, kind | sn !in devices :: Count(total, sn, kind) == 0)
    decreases ticks
  {
    if ticks != [] {
      var i := |ticks| - 1;
      var before, last := rounds[..i], rounds[i];
      assert ticks[..i + 1] == ticks;
      forall k, kind | 0 <= k < i ensures Sent(ticks[..i], every, k, kind) == Sent(ticks, every, k, kind) {
        assert ticks[..i][..k + 1] == ticks[..k + 1];
      }
      RoundsAddUp(before, devices, ticks[..i], every);
      NextQuotient(Connected(ticks[..i]), every);
      assert forall sn, kind ::
          Count(Total(rounds), sn, kind) == Count(Total(before), sn, kind) + Count(last, sn, kind);
    }
  }

  lemma NextQuotient(n: nat, every: int)
    requires every > 0
    ensures (n + 1) / every == n / every + if (n + 1) % every == 0 then 1 else 0
  {
    var q, r := n / every, n % every;
    assert n == q * every + r;
    if r + 1 == every {
      assert n + 1 == (q + 1) * every;
      QuotientOf(n + 1, every, q + 1, 0);
    } else {
      QuotientOf(n + 1, every, q, r + 1);
    }
  }

  lemma QuotientOf(n: int, d: int, q: int, r: int)
    requires d > 0 && n == q * d + r && 0 <= r < d
    ensures n / d == q && n % d == r
  {
    var p, s := n / d, n % d;
    assert n == p * d + s;
    Multiples(p, q, d);
    Multiples(q, p, d);
  }

  lemma {:induction false} ConnectedGrows(ticks: seq<bool>, i: nat, j: nat)
    requires i <= j <= |ticks|
    ensures Connected(ticks[..i]) <= Connected(ticks[..j])
    ensures i < j && ticks[j - 1] ==> Connected(ticks[..i]) < Connected(ticks[..j])
  {
    if i < j {
      assert ticks[..j][..j - 1] == ticks[..j - 1];
      ConnectedGrows(ticks, i, j - 1);
    }
  }

  /** Every number of connected ticks up to the present one was reached at some connected tick. */
  lemma {:induction false} ReachedAt(ticks: seq<bool>, i: nat, j: nat, n: nat) returns (k: nat)
    requires i <= j <= |ticks| && Connected(ticks[..i]) < n <= Connected(ticks[..j])
    ensures i <= k < j && ticks[k] && Connected(ticks[..k + 1]) == n
  {
    k := j - 1;
    assert ticks[..j][..k] == ticks[..k];
    if n <= Connected(ticks[..k]) { k := ReachedAt(ticks, i, k, n); }
  }

  lemma TicksBetweenRefreshes(ticks: seq<bool>, every: int, i: nat, j: nat)
    requires every > 0 && i < j < |ticks| && Refreshes(ticks, every, i) && Refreshes(ticks, every, j)
    requires forall k | i < k < j :: !Refreshes(ticks, every, k)
    ensures Connected(ticks[..j + 1]) - Connected(ticks[..i + 1]) == every
  {
    var m, n := Connected(ticks[..i + 1]), Connected(ticks[..j + 1]);
    ConnectedGrows(ticks, i + 1, j + 1);
    NextMultiple(m, n, every);
    if n > m + every {
      var k := ReachedAt(ticks, i + 1, j + 1, m + every);
      assert Refreshes(ticks, every, k);
    }
  }

  lemma SpacingBounds(refreshInterval: int, pingInterval: int)
    requires 0 < pingInterval <= refreshInterval
    ensures var spacing := TicksPerRefresh(refreshInterval, pingInterval) * pingInterval;
      refreshInterval - pingInterval < spacing <= refreshInterval
  {
  }

  /** From one refresh to the next there are exactly N connected ticks. When pings are not slower than
      refreshes, that makes the refreshes come at most the refresh interval apart while the connection
      stands, and less than one ping interval sooner. */
  lemma RefreshSpacing(ticks: seq<bool>, refreshInterval: int, pingInterval: int, i: nat, j: nat)
    requires refreshInterval > 0 && pingInterval > 0 && i < j < |ticks|
    requires var every := TicksPerRefresh(refreshInterval, pingInterval);
      && Refreshes(ticks, every, i) && Refreshes(ticks, every, j)
      && forall k | i < k < j :: !Refreshes(ticks, every, k)
    ensures var between := Connected(ticks[..j + 1]) - Connected(ticks[..i + 1]);
      && between == TicksPerRefresh(refreshInterval, pingInterval)
      && (pingInterval <= refreshInterval ==>
            refreshInterval - pingInterval < between * pingInterval <= refreshInterval)
  {
    TicksBetweenRefreshes(ticks, TicksPerRefresh(refreshInterval, pingInterval), i, j);
    if pingInterval <= refreshInterval { SpacingBounds(refreshInterval, pingInterval); }
  }

  lemma NextMultiple(m: nat, n: nat, every: int)
    requires every > 0 && m < n && m % every == 0 && n % every == 0
    ensures n >= m + every && (m + every) % every == 0
  {
    var p, q := m / every, n / every;
    assert m == p * every && n == q * every;
    Multiples(q, p, every);
    Multiples(p, q, every);
    QuotientOf(m + every, every, p + 1, 0);
  }

  /** No keepalive is ever sent exactly when the refresh interval is below two ping intervals. */
  lemma OnlyRefreshes(refreshInterval: int, pingInterval: int)
    requires refreshInterval > 0 && pingInterval > 0
    ensures (forall n: nat :: n - n / TicksPerRefresh(refreshInterval, pingInterval) == 0)
       <==> refreshInterval < 2 * pingInterval
  {
    var every := TicksPerRefresh(refreshInterval, pingInterval);
    var q := refreshInterval / pingInterval;
    assert refreshInterval == q * pingInterval + refreshInterval % pingInterval;
    Multiples(1, q, pingInterval);
    Multiples(q, 2, pingInterval);
    if refreshInterval < 2 * pingInterval {
      assert forall n: nat :: n / 1 == n;
    } else {
      QuotientOf(1, every, 0, 1);
      assert 1 - 1 / every == 1;
    }
  }
}
