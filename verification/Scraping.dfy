/** One scrape of the REST exporter: parallel fetches behind a semaphore, ordered dispatch. */
module Scraping {
  import opened Options
  import opened Values
  import opened DeviceUpdates

  const REST_CONCURRENCY: nat := 4

  datatype DeviceInfo = DeviceInfo(sn: string, online: int)

  datatype Update = Update(device: Device, params: Params)

  /** The device list, and what the API answers for each device, `None` for an error. */
  datatype Job = Job(names: map<string, string>, devices: seq<DeviceInfo>, replies: seq<Option<Params>>) {
    predicate Valid() { |devices| == |replies| }
  }

  /** A device that is online but cannot be read gives no update; an offline one always gives one. */
  function FetchDevice(names: map<string, string>, dev: DeviceInfo, reply: Option<Params>): Option<Update> {
    var device := Device(dev.sn, if dev.sn in names then names[dev.sn] else dev.sn, dev.online);
    match reply
    case Some(params) => Some(Update(device, params))
    case None => if dev.online != 0 then None else Some(Update(device, map[]))
  }

  function Fetched(job: Job, i: nat): Option<Update>
    requires job.Valid() && i < |job.devices|
  {
    FetchDevice(job.names, job.devices[i], job.replies[i])
  }

  /** The updates of the first n devices when they are fetched one by one. */
  function Sequential(job: Job, n: nat): seq<Update>
    requires job.Valid() && n <= |job.devices|
  {
    if n == 0 then []
    else Sequential(job, n - 1) + match Fetched(job, n - 1) case Some(u) => [u] case None => []
  }

  /** The update that reports device i with these parameters. */
  predicate Reports(job: Job, i: int, u: Update)
    requires job.Valid()
  {
    && 0 <= i < |job.devices|
    && (job.devices[i].online == 0 || job.replies[i].Some?)
    && u.device.sn == job.devices[i].sn && u.device.online == job.devices[i].online
    && u.device.name == (if u.device.sn in job.names then job.names[u.device.sn] else u.device.sn)
    && u.params == (if job.replies[i].Some? then job.replies[i].value else map[])
  }

  /** An update stands for each device whose parameters could be read and for each offline one, which
      is reported with its status only if they could not; for nothing else. */
  lemma {:induction false} SequentialReports(job: Job, n: nat, u: Update)
    requires job.Valid() && n <= |job.devices|
    ensures u in Sequential(job, n) <==> exists i :: 0 <= i < n && Reports(job, i, u)
  {
    if n > 0 {
      SequentialReports(job, n - 1, u);
      assert Fetched(job, n - 1) == Some(u) <==> Reports(job, n - 1, u);
    }
  }

  /** The devices before the n-th that are reported. */
  function Reported(job: Job, n: nat): set<nat>
    requires job.Valid() && n <= |job.devices|
  {
    set i: nat | i < n && (job.devices[i].online == 0 || job.replies[i].Some?)
  }

  /** Each of them once, in the order of the device list. */
  lemma {:induction false} SequentialInOrder(job: Job, n: nat)
    requires job.Valid() && n <= |job.devices|
    ensures |Sequential(job, n)| == |Reported(job, n)|
    ensures forall i | i in Reported(job, n) ::
              && |Reported(job, i)| < |Sequential(job, n)|
              && Reports(job, i, Sequential(job, n)[|Reported(job, i)|])
  {
    if n > 0 {
      SequentialInOrder(job, n - 1);
      var before := Reported(job, n - 1);
      var u := Fetched(job, n - 1);
      assert n - 1 !in before && Reported(job, n) == before + if u.Some? then {n - 1} else {};
      assert u.Some? ==> Reports(job, n - 1, u.value);
    }
  }

  // ---------------------------------------------------------------------------
  // The protocol
  // ---------------------------------------------------------------------------

  /** A worker holds a token while it is fetching and until it has released it after storing. */
  datatype Worker = Waiting | Fetching | Stored | Finished | GaveUp

  predicate Holds(w: Worker) { w.Fetching? || w.Stored? }

  predicate Ended(w: Worker) { w.Finished? || w.GaveUp? }

  datatype State = State(
    workers: seq<Worker>,
    tokens: nat,
    updates: seq<Option<Update>>,
    cancelled: bool,
    next: nat,                // position of the dispatch loop
    dispatched: seq<Update>)

  /** `Store` carries what the request returned. */
  datatype Event =
    | Acquire(i: nat)
    | GiveUp(i: nat)
    | Store(i: nat, reply: Option<Params>)
    | Release(i: nat)
    | Cancel
    | Dispatch

  predicate AllEnded(workers: seq<Worker>) { forall w | w in workers :: Ended(w) }

  predicate Enabled(job: Job, s: State, e: Event)
    requires job.Valid() && |s.workers| == |job.devices|
  {
    match e
    case Acquire(i) => i < |s.workers| && s.workers[i].Waiting? && s.tokens < REST_CONCURRENCY
    case GiveUp(i) => i < |s.workers| && s.workers[i].Waiting? && s.cancelled
    case Store(i, reply) =>
      i < |s.workers| && s.workers[i].Fetching? && (reply == job.replies[i] || (s.cancelled && reply.None?))
    case Release(i) => i < |s.workers| && s.workers[i].Stored? && s.tokens > 0
    case Cancel => !s.cancelled
    case Dispatch => AllEnded(s.workers) && s.next < |s.updates|
  }

  function Next(job: Job, s: State, e: Event): State
    requires job.Valid() && |s.workers| == |s.updates| == |job.devices|
    requires Enabled(job, s, e)
  {
    match e
    case Acquire(i) => s.(workers := s.workers[i := Fetching], tokens := s.tokens + 1)
    case GiveUp(i) => s.(workers := s.workers[i := GaveUp])
    case Store(i, reply) =>
      s.(workers := s.workers[i := Stored], updates := s.updates[i := FetchDevice(job.names, job.devices[i], reply)])
    case Release(i) => s.(workers := s.workers[i := Finished], tokens := s.tokens - 1)
    case Cancel => s.(cancelled := true)
    case Dispatch =>
      s.(next := s.next + 1,
      dispatched :=
        if s.updates[s.next].Some? && !s.cancelled then s.dispatched + [s.updates[s.next].value] else s.dispatched)
  }

  function Start(job: Job): State {
    var n := |job.devices|;
    State(seq(n, _ => Waiting), 0, seq(n, _ => None), false, 0, [])
  }

  type Run = seq<Event>

  predicate Legal(job: Job, r: Run)
    requires job.Valid()
    decreases |r|, 0
  {
    r == [] || (Legal(job, r[..|r| - 1]) && Enabled(job, After(job, r[..|r| - 1]), r[|r| - 1]))
  }

  function After(job: Job, r: Run): (s: State)
    requires job.Valid() && Legal(job, r)
    ensures |s.workers| == |s.updates| == |job.devices|
    decreases |r|, 1
  {
    if r == [] then Start(job) else Next(job, After(job, r[..|r| - 1]), r[|r| - 1])
  }

  // ---------------------------------------------------------------------------
  // The invariant
  // ---------------------------------------------------------------------------

  function Holding(workers: seq<Worker>): nat {
    if workers == [] then 0
    else Holding(workers[..|workers| - 1]) + if Holds(workers[|workers| - 1]) then 1 else 0
  }

  predicate SlotsOk(job: Job, s: State)
    requires job.Valid() && |s.workers| == |s.updates| == |job.devices|
  {
    forall i | 0 <= i < |s.workers| ::
      && (s.workers[i].Waiting? || s.workers[i].Fetching? || s.workers[i].GaveUp? ==> s.updates[i].None?)
      && (!s.cancelled ==> !s.workers[i].GaveUp?)
      && (!s.cancelled && (s.workers[i].Stored? || s.workers[i].Finished?) ==> s.updates[i] == Fetched(job, i))
  }

  predicate Invariant(job: Job, s: State)
    requires job.Valid()
  {
    && |s.workers| == |s.updates| == |job.devices|
    && s.tokens == Holding(s.workers) <= REST_CONCURRENCY
    && SlotsOk(job, s)
    && s.next <= |s.updates|
    && (s.next > 0 ==> AllEnded(s.workers))
    && s.dispatched <= Sequential(job, s.next)
    && (!s.cancelled ==> s.dispatched == Sequential(job, s.next))
  }

  lemma {:induction false} HoldingUpdate(workers: seq<Worker>, i: nat, w: Worker)
    requires i < |workers|
    ensures Holding(workers[i := w]) ==
            Holding(workers) - (if Holds(workers[i]) then 1 else 0) + (if Holds(w) then 1 else 0)
    decreases |workers|
  {
    var n := |workers| - 1;
    if i < n {
      HoldingUpdate(workers[..n], i, w);
      assert workers[i := w][..n] == workers[..n][i := w];
    } else {
      assert workers[i := w][..n] == workers[..n];
    }
  }

  lemma {:induction false} HoldingNone(workers: seq<Worker>)
    ensures Holding(workers) == 0 <==> forall i | 0 <= i < |workers| :: !Holds(workers[i])
  {
    if workers != [] { HoldingNone(workers[..|workers| - 1]); }
  }

  lemma WorkerStepKeeps(job: Job, s: State, e: Event)
    requires job.Valid() && Invariant(job, s) && Enabled(job, s, e) && !e.Cancel? && !e.Dispatch?
    ensures Invariant(job, Next(job, s, e))
  {
    var t := Next(job, s, e);
    HoldingUpdate(s.workers, e.i, t.workers[e.i]);
    assert t.workers == s.workers[e.i := t.workers[e.i]];
    assert s.workers[e.i] in s.workers && !Ended(s.workers[e.i]);
  }

  lemma DispatchKeeps(job: Job, s: State)
    requires job.Valid() && Invariant(job, s) && Enabled(job, s, Dispatch)
    ensures Invariant(job, Next(job, s, Dispatch))
  {
    assert s.workers[s.next] in s.workers && Ended(s.workers[s.next]);
    var before, after := Sequential(job, s.next), Sequential(job, s.next + 1);
    var t := Next(job, s, Dispatch);
    assert before <= after;
    assert t.workers == s.workers && t.updates == s.updates && t.tokens == s.tokens && SlotsOk(job, t);
    if !s.cancelled {
      assert s.updates[s.next] == Fetched(job, s.next);
      assert t.dispatched == after;
    } else {
      assert t.dispatched == s.dispatched <= before;
    }
  }

  lemma StepKeeps(job: Job, s: State, e: Event)
    requires job.Valid() && Invariant(job, s) && Enabled(job, s, e)
    ensures Invariant(job, Next(job, s, e))
  {
    if e.Dispatch? {
      DispatchKeeps(job, s);
    } else if !e.Cancel? {
      WorkerStepKeeps(job, s, e);
    }
  }

  /** In every interleaving the tokens are those of the workers that fetch or have not released yet,
      and there are never more than four. */
  lemma {:induction false} Reachable(job: Job, r: Run)
    requires job.Valid() && Legal(job, r)
    ensures Invariant(job, After(job, r))
  {
    if r == [] {
      var s := Start(job);
      HoldingNone(s.workers);
    } else {
      var h := r[..|r| - 1];
      Reachable(job, h);
      StepKeeps(job, After(job, h), r[|r| - 1]);
    }
  }

  /** The fetches under way. */
  function Running(workers: seq<Worker>): set<nat> { set i | 0 <= i < |workers| && workers[i].Fetching? }

  lemma {:induction false} RunningHoldTokens(workers: seq<Worker>)
    ensures |Running(workers)| <= Holding(workers)
  {
    if workers != [] {
      var n := |workers| - 1;
      RunningHoldTokens(workers[..n]);
      assert Running(workers) == Running(workers[..n]) + if workers[n].Fetching? then {n} else {};
    }
  }

  lemma AtMostFourFetches(job: Job, r: Run)
    requires job.Valid() && Legal(job, r)
    ensures var s := After(job, r);
      |Running(s.workers)| <= s.tokens == Holding(s.workers) <= 4
  {
    Reachable(job, r);
    RunningHoldTokens(After(job, r).workers);
  }

  // ---------------------------------------------------------------------------
  // Result slots
  // ---------------------------------------------------------------------------

  function StoresOf(r: Run, i: nat): nat {
    if r == [] then 0
    else StoresOf(r[..|r| - 1], i) + if r[|r| - 1].Store? && r[|r| - 1].i == i then 1 else 0
  }

  /** A result slot is written at most once, and not before its own worker has stored. */
  lemma {:induction false} WrittenOnce(job: Job, r: Run, i: nat)
    requires job.Valid() && Legal(job, r) && i < |job.devices|
    ensures var w := After(job, r).workers[i];
      StoresOf(r, i) == if w.Stored? || w.Finished? then 1 else 0
    ensures StoresOf(r, i) == 0 ==> After(job, r).updates[i].None?
  {
    if r != [] {
      var h, e := r[..|r| - 1], r[|r| - 1];
      WrittenOnce(job, h, i);
      var s, t := After(job, h), After(job, r);
      assert t == Next(job, s, e);
      assert e.Store? && e.i == i ==> s.workers[i].Fetching? && t.workers[i].Stored?;
    }
  }

  /** What a result slot holds is what its own worker stored, from what its own request returned. */
  lemma {:induction false} SlotHoldsOwnStore(job: Job, r: Run, i: nat)
    requires job.Valid() && Legal(job, r) && i < |job.devices|
    ensures forall m, reply | 0 <= m < |r| && r[m] == Store(i, reply) ::
              After(job, r).updates[i] == FetchDevice(job.names, job.devices[i], reply)
    ensures After(job, r).updates[i].Some? ==> exists m, reply :: 0 <= m < |r| && r[m] == Store(i, reply)
  {
    if r != [] {
      var h, n := r[..|r| - 1], |r| - 1;
      SlotHoldsOwnStore(job, h, i);
      WrittenOnce(job, h, i);
      StoresCounted(h, i);
      if After(job, h).updates[i].Some? {
        var m, reply :| 0 <= m < |h| && h[m] == Store(i, reply);
        assert r[m] == Store(i, reply);
      } else if r[n].Store? && r[n].i == i {
        assert r[n] == Store(i, r[n].reply);
      }
    }
  }

  lemma {:induction false} StoresCounted(r: Run, i: nat)
    ensures StoresOf(r, i) == 0 <==> forall m, reply | 0 <= m < |r| :: r[m] != Store(i, reply)
  {
    if r != [] {
      var n := |r| - 1;
      StoresCounted(r[..n], i);
      if r[n].Store? && r[n].i == i { assert r[n] == Store(i, r[n].reply); }
    }
  }

  // ---------------------------------------------------------------------------
  // Progress
  // ---------------------------------------------------------------------------

  predicate Done(s: State) { AllEnded(s.workers) && s.next == |s.updates| }

  /** No reachable state is stuck: until everything is dispatched there is a step other than waiting
      for a cancellation. */
  lemma NeverStuck(job: Job, r: Run) returns (e: Event)
    requires job.Valid() && Legal(job, r) && !Done(After(job, r))
    ensures Enabled(job, After(job, r), e) && !e.Cancel?
  {
    Reachable(job, r);
    var s := After(job, r);
    if AllEnded(s.workers) { return Dispatch; }
    var w :| w in s.workers && !Ended(w);
    var i: nat :| i < |s.workers| && s.workers[i] == w;
    HoldingNone(s.workers);
    if s.tokens == REST_CONCURRENCY && w.Waiting? {
      i :| 0 <= i < |s.workers| && Holds(s.workers[i]);
    }
    match s.workers[i] {
      case Waiting => e := Acquire(i);
      case Fetching => e := Store(i, job.replies[i]);
      case Stored => e := Release(i);
    }
  }

  function Remaining(w: Worker): nat {
    match w case Waiting => 3 case Fetching => 2 case Stored => 1 case _ => 0
  }

  function RemainingAll(workers: seq<Worker>): nat {
    if workers == [] then 0 else RemainingAll(workers[..|workers| - 1]) + Remaining(workers[|workers| - 1])
  }

  function Measure(s: State): int {
    RemainingAll(s.workers) + |s.updates| - s.next + if s.cancelled then 0 else 1
  }

  lemma {:induction false} RemainingUpdate(workers: seq<Worker>, i: nat, w: Worker)
    requires i < |workers|
    ensures RemainingAll(workers[i := w]) == RemainingAll(workers) - Remaining(workers[i]) + Remaining(w)
    decreases |workers|
  {
    var n := |workers| - 1;
    if i < n {
      RemainingUpdate(workers[..n], i, w);
      assert workers[i := w][..n] == workers[..n][i := w];
    } else {
      assert workers[i := w][..n] == workers[..n];
    }
  }

  lemma {:induction false} AllWaiting(workers: seq<Worker>)
    requires forall i | 0 <= i < |workers| :: workers[i].Waiting?
    ensures RemainingAll(workers) == 3 * |workers|
  {
    if workers != [] { AllWaiting(workers[..|workers| - 1]); }
  }

  /** Every step uses something up, so no run is longer than four steps a device and a cancellation:
      with NeverStuck, all workers finish. */
  lemma {:induction false} RunsEnd(job: Job, r: Run)
    requires job.Valid() && Legal(job, r)
    ensures |r| + Measure(After(job, r)) <= 4 * |job.devices| + 1
    ensures Measure(After(job, r)) >= 0
  {
    Reachable(job, r);
    if r == [] {
      AllWaiting(Start(job).workers);
    } else {
      var h, e := r[..|r| - 1], r[|r| - 1];
      RunsEnd(job, h);
      var s, t := After(job, h), After(job, r);
      if !e.Cancel? && !e.Dispatch? {
        RemainingUpdate(s.workers, e.i, t.workers[e.i]);
        assert t.workers == s.workers[e.i := t.workers[e.i]];
      }
    }
  }

  // ---------------------------------------------------------------------------
  // The outcome
  // ---------------------------------------------------------------------------

  lemma {:induction false} SequentialPrefix(job: Job, m: nat, n: nat)
    requires job.Valid() && m <= n <= |job.devices|
    ensures Sequential(job, m) <= Sequential(job, n)
  {
    if m < n { SequentialPrefix(job, m, n - 1); }
  }

  /** What has been dispatched is in every state a prefix of what fetching the devices one by one gives,
      and all of it once a run that was not cancelled is done. */
  lemma DispatchIsSequential(job: Job, r: Run)
    requires job.Valid() && Legal(job, r)
    ensures After(job, r).dispatched <= Sequential(job, |job.devices|)
    ensures Done(After(job, r)) && !After(job, r).cancelled ==>
              After(job, r).dispatched == Sequential(job, |job.devices|)
  {
    Reachable(job, r);
    SequentialPrefix(job, After(job, r).next, |job.devices|);
  }

  /** Nothing is dispatched any more once the scrape is cancelled, and nothing at all when that happens
      while a fetch is under way. */
  lemma {:induction false} CancelledStaysSilent(job: Job, r: Run, m: nat)
    requires job.Valid() && Legal(job, r) && m <= |r|
    ensures Legal(job, r[..m])
    ensures After(job, r[..m]).cancelled ==>
              After(job, r).cancelled && After(job, r).dispatched == After(job, r[..m]).dispatched
    ensures After(job, r[..m]).cancelled && !AllEnded(After(job, r[..m]).workers) ==> After(job, r).dispatched == []
  {
    if m == |r| {
      assert r[..m] == r;
      Reachable(job, r);
    } else {
      CancelledStaysSilent(job, r[..|r| - 1], m);
      assert r[..|r| - 1][..m] == r[..m];
    }
  }

  // ---------------------------------------------------------------------------
  // The scrape itself
  // ---------------------------------------------------------------------------

  /** A whole scrape under any schedule of its goroutines, with the result slots, the number of tokens in
      the semaphore channel and the state of the context. Without a cancellation the handlers get what
      a sequential scrape would give them, in the order of the device list. */
  method Scrape(job: Job, schedule: Run) returns (handed: seq<Update>)
    requires job.Valid() && Legal(job, schedule) && Done(After(job, schedule))
    ensures handed == After(job, schedule).dispatched
    ensures handed <= Sequential(job, |job.devices|)
    ensures Cancel !in schedule ==> handed == Sequential(job, |job.devices|)
  {
    var updates := new Option<Update>[|job.devices|](_ => None);
    var tokens, cancelled, next := 0, false, 0;
    handed := [];
    var k := 0;
    while k < |schedule|
      invariant 0 <= k <= |schedule| && Legal(job, schedule[..k])
      invariant var s := After(job, schedule[..k]);
        && updates[..] == s.updates && tokens == s.tokens && cancelled == s.cancelled
        && next == s.next && handed == s.dispatched
    {
      LegalPrefix(job, schedule, k);
      ghost var s := After(job, schedule[..k]);
      assert After(job, schedule[..k + 1]) == Next(job, s, schedule[k]);
      match schedule[k] {
        case Acquire(_) => tokens := tokens + 1;
        case GiveUp(_) =>
        case Store(i, reply) => updates[i] := FetchDevice(job.names, job.devices[i], reply);
        case Release(_) => tokens := tokens - 1;
        case Cancel => cancelled := true;
        case Dispatch =>
          var u := updates[next];
          if u.Some? && !cancelled { handed := handed + [u.value]; }
          next := next + 1;
      }
      k := k + 1;
    }
    assert schedule[..k] == schedule;
    DispatchIsSequential(job, schedule);
    CancelledOnlyByCancel(job, schedule);
  }

  lemma {:induction false} LegalPrefix(job: Job, r: Run, k: nat)
    requires job.Valid() && Legal(job, r) && k < |r|
    ensures Legal(job, r[..k]) && Legal(job, r[..k + 1]) && Enabled(job, After(job, r[..k]), r[k])
    ensures After(job, r[..k + 1]) == Next(job, After(job, r[..k]), r[k])
  {
    var h := r[..|r| - 1];
    if k < |h| {
      LegalPrefix(job, h, k);
      assert h[..k] == r[..k] && h[..k + 1] == r[..k + 1];
    } else {
      assert r[..k] == h && r[..k + 1] == r;
    }
  }

  lemma {:induction false} CancelledOnlyByCancel(job: Job, r: Run)
    requires job.Valid() && Legal(job, r)
    ensures After(job, r).cancelled <==> Cancel in r
  {
    if r != [] {
      CancelledOnlyByCancel(job, r[..|r| - 1]);
      assert r == r[..|r| - 1] + [r[|r| - 1]];
    }
  }
}
