/** The MQTT exporter as a whole: the supervisor, the cache and the index under one step relation.

    The message callback notes a sign of life, merges and updates the index; the monitor records which
    devices are offline and then passes their offline updates on, one by one, before its tick goes on.
    Both proceed independently, so the index need not show what the supervisor has recorded. */
module Exporter {
  import opened Options
  import opened Sequences
  import Supervision
  import Outages
  import SeriesKeys
  import MetricStore
  import Pipeline
  import opened Values
  import opened DeviceUpdates

  datatype Config = Config(devices: map<string, string>, prefix: string, offlineThreshold: int) {
    function Watched(): Supervision.Config { Supervision.Config(devices.Keys, offlineThreshold) }

    function Exported(): Pipeline.Config { Pipeline.Config(devices, prefix) }
  }

  datatype World = World(
    supervisor: Supervision.World,
    pipeline: Pipeline.World,
    decoding: Option<string>,   // the callback has noted a sign of life of this device
    undispatched: set<string>)  // recorded as offline, the updates not yet passed on

  datatype Event =
    | Supervise(entry: Supervision.Entry)
    | Handle(event: Pipeline.Event)
    | Discard(sn: string)  // the message is empty or cannot be decoded

  type Run = seq<Event>

  /** The callback is at work on a message of the device. */
  predicate Busy(w: World, sn: string) {
    w.decoding == Some(sn) || (w.pipeline.pending.Snapshot? && w.pipeline.pending.sn == sn)
  }

  predicate OfMonitor(e: Supervision.Event) { !e.Message? && !e.Connected? && !e.TakeRelogin? }

  predicate Enabled(c: Config, w: World, e: Event) {
    match e
    case Supervise(entry) =>
      && Supervision.Enabled(c.Watched(), w.supervisor, entry)
      && (entry.event.Message? ==> w.decoding.None? && w.pipeline.pending.Nothing?)
      && (OfMonitor(entry.event) ==> w.undispatched == {})
    case Handle(event) =>
      && Pipeline.Enabled(c.Exported(), w.pipeline, event)
      && (event.Merge? ==> w.decoding == Some(event.sn))
      && (event.Offline? ==> event.sn in w.undispatched)
    case Discard(sn) => w.decoding == Some(sn)
  }

  function Next(c: Config, w: World, e: Event): World
    requires Enabled(c, w, e)
  {
    match e
    case Supervise(entry) =>
      var v := w.(supervisor := Supervision.Next(c.Watched(), w.supervisor, entry));
      (match entry.event
       case Message(sn, _) => if c.Watched().Accepts(sn) then v.(decoding := Some(sn)) else v
       case Record(due) => v.(undispatched := due)
       case _ => v)
    case Handle(event) =>
      var v := w.(pipeline := Pipeline.Next(c.Exported(), w.pipeline, event));
      (match event
       case Merge(_, _) => v.(decoding := None)
       case Offline(sn) => v.(undispatched := w.undispatched - {sn})
       case _ => v)
    case Discard(_) => w.(decoding := None)
  }

  function Start(): World { World(Supervision.Start(), Pipeline.After(Pipeline.Config(map[], ""), []), None, {}) }

  predicate Legal(c: Config, r: Run)
    decreases |r|, 0
  {
    r == [] || (Legal(c, Init(r)) && Enabled(c, After(c, Init(r)), Last(r)))
  }

  function After(c: Config, r: Run): World
    requires Legal(c, r)
    decreases |r|, 1
  {
    if r == [] then Start() else Next(c, After(c, Init(r)), Last(r))
  }

  // ---------------------------------------------------------------------------
  // The two runs within a run
  // ---------------------------------------------------------------------------

  function Supervised(r: Run): Supervision.Run {
    if r == [] then []
    else if Last(r).Supervise? then Supervised(Init(r)) + [Last(r).entry] else Supervised(Init(r))
  }

  function Handled(r: Run): Pipeline.Run {
    if r == [] then []
    else if Last(r).Handle? then Handled(Init(r)) + [Last(r).event] else Handled(Init(r))
  }

  /** What is proved of the supervisor and of the pipeline holds of their parts in every run. */
  lemma PartsAreRuns(c: Config, r: Run)
    requires Legal(c, r)
    ensures Supervision.Legal(c.Watched(), Supervised(r)) && Pipeline.Legal(c.Exported(), Handled(r))
    ensures After(c, r).supervisor == Supervision.After(c.Watched(), Supervised(r))
    ensures After(c, r).pipeline == Pipeline.After(c.Exported(), Handled(r))
  {
    SupervisedIsRun(c, r);
    HandledIsRun(c, r);
  }

  lemma {:induction false} SupervisedIsRun(c: Config, r: Run)
    requires Legal(c, r)
    ensures Supervision.Legal(c.Watched(), Supervised(r))
    ensures After(c, r).supervisor == Supervision.After(c.Watched(), Supervised(r))
  {
    if r != [] {
      SupervisedIsRun(c, Init(r));
      if Last(r).Supervise? { Outages.Extend(c.Watched(), Supervised(Init(r)), Last(r).entry); }
    }
  }

  lemma {:induction false} HandledIsRun(c: Config, r: Run)
    requires Legal(c, r)
    ensures Pipeline.Legal(c.Exported(), Handled(r))
    ensures After(c, r).pipeline == Pipeline.After(c.Exported(), Handled(r))
  {
    if r != [] {
      var h, e := Init(r), Last(r);
      HandledIsRun(c, h);
      if e.Handle? {
        Pipeline.Extend(c.Exported(), Handled(h), e.event);
        assert After(c, r).pipeline == Pipeline.Next(c.Exported(), After(c, h).pipeline, e.event);
      } else {
        assert After(c, r).pipeline == After(c, h).pipeline;
      }
    }
  }

  // ---------------------------------------------------------------------------
  // What happened last to a device
  // ---------------------------------------------------------------------------

  datatype Kind = Heard | Recorded | Updated | Discarded | Dropped

  predicate Is(c: Config, e: Event, kind: Kind, sn: string) {
    match kind
    case Heard => e.Supervise? && Outages.Sends(c.Watched(), e.entry.event, sn)
    case Recorded => e.Supervise? && Outages.Reports(e.entry.event, sn)
    case Updated => e.Handle? && e.event.Online? && e.event.sn == sn
    case Discarded => e == Discard(sn)
    case Dropped => e == Handle(Pipeline.Offline(sn))
  }

  /** The position of the last event of a kind, -1 if there is none. */
  function Latest(c: Config, r: Run, kind: Kind, sn: string): int {
    if r == [] then -1 else if Is(c, Last(r), kind, sn) then |r| - 1 else Latest(c, Init(r), kind, sn)
  }

  /** When the device was last heard of, recorded as offline, updated and dropped, and when a message
      of it was last discarded. */
  datatype Times = Times(heard: int, recorded: int, updated: int, discarded: int, dropped: int)

  function TimesOf(c: Config, r: Run, sn: string): Times {
    Times(Latest(c, r, Heard, sn), Latest(c, r, Recorded, sn), Latest(c, r, Updated, sn),
          Latest(c, r, Discarded, sn), Latest(c, r, Dropped, sn))
  }

  lemma {:induction false} LatestBefore(c: Config, r: Run, kind: Kind, sn: string)
    ensures -1 <= Latest(c, r, kind, sn) < |r|
  {
    if r != [] { LatestBefore(c, Init(r), kind, sn); }
  }

  lemma TimesBefore(c: Config, r: Run, sn: string)
    ensures var t := TimesOf(c, r, sn);
      && -1 <= t.heard < |r| && -1 <= t.recorded < |r| && -1 <= t.updated < |r|
      && -1 <= t.discarded < |r| && -1 <= t.dropped < |r|
  {
    LatestBefore(c, r, Heard, sn);
    LatestBefore(c, r, Recorded, sn);
    LatestBefore(c, r, Updated, sn);
    LatestBefore(c, r, Discarded, sn);
    LatestBefore(c, r, Dropped, sn);
  }

  /** Every report is passed on before the next one. */
  lemma {:induction false} ReportsArePassedOn(c: Config, r: Run, sn: string)
    requires Legal(c, r)
    ensures var t := TimesOf(c, r, sn);
      && (if sn in After(c, r).undispatched then t.recorded > t.dropped
          else 0 <= t.recorded < t.dropped || t.recorded == t.dropped == -1)
      && (t.dropped >= 0 ==> t.recorded >= 0)
  {
    if r != [] {
      ReportsArePassedOn(c, Init(r), sn);
      TimesBefore(c, Init(r), sn);
    }
  }

  lemma {:induction false} OneMessageAtATime(c: Config, r: Run)
    requires Legal(c, r)
    ensures After(c, r).decoding.None? || After(c, r).pipeline.pending.Nothing?
  {
    if r != [] { OneMessageAtATime(c, Init(r)); }
  }

  /** An update needs a message before it, and every message ends in an update or is discarded. */
  lemma {:induction false} MessagesComeFirst(c: Config, r: Run, sn: string)
    requires Legal(c, r)
    ensures var w, t := After(c, r), TimesOf(c, r, sn);
      && (if Busy(w, sn) then t.heard > t.updated && t.heard > t.discarded
          else t.heard == -1 || t.heard < t.updated || t.heard < t.discarded)
      && (t.updated >= 0 ==> t.heard >= 0)
  {
    if r != [] {
      OneMessageAtATime(c, Init(r));
      MessagesComeFirst(c, Init(r), sn);
      TimesBefore(c, Init(r), sn);
    }
  }

  lemma {:induction false} RecordIsLatest(c: Config, r: Run, sn: string)
    requires Legal(c, r)
    ensures var t := TimesOf(c, r, sn);
      Outages.ReportedOffline(c.Watched(), Supervised(r), sn).Some? <==> t.recorded > t.heard
  {
    if r != [] {
      RecordIsLatest(c, Init(r), sn);
      TimesBefore(c, Init(r), sn);
      if Last(r).Supervise? {
        var s, entry := Supervised(Init(r)), Last(r).entry;
        assert Init(s + [entry]) == s && Last(s + [entry]) == entry;
      }
    }
  }

  lemma {:induction false} StatusIsLatest(c: Config, r: Run, sn: string)
    requires Legal(c, r)
    ensures var t := TimesOf(c, r, sn);
      Pipeline.Exposed(c.Exported(), Handled(r), sn, MetricStore.OnlineName(c.prefix)) ==
      if t.updated > t.dropped then Some(1.0) else if t.dropped >= 0 then Some(0.0) else None
  {
    if r != [] {
      StatusIsLatest(c, Init(r), sn);
      TimesBefore(c, Init(r), sn);
      if Last(r).Handle? {
        var s, event := Handled(Init(r)), Last(r).event;
        assert Init(s + [event]) == s && Last(s + [event]) == event;
      }
    }
  }

  ghost function OnlineSeries(c: Config, r: Run, sn: string): Option<real>
    requires Legal(c, r)
  {
    MetricStore.Series(After(c, r).pipeline.index, sn, MetricStore.OnlineName(c.prefix))
  }

  predicate RecordedOffline(c: Config, r: Run, sn: string)
    requires Legal(c, r)
  {
    sn in After(c, r).supervisor.status.offlineSent
  }

  /** What the online series and the record say, by the times. */
  lemma ShownAndRecorded(c: Config, r: Run, sn: string)
    requires Legal(c, r) && SeriesKeys.Unshadowed(c.devices.Keys, c.prefix, sn)
    ensures var t := TimesOf(c, r, sn);
      && (RecordedOffline(c, r, sn) <==> t.recorded > t.heard)
      && OnlineSeries(c, r, sn) ==
         if t.updated > t.dropped then Some(1.0) else if t.dropped >= 0 then Some(0.0) else None
  {
    PartsAreRuns(c, r);
    RecordIsLatest(c, r, sn);
    Outages.OfflineSentState(c.Watched(), Supervised(r));
    StatusIsLatest(c, r, sn);
    Pipeline.OnlineIsExposed(c.Exported(), Handled(r), sn);
  }

  // ---------------------------------------------------------------------------
  // Whether the index shows what was recorded
  // ---------------------------------------------------------------------------

  /** The last message came before the record, but its update after the dispatch. */
  predicate LateUpdate(t: Times) { t.heard < t.recorded < t.dropped < t.updated }

  /** The last message came after the record; its update, if any, is wiped out by the dispatch. */
  predicate LateDispatch(t: Times) { t.recorded < t.heard < t.dropped && t.updated < t.dropped }

  /** The last message came after the dispatch and was discarded. */
  predicate Fruitless(t: Times) { t.updated < t.dropped < t.heard < t.discarded }

  /** A message came after the dispatch and is still being handled. */
  predicate Unfinished(w: World, sn: string, t: Times) {
    Busy(w, sn) && 0 <= t.dropped < t.heard && t.updated < t.dropped
  }

  /** Once a device's offline updates have been passed on, its online series is 0 exactly when it is
      recorded as offline, except in four cases, which are all there are. */
  lemma OfflineIsShownExactly(c: Config, r: Run, sn: string)
    requires Legal(c, r) && SeriesKeys.Unshadowed(c.devices.Keys, c.prefix, sn)
    requires sn !in After(c, r).undispatched
    ensures var w, t := After(c, r), TimesOf(c, r, sn);
      (OnlineSeries(c, r, sn) == Some(0.0) <==> RecordedOffline(c, r, sn)) <==>
      !LateUpdate(t) && !LateDispatch(t) && !Fruitless(t) && !Unfinished(w, sn, t)
  {
    ShownAndRecorded(c, r, sn);
    ReportsArePassedOn(c, r, sn);
    MessagesComeFirst(c, r, sn);
    TimesBefore(c, r, sn);
    LatestDiffer(c, r, Heard, Recorded, sn);
    LatestDiffer(c, r, Heard, Dropped, sn);
    LatestDiffer(c, r, Updated, Dropped, sn);
  }

  /** While a device's last dispatch came after its last update, it has no series but online. */
  lemma DroppedSeriesStayAway(c: Config, r: Run, sn: string, name: string)
    requires Legal(c, r) && TimesOf(c, r, sn).dropped > TimesOf(c, r, sn).updated
    requires name != MetricStore.OnlineName(c.prefix)
    ensures MetricStore.Series(After(c, r).pipeline.index, sn, name).None?
  {
    PartsAreRuns(c, r);
    StatusIsLatest(c, r, sn);
    TimesBefore(c, r, sn);
    Pipeline.OnlyStatusLabels(c.Exported(), Handled(r), sn);
  }

  lemma {:induction false} LatestDiffer(c: Config, r: Run, k: Kind, l: Kind, sn: string)
    requires k != l
    ensures Latest(c, r, k, sn) >= 0 ==> Latest(c, r, k, sn) != Latest(c, r, l, sn)
  {
    if r != [] {
      LatestDiffer(c, Init(r), k, l, sn);
      LatestBefore(c, Init(r), k, sn);
      LatestBefore(c, Init(r), l, sn);
    }
  }

  /** No message arrives while the offline update of its device is on its way, no device is recorded
      while its message is handled, and every message brings parameters. */
  predicate Separate(c: Config, r: Run, sn: string)
    requires Legal(c, r)
    decreases |r|
  {
    r == [] ||
    (var w, e := After(c, Init(r)), Last(r);
     && Separate(c, Init(r), sn)
     && (Is(c, e, Heard, sn) ==> sn !in w.undispatched)
     && (Is(c, e, Recorded, sn) ==> !Busy(w, sn))
     && e != Discard(sn))
  }

  lemma {:induction false} SeparateTimes(c: Config, r: Run, sn: string)
    requires Legal(c, r) && Separate(c, r, sn)
    ensures var w, t := After(c, r), TimesOf(c, r, sn);
      && (if Busy(w, sn) then t.heard > t.recorded else t.updated > t.heard || t.updated == t.heard == -1)
      && (sn in w.undispatched ==> t.recorded > t.heard)
      && (t.recorded > t.heard ==> t.recorded > t.updated)
      && (t.heard > t.recorded ==> t.heard > t.dropped)
  {
    if r != [] {
      SeparateTimes(c, Init(r), sn);
      OneMessageAtATime(c, Init(r));
      ReportsArePassedOn(c, Init(r), sn);
      MessagesComeFirst(c, Init(r), sn);
      TimesBefore(c, Init(r), sn);
    }
  }

  lemma SeparateAtRest(c: Config, r: Run, sn: string)
    requires Legal(c, r) && Separate(c, r, sn) && sn !in After(c, r).undispatched && !Busy(After(c, r), sn)
    ensures var t := TimesOf(c, r, sn);
      if t.recorded > t.heard then 0 <= t.dropped && t.updated < t.dropped
      else if t.heard >= 0 then t.updated > t.dropped
      else t.updated == t.dropped == -1
  {
    SeparateTimes(c, r, sn);
    ReportsArePassedOn(c, r, sn);
    MessagesComeFirst(c, r, sn);
    TimesBefore(c, r, sn);
    LatestDiffer(c, r, Heard, Recorded, sn);
  }

  /** Then the index shows exactly what is recorded whenever neither is under way: 0 for a device
      recorded as offline, 1 for one that was heard of since, nothing before either. */
  lemma SeparateRunsShowRecords(c: Config, r: Run, sn: string)
    requires Legal(c, r) && SeriesKeys.Unshadowed(c.devices.Keys, c.prefix, sn)
    requires Separate(c, r, sn) && sn !in After(c, r).undispatched && !Busy(After(c, r), sn)
    ensures OnlineSeries(c, r, sn) ==
            if RecordedOffline(c, r, sn) then Some(0.0) else if Latest(c, r, Heard, sn) >= 0 then Some(1.0) else None
  {
    var t := TimesOf(c, r, sn);
    ShownAndRecorded(c, r, sn);
    SeparateAtRest(c, r, sn);
  }

  // ---------------------------------------------------------------------------
  // That the exceptions happen
  // ---------------------------------------------------------------------------

  lemma Extend(c: Config, r: Run, e: Event)
    requires Legal(c, r) && Enabled(c, After(c, r), e)
    ensures Legal(c, r + [e]) && After(c, r + [e]) == Next(c, After(c, r), e)
    ensures forall k, sn :: Latest(c, r + [e], k, sn) == if Is(c, e, k, sn) then |r| else Latest(c, r, k, sn)
  {
    assert Init(r + [e]) == r && Last(r + [e]) == e;
  }

  predicate OneDevice(c: Config) { c.devices == map["A" := "A"] && c.offlineThreshold == 100 }

  lemma Connect(c: Config) returns (r: Run)
    requires OneDevice(c)
    ensures Legal(c, r) && |r| == 1
    ensures var w := After(c, r);
      && w.supervisor.status == Supervision.NewStatus().(lastReceived := map["A" := 0])
      && w.supervisor.now == 0 && w.supervisor.phase.Idle? && !w.supervisor.reloginPending
      && w.pipeline == Start().pipeline && w.decoding.None? && w.undispatched == {}
    ensures TimesOf(c, r, "A") == Times(-1, -1, -1, -1, -1)
  {
    assert c.devices.Keys == {"A"};
    var e := Supervise(Supervision.Entry(0, Supervision.Connected));
    Extend(c, [], e);
    r := [] + [e];
    assert After(c, r).supervisor.status.lastReceived == map["A" := 0];
  }

  /** A device falls silent, and the monitor's snapshot says so. */
  lemma SilentDevice(c: Config) returns (r: Run)
    requires OneDevice(c)
    ensures Legal(c, r) && |r| == 2 && c.Watched() == Supervision.Config({"A"}, 100)
    ensures var w := After(c, r);
      && w.supervisor == Supervision.World(101, w.supervisor.status, Supervision.Recording({"A"}), false)
      && w.supervisor.status.lastReceived == map["A" := 0] && w.supervisor.status.offlineSent == map[]
      && w.pipeline == Start().pipeline && w.decoding.None? && w.undispatched == {}
    ensures TimesOf(c, r, "A") == Times(-1, -1, -1, -1, -1)
  {
    assert c.devices.Keys == {"A"};
    r := Connect(c);
    assert Supervision.Silent(After(c, r).supervisor.status, 100, 101) == {"A"};
    var snapshot := Supervise(Supervision.Entry(101, Supervision.Snapshot({"A"})));
    Extend(c, r, snapshot);
    r := r + [snapshot];
  }

  lemma Record(c: Config, r: Run) returns (s: Run)
    requires Legal(c, r) && c.Watched() == Supervision.Config({"A"}, 100)
    requires After(c, r).supervisor.phase == Supervision.Recording({"A"}) && After(c, r).supervisor.now <= 102
    requires "A" !in After(c, r).supervisor.status.offlineSent && After(c, r).undispatched == {}
    ensures Legal(c, s) && |s| == |r| + 1 && After(c, s).undispatched == {"A"}
    ensures After(c, s).supervisor.now <= 102 && "A" in After(c, s).supervisor.status.offlineSent
    ensures After(c, s).pipeline == After(c, r).pipeline && After(c, s).decoding == After(c, r).decoding
    ensures TimesOf(c, s, "A") == TimesOf(c, r, "A").(recorded := |r|)
  {
    assert Supervision.Due(After(c, r).supervisor.status, {"A"}, 100, 102) == {"A"};
    var e := Supervise(Supervision.Entry(102, Supervision.Record({"A"})));
    Extend(c, r, e);
    s := r + [e];
  }

  lemma Hear(c: Config, r: Run) returns (s: Run)
    requires Legal(c, r) && "A" in c.devices && After(c, r).supervisor.now <= 102
    requires After(c, r).decoding.None? && After(c, r).pipeline.pending.Nothing?
    ensures Legal(c, s) && |s| == |r| + 1 && After(c, s).decoding == Some("A")
    ensures After(c, s).supervisor.now == 102 && "A" !in After(c, s).supervisor.status.offlineSent
    ensures After(c, s).supervisor.phase == After(c, r).supervisor.phase
    ensures After(c, s).pipeline == After(c, r).pipeline && After(c, s).undispatched == After(c, r).undispatched
    ensures TimesOf(c, s, "A") == TimesOf(c, r, "A").(heard := |r|)
  {
    var reported := "A" in After(c, r).supervisor.status.offlineSent;
    var e := Supervise(Supervision.Entry(102, Supervision.Message("A", reported)));
    assert c.Watched().Accepts("A");
    Extend(c, r, e);
    s := r + [e];
  }

  const REPORT: map<string, Value> := map["x" := Number(1.0)]

  lemma Merge(c: Config, r: Run) returns (s: Run)
    requires Legal(c, r) && "A" in c.devices
    requires After(c, r).decoding == Some("A") && After(c, r).pipeline.pending.Nothing?
    requires After(c, r).pipeline.cache == map[]
    ensures Legal(c, s) && |s| == |r| + 1 && After(c, s).decoding.None?
    ensures After(c, s).pipeline.pending == Pipeline.Snapshot("A", REPORT)
    ensures After(c, s).supervisor == After(c, r).supervisor && After(c, s).undispatched == After(c, r).undispatched
    ensures TimesOf(c, s, "A") == TimesOf(c, r, "A")
  {
    var e := Handle(Pipeline.Merge("A", REPORT));
    assert "x" in REPORT && map[] + REPORT == REPORT;
    Extend(c, r, e);
    s := r + [e];
  }

  lemma Publish(c: Config, r: Run) returns (s: Run)
    requires Legal(c, r) && After(c, r).pipeline.pending == Pipeline.Snapshot("A", REPORT)
    ensures Legal(c, s) && |s| == |r| + 1 && After(c, s).decoding == After(c, r).decoding
    ensures After(c, s).pipeline.pending.Nothing?
    ensures After(c, s).supervisor == After(c, r).supervisor && After(c, s).undispatched == After(c, r).undispatched
    ensures TimesOf(c, s, "A") == TimesOf(c, r, "A").(updated := |r|)
  {
    var e := Handle(Pipeline.Online("A", [SampleOf("x", Number(1.0), c.prefix)]));
    Pipeline.OnlySample("x", 1.0, c.prefix);
    Extend(c, r, e);
    s := r + [e];
  }

  lemma Update(c: Config, r: Run) returns (s: Run)
    requires Legal(c, r) && "A" in c.devices
    requires After(c, r).decoding == Some("A") && After(c, r).pipeline.pending.Nothing?
    requires After(c, r).pipeline.cache == map[]
    ensures Legal(c, s) && |s| == |r| + 2 && After(c, s).decoding.None? && After(c, s).pipeline.pending.Nothing?
    ensures After(c, s).supervisor == After(c, r).supervisor && After(c, s).undispatched == After(c, r).undispatched
    ensures TimesOf(c, s, "A") == TimesOf(c, r, "A").(updated := |r| + 1)
  {
    s := Merge(c, r);
    s := Publish(c, s);
  }

  lemma PassOn(c: Config, r: Run) returns (s: Run)
    requires Legal(c, r) && "A" in c.devices && After(c, r).undispatched == {"A"}
    ensures Legal(c, s) && |s| == |r| + 1 && After(c, s).undispatched == {}
    ensures After(c, s).supervisor == After(c, r).supervisor && After(c, s).decoding == After(c, r).decoding
    ensures After(c, s).pipeline.pending == After(c, r).pipeline.pending
    ensures After(c, s).pipeline.cache == After(c, r).pipeline.cache
    ensures TimesOf(c, s, "A") == TimesOf(c, r, "A").(dropped := |r|)
  {
    var e := Handle(Pipeline.Offline("A"));
    Extend(c, r, e);
    s := r + [e];
  }

  lemma GiveUp(c: Config, r: Run) returns (s: Run)
    requires Legal(c, r) && After(c, r).decoding == Some("A")
    ensures s == r + [Discard("A")] && Legal(c, s) && After(c, s).decoding.None?
    ensures After(c, s).pipeline == After(c, r).pipeline && After(c, s).undispatched == After(c, r).undispatched
    ensures TimesOf(c, s, "A") == TimesOf(c, r, "A").(discarded := |r|)
  {
    Extend(c, r, Discard("A"));
    s := r + [Discard("A")];
  }

  /** Nothing is under way. */
  predicate AtRest(w: World) { w.undispatched == {} && w.decoding.None? && w.pipeline.pending.Nothing? }

  /** The online series of a device that is not recorded as offline is 0. */
  ghost predicate ShownOffline(c: Config, r: Run) {
    Legal(c, r) && OnlineSeries(c, r, "A") == Some(0.0) && !RecordedOffline(c, r, "A")
  }

  lemma Shown(c: Config, r: Run)
    requires Legal(c, r) && OneDevice(c)
    ensures var t := TimesOf(c, r, "A");
      && (RecordedOffline(c, r, "A") <==> t.recorded > t.heard)
      && (OnlineSeries(c, r, "A") ==
          if t.updated > t.dropped then Some(1.0) else if t.dropped >= 0 then Some(0.0) else None)
  {
    ShownAndRecorded(c, r, "A");
  }

  /** The dispatch of a report wipes out an update that came after the report. */
  lemma UpdateIsWipedOut(c: Config) returns (r: Run)
    requires OneDevice(c)
    ensures ShownOffline(c, r) && LateDispatch(TimesOf(c, r, "A")) && AtRest(After(c, r))
  {
    r := SilentDevice(c);
    r := Record(c, r);
    r := Hear(c, r);
    r := Update(c, r);
    r := PassOn(c, r);
    Shown(c, r);
  }

  /** A message comes before the report, its update after the dispatch: the device is shown as online. */
  lemma UpdateComesLate(c: Config) returns (r: Run)
    requires OneDevice(c)
    ensures Legal(c, r) && OnlineSeries(c, r, "A") == Some(1.0) && RecordedOffline(c, r, "A")
    ensures LateUpdate(TimesOf(c, r, "A")) && AtRest(After(c, r))
  {
    r := SilentDevice(c);
    r := Hear(c, r);
    r := Record(c, r);
    r := PassOn(c, r);
    r := Update(c, r);
    Shown(c, r);
  }

  /** A message comes after the dispatch; it is still being handled, and then discarded. */
  lemma MessageIsDiscarded(c: Config) returns (r: Run, s: Run)
    requires OneDevice(c)
    ensures ShownOffline(c, r) && Unfinished(After(c, r), "A", TimesOf(c, r, "A")) && After(c, r).undispatched == {}
    ensures s == r + [Discard("A")]
    ensures ShownOffline(c, s) && Fruitless(TimesOf(c, s, "A")) && AtRest(After(c, s))
  {
    r := SilentDevice(c);
    r := Record(c, r);
    r := PassOn(c, r);
    r := Hear(c, r);
    Shown(c, r);
    s := GiveUp(c, r);
    Shown(c, s);
  }
}
