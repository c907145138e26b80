/** Who is silent, who was reported offline and when a reconnect is decided, over every run. */
module Outages {
  import opened Options
  import opened Sequences
  import opened Supervision
  import opened Backoff

  // ---------------------------------------------------------------------------
  // Silence
  // ---------------------------------------------------------------------------

  /** When the device last sent something, or the first connection if it never did. */
  function LastHeard(c: Config, r: Run, sn: string): Option<int> {
    if r == [] then None
    else
      var before := LastHeard(c, Init(r), sn);
      match Last(r).event
      case Message(s, _) => if s == sn && c.Accepts(sn) then Some(Last(r).at) else before
      case Connected => if sn in c.devices && before.None? then Some(Last(r).at) else before
      case _ => before
  }

  /** Position of the snapshot that started the latest tick, -1 before the first one. */
  function SnapshotOf(r: Run): int {
    if r == [] then -1 else if Last(r).event.Snapshot? then |r| - 1 else SnapshotOf(Init(r))
  }

  predicate SilentAt(c: Config, r: Run, s: nat, sn: string)
    requires s < |r|
  {
    var heard := LastHeard(c, r[..s], sn);
    heard.Some? && r[s].at - heard.value > c.offlineThreshold
  }

  predicate EveryoneSilentAt(c: Config, r: Run, s: nat)
    requires s < |r|
  {
    c.devices != {} && forall sn | sn in c.devices :: SilentAt(c, r, s, sn)
  }

  /** Tracked serial numbers are configured ones, and the recorded times are the history's. */
  lemma {:induction false} Tracking(c: Config, r: Run)
    requires Legal(c, r)
    ensures var s := After(c, r).status;
      && s.lastReceived.Keys <= c.devices
      && forall sn :: LastHeard(c, r, sn) == if sn in s.lastReceived then Some(s.lastReceived[sn]) else None
  {
    if r != [] { Tracking(c, Init(r)); }
  }

  /** A message of any configured device is a sign of life and ends its outage and the backoff; any other
      message changes nothing. */
  lemma MessagesCount(c: Config, r: Run)
    requires Legal(c, r) && r != [] && Last(r).event.Message?
    ensures var sn, s := Last(r).event.sn, After(c, r).status;
      if sn != "" && sn in c.devices then
        && sn in s.lastReceived && s.lastReceived[sn] == Last(r).at && sn !in s.offlineSent
        && s.reconnectDelay == 0 && s.nextReconnect.None? && s.fruitlessReconnects == 0
        && LastHeard(c, r, sn) == Some(Last(r).at)
      else s == After(c, Init(r)).status
  {
  }

  lemma {:induction false} SubsetOfEqualSize(a: set<string>, b: set<string>)
    requires a <= b && |a| == |b|
    ensures a == b
  {
    if exists x :: x in b && x !in a {
      var x :| x in b && x !in a;
      assert a <= b - {x};
      SubsetSize(a, b - {x});
    }
  }

  lemma {:induction false} SubsetSize(a: set<string>, b: set<string>)
    requires a <= b
    ensures |a| <= |b|
  {
    if a != {} {
      var x :| x in a;
      SubsetSize(a - {x}, b - {x});
    }
  }

  lemma {:induction false} SnapshotBounds(r: Run)
    ensures -1 <= SnapshotOf(r) < |r|
    ensures SnapshotOf(r) >= 0 ==> r[SnapshotOf(r)].event.Snapshot?
  {
    if r != [] { SnapshotBounds(Init(r)); }
  }

  /** What the monitor's local list holds while a tick is under way. */
  lemma {:induction false} TickState(c: Config, r: Run)
    requires Legal(c, r)
    ensures var s, phase := SnapshotOf(r), After(c, r).phase;
      && -1 <= s < |r|
      && (phase != Idle ==> s >= 0)
      && (phase.Recording? ==> phase.offline == set sn | sn in c.devices && SilentAt(c, r, s, sn))
      && (phase != Idle && !phase.Recording? ==> EveryoneSilentAt(c, r, s))
  {
    if r != [] {
      TickState(c, Init(r));
      var s, h := SnapshotOf(r), Init(r);
      if Last(r).event.Snapshot? {
        Tracking(c, h);
        assert r[..s] == h;
      } else if s >= 0 {
        assert h[..s] == r[..s];
        assert forall sn :: SilentAt(c, h, s, sn) == SilentAt(c, r, s, sn);
        if Last(r).event.Record? { RecordDecides(c, r); }
      }
    }
  }

  /** The equal-length test on the snapshot means that every configured device was silent. */
  lemma RecordDecides(c: Config, r: Run)
    requires Legal(c, r) && r != [] && Last(r).event.Record?
    requires var h, s := Init(r), SnapshotOf(r);
      && 0 <= s < |h|
      && After(c, h).phase.offline == set sn | sn in c.devices && SilentAt(c, h, s, sn)
    ensures After(c, r).phase.Deciding? <==> EveryoneSilentAt(c, r, SnapshotOf(r))
  {
    var h, s := Init(r), SnapshotOf(r);
    assert h[..s] == r[..s];
    var offline := After(c, h).phase.offline;
    assert offline == set sn | sn in c.devices && SilentAt(c, r, s, sn);
    if AllOffline(c, offline) {
      SubsetOfEqualSize(offline, c.devices);
    }
    if EveryoneSilentAt(c, r, s) {
      assert offline == c.devices;
    }
  }

  predicate DecisionStep(e: Event) {
    e.Attempt? || e.CountAttempt? || e.RequestRelogin? || e.ForceReconnect?
  }

  lemma {:induction false} HeardIsLatest(c: Config, r: Run, m: nat)
    requires Legal(c, r) && m < |r| && Heard(c, r[m].event)
    ensures LastHeard(c, r, r[m].event.sn).Some?
    ensures LastHeard(c, r, r[m].event.sn).value >= r[m].at
  {
    if m < |r| - 1 {
      HeardIsLatest(c, Init(r), m);
      TimesOrdered(c, r, m, |r| - 1);
    }
  }

  /** A reconnect or a re-login is decided only if, at the moment of the tick's snapshot, every
      configured device had been silent for longer than the threshold. */
  lemma DecisionNeedsSilence(c: Config, r: Run, i: nat)
    requires Legal(c, r) && i < |r| && DecisionStep(r[i].event)
    ensures var s := SnapshotOf(r[..i]);
      && 0 <= s < i && r[s].event.Snapshot?
      && EveryoneSilentAt(c, r, s)
      && forall m | 0 <= m < s && Heard(c, r[m].event) :: r[s].at - r[m].at > c.offlineThreshold
  {
    LegalPrefix(c, r, i);
    TickState(c, r[..i]);
    SnapshotBounds(r[..i]);
    var s := SnapshotOf(r[..i]);
    assert r[..i][..s] == r[..s];
    assert forall sn | sn in c.devices :: SilentAt(c, r[..i], s, sn) && SilentAt(c, r, s, sn);
    LegalPrefix(c, r, s);
    forall m | 0 <= m < s && Heard(c, r[m].event)
      ensures r[s].at - r[m].at > c.offlineThreshold
    {
      assert r[..s][m] == r[m];
      HeardIsLatest(c, r[..s], m);
      assert SilentAt(c, r, s, r[m].event.sn);
    }
  }

  /** And a tick whose snapshot found everyone silent does go on to an attempt. */
  lemma TickDecidesExactlyOnSilence(c: Config, r: Run, i: nat)
    requires Legal(c, r) && i < |r| && r[i].event.Record?
    ensures Legal(c, r[..i + 1])
    ensures var s := SnapshotOf(r[..i]);
      && 0 <= s < i
      && (After(c, r[..i + 1]).phase.Deciding? <==> EveryoneSilentAt(c, r, s))
  {
    LegalPrefix(c, r, i);
    var h := r[..i + 1];
    assert Init(h) == r[..i];
    TickState(c, r[..i]);
    SnapshotBounds(r[..i]);
    var s := SnapshotOf(h);
    RecordDecides(c, h);
    assert h[..s] == r[..s];
    assert forall sn :: SilentAt(c, h, s, sn) == SilentAt(c, r, s, sn);
  }

  // ---------------------------------------------------------------------------
  // Offline reports
  // ---------------------------------------------------------------------------

  predicate Reports(e: Event, sn: string) { e.Record? && sn in e.due }

  predicate Sends(c: Config, e: Event, sn: string) { Heard(c, e) && e.sn == sn }

  /** When the device was reported offline, if its latest event is a report and not a message. */
  function ReportedOffline(c: Config, r: Run, sn: string): Option<int> {
    if r == [] then None
    else if Sends(c, Last(r).event, sn) then None
    else if Reports(Last(r).event, sn) then Some(Last(r).at)
    else ReportedOffline(c, Init(r), sn)
  }

  /** A device is in offlineSent exactly when its latest event is an offline report. */
  lemma {:induction false} OfflineSentState(c: Config, r: Run)
    requires Legal(c, r)
    ensures var sent := After(c, r).status.offlineSent;
      forall sn :: ReportedOffline(c, r, sn) == if sn in sent then Some(sent[sn]) else None
  {
    if r != [] {
      OfflineSentState(c, Init(r));
      if Last(r).event.Record? {
        var e := Last(r);
        var s := After(c, Init(r)).status;
        assert RecordOffline(s, e.event.due, e.at).offlineSent.Keys == s.offlineSent.Keys + e.event.due;
      }
    }
  }

  /** Outages of a device that were reported: reports that follow a message or come first. */
  function ReportedOutages(c: Config, r: Run, sn: string): nat {
    if r == [] then 0
    else ReportedOutages(c, Init(r), sn) +
         if Reports(Last(r).event, sn) && ReportedOffline(c, Init(r), sn).None? then 1 else 0
  }

  /** Full-state requests started by the callback. */
  function StateRequests(r: Run, sn: string): nat {
    if r == [] then 0
    else StateRequests(Init(r), sn) + if Last(r).event == Message(sn, true) then 1 else 0
  }

  /** Every reported outage that ended started exactly one full-state request. */
  lemma {:induction false} OneRequestPerOutage(c: Config, r: Run, sn: string)
    requires Legal(c, r)
    ensures ReportedOutages(c, r, sn) ==
            StateRequests(r, sn) + if ReportedOffline(c, r, sn).Some? then 1 else 0
  {
    if r != [] {
      OneRequestPerOutage(c, Init(r), sn);
      OfflineSentState(c, Init(r));
    }
  }

  function LatestReport(r: Run, sn: string): Option<int> {
    if r == [] then None
    else if Reports(Last(r).event, sn) then Some(Last(r).at)
    else LatestReport(Init(r), sn)
  }

  lemma {:induction false} ReportIsLatest(c: Config, r: Run, i: nat, sn: string)
    requires Legal(c, r) && i < |r| && Reports(r[i].event, sn)
    ensures LatestReport(r, sn).Some? && LatestReport(r, sn).value >= r[i].at
  {
    if i < |r| - 1 {
      ReportIsLatest(c, Init(r), i, sn);
      TimesOrdered(c, r, i, |r| - 1);
    }
  }

  /** The latest report either still stands or a message came after it. */
  lemma {:induction false} ReportStandsOrAnswered(c: Config, r: Run, sn: string)
    requires Legal(c, r) && LatestReport(r, sn).Some?
    ensures var report := LatestReport(r, sn);
      if ReportedOffline(c, r, sn).Some? then ReportedOffline(c, r, sn) == report
      else LastHeard(c, r, sn).Some? && LastHeard(c, r, sn).value >= report.value
  {
    var h := Init(r);
    if LatestReport(h, sn).Some? && !Reports(Last(r).event, sn) {
      ReportStandsOrAnswered(c, h, sn);
      if Sends(c, Last(r).event, sn) { LatestReportInThePast(c, h, sn); }
    }
  }

  lemma {:induction false} LatestReportInThePast(c: Config, r: Run, sn: string)
    requires Legal(c, r) && LatestReport(r, sn).Some?
    ensures LatestReport(r, sn).value <= After(c, r).now
  {
    if !Reports(Last(r).event, sn) { LatestReportInThePast(c, Init(r), sn); }
  }

  /** A recording section reports a device exactly when the tick's snapshot found it silent and it does
      not stand reported, or was reported at least a threshold ago. */
  lemma ReportedExactly(c: Config, r: Run, j: nat, sn: string)
    requires Legal(c, r) && j < |r| && r[j].event.Record?
    ensures Legal(c, r[..j]) && 0 <= SnapshotOf(r[..j]) < j
    ensures var s, report := SnapshotOf(r[..j]), ReportedOffline(c, r[..j], sn);
      && r[s].at <= r[j].at
      && (Reports(r[j].event, sn) <==>
          SilentAt(c, r, s, sn) && (report.None? || r[j].at - report.value >= c.offlineThreshold))
  {
    LegalPrefix(c, r, j);
    TickState(c, r[..j]);
    OfflineSentState(c, r[..j]);
    var s := SnapshotOf(r[..j]);
    assert r[..j][..s] == r[..s];
    TimesOrdered(c, r, s, j);
    if SilentAt(c, r, s, sn) {
      LegalPrefix(c, r, s);
      Tracking(c, r[..s]);
    }
  }

  /** So none is missed: every device silent at the snapshot stands reported afterwards, by a report less
      than a threshold old. */
  lemma SilentStandsReported(c: Config, r: Run, j: nat, sn: string)
    requires c.Valid() && Legal(c, r) && j < |r| && r[j].event.Record?
    requires 0 <= SnapshotOf(r[..j]) < j && SilentAt(c, r, SnapshotOf(r[..j]), sn)
    ensures var report := ReportedOffline(c, r[..j + 1], sn);
      report.Some? && r[j].at - report.value < c.offlineThreshold
  {
    ReportedExactly(c, r, j, sn);
    assert Init(r[..j + 1]) == r[..j] && Last(r[..j + 1]) == r[j];
  }

  /** Two offline reports of one device are at least a threshold apart, unless a message of the
      device landed between the snapshot and the recording section of the tick of the second. */
  lemma ReportsSpaced(c: Config, r: Run, i: nat, j: nat, sn: string)
    requires Legal(c, r) && i < j < |r| && Reports(r[i].event, sn) && Reports(r[j].event, sn)
    ensures 0 <= SnapshotOf(r[..j]) < j
    ensures || r[j].at - r[i].at >= c.offlineThreshold
            || exists m :: i < m < j && SnapshotOf(r[..j]) < m && Sends(c, r[m].event, sn)
  {
    ReportedExactly(c, r, j, sn);
    NothingRecordedWithinTick(c, r, i, j);
    var h, s := r[..j], SnapshotOf(r[..j]);
    if forall m | i < m < j && s < m :: !Sends(c, r[m].event, sn) {
      assert h[i] == r[i];
      ReportIsLatest(c, h, i, sn);
      ReportStandsOrAnswered(c, h, sn);
      if ReportedOffline(c, h, sn).None? {
        SnapshotBounds(h);
        assert h[..s] == r[..s];
        assert SilentAt(c, r, s, sn);
        HeardSince(c, h, s, sn);
        assert r[i].at <= LastHeard(c, r[..s], sn).value < r[s].at - c.offlineThreshold;
      }
    }
  }

  /** And that is exactly when it happens: within a threshold of a report of the device, a recording
      section reports it again if and only if the snapshot found it silent and it sent something
      between snapshot and recording. */
  lemma EarlyReportExactly(c: Config, r: Run, i: nat, j: nat, sn: string)
    requires Legal(c, r) && i < j < |r| && Reports(r[i].event, sn) && r[j].event.Record?
    requires r[j].at - r[i].at < c.offlineThreshold
    ensures i < SnapshotOf(r[..j]) < j
    ensures var s := SnapshotOf(r[..j]);
      Reports(r[j].event, sn) <==> SilentAt(c, r, s, sn) && exists m :: s < m < j && Sends(c, r[m].event, sn)
  {
    NothingRecordedWithinTick(c, r, i, j);
    ReportedExactly(c, r, j, sn);
    var h, s := r[..j], SnapshotOf(r[..j]);
    if Reports(r[j].event, sn) {
      ReportsSpaced(c, r, i, j, sn);
    } else if SilentAt(c, r, s, sn) && exists m :: s < m < j && Sends(c, r[m].event, sn) {
      var m :| s < m < j && Sends(c, r[m].event, sn);
      forall k | m < k < j ensures !h[k].event.Record? {
        if r[k].event.Record? { NothingRecordedWithinTick(c, r, k, j); }
      }
      assert h[m] == r[m];
      NoReportSinceMessage(c, h, m);
    }
  }

  lemma {:induction false} NoReportSinceMessage(c: Config, r: Run, m: nat)
    requires m < |r| && Heard(c, r[m].event) && forall k | m < k < |r| :: !r[k].event.Record?
    ensures ReportedOffline(c, r, r[m].event.sn).None?
  {
    if m < |r| - 1 { NoReportSinceMessage(c, Init(r), m); }
  }

  /** A device is reported although it was heard of within the threshold exactly when a message that
      recent came between snapshot and recording of the tick. */
  lemma ReportedThoughHeard(c: Config, r: Run, j: nat, sn: string)
    requires Legal(c, r) && j < |r| && Reports(r[j].event, sn)
    ensures LastHeard(c, r[..j], sn).Some? && 0 <= SnapshotOf(r[..j]) < j
    ensures r[j].at - LastHeard(c, r[..j], sn).value <= c.offlineThreshold <==>
            exists m :: && SnapshotOf(r[..j]) < m < j && Sends(c, r[m].event, sn)
                        && r[j].at - r[m].at <= c.offlineThreshold
  {
    ReportedExactly(c, r, j, sn);
    SnapshotBounds(r[..j]);
    var h, s := r[..j], SnapshotOf(r[..j]);
    assert h[..s] == r[..s];
    forall m | s < m < j && Sends(c, r[m].event, sn)
      ensures LastHeard(c, h, sn).Some? && LastHeard(c, h, sn).value >= r[m].at
    {
      assert h[m] == r[m];
      HeardIsLatest(c, h, m);
    }
    HeardSince(c, h, s, sn);
    if LastHeard(c, h, sn) != LastHeard(c, h[..s], sn) {
      var m :| s <= m < |h| && Sends(c, h[m].event, sn) && LastHeard(c, h, sn) == Some(h[m].at);
      assert r[m] == h[m];
    }
  }

  /** What was known of a device at some time still stands, or one of its messages has come since. */
  lemma {:induction false} HeardSince(c: Config, r: Run, s: nat, sn: string)
    requires s <= |r| && LastHeard(c, r[..s], sn).Some?
    ensures || LastHeard(c, r, sn) == LastHeard(c, r[..s], sn)
            || exists m :: s <= m < |r| && Sends(c, r[m].event, sn) && LastHeard(c, r, sn) == Some(r[m].at)
  {
    if s < |r| {
      assert Init(r)[..s] == r[..s];
      HeardSince(c, Init(r), s, sn);
      if Sends(c, Last(r).event, sn) {
        assert Sends(c, r[|r| - 1].event, sn);
      } else if LastHeard(c, r, sn) != LastHeard(c, r[..s], sn) {
        var m :| s <= m < |r| - 1 && Sends(c, Init(r)[m].event, sn) && LastHeard(c, Init(r), sn) == Some(Init(r)[m].at);
        assert r[m] == Init(r)[m];
      }
    } else {
      assert r[..s] == r;
    }
  }

  /** A tick records once: no other recording section lies between its snapshot and its own. */
  lemma {:induction false} NothingRecordedWithinTick(c: Config, r: Run, i: nat, j: nat)
    requires Legal(c, r) && i < j < |r| && r[i].event.Record? && r[j].event.Record?
    ensures i < SnapshotOf(r[..j])
  {
    LegalPrefix(c, r, j);
    RecordingMeansNoneSinceSnapshot(c, r[..j], i);
  }

  lemma {:induction false} RecordingMeansNoneSinceSnapshot(c: Config, r: Run, i: nat)
    requires Legal(c, r) && i < |r| && r[i].event.Record? && After(c, r).phase.Recording?
    ensures i < SnapshotOf(r)
  {
    if !Last(r).event.Snapshot? { RecordingMeansNoneSinceSnapshot(c, Init(r), i); }
  }

  /** With every tick undisturbed any two reports of one device are a threshold apart. */
  lemma ReportsSpacedWhenUndisturbed(c: Config, r: Run, i: nat, j: nat, sn: string)
    requires Legal(c, r) && Undisturbed(c, r)
    requires i < j < |r| && Reports(r[i].event, sn) && Reports(r[j].event, sn)
    ensures r[j].at - r[i].at >= c.offlineThreshold
  {
    ReportsSpaced(c, r, i, j, sn);
    forall m | SnapshotOf(r[..j]) < m < j ensures !Heard(c, r[m].event) {
      LegalPrefix(c, r, j);
      UndisturbedPrefix(c, r, j);
      assert r[..j][m] == r[m];
      NoMessageWithinTick(c, r[..j], m);
    }
  }

  lemma {:induction false} NoMessageWithinTick(c: Config, r: Run, m: nat)
    requires Legal(c, r) && Undisturbed(c, r) && After(c, r).phase.Recording?
    requires SnapshotOf(r) < m < |r|
    ensures !Heard(c, r[m].event)
  {
    if m < |r| - 1 { NoMessageWithinTick(c, Init(r), m); }
  }

  // ---------------------------------------------------------------------------
  // What interleaving breaks
  // ---------------------------------------------------------------------------

  lemma Extend(c: Config, r: Run, e: Entry)
    requires Legal(c, r) && Enabled(c, After(c, r), e)
    ensures Legal(c, r + [e]) && After(c, r + [e]) == Next(c, After(c, r), e)
    ensures Init(r + [e]) == r && Last(r + [e]) == e
  {
  }

  /** A message between snapshot and recording makes two reports of one device come 30 apart under a
      threshold of 100, and leaves a device that has just sent data recorded as offline. */
  lemma EarlySecondReport() returns (c: Config, r: Run)
    ensures c == Config({"A", "B"}, 100) && Legal(c, r) && |r| == 7
    ensures Reports(r[3].event, "A") && Reports(r[6].event, "A") && r[6].at - r[3].at == 30
    ensures r[5] == Entry(131, Message("A", true)) && "A" in After(c, r).status.offlineSent
  {
    c := Config({"A", "B"}, 100);
    r := [];
    var e0, e1 := Entry(0, Connected), Entry(100, Message("B", false));
    Extend(c, r, e0);
    r := r + [e0];
    Extend(c, r, e1);
    r := r + [e1];
    var silent := Entry(101, Snapshot({"A"}));
    assert Silent(After(c, r).status, 100, 101) == {"A"};
    Extend(c, r, silent);
    r := r + [silent];
    var first := Entry(101, Record({"A"}));
    assert Due(After(c, r).status, {"A"}, 100, 101) == {"A"};
    Extend(c, r, first);
    r := r + [first];
    assert AllOffline(c, {"A"}) == false by { assert "B" in c.devices && |c.devices| == 2; }
    var again := Entry(130, Snapshot({"A"}));
    assert Silent(After(c, r).status, 100, 130) == {"A"};
    Extend(c, r, again);
    r := r + [again];
    var message := Entry(131, Message("A", true));
    Extend(c, r, message);
    r := r + [message];
    var second := Entry(131, Record({"A"}));
    assert Due(After(c, r).status, {"A"}, 100, 131) == {"A"};
    Extend(c, r, second);
    r := r + [second];
  }

  /** A message between the grant and the count leaves one call more than attempts: the bounds of
      the counter invariant are reached. */
  lemma CallsOvertakeAttempts() returns (c: Config, r: Run)
    ensures c == Config({"A"}, 100) && Legal(c, r)
    ensures Attempts(c, r) == 0 && Counted(c, r) == 1
  {
    c := Config({"A"}, 100);
    r := [];
    var run := [Entry(0, Connected), Entry(101, Snapshot({"A"})), Entry(101, Record({"A"})),
                Entry(101, Attempt(true)), Entry(102, Message("A", true)), Entry(102, CountAttempt(false))];
    Extend(c, r, run[0]);
    r := r + [run[0]];
    assert Silent(After(c, r).status, 100, 101) == {"A"};
    Extend(c, r, run[1]);
    r := r + [run[1]];
    assert Due(After(c, r).status, {"A"}, 100, 101) == {"A"};
    Extend(c, r, run[2]);
    r := r + [run[2]];
    Extend(c, r, run[3]);
    r := r + [run[3]];
    Extend(c, r, run[4]);
    r := r + [run[4]];
    Extend(c, r, run[5]);
    assert Attempts(c, r) == 0 && Counted(c, r) == 0;
    r := r + [run[5]];
  }
}
