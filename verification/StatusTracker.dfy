/** The part of the MQTT exporter that several goroutines share under the status mutex, updated in
    place. Every method is one critical section and is proved to have the effect of its step. */
module StatusTracking {
  import opened Options
  import opened Arithmetic
  import opened Sequences
  import opened Supervision

  function Elements(s: seq<string>): set<string> { set x | x in s }

  /** No serial number is listed twice. */
  predicate Distinct(s: seq<string>) {
    s == [] || (Distinct(s[..|s| - 1]) && s[|s| - 1] !in s[..|s| - 1])
  }

  class StatusTracker {
    const devices: set<string>
    const offlineThreshold: int

    var lastReceived: map<string, int>
    var offlineSent: map<string, int>
    var reconnectDelay: int
    var nextReconnect: Option<int>
    var fruitlessReconnects: int
    var relogin: bool  // the one-slot channel holds a request

    function Shared(): Status
      reads this
    {
      Status(lastReceived, offlineSent, reconnectDelay, nextReconnect, fruitlessReconnects)
    }

    function Settings(): Config { Config(devices, offlineThreshold) }

    constructor (devices: set<string>, offlineThreshold: int)
      requires offlineThreshold > 0
      ensures Settings() == Config(devices, offlineThreshold) && Settings().Valid()
      ensures Shared() == NewStatus() && !relogin
    {
      this.devices, this.offlineThreshold := devices, offlineThreshold;
      lastReceived, offlineSent := map[], map[];
      reconnectDelay, nextReconnect, fruitlessReconnects := 0, None, 0;
      relogin := false;
    }

    method MarkReceived(sn: string, now: int) returns (wasOffline: bool)
      modifies this
      ensures wasOffline == (sn in old(offlineSent))
      ensures Shared() == Receive(old(Shared()), sn, now) && relogin == old(relogin)
    {
      lastReceived := lastReceived[sn := now];
      reconnectDelay := 0;
      nextReconnect := None;
      fruitlessReconnects := 0;
      wasOffline := sn in offlineSent;
      offlineSent := offlineSent - {sn};
    }

    /** The part of the message callback before decoding: whatever a configured device sends counts
        as a sign of life, also a payload that cannot be decoded afterwards. */
    method MessageArrived(sn: string, now: int) returns (accepted: bool, requestState: bool)
      modifies this
      ensures accepted == (sn != "" && sn in devices)
      ensures requestState == (accepted && sn in old(offlineSent))
      ensures Shared() == if accepted then Receive(old(Shared()), sn, now) else old(Shared())
      ensures relogin == old(relogin)
    {
      accepted, requestState := false, false;
      if sn == "" || sn !in devices { return; }
      accepted := true;
      requestState := MarkReceived(sn, now);
    }

    method InitDeviceStatuses(now: int)
      modifies this
      ensures Shared() == Track(old(Shared()), devices, now) && relogin == old(relogin)
    {
      var remaining := devices;
      ghost var done := {};
      ghost var known := lastReceived;
      while remaining != {}
        invariant done + remaining == devices && done !! remaining
        invariant lastReceived == (map sn | sn in done :: now) + known
        invariant Shared() == old(Shared()).(lastReceived := lastReceived) && relogin == old(relogin)
        decreases remaining
      {
        var sn :| sn in remaining;
        if sn !in lastReceived {
          lastReceived := lastReceived[sn := now];
        }
        remaining, done := remaining - {sn}, done + {sn};
      }
    }

    /** The map is visited in no particular order; the caller gets every silent device once. */
    method OfflineDevices(now: int) returns (offline: seq<string>)
      ensures Elements(offline) == Silent(Shared(), offlineThreshold, now) && Distinct(offline)
    {
      offline := [];
      ghost var all := Silent(Shared(), offlineThreshold, now);
      var remaining := lastReceived.Keys;
      while remaining != {}
        invariant remaining <= lastReceived.Keys
        invariant Elements(offline) == all - remaining && Distinct(offline)
        decreases remaining
      {
        var sn :| sn in remaining;
        if now - lastReceived[sn] > offlineThreshold {
          Append(offline, sn);
          offline := offline + [sn];
        }
        remaining := remaining - {sn};
      }
    }

    method OfflineUpdatesDue(offline: seq<string>, now: int) returns (due: seq<string>)
      requires Distinct(offline)
      modifies this`offlineSent
      ensures Elements(due) == Due(old(Shared()), Elements(offline), offlineThreshold, now) && Distinct(due)
      ensures Shared() == RecordOffline(old(Shared()), Elements(due), now)
    {
      due := [];
      ghost var before := Shared();
      var i := 0;
      while i < |offline|
        invariant 0 <= i <= |offline|
        invariant Elements(due) == Due(before, Elements(offline[..i]), offlineThreshold, now) && Distinct(due)
        invariant offlineSent == Stamp(before.offlineSent, Elements(due), now)
      {
        var sn := offline[i];
        DueOne(before, offline, i, offlineThreshold, now);
        Append(due, sn);
        StampOne(before.offlineSent, Elements(due), sn, now);
        if sn !in offlineSent || now - offlineSent[sn] >= offlineThreshold {
          offlineSent := offlineSent[sn := now];
          due := due + [sn];
        }
        i := i + 1;
      }
      assert offline[..i] == offline;
    }

    method ReconnectDue(now: int) returns (due: bool)
      modifies this
      ensures due == MayReconnect(old(Shared()), now)
      ensures Shared() == if due then BackOff(old(Shared()), offlineThreshold, now) else old(Shared())
      ensures relogin == old(relogin)
    {
      if nextReconnect.Some? && now < nextReconnect.value { return false; }
      reconnectDelay := Min(Max(2 * reconnectDelay, offlineThreshold), MAX_RECONNECT_DELAY);
      nextReconnect := Some(now + reconnectDelay);
      return true;
    }

    method ReloginDue() returns (due: bool)
      modifies this
      ensures due == LoginDue(old(Shared()))
      ensures Shared() == CountReconnect(old(Shared())) && relogin == old(relogin)
    {
      fruitlessReconnects := fruitlessReconnects + 1;
      if fruitlessReconnects >= RELOGIN_AFTER_RECONNECTS {
        fruitlessReconnects := 0;
        return true;
      }
      return false;
    }

    /** Does not block: a pending request is enough. */
    method SendRelogin()
      modifies this`relogin
      ensures relogin
    {
      if !relogin { relogin := true; }
    }

    ghost function Standing(now: int, phase: Phase): World
      reads this
    {
      World(now, Shared(), phase, relogin)
    }

    /** What the other goroutines do until the next section of the tick. */
    method Meanwhile(others: seq<Step>, ghost now: int, at: int, ghost phase: Phase, ghost w: World, ghost before: Run)
      returns (ghost steps: Run)
      requires InTime(now, others, at) && Follows(Settings(), w, before, Standing(now, phase))
      modifies this
      ensures before <= steps && Follows(Settings(), w, steps, Standing(at, phase))
    {
      steps := before;
      ghost var t := now;
      var i := 0;
      while i < |others|
        invariant 0 <= i <= |others| && InTime(t, others[i..], at)
        invariant before <= steps && Follows(Settings(), w, steps, Standing(t, phase))
      {
        var other := others[i];
        ghost var v := Standing(t, phase);
        assert others[i..][1..] == others[i + 1..];
        Wait(Settings(), w, steps, v, other.at);
        match other {
          case Arrives(sn, now) =>
            var accepted, requestState := MessageArrived(sn, now);
            steps := Then(Settings(), w, steps, v, Entry(now, Message(sn, requestState)));
          case Connects(now) =>
            InitDeviceStatuses(now);
            steps := Then(Settings(), w, steps, v, Entry(now, Connected));
          case Receives(now) =>
            if relogin {
              relogin := false;
              steps := Then(Settings(), w, steps, v, Entry(now, TakeRelogin));
            }
        }
        t := other.at;
        i := i + 1;
      }
      Wait(Settings(), w, steps, Standing(t, phase), at);
    }

    /** The end of a tick, reached when the offline list is as long as the configuration. */
    method ReconnectOrLogin(gaps: seq<Gap>, ghost now: int, ghost w: World, ghost before: Run)
      returns (reconnect: bool, ghost steps: Run)
      requires |gaps| == 3 && Chained(now, gaps) && Follows(Settings(), w, before, Standing(now, Deciding))
      modifies this
      ensures before < steps && LegalFrom(Settings(), w, steps)
      ensures AfterFrom(Settings(), w, steps) == Standing(Last(steps).at, Idle)
      ensures reconnect <==> Last(steps).event.ForceReconnect?
    {
      ghost var c, t := Settings(), now;
      reconnect := false;
      steps := Meanwhile(gaps[0].others, t, gaps[0].at, Deciding, w, before);
      t := gaps[0].at;
      ghost var v := Standing(t, Deciding);
      var granted := ReconnectDue(gaps[0].at);
      steps := Then(c, w, steps, v, Entry(t, Attempt(granted)));
      if granted {
        steps := Meanwhile(gaps[1].others, t, gaps[1].at, Counting, w, steps);
        t := gaps[1].at;
        v := Standing(t, Counting);
        var login := ReloginDue();
        steps := Then(c, w, steps, v, Entry(t, CountAttempt(login)));
        steps := Meanwhile(gaps[2].others, t, gaps[2].at, if login then Requesting else Reconnecting, w, steps);
        t := gaps[2].at;
        v := Standing(t, if login then Requesting else Reconnecting);
        if login {
          SendRelogin();
          steps := Then(c, w, steps, v, Entry(t, RequestRelogin));
        } else {
          reconnect := true;
          steps := Then(c, w, steps, v, Entry(t, ForceReconnect));
        }
      }
    }

    /** The body of the monitor loop. Each gap is what other goroutines do before the next section, and
        that section's clock reading. Whatever they do, the tick together with it is a legal
        continuation of any run that has reached this state, so all that is proved of runs holds of it. */
    method MonitorTick(ghost now: int, gaps: seq<Gap>)
      returns (reported: seq<string>, reconnect: bool, ghost steps: Run)
      requires |gaps| == 5 && Chained(now, gaps)
      modifies this
      ensures steps != [] && LegalFrom(Settings(), old(Standing(now, Idle)), steps)
      ensures AfterFrom(Settings(), old(Standing(now, Idle)), steps) == Standing(Last(steps).at, Idle)
      ensures Distinct(reported) && exists k :: 0 <= k < |steps| && steps[k].event == Record(Elements(reported))
      ensures reconnect <==> Last(steps).event.ForceReconnect?
    {
      ghost var c, w, t := Settings(), Standing(now, Idle), now;
      steps := Meanwhile(gaps[0].others, t, gaps[0].at, Idle, w, []);
      t := gaps[0].at;
      var offline := OfflineDevices(gaps[0].at);
      DistinctSize(offline);
      steps := Then(c, w, steps, Standing(t, Idle), Entry(t, Snapshot(Elements(offline))));

      steps := Meanwhile(gaps[1].others, t, gaps[1].at, Recording(Elements(offline)), w, steps);
      t := gaps[1].at;
      ghost var v := Standing(t, Recording(Elements(offline)));
      reported := OfflineUpdatesDue(offline, gaps[1].at);
      ghost var k := |steps|;
      steps := Then(c, w, steps, v, Entry(t, Record(Elements(reported))));
      assert steps[k].event == Record(Elements(reported));

      reconnect := false;
      if |offline| > 0 && |offline| == |devices| {
        ghost var recorded := steps;
        reconnect, steps := ReconnectOrLogin(gaps[2..], t, w, steps);
        assert steps[k] == recorded[k];
      }
    }
  }

  /** A step of another goroutine; the session loop waits until there is a request to receive. */
  datatype Step = Arrives(sn: string, at: int) | Connects(at: int) | Receives(at: int)

  datatype Gap = Gap(others: seq<Step>, at: int)

  /** The clock never runs backwards. */
  predicate InTime(now: int, others: seq<Step>, at: int)
    decreases |others|
  {
    if others == [] then now <= at else now <= others[0].at && InTime(others[0].at, others[1..], at)
  }

  predicate Chained(now: int, gaps: seq<Gap>) {
    && (gaps != [] ==> InTime(now, gaps[0].others, gaps[0].at))
    && forall k | 0 < k < |gaps| :: InTime(gaps[k - 1].at, gaps[k].others, gaps[k].at)
  }

  /** The steps lead from w to v, where the clock may have moved on. */
  ghost predicate Follows(c: Config, w: World, steps: Run, v: World) {
    LegalFrom(c, w, steps) && AfterFrom(c, w, steps).now <= v.now && AfterFrom(c, w, steps).(now := v.now) == v
  }

  lemma Wait(c: Config, w: World, steps: Run, v: World, at: int)
    requires Follows(c, w, steps, v) && v.now <= at
    ensures Follows(c, w, steps, v.(now := at))
  {
  }

  lemma Then(c: Config, w: World, steps: Run, v: World, e: Entry) returns (longer: Run)
    requires Follows(c, w, steps, v) && Enabled(c, v, e)
    ensures longer == steps + [e] && LegalFrom(c, w, longer) && AfterFrom(c, w, longer) == Next(c, v, e)
    ensures Follows(c, w, longer, Next(c, v, e))
  {
    longer := steps + [e];
    OneMore(c, w, steps, e);
  }

  lemma Append(s: seq<string>, x: string)
    ensures Elements(s + [x]) == Elements(s) + {x}
    ensures Distinct(s + [x]) <==> Distinct(s) && x !in Elements(s)
  {
    assert (s + [x])[..|s|] == s;
  }

  lemma {:induction false} DistinctPrefix(s: seq<string>, n: nat)
    requires Distinct(s) && n <= |s|
    ensures Distinct(s[..n])
  {
    if n < |s| {
      DistinctPrefix(s[..|s| - 1], n);
      assert s[..|s| - 1][..n] == s[..n];
    } else {
      assert s[..n] == s;
    }
  }

  lemma {:induction false} DistinctSize(s: seq<string>)
    requires Distinct(s)
    ensures |Elements(s)| == |s|
  {
    if s != [] {
      var front := s[..|s| - 1];
      assert s == front + [s[|s| - 1]];
      Append(front, s[|s| - 1]);
      DistinctSize(front);
    }
  }

  lemma DueOne(s: Status, offline: seq<string>, i: nat, threshold: int, now: int)
    requires i < |offline| && Distinct(offline)
    ensures Due(s, Elements(offline[..i + 1]), threshold, now) ==
            Due(s, Elements(offline[..i]), threshold, now) +
            if UpdateDue(s, offline[i], threshold, now) then {offline[i]} else {}
    ensures offline[i] !in Due(s, Elements(offline[..i]), threshold, now)
  {
    DistinctPrefix(offline, i + 1);
    assert offline[..i + 1] == offline[..i] + [offline[i]];
    Append(offline[..i], offline[i]);
  }

  lemma StampOne(times: map<string, int>, sns: set<string>, sn: string, now: int)
    requires sn !in sns
    ensures var stamped := Stamp(times, sns, now);
      && stamped[sn := now] == Stamp(times, sns + {sn}, now)
      && (sn in stamped <==> sn in times)
      && (sn in stamped ==> stamped[sn] == times[sn])
  {
  }
}
