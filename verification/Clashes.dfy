/** When the exposed series are not what history says: the exact conditions of the results on the
    pipeline, with runs that fail where the conditions do. */
module Clashes {
  import opened Options
  import opened Sequences
  import opened Values
  import opened Naming
  import opened SeriesKeys
  import opened DeviceUpdates
  import opened MetricStore
  import opened Pipeline

  /** Whether the next update of a device sets the series of a name to one certain value, however its
      samples come, is decided by the agreement of the numbers under that name. */
  lemma UpdateIsDeterminedExactly(c: Config, r: Run, sn: string, name: string)
    requires Legal(c, r) && OwnKey(c.devices.Keys, c.prefix, sn, name) && name != OnlineName(c.prefix)
    requires After(c, r).pending == Snapshot(sn, Sent(r, sn))
    ensures (forall a, b | Legal(c, r + [Online(sn, a)]) && Legal(c, r + [Online(sn, b)]) ::
               Series(After(c, r + [Online(sn, a)]).index, sn, name) ==
               Series(After(c, r + [Online(sn, b)]).index, sn, name))
       <==> NumbersAgree(Sent(r, sn), c.prefix, name)
  {
    var params := Sent(r, sn);
    if NumbersAgree(params, c.prefix, name) {
      forall a, b | Legal(c, r + [Online(sn, a)]) && Legal(c, r + [Online(sn, b)])
        ensures Series(After(c, r + [Online(sn, a)]).index, sn, name) ==
                Series(After(c, r + [Online(sn, b)]).index, sn, name)
      {
        OneUpdate(c, r, sn, a, name);
        OneUpdate(c, r, sn, b, name);
        SamplesCarryNumeric(a, params, c.prefix, name);
        SamplesCarryNumeric(b, params, c.prefix, name);
      }
    } else {
      var a, b := Disagreeing(params, c.prefix, name);
      OneUpdate(c, r, sn, a, name);
      OneUpdate(c, r, sn, b, name);
    }
  }

  lemma OneUpdate(c: Config, r: Run, sn: string, samples: seq<Sample>, name: string)
    requires Legal(c, r) && OwnKey(c.devices.Keys, c.prefix, sn, name) && name != OnlineName(c.prefix)
    requires After(c, r).pending == Snapshot(sn, Sent(r, sn))
    ensures Legal(c, r + [Online(sn, samples)]) <==> AreSamplesOf(samples, Sent(r, sn), c.prefix)
    ensures Legal(c, r + [Online(sn, samples)]) ==>
              Series(After(c, r + [Online(sn, samples)]).index, sn, name) ==
              if LastNumeric(samples, name).Some? then LastNumeric(samples, name)
              else Series(After(c, r).index, sn, name)
  {
    Extend(c, r, Online(sn, samples));
    IndexIsWellKept(c, r);
    CacheIsHistory(c, r);
    if AreSamplesOf(samples, Sent(r, sn), c.prefix) {
      HandledRefines(After(c, r).index, DeviceOf(c, sn, 1), samples, Sent(r, sn), c.prefix, c.devices, sn, name);
    }
  }

  /** A message with one parameter, and its update. */
  function Sending(sn: string, param: string, value: real, prefix: string): Run {
    [Merge(sn, map[param := Number(value)]), Online(sn, [SampleOf(param, Number(value), prefix)])]
  }

  lemma FirstSending(c: Config, r: Run, sn: string, param: string, value: real) returns (s: Run)
    requires Legal(c, r) && After(c, r).pending.Nothing? && Sent(r, sn) == map[]
    requires sn in c.devices && IsNameTail(param)
    ensures s == r + Sending(sn, param, value, c.prefix) && Legal(c, s) && After(c, s).pending.Nothing?
    ensures forall d :: Sent(s, d) == if d == sn then map[param := Number(value)] else Sent(r, d)
    ensures After(c, s).index == Measured(After(c, r).index, DeviceOf(c, sn, 1), param, value, c.prefix)
  {
    var params, t := map[param := Number(value)], SampleOf(param, Number(value), c.prefix);
    assert param in params;
    var merged := Merged(c, r, sn, params);
    OnlySample(param, value, c.prefix);
    s := Finished(c, merged, sn, [t]);
    OneSample(After(c, r).index, DeviceOf(c, sn, 1), param, value, c.prefix);
  }

  lemma Finished(c: Config, r: Run, sn: string, samples: seq<Sample>) returns (s: Run)
    requires Legal(c, r) && Enabled(c, After(c, r), Online(sn, samples))
    ensures s == r + [Online(sn, samples)] && Legal(c, s) && After(c, s).pending.Nothing?
    ensures After(c, s).index == Handled(After(c, r).index, DeviceOf(c, sn, 1), samples, c.prefix)
    ensures forall d :: Sent(s, d) == Sent(r, d)
  {
    s := r + [Online(sn, samples)];
    Extend(c, r, Online(sn, samples));
  }

  lemma Merged(c: Config, r: Run, sn: string, params: Params) returns (s: Run)
    requires Legal(c, r) && After(c, r).pending.Nothing? && Sent(r, sn) == map[]
    requires sn in c.devices && params != map[]
    ensures s == r + [Merge(sn, params)] && Legal(c, s) && After(c, s).pending == Snapshot(sn, params)
    ensures After(c, s).index == After(c, r).index
    ensures forall d :: Sent(s, d) == if d == sn then params else Sent(r, d)
  {
    s := r + [Merge(sn, params)];
    CacheIsHistory(c, r);
    Extend(c, r, Merge(sn, params));
    assert map[] + params == params;
  }

  /** The index after an update with one number. */
  function Measured(x: Index, device: Device, param: string, value: real, prefix: string): Index {
    Put(Put(x, device, param, MetricName(prefix, param), value), device, "online", OnlineName(prefix), 1.0)
  }

  lemma OneSample(x: Index, device: Device, param: string, value: real, prefix: string)
    requires device.online == 1 && IsNameTail(param)
    ensures Handled(x, device, [SampleOf(param, Number(value), prefix)], prefix) ==
            Measured(x, device, param, value, prefix)
  {
    NameTailsAreFixed(param, true, false);
    var t := SampleOf(param, Number(value), prefix);
    assert [t][..0] == [];
    assert PutAll(x, device, [t]) == Put(PutAll(x, device, []), device, t.param, t.name, value);
  }

  /** Wherever a metric of one configured device and one of another are stored under the same key, the
      number of the one is exposed as a number of the other. */
  lemma ClashingKeysOverwrite(c: Config, a: string, m: string, b: string, n: string, v: real, w: real)
    returns (r: Run)
    requires a in c.devices && b in c.devices && a != b && SameKey(a, m, b, n, c.prefix)
    requires MetricName(c.prefix, m) != OnlineName(c.prefix)
    ensures Legal(c, r) && Unambiguous(c, r, a, MetricName(c.prefix, m))
    ensures CarriedLast(c, r, a, MetricName(c.prefix, m), 1, v)
    ensures Series(After(c, r).index, a, MetricName(c.prefix, m)) == Some(Shown(c.prefix, n, w))
  {
    var name := MetricName(c.prefix, m);
    var first := FirstSending(c, [], a, m, v);
    assert first == Sending(a, m, v, c.prefix);
    r := FirstSending(c, first, b, n, w);
    CarriedOnce(c, r, a, m, v);
    NamesApartAgree(c, r, a, name);
    TwoMeasured(DeviceOf(c, a, 1), m, v, DeviceOf(c, b, 1), n, w, c.prefix);
    IndexIsWellKept(c, r);
    SeriesOf(After(c, r).index, c.prefix, Key(a, name));
  }

  /** The status hides what a device sends under the name of the online series. */
  function Shown(prefix: string, tail: string, value: real): real {
    if MetricName(prefix, tail) == OnlineName(prefix) then 1.0 else value
  }

  lemma PutAt(x: Index, device: Device, param: string, name: string, value: real, key: string)
    ensures var y := Put(x, device, param, name, value).metrics;
      if key != Key(device.sn, name) then (key in y <==> key in x.metrics) && (key in y ==> y[key] == x.metrics[key])
      else key in y && y[key] == if key in x.metrics then x.metrics[key].(value := value)
                                 else PromSample(device.sn, device.name, name, value)
  {
  }

  lemma MeasuredAt(x: Index, d: Device, param: string, value: real, prefix: string, key: string)
    requires key == Key(d.sn, MetricName(prefix, param))
    ensures var y := Measured(x, d, param, value, prefix).metrics;
      key in y && y[key] == if key in x.metrics then x.metrics[key].(value := Shown(prefix, param, value))
                            else PromSample(d.sn, d.name, MetricName(prefix, param), Shown(prefix, param, value))
  {
    PutAt(x, d, param, MetricName(prefix, param), value, key);
    PutAt(Put(x, d, param, MetricName(prefix, param), value), d, "online", OnlineName(prefix), 1.0, key);
    if key == Key(d.sn, OnlineName(prefix)) { SameTail(d.sn, MetricName(prefix, param), OnlineName(prefix)); }
  }

  lemma TwoMeasured(a: Device, m: string, v: real, b: Device, n: string, w: real, prefix: string)
    requires SameKey(a.sn, m, b.sn, n, prefix)
    ensures var x := Measured(Measured(Index(map[], map[]), a, m, v, prefix), b, n, w, prefix);
      var name := MetricName(prefix, m);
      && Key(a.sn, name) in x.metrics
      && x.metrics[Key(a.sn, name)] == PromSample(a.sn, a.name, name, Shown(prefix, n, w))
  {
    var key := Key(a.sn, MetricName(prefix, m));
    MeasuredAt(Index(map[], map[]), a, m, v, prefix, key);
    MeasuredAt(Measured(Index(map[], map[]), a, m, v, prefix), b, n, w, prefix, key);
  }

  lemma CarriedOnce(c: Config, r: Run, a: string, m: string, v: real)
    requires |r| == 4 && r[..2] == Sending(a, m, v, c.prefix) && r[2].Merge? && r[3].Online? && r[3].sn != a
    requires IsNameTail(m)
    ensures CarriedLast(c, r, a, MetricName(c.prefix, m), 1, v)
  {
    var params := map[m := Number(v)];
    NameTailsAreFixed(m, true, false);
    assert r[..1] == [Merge(a, params)] by { assert r[..1] == r[..2][..1]; }
    assert Init(r[..1]) == [];
    assert Sent(r[..1], a) == map[] + params == params;
    assert CarriedBy(params, c.prefix, MetricName(c.prefix, m), m);
    assert r[1] == r[..2][1];
  }

  /** And a number of the one as the status of the other: here an offline device shows what the other
      one measures. */
  lemma ClashingSerialsShowOnline(c: Config, a: string, b: string, v: real) returns (r: Run)
    requires a in c.devices && b in c.devices && Shadows(a, b, c.prefix)
    ensures Legal(c, r) && LatestUpdate(r, b, 0) && r[0] == Offline(b)
    ensures Series(After(c, r).index, b, OnlineName(c.prefix)) == Some(v)
  {
    var m := ShadowedOnline(a, b, c.prefix);
    var first := FirstReport(c, b);
    r := FirstSending(c, first, a, m, v);
    IndexIsWellKept(c, r);
    OnlineMeasured(After(c, first).index, DeviceOf(c, a, 1), m, v, b, c.prefix);
  }

  lemma ShadowedOnline(a: string, b: string, prefix: string) returns (m: string)
    requires Shadows(a, b, prefix)
    ensures IsNameTail(m) && Key(a, MetricName(prefix, m)) == Key(b, OnlineName(prefix))
  {
    OnlineTail();
    m := ShadowedTail(a, b, prefix, "online");
  }

  lemma OnlineMeasured(x: Index, a: Device, m: string, v: real, b: string, prefix: string)
    requires Key(a.sn, MetricName(prefix, m)) == Key(b, OnlineName(prefix)) && |a.sn| < |b|
    requires var key := Key(b, OnlineName(prefix));
      key in x.metrics && x.metrics[key].sn == b && x.metrics[key].name == OnlineName(prefix)
    requires Keyed(Measured(x, a, m, v, prefix), prefix)
    ensures Series(Measured(x, a, m, v, prefix), b, OnlineName(prefix)) == Some(v)
  {
    var key := Key(b, OnlineName(prefix));
    assert |key| == |a.sn| + 1 + |MetricName(prefix, m)|;
    assert |MetricName(prefix, m)| > |OnlineName(prefix)|;
    MeasuredAt(x, a, m, v, prefix, key);
    SeriesOf(Measured(x, a, m, v, prefix), prefix, key);
  }

  lemma FirstReport(c: Config, b: string) returns (r: Run)
    requires b in c.devices
    ensures r == [Offline(b)] && Legal(c, r) && After(c, r).pending.Nothing? && forall d :: Sent(r, d) == map[]
    ensures var x, key := After(c, r).index, Key(b, OnlineName(c.prefix));
      key in x.metrics && x.metrics[key].sn == b && x.metrics[key].name == OnlineName(c.prefix)
  {
    r := [Offline(b)];
    Extend(c, [], Offline(b));
    assert [] + [Offline(b)] == [Offline(b)];
    assert Init([Offline(b)]) == [];
    var empty := Index(map[], map[]);
    assert DropSeries(empty, b, OnlineName(c.prefix)) == empty;
    PutAt(empty, DeviceOf(c, b, 0), "online", OnlineName(c.prefix), 0.0, Key(b, OnlineName(c.prefix)));
  }

  // ---------------------------------------------------------------------------
  // Exact conditions
  // ---------------------------------------------------------------------------

  ghost predicate SeriesFollows(c: Config, r: Run, sn: string, name: string) {
    forall value :: Series(After(c, r).index, sn, name) == Some(value) <==>
                    exists i :: CarriedLast(c, r, sn, name, i, value)
  }

  ghost predicate OnlineFollows(c: Config, r: Run, sn: string) {
    forall i :: LatestUpdate(r, sn, i) ==>
                  Series(After(c, r).index, sn, OnlineName(c.prefix)) == Some(if r[i].Online? then 1.0 else 0.0)
  }

  /** A series follows its history in all runs. */
  ghost predicate SeriesKept(c: Config, sn: string, name: string) {
    forall r | Legal(c, r) && Unambiguous(c, r, sn, name) :: SeriesFollows(c, r, sn, name)
  }

  ghost predicate OnlineKept(c: Config, sn: string) { forall r | Legal(c, r) :: OnlineFollows(c, r, sn) }

  /** One series of a configured device follows its history in all runs exactly when no metric of
      another configured device is stored under its key. */
  lemma SeriesKeptExactly(c: Config, sn: string, name: string)
    requires sn in c.devices && name != OnlineName(c.prefix)
    ensures OwnKey(c.devices.Keys, c.prefix, sn, name) <==> SeriesKept(c, sn, name)
  {
    if OwnKey(c.devices.Keys, c.prefix, sn, name) {
      forall r | Legal(c, r) && Unambiguous(c, r, sn, name) ensures SeriesFollows(c, r, sn, name) {
        forall value { SeriesIsLastCarried(c, r, sn, name, value); }
      }
    } else {
      var m, b, n :| name == MetricName(c.prefix, m) && b in c.devices && b != sn && SameKey(sn, m, b, n, c.prefix);
      var r := ClashingKeysOverwrite(c, sn, m, b, n, 2.0, 1.0);
      assert !SeriesFollows(c, r, sn, name);
    }
  }

  /** The online series of a configured device follows its status in all runs exactly when its serial
      number is not shadowed; the one that shadows it need not be shown wrongly itself. */
  lemma OnlineKeptExactly(c: Config, sn: string)
    requires sn in c.devices
    ensures Unshadowed(c.devices.Keys, c.prefix, sn) <==> OnlineKept(c, sn)
  {
    if Unshadowed(c.devices.Keys, c.prefix, sn) {
      forall r | Legal(c, r) ensures OnlineFollows(c, r, sn) {
        OnlineIsLastStatus(c, r, sn);
      }
    } else {
      var a :| a in c.devices && a != sn && Shadows(a, sn, c.prefix);
      var r := ClashingSerialsShowOnline(c, a, sn, 2.0);
      assert !OnlineFollows(c, r, sn);
    }
  }

  lemma SharedName(sns: set<string>, a: string, b: string, prefix: string) returns (name: string)
    requires b in sns && a != b && Shadows(a, b, prefix)
    ensures name != OnlineName(prefix) && !OwnKey(sns, prefix, a, name)
  {
    var m := ShadowedTail(a, b, prefix, "x");
    name := MetricName(prefix, m);
    assert SameKey(a, m, b, "x", prefix);
    OnlineTail();
    assert name[|name| - 1] == 'x' && OnlineName(prefix)[|OnlineName(prefix)| - 1] == 'e';
  }

  /** All series of all devices do exactly when no configured serial number shadows another one. */
  lemma SerialsApartExactly(c: Config)
    ensures Apart(c.devices.Keys, c.prefix) <==>
            forall sn, name | sn in c.devices && name != OnlineName(c.prefix) :: SeriesKept(c, sn, name)
    ensures Apart(c.devices.Keys, c.prefix) <==> forall sn | sn in c.devices :: OnlineKept(c, sn)
  {
    if Apart(c.devices.Keys, c.prefix) {
      forall sn, name | sn in c.devices && name != OnlineName(c.prefix) ensures SeriesKept(c, sn, name) {
        ApartOwnsKeys(c.devices.Keys, c.prefix, sn, name);
        SeriesKeptExactly(c, sn, name);
      }
      forall sn | sn in c.devices ensures OnlineKept(c, sn) {
        ApartOwnsKeys(c.devices.Keys, c.prefix, sn, "");
        OnlineKeptExactly(c, sn);
      }
    } else {
      var a, b :| a in c.devices && b in c.devices && a != b && Shadows(a, b, c.prefix);
      OnlineKeptExactly(c, b);
      var name := SharedName(c.devices.Keys, a, b, c.prefix);
      SeriesKeptExactly(c, a, name);
    }
  }

  // ---------------------------------------------------------------------------
  // The order of the samples
  // ---------------------------------------------------------------------------

  /** The same run, but for the order in which updates got their samples. */
  predicate SameButOrder(r: Run, s: Run) {
    |r| == |s| && forall k | 0 <= k < |r| :: r[k] == s[k] || (r[k].Online? && s[k].Online? && r[k].sn == s[k].sn)
  }

  lemma {:induction false} SameHistory(r: Run, s: Run, sn: string)
    requires SameButOrder(r, s)
    ensures Sent(r, sn) == Sent(s, sn)
    decreases |r|
  {
    if r != [] { SameHistory(Init(r), Init(s), sn); }
  }

  lemma SameDecision(c: Config, r: Run, s: Run, sn: string, name: string, i: int)
    requires SameButOrder(r, s)
    ensures Decides(c, r, sn, name, i) <==> Decides(c, s, sn, name, i)
  {
    forall j | 0 <= j < |r| ensures Carries(c, r, sn, name, j) == Carries(c, s, sn, name, j) {
      SameHistory(r[..j], s[..j], sn);
    }
  }

  /** Both runs are legal and can go on in the same ways: the index has no say in that. */
  ghost predicate Twins(c: Config, r: Run, s: Run) {
    && Legal(c, r) && Legal(c, s) && SameButOrder(r, s)
    && After(c, s).cache == After(c, r).cache && After(c, s).pending == After(c, r).pending
  }

  lemma TwinsGoOn(c: Config, r: Run, s: Run, e: Event)
    requires Twins(c, r, s) && Legal(c, r + [e])
    ensures Twins(c, r + [e], s + [e])
  {
    Extend(c, r, e);
    Extend(c, s, e);
  }

  lemma TwinUpdates(c: Config, r: Run, e: Event, samples: seq<Sample>)
    requires Legal(c, r + [e]) && e.Online? && AreSamplesOf(samples, Sent(r, e.sn), c.prefix)
    ensures Twins(c, r + [e], r + [Online(e.sn, samples)])
  {
    Extend(c, r, e);
    Extend(c, r, Online(e.sn, samples));
    CacheIsHistory(c, r);
  }

  lemma {:induction false} Reordered(c: Config, r: Run, i: nat, samples: seq<Sample>) returns (s: Run)
    requires Legal(c, r) && i < |r| && r[i].Online? && AreSamplesOf(samples, Sent(r[..i], r[i].sn), c.prefix)
    ensures Twins(c, r, s) && s[i] == Online(r[i].sn, samples)
  {
    assert Init(r) + [Last(r)] == r;
    if i < |r| - 1 {
      assert Init(r)[..i] == r[..i];
      var t := Reordered(c, Init(r), i, samples);
      TwinsGoOn(c, Init(r), t, Last(r));
      s := t + [Last(r)];
    } else {
      TwinUpdates(c, Init(r), Last(r), samples);
      s := Init(r) + [Online(r[i].sn, samples)];
    }
  }

  lemma SeriesIsDecided(c: Config, r: Run, sn: string, name: string, i: int)
    requires Legal(c, r) && OwnKey(c.devices.Keys, c.prefix, sn, name) && name != OnlineName(c.prefix)
    requires Decides(c, r, sn, name, i)
    ensures Series(After(c, r).index, sn, name) == LastNumeric(r[i].samples, name)
    ensures AreSamplesOf(r[i].samples, Sent(r[..i], sn), c.prefix)
  {
    IndexIsExposed(c, r, sn, name);
    ExposedMeaning(c, r, sn, name);
    SamplesOfSent(c, r, i);
  }

  /** A series does not depend on the orders in which a run's updates got their samples exactly when the
      numbers under its name agree in the one update that decides. */
  lemma OrderDecidesExactly(c: Config, r: Run, sn: string, name: string)
    requires Legal(c, r) && OwnKey(c.devices.Keys, c.prefix, sn, name) && name != OnlineName(c.prefix)
    ensures (forall s | Legal(c, s) && SameButOrder(r, s) ::
               Series(After(c, s).index, sn, name) == Series(After(c, r).index, sn, name))
       <==> Unambiguous(c, r, sn, name)
  {
    if Unambiguous(c, r, sn, name) {
      forall s | Legal(c, s) && SameButOrder(r, s)
        ensures Series(After(c, s).index, sn, name) == Series(After(c, r).index, sn, name)
      {
        SameWhenAgreed(c, r, s, sn, name);
      }
    } else {
      var s, t := OrdersDiffer(c, r, sn, name);
      assert Series(After(c, s).index, sn, name) != Series(After(c, t).index, sn, name);
    }
  }

  lemma OrdersDiffer(c: Config, r: Run, sn: string, name: string) returns (s: Run, t: Run)
    requires Legal(c, r) && OwnKey(c.devices.Keys, c.prefix, sn, name) && name != OnlineName(c.prefix)
    requires !Unambiguous(c, r, sn, name)
    ensures Legal(c, s) && Legal(c, t) && SameButOrder(r, s) && SameButOrder(r, t)
    ensures Series(After(c, s).index, sn, name) != Series(After(c, t).index, sn, name)
  {
    var i :| Decides(c, r, sn, name, i) && !NumbersAgree(Sent(r[..i], sn), c.prefix, name);
    var a, b := Disagreeing(Sent(r[..i], sn), c.prefix, name);
    s := WithSamples(c, r, sn, name, i, a);
    t := WithSamples(c, r, sn, name, i, b);
  }

  lemma SameWhenAgreed(c: Config, r: Run, s: Run, sn: string, name: string)
    requires Legal(c, r) && OwnKey(c.devices.Keys, c.prefix, sn, name) && name != OnlineName(c.prefix)
    requires Legal(c, s) && SameButOrder(r, s) && Unambiguous(c, r, sn, name)
    ensures Series(After(c, s).index, sn, name) == Series(After(c, r).index, sn, name)
  {
    if i :| Decides(c, r, sn, name, i) {
      SameDecision(c, r, s, sn, name, i);
      SeriesIsDecided(c, r, sn, name, i);
      SeriesIsDecided(c, s, sn, name, i);
      SameHistory(r[..i], s[..i], sn);
      SamplesCarryNumeric(r[i].samples, Sent(r[..i], sn), c.prefix, name);
      SamplesCarryNumeric(s[i].samples, Sent(r[..i], sn), c.prefix, name);
    } else {
      SeriesIsCarried(c, r, sn, name);
      SeriesIsCarried(c, s, sn, name);
      if i :| Decides(c, s, sn, name, i) { SameDecision(c, r, s, sn, name, i); }
    }
  }

  lemma WithSamples(c: Config, r: Run, sn: string, name: string, i: int, samples: seq<Sample>) returns (s: Run)
    requires Legal(c, r) && OwnKey(c.devices.Keys, c.prefix, sn, name) && name != OnlineName(c.prefix)
    requires Decides(c, r, sn, name, i) && AreSamplesOf(samples, Sent(r[..i], sn), c.prefix)
    ensures Legal(c, s) && SameButOrder(r, s)
    ensures Series(After(c, s).index, sn, name) == LastNumeric(samples, name)
  {
    s := Reordered(c, r, i, samples);
    SameDecision(c, r, s, sn, name, i);
    SeriesIsDecided(c, s, sn, name, i);
  }
}
