/** The Prometheus exporter's index of series, and the simple map it stands for. */
module MetricStore {
  import opened Options
  import opened Values
  import opened Naming
  import opened SeriesKeys
  import opened DeviceUpdates

  datatype PromSample = PromSample(sn: string, device: string, name: string, value: real)

  /** A descriptor is represented by the parameter its help text mentions. */
  datatype Index = Index(metrics: map<string, PromSample>, descs: map<string, string>)

  function OnlineName(prefix: string): string { MetricName(prefix, MetricTail("online")) }

  // ---------------------------------------------------------------------------
  // The updates of the index
  // ---------------------------------------------------------------------------

  function Put(x: Index, device: Device, param: string, name: string, value: real): Index {
    var key := Key(device.sn, name);
    if key in x.metrics then x.(metrics := x.metrics[key := x.metrics[key].(value := value)])
    else Index(x.metrics[key := PromSample(device.sn, device.name, name, value)],
               if name in x.descs then x.descs else x.descs[name := param])
  }

  function PutAll(x: Index, device: Device, samples: seq<Sample>): Index {
    if samples == [] then x
    else
      var before, s := PutAll(x, device, samples[..|samples| - 1]), samples[|samples| - 1];
      if s.value.None? then before else Put(before, device, s.param, s.name, s.value.value)
  }

  predicate Dropped(s: PromSample, sn: string, onlineName: string) { s.sn == sn && s.name != onlineName }

  function DropSeries(x: Index, sn: string, onlineName: string): Index {
    x.(metrics := map k | k in x.metrics && !Dropped(x.metrics[k], sn, onlineName) :: x.metrics[k])
  }

  function Handled(x: Index, device: Device, samples: seq<Sample>, prefix: string): Index {
    var onlineName := OnlineName(prefix);
    var y := if device.online == 0 then DropSeries(x, device.sn, onlineName) else PutAll(x, device, samples);
    Put(y, device, "online", onlineName, device.online as real)
  }

  datatype Metric = Metric(name: string, device: string, sn: string, value: real, help: string)

  class PrometheusExporter {
    const prefix: string
    var metrics: map<string, PromSample>
    var descs: map<string, string>

    function Contents(): Index
      reads this
    {
      Index(metrics, descs)
    }

    constructor (prefix: string)
      ensures this.prefix == prefix && Contents() == Index(map[], map[])
    {
      this.prefix, metrics, descs := prefix, map[], map[];
    }

    /** `samples` is the order in which this call happened to get them. */
    method Handle(u: DeviceUpdate) returns (ghost samples: seq<Sample>)
      requires u.Valid()
      modifies this, u`samples
      ensures u.Valid() && AreSamplesOf(samples, u.params.entries, prefix)
      ensures Contents() == Handled(old(Contents()), u.device, samples, prefix)
    {
      var device := u.device;
      var list := u.Samples(prefix);
      samples := list;
      var online := EcoflowParamToPrometheusMetric("online");
      var onlineName := prefix + "_" + online.value;
      if device.online == 0 {
        DropLocked(device.sn, onlineName);
      } else {
        SetAllLocked(device, list);
      }
      SetLocked(device, "online", onlineName, device.online as real);
    }

    method DropLocked(sn: string, onlineName: string)
      modifies this`metrics
      ensures Contents() == DropSeries(old(Contents()), sn, onlineName)
    {
      var remaining := metrics.Keys;
      ghost var before := metrics;
      while remaining != {}
        invariant remaining <= metrics.Keys
        invariant metrics == map k | k in before && (k in remaining || !Dropped(before[k], sn, onlineName)) :: before[k]
        decreases remaining
      {
        var key :| key in remaining;
        var s := metrics[key];
        if s.sn == sn && s.name != onlineName {
          metrics := metrics - {key};
        }
        remaining := remaining - {key};
      }
    }

    method SetAllLocked(device: Device, list: seq<Sample>)
      modifies this
      ensures Contents() == PutAll(old(Contents()), device, list)
    {
      var i := 0;
      while i < |list|
        invariant 0 <= i <= |list|
        invariant Contents() == PutAll(old(Contents()), device, list[..i])
      {
        var s := list[i];
        assert list[..i + 1][..i] == list[..i];
        if s.value.Some? {
          SetLocked(device, s.param, s.name, s.value.value);
        }
        i := i + 1;
      }
      assert list[..i] == list;
    }

    method SetLocked(device: Device, param: string, metricName: string, value: real)
      modifies this
      ensures Contents() == Put(old(Contents()), device, param, metricName, value)
    {
      var deviceMetricName := device.sn + "_" + metricName;
      if deviceMetricName !in metrics {
        if metricName !in descs {
          descs := descs[metricName := param];
        }
        metrics := metrics[deviceMetricName := PromSample(device.sn, device.name, metricName, 0.0)];
      }
      metrics := metrics[deviceMetricName := metrics[deviceMetricName].(value := value)];
    }

    /** Emits every series once. The descriptor is looked up without a check: that it is there is a
        property of the index. */
    method Collect() returns (out: seq<Metric>)
      requires Keyed(Contents(), prefix)
      ensures |out| == |metrics|
      ensures (set m | m in out :: Key(m.sn, m.name)) == metrics.Keys
      ensures forall m | m in out ::
                var s := metrics[Key(m.sn, m.name)];
                && m.sn == s.sn && m.name == s.name && m.device == s.device && m.value == s.value
                && s.name in descs && m.help == descs[s.name]
      ensures forall m | m in out :: Series(Contents(), m.sn, m.name) == Some(m.value)
      ensures forall i, j | 0 <= i < j < |out| :: Labels(out[i]) != Labels(out[j])
    {
      out := [];
      ghost var x := Contents();
      var remaining := metrics.Keys;
      while remaining != {}
        invariant Emitted(x, out, remaining)
        decreases remaining
      {
        var key :| key in remaining;
        var s := metrics[key];
        var m := Metric(s.name, s.device, s.sn, s.value, descs[s.name]);
        EmitOne(x, out, remaining, m);
        out := out + [m];
        remaining := remaining - {key};
      }
      EmittedSeries(x, prefix, out);
      assert (set m | m in out :: Key(m.sn, m.name)) == KeysOf(out);
    }
  }

  function KeyOf(m: Metric): string { Key(m.sn, m.name) }

  /** A stored sample as it is emitted, with the help text of its name. */
  predicate Shows(x: Index, m: Metric) {
    && KeyOf(m) in x.metrics
    && var s := x.metrics[KeyOf(m)];
      && m.name == s.name && m.device == s.device && m.sn == s.sn && m.value == s.value
      && s.name in x.descs && m.help == x.descs[s.name]
  }

  function KeysOf(out: seq<Metric>): set<string> { set m | m in out :: KeyOf(m) }

  /** All series but the remaining ones have been emitted, each once. */
  ghost predicate Emitted(x: Index, out: seq<Metric>, remaining: set<string>) {
    && remaining <= x.metrics.Keys && |out| + |remaining| == |x.metrics|
    && KeysOf(out) == x.metrics.Keys - remaining
    && (forall m | m in out :: Shows(x, m))
    && (forall i, j | 0 <= i < j < |out| :: Labels(out[i]) != Labels(out[j]))
  }

  lemma KeysOfOneMore(out: seq<Metric>, m: Metric)
    ensures KeysOf(out + [m]) == KeysOf(out) + {KeyOf(m)}
    ensures forall n :: n in out + [m] <==> n in out || n == m
  {
  }

  lemma EmitOne(x: Index, out: seq<Metric>, remaining: set<string>, m: Metric)
    requires Emitted(x, out, remaining) && KeyOf(m) in remaining && Shows(x, m)
    ensures Emitted(x, out + [m], remaining - {KeyOf(m)})
  {
    KeysOfOneMore(out, m);
    forall i | 0 <= i < |out| ensures Labels(out[i]) != Labels(m) {
      assert out[i] in out && KeyOf(out[i]) in KeysOf(out);
    }
  }

  lemma EmittedSeries(x: Index, prefix: string, out: seq<Metric>)
    requires Emitted(x, out, {}) && Keyed(x, prefix)
    ensures forall m | m in out :: Series(x, m.sn, m.name) == Some(m.value)
  {
    forall m | m in out ensures Series(x, m.sn, m.name) == Some(m.value) {
      assert KeyOf(m) in KeysOf(out);
      SeriesOf(x, prefix, KeyOf(m));
    }
  }

  function Labels(m: Metric): (string, string) { (m.sn, m.name) }

  // ---------------------------------------------------------------------------
  // What every update keeps
  // ---------------------------------------------------------------------------

  predicate IsMetricName(name: string, prefix: string) {
    prefix + "_" <= name && IsNameTail(name[|prefix| + 1..])
  }

  /** The name is the metric name of the parameter. */
  predicate Names(param: string, name: string, prefix: string) {
    param != "" && name == MetricName(prefix, MetricTail(param))
  }

  /** Every key is its sample's serial number and name, and every name has a descriptor. */
  predicate Keyed(x: Index, prefix: string) {
    forall k | k in x.metrics ::
      && k == Key(x.metrics[k].sn, x.metrics[k].name)
      && IsMetricName(x.metrics[k].name, prefix)
      && x.metrics[k].name in x.descs
  }

  /** And every descriptor speaks of a parameter that has its name. */
  predicate WellKept(x: Index, prefix: string) {
    Keyed(x, prefix) && forall n | n in x.descs :: Names(x.descs[n], n, prefix)
  }

  predicate Named(samples: seq<Sample>, prefix: string) {
    forall s | s in samples :: Names(s.param, s.name, prefix)
  }

  lemma NamedIsMetricName(param: string, name: string, prefix: string)
    requires Names(param, name, prefix)
    ensures IsMetricName(name, prefix)
  {
    ConvertedIsNameTail(param, true, false);
    var front := prefix + "_";
    assert name == front + MetricTail(param);
    assert name[|front|..] == MetricTail(param);
  }

  lemma SamplesAreNamed(samples: seq<Sample>, params: Params, prefix: string)
    requires AreSamplesOf(samples, params, prefix)
    ensures Named(samples, prefix)
  {
  }

  lemma PutKeeps(x: Index, device: Device, param: string, name: string, value: real, prefix: string)
    requires WellKept(x, prefix) && Names(param, name, prefix)
    ensures WellKept(Put(x, device, param, name, value), prefix)
  {
    NamedIsMetricName(param, name, prefix);
  }

  lemma {:induction false} PutAllKeeps(x: Index, device: Device, samples: seq<Sample>, prefix: string)
    requires WellKept(x, prefix) && Named(samples, prefix)
    ensures WellKept(PutAll(x, device, samples), prefix)
    decreases samples
  {
    if samples != [] {
      assert forall s | s in samples[..|samples| - 1] :: s in samples;
      PutAllKeeps(x, device, samples[..|samples| - 1], prefix);
      var s := samples[|samples| - 1];
      if s.value.Some? {
        PutKeeps(PutAll(x, device, samples[..|samples| - 1]), device, s.param, s.name, s.value.value, prefix);
      }
    }
  }

  /** No update of any device breaks the index, whatever the serial numbers look like. */
  lemma HandledKeeps(x: Index, device: Device, samples: seq<Sample>, params: Params, prefix: string)
    requires WellKept(x, prefix) && AreSamplesOf(samples, params, prefix)
    ensures WellKept(Handled(x, device, samples, prefix), prefix)
  {
    SamplesAreNamed(samples, params, prefix);
    var onlineName := OnlineName(prefix);
    if device.online == 0 {
      PutKeeps(DropSeries(x, device.sn, onlineName), device, "online", onlineName, device.online as real, prefix);
    } else {
      PutAllKeeps(x, device, samples, prefix);
      PutKeeps(PutAll(x, device, samples), device, "online", onlineName, device.online as real, prefix);
    }
  }

  // ---------------------------------------------------------------------------
  // The map from (serial number, name) that the index stands for
  // ---------------------------------------------------------------------------

  /** Every series belongs to one of the devices and carries its display name. */
  predicate Labelled(x: Index, names: map<string, string>) {
    forall k | k in x.metrics :: IsDevice(x.metrics[k].sn, x.metrics[k].device, names)
  }

  predicate IsDevice(sn: string, name: string, names: map<string, string>) { sn in names && names[sn] == name }

  /** The value of the series with these labels. */
  ghost function Series(x: Index, sn: string, name: string): Option<real> {
    if k: string :| k in x.metrics && x.metrics[k].sn == sn && x.metrics[k].name == name then Some(x.metrics[k].value)
    else None
  }

  lemma SeriesOf(x: Index, prefix: string, key: string)
    requires Keyed(x, prefix) && key in x.metrics
    ensures var s := x.metrics[key];
      Series(x, s.sn, s.name) == Some(s.value)
  {
  }

  lemma SeriesByKey(x: Index, prefix: string, sn: string, name: string, names: map<string, string>)
    requires Keyed(x, prefix) && Labelled(x, names) && OwnKey(names.Keys, prefix, sn, name)
    requires IsMetricName(name, prefix)
    ensures Series(x, sn, name) ==
            if Key(sn, name) in x.metrics then Some(x.metrics[Key(sn, name)].value) else None
    ensures Key(sn, name) in x.metrics ==>
              x.metrics[Key(sn, name)].sn == sn && x.metrics[Key(sn, name)].name == name
  {
    var key := Key(sn, name);
    if key in x.metrics { NotShared(names.Keys, prefix, sn, name, x.metrics[key].sn, x.metrics[key].name); }
  }

  lemma NotShared(sns: set<string>, prefix: string, sn: string, name: string, b: string, other: string)
    requires OwnKey(sns, prefix, sn, name) && IsMetricName(name, prefix) && IsMetricName(other, prefix) && b in sns
    ensures Key(sn, name) == Key(b, other) ==> sn == b && name == other
  {
    var m, n := name[|prefix| + 1..], other[|prefix| + 1..];
    assert name == MetricName(prefix, m) && other == MetricName(prefix, n);
    if Key(sn, name) == Key(b, other) {
      assert b != sn ==> SameKey(sn, m, b, n, prefix);
      SameTail(sn, name, other);
    }
  }

  lemma NoSuchSeries(x: Index, prefix: string, sn: string, name: string)
    requires Keyed(x, prefix) && !IsMetricName(name, prefix)
    ensures Series(x, sn, name).None?
  {
  }

  lemma PutRefines(x: Index, device: Device, param: string, name: string, value: real,
                   prefix: string, names: map<string, string>, sn: string, n: string)
    requires WellKept(x, prefix) && Labelled(x, names) && OwnKey(names.Keys, prefix, sn, n)
    requires IsDevice(device.sn, device.name, names) && Names(param, name, prefix)
    ensures var y := Put(x, device, param, name, value);
      && WellKept(y, prefix) && Labelled(y, names)
      && Series(y, sn, n) == if (sn, n) == (device.sn, name) then Some(value) else Series(x, sn, n)
  {
    var y := Put(x, device, param, name, value);
    NamedIsMetricName(param, name, prefix);
    PutKeeps(x, device, param, name, value, prefix);
    assert Labelled(y, names);
    if IsMetricName(n, prefix) {
      NotShared(names.Keys, prefix, sn, n, device.sn, name);
      SeriesByKey(x, prefix, sn, n, names);
      SeriesByKey(y, prefix, sn, n, names);
    } else {
      NoSuchSeries(x, prefix, sn, n);
      NoSuchSeries(y, prefix, sn, n);
    }
  }

  lemma DropRefines(x: Index, gone: string, onlineName: string,
                    prefix: string, names: map<string, string>, sn: string, n: string)
    requires WellKept(x, prefix) && Labelled(x, names) && OwnKey(names.Keys, prefix, sn, n)
    ensures var y := DropSeries(x, gone, onlineName);
      && WellKept(y, prefix) && Labelled(y, names)
      && Series(y, sn, n) == if sn == gone && n != onlineName then None else Series(x, sn, n)
  {
    var y := DropSeries(x, gone, onlineName);
    if IsMetricName(n, prefix) {
      SeriesByKey(x, prefix, sn, n, names);
      SeriesByKey(y, prefix, sn, n, names);
    } else {
      NoSuchSeries(x, prefix, sn, n);
      NoSuchSeries(y, prefix, sn, n);
    }
  }

  /** The number carried last under a name. */
  function LastNumeric(samples: seq<Sample>, name: string): Option<real> {
    if samples == [] then None
    else
      var s := samples[|samples| - 1];
      if s.name == name && s.value.Some? then s.value else LastNumeric(samples[..|samples| - 1], name)
  }

  lemma {:induction false} PutAllRefines(x: Index, device: Device, samples: seq<Sample>,
                                         prefix: string, names: map<string, string>, sn: string, n: string)
    requires WellKept(x, prefix) && Labelled(x, names) && OwnKey(names.Keys, prefix, sn, n)
    requires IsDevice(device.sn, device.name, names) && Named(samples, prefix)
    ensures var y := PutAll(x, device, samples);
      && WellKept(y, prefix) && Labelled(y, names)
      && Series(y, sn, n) ==
         if sn == device.sn && LastNumeric(samples, n).Some? then LastNumeric(samples, n) else Series(x, sn, n)
    decreases samples
  {
    if samples != [] {
      var front, s := samples[..|samples| - 1], samples[|samples| - 1];
      assert forall t | t in front :: t in samples;
      PutAllRefines(x, device, front, prefix, names, sn, n);
      if s.value.Some? {
        PutRefines(PutAll(x, device, front), device, s.param, s.name, s.value.value, prefix, names, sn, n);
      }
    }
  }

  /** One update, seen on the map of series. The online series takes the status of the update, even if
      the device sends a parameter of that name. An offline update leaves nothing else of its device;
      an online one sets what it carries as a number and leaves the rest. No other device changes. */
  lemma HandledRefines(x: Index, device: Device, samples: seq<Sample>, params: Params,
                       prefix: string, names: map<string, string>, sn: string, n: string)
    requires WellKept(x, prefix) && Labelled(x, names) && OwnKey(names.Keys, prefix, sn, n)
    requires AreSamplesOf(samples, params, prefix) && IsDevice(device.sn, device.name, names)
    ensures var y := Handled(x, device, samples, prefix);
      && WellKept(y, prefix) && Labelled(y, names)
      && Series(y, sn, n) ==
         if sn != device.sn then Series(x, sn, n)
         else if n == OnlineName(prefix) then Some(device.online as real)
         else if device.online == 0 then None
         else if LastNumeric(samples, n).Some? then LastNumeric(samples, n)
         else Series(x, sn, n)
  {
    var onlineName := OnlineName(prefix);
    SamplesAreNamed(samples, params, prefix);
    if device.online == 0 {
      DropRefines(x, device.sn, onlineName, prefix, names, sn, n);
      PutRefines(DropSeries(x, device.sn, onlineName), device, "online", onlineName, device.online as real,
                 prefix, names, sn, n);
    } else {
      PutAllRefines(x, device, samples, prefix, names, sn, n);
      PutRefines(PutAll(x, device, samples), device, "online", onlineName, device.online as real,
                 prefix, names, sn, n);
    }
  }
}
