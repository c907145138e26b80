/** From sparse parameter maps to exposed series, over every run of the MQTT exporter.

    A message is handled in two critical sections, the merge into the cache and the update of the
    index; the monitor's offline updates may come between them. One message callback runs at a time. */
module Pipeline {
  import opened Options
  import opened Sequences
  import opened Values
  import opened Naming
  import opened SeriesKeys
  import opened DeviceUpdates
  import opened MetricStore

  datatype Config = Config(devices: map<string, string>, prefix: string)

  datatype Event =
    | Merge(sn: string, params: Params)
    | Online(sn: string, samples: seq<Sample>)  // the full state reaches the index, in this order
    | Offline(sn: string)

  type Run = seq<Event>

  datatype Pending = Nothing | Snapshot(sn: string, fullState: Params)

  datatype World = World(cache: map<string, Params>, pending: Pending, index: Index)

  function Cached(cache: map<string, Params>, sn: string): Params {
    if sn in cache then cache[sn] else map[]
  }

  predicate Enabled(c: Config, w: World, e: Event) {
    match e
    case Merge(sn, params) => sn in c.devices && w.pending.Nothing? && params != map[]
    case Online(sn, samples) =>
      w.pending.Snapshot? && w.pending.sn == sn && AreSamplesOf(samples, w.pending.fullState, c.prefix)
    case Offline(sn) => sn in c.devices
  }

  function Next(c: Config, w: World, e: Event): World {
    match e
    case Merge(sn, params) =>
      var fullState := Cached(w.cache, sn) + params;
      w.(cache := w.cache[sn := fullState], pending := Snapshot(sn, fullState))
    case Online(sn, samples) =>
      w.(pending := Nothing, index := Handled(w.index, DeviceOf(c, sn, 1), samples, c.prefix))
    case Offline(sn) => w.(index := Handled(w.index, DeviceOf(c, sn, 0), [], c.prefix))
  }

  function DeviceOf(c: Config, sn: string, online: int): Device {
    Device(sn, if sn in c.devices then c.devices[sn] else sn, online)
  }

  function After(c: Config, r: Run): World {
    if r == [] then World(map[], Nothing, Index(map[], map[])) else Next(c, After(c, Init(r)), Last(r))
  }

  predicate Legal(c: Config, r: Run) {
    r == [] || (Legal(c, Init(r)) && Enabled(c, After(c, Init(r)), Last(r)))
  }

  lemma Extend(c: Config, r: Run, e: Event)
    ensures Init(r + [e]) == r && Last(r + [e]) == e
    ensures Legal(c, r + [e]) <==> Legal(c, r) && Enabled(c, After(c, r), e)
    ensures After(c, r + [e]) == Next(c, After(c, r), e)
  {
  }

  // ---------------------------------------------------------------------------
  // What the history says
  // ---------------------------------------------------------------------------

  /** Position i holds the last parameter map of the device that mentions the parameter. */
  predicate LastMention(r: Run, sn: string, param: string, i: int) {
    && 0 <= i < |r| && r[i].Merge? && r[i].sn == sn && param in r[i].params
    && forall j | i < j < |r| :: !(r[j].Merge? && r[j].sn == sn && param in r[j].params)
  }

  /** The later-wins merge of every parameter map the device ever sent. */
  function Sent(r: Run, sn: string): Params {
    if r == [] then map[]
    else
      var before, e := Sent(Init(r), sn), Last(r);
      if e.Merge? && e.sn == sn then before + e.params else before
  }

  lemma {:induction false} SentIsLaterWins(r: Run, sn: string, param: string)
    ensures param in Sent(r, sn) <==> exists i :: LastMention(r, sn, param, i)
    ensures forall i :: LastMention(r, sn, param, i) ==> Sent(r, sn)[param] == r[i].params[param]
  {
    if r != [] {
      var h, n := Init(r), |r| - 1;
      SentIsLaterWins(h, sn, param);
      if r[n].Merge? && r[n].sn == sn && param in r[n].params {
        assert LastMention(r, sn, param, n);
      } else {
        assert forall j | 0 <= j < n :: h[j] == r[j];
        forall i ensures LastMention(r, sn, param, i) <==> LastMention(h, sn, param, i) {
          if LastMention(h, sn, param, i) {
            assert forall j | i < j < n :: h[j] == r[j];
          }
        }
      }
    }
  }

  /** Some parameter of the map is exported under the name, with this value. */
  predicate CarriedBy(params: Params, prefix: string, name: string, param: string) {
    param in params && param != "" && MetricName(prefix, MetricTail(param)) == name && ToFloat(params[param]).Some?
  }

  ghost predicate Exports(params: Params, prefix: string, name: string) {
    exists p :: CarriedBy(params, prefix, name, p)
  }

  /** The value is one of the numbers exported under the name. */
  ghost predicate IsExported(params: Params, prefix: string, name: string, value: Option<real>) {
    exists p :: CarriedBy(params, prefix, name, p) && ToFloat(params[p]) == value
  }

  ghost function Numeric(params: Params, prefix: string, name: string): Option<real> {
    if param: string :| CarriedBy(params, prefix, name, param) then ToFloat(params[param]) else None
  }

  /** No two of the device's parameters share a metric name. */
  predicate NamesApart(params: Params) {
    forall p, q | p in params && q in params && p != "" && q != "" && MetricTail(p) == MetricTail(q) :: p == q
  }

  /** All parameters of the map that are exported under the name carry the same number. */
  ghost predicate NumbersAgree(params: Params, prefix: string, name: string) {
    forall p, q | CarriedBy(params, prefix, name, p) && CarriedBy(params, prefix, name, q) ::
      ToFloat(params[p]) == ToFloat(params[q])
  }

  /** The update at i carries some number of the device under the name. */
  ghost predicate Carries(c: Config, r: Run, sn: string, name: string, i: nat)
    requires i < |r|
  {
    r[i].Online? && r[i].sn == sn && Exports(Sent(r[..i], sn), c.prefix, name)
  }

  /** And since then the device has neither been reported offline nor carried a number under it. */
  ghost predicate Decides(c: Config, r: Run, sn: string, name: string, i: int) {
    && 0 <= i < |r| && Carries(c, r, sn, name, i)
    && forall j | i < j < |r| :: r[j] != Offline(sn) && !Carries(c, r, sn, name, j)
  }

  ghost predicate CarriedLast(c: Config, r: Run, sn: string, name: string, i: int, value: real) {
    Decides(c, r, sn, name, i) && Numeric(Sent(r[..i], sn), c.prefix, name) == Some(value)
  }

  /** The numbers agree in the update that decides, if there is one. */
  ghost predicate Unambiguous(c: Config, r: Run, sn: string, name: string) {
    forall i | Decides(c, r, sn, name, i) :: NumbersAgree(Sent(r[..i], sn), c.prefix, name)
  }

  predicate StatusOf(e: Event, sn: string) { !e.Merge? && e.sn == sn }

  /** The latest update of the device is at i. */
  predicate LatestUpdate(r: Run, sn: string, i: int) {
    0 <= i < |r| && StatusOf(r[i], sn) && forall j | i < j < |r| :: !StatusOf(r[j], sn)
  }

  // ---------------------------------------------------------------------------
  // The cache
  // ---------------------------------------------------------------------------

  /** A device's cache depends on its own messages only, however the devices are interleaved, and the
      full state on its way to the handlers is the cache as it was merged. */
  lemma {:induction false} CacheIsHistory(c: Config, r: Run)
    requires Legal(c, r)
    ensures var w := After(c, r);
      && (forall sn :: Cached(w.cache, sn) == Sent(r, sn))
      && (w.pending.Snapshot? ==> w.pending.fullState == Sent(r, w.pending.sn) && w.pending.sn in c.devices)
  {
    if r != [] {
      CacheIsHistory(c, Init(r));
    }
  }

  /** The messages of one device, in order. */
  function OwnMessages(r: Run, sn: string): seq<Params> {
    if r == [] then []
    else OwnMessages(Init(r), sn) + if Last(r).Merge? && Last(r).sn == sn then [Last(r).params] else []
  }

  lemma {:induction false} OwnMessagesDecide(c: Config, r: Run, d: Config, s: Run, sn: string)
    requires Legal(c, r) && Legal(d, s) && OwnMessages(r, sn) == OwnMessages(s, sn)
    ensures Cached(After(c, r).cache, sn) == Cached(After(d, s).cache, sn)
  {
    CacheIsHistory(c, r);
    CacheIsHistory(d, s);
    SentIsFold(r, sn);
    SentIsFold(s, sn);
  }

  function MergeAll(messages: seq<Params>): Params {
    if messages == [] then map[] else MergeAll(messages[..|messages| - 1]) + messages[|messages| - 1]
  }

  lemma {:induction false} SentIsFold(r: Run, sn: string)
    ensures Sent(r, sn) == MergeAll(OwnMessages(r, sn))
  {
    if r != [] {
      SentIsFold(Init(r), sn);
      var own := OwnMessages(r, sn);
      if Last(r).Merge? && Last(r).sn == sn {
        assert own[..|own| - 1] == OwnMessages(Init(r), sn);
        assert own[|own| - 1] == Last(r).params;
      } else {
        assert own == OwnMessages(Init(r), sn);
      }
    }
  }

  // ---------------------------------------------------------------------------
  // The series
  // ---------------------------------------------------------------------------

  /** The value history assigns to a series, as a recursion over the run. */
  ghost function Exposed(c: Config, r: Run, sn: string, name: string): Option<real> {
    if r == [] then None
    else
      var before, e := Exposed(c, Init(r), sn, name), Last(r);
      if !StatusOf(e, sn) then before
      else if name == OnlineName(c.prefix) then Some(if e.Online? then 1.0 else 0.0)
      else if e.Offline? then None
      else
        var now := LastNumeric(e.samples, name);
        if now.Some? then now else before
  }

  lemma {:induction false} LastNumericCarries(samples: seq<Sample>, name: string)
    ensures LastNumeric(samples, name).Some? ==>
              exists s :: s in samples && s.name == name && s.value == LastNumeric(samples, name)
    ensures (exists s :: s in samples && s.name == name && s.value.Some?) ==> LastNumeric(samples, name).Some?
    decreases samples
  {
    if samples != [] {
      var front, s := samples[..|samples| - 1], samples[|samples| - 1];
      LastNumericCarries(front, name);
      assert samples == front + [s];
    }
  }

  /** In any order the samples leave one of the numbers under the name, if there are any. */
  lemma SamplesCarry(samples: seq<Sample>, params: Params, prefix: string, name: string)
    requires AreSamplesOf(samples, params, prefix)
    ensures LastNumeric(samples, name).Some? <==> Exports(params, prefix, name)
    ensures LastNumeric(samples, name).Some? ==> IsExported(params, prefix, name, LastNumeric(samples, name))
  {
    LastNumericCarries(samples, name);
    forall p | CarriedBy(params, prefix, name, p) ensures LastNumeric(samples, name).Some? {
      assert p in SampledParams(samples);
      var s :| s in samples && s.param == p;
      assert s.name == name && s.value.Some?;
    }
    if LastNumeric(samples, name).Some? {
      var s :| s in samples && s.name == name && s.value == LastNumeric(samples, name);
      assert s.param in SampledParams(samples);
      assert CarriedBy(params, prefix, name, s.param);
    }
  }

  /** When the numbers agree, that one. */
  lemma SamplesCarryNumeric(samples: seq<Sample>, params: Params, prefix: string, name: string)
    requires AreSamplesOf(samples, params, prefix) && NumbersAgree(params, prefix, name)
    ensures LastNumeric(samples, name) == Numeric(params, prefix, name)
  {
    SamplesCarry(samples, params, prefix, name);
  }

  /** Samples come in the order of a Go map, which is any. The number exposed under a name does not
      depend on it exactly when all parameters with a number under that name agree on the number. */
  lemma OrderIrrelevantExactly(params: Params, prefix: string, name: string)
    ensures (forall a, b | AreSamplesOf(a, params, prefix) && AreSamplesOf(b, params, prefix) ::
               LastNumeric(a, name) == LastNumeric(b, name))
       <==> NumbersAgree(params, prefix, name)
  {
    if NumbersAgree(params, prefix, name) {
      forall a, b | AreSamplesOf(a, params, prefix) && AreSamplesOf(b, params, prefix)
        ensures LastNumeric(a, name) == LastNumeric(b, name)
      {
        SamplesCarryNumeric(a, params, prefix, name);
        SamplesCarryNumeric(b, params, prefix, name);
      }
    } else {
      var a, b := Disagreeing(params, prefix, name);
      assert LastNumeric(a, name) != LastNumeric(b, name);
    }
  }

  lemma Disagreeing(params: Params, prefix: string, name: string) returns (a: seq<Sample>, b: seq<Sample>)
    requires !NumbersAgree(params, prefix, name)
    ensures AreSamplesOf(a, params, prefix) && AreSamplesOf(b, params, prefix)
    ensures LastNumeric(a, name).Some? && LastNumeric(b, name).Some? && LastNumeric(a, name) != LastNumeric(b, name)
  {
    var p, q :| CarriedBy(params, prefix, name, p) && CarriedBy(params, prefix, name, q) &&
                ToFloat(params[p]) != ToFloat(params[q]);
    a := SamplesEndingIn(params, prefix, p);
    b := SamplesEndingIn(params, prefix, q);
  }

  /** Any parameter can come last. */
  lemma {:induction false} SamplesEndingIn(params: Params, prefix: string, p: string) returns (samples: seq<Sample>)
    requires p in params && p != ""
    ensures AreSamplesOf(samples, params, prefix)
    ensures samples != [] && samples[|samples| - 1] == SampleOf(p, params[p], prefix)
    decreases |params|
  {
    var rest := params - {p};
    var front: seq<Sample> := [];
    if q: string :| q in rest && q != "" {
      assert rest.Keys < params.Keys;
      SmallerMap(rest, params);
      front := SamplesEndingIn(rest, prefix, q);
    }
    samples := front + [SampleOf(p, params[p], prefix)];
    AddSample(front, rest, prefix, p, params[p]);
    assert params == rest[p := params[p]];
  }

  lemma SmallerMap(rest: Params, params: Params)
    requires rest.Keys < params.Keys
    ensures |rest| < |params|
  {
    assert |params.Keys| == |rest.Keys| + |params.Keys - rest.Keys|;
    assert |rest| == |rest.Keys| && |params| == |params.Keys|;
  }

  lemma AddSample(front: seq<Sample>, rest: Params, prefix: string, p: string, value: Value)
    requires AreSamplesOf(front, rest, prefix) && p !in rest && p != ""
    ensures AreSamplesOf(front + [SampleOf(p, value, prefix)], rest[p := value], prefix)
  {
    OneMoreSample(front, SampleOf(p, value, prefix));
    assert rest[p := value].Keys - {""} == rest.Keys - {""} + {p};
  }

  lemma EmptySamples(prefix: string)
    ensures AreSamplesOf([], map[], prefix)
  {
  }

  lemma OnlySample(param: string, value: real, prefix: string)
    requires param != ""
    ensures AreSamplesOf([SampleOf(param, Number(value), prefix)], map[param := Number(value)], prefix)
  {
    var t := SampleOf(param, Number(value), prefix);
    EmptySamples(prefix);
    AddSample([], map[], prefix, param, Number(value));
    assert [] + [t] == [t] && map[][param := Number(value)] == map[param := Number(value)];
  }

  lemma {:induction false} SentGrows(r: Run, n: nat, sn: string)
    requires n <= |r|
    ensures Sent(r[..n], sn).Keys <= Sent(r, sn).Keys
  {
    if n < |r| {
      assert Init(r)[..n] == r[..n];
      SentGrows(Init(r), n, sn);
    } else {
      assert r[..n] == r;
    }
  }

  /** The usual case: no two parameters the device ever sent share a name. */
  lemma NamesApartAgree(c: Config, r: Run, sn: string, name: string)
    requires NamesApart(Sent(r, sn))
    ensures Unambiguous(c, r, sn, name)
  {
    forall i, p, q | Decides(c, r, sn, name, i) && CarriedBy(Sent(r[..i], sn), c.prefix, name, p)
                     && CarriedBy(Sent(r[..i], sn), c.prefix, name, q)
      ensures p == q
    {
      SentGrows(r, i, sn);
      SameTail(c.prefix, MetricTail(p), MetricTail(q));
    }
  }

  /** Whatever the devices are called and whatever they send, the index stays well kept and holds
      series of configured devices only. */
  lemma {:induction false} IndexIsWellKept(c: Config, r: Run)
    requires Legal(c, r)
    ensures WellKept(After(c, r).index, c.prefix) && Labelled(After(c, r).index, c.devices)
  {
    if r != [] {
      IndexIsWellKept(c, Init(r));
      CacheIsHistory(c, Init(r));
      var w := After(c, Init(r));
      match Last(r) {
        case Merge(_, _) =>
        case Online(sn, samples) =>
          HandledKeeps(w.index, DeviceOf(c, sn, 1), samples, w.pending.fullState, c.prefix);
          HandledLabels(w.index, DeviceOf(c, sn, 1), samples, c.prefix, c.devices);
        case Offline(sn) =>
          EmptySamples(c.prefix);
          HandledKeeps(w.index, DeviceOf(c, sn, 0), [], map[], c.prefix);
          HandledLabels(w.index, DeviceOf(c, sn, 0), [], c.prefix, c.devices);
      }
    }
  }

  lemma {:induction false} PutAllLabels(x: Index, device: Device, samples: seq<Sample>, names: map<string, string>)
    requires Labelled(x, names) && IsDevice(device.sn, device.name, names)
    ensures Labelled(PutAll(x, device, samples), names)
    decreases samples
  {
    if samples != [] { PutAllLabels(x, device, samples[..|samples| - 1], names); }
  }

  lemma HandledLabels(x: Index, device: Device, samples: seq<Sample>, prefix: string, names: map<string, string>)
    requires Labelled(x, names) && IsDevice(device.sn, device.name, names)
    ensures Labelled(Handled(x, device, samples, prefix), names)
  {
    PutAllLabels(x, device, samples, names);
  }

  /** The index holds what the run says, series by series, wherever the key is not shared. */
  lemma {:induction false} IndexIsExposed(c: Config, r: Run, sn: string, name: string)
    requires Legal(c, r) && OwnKey(c.devices.Keys, c.prefix, sn, name)
    ensures Series(After(c, r).index, sn, name) == Exposed(c, r, sn, name)
  {
    if r != [] {
      var h, e := Init(r), Last(r);
      IndexIsExposed(c, h, sn, name);
      IndexIsWellKept(c, h);
      CacheIsHistory(c, h);
      var w := After(c, h);
      match e {
        case Merge(_, _) =>
        case Online(s, samples) =>
          HandledRefines(w.index, DeviceOf(c, s, 1), samples, w.pending.fullState, c.prefix, c.devices, sn, name);
        case Offline(s) =>
          EmptySamples(c.prefix);
          HandledRefines(w.index, DeviceOf(c, s, 0), [], map[], c.prefix, c.devices, sn, name);
      }
    }
  }

  lemma {:induction false} SamplesOfSent(c: Config, r: Run, i: nat)
    requires Legal(c, r) && i < |r| && r[i].Online?
    ensures AreSamplesOf(r[i].samples, Sent(r[..i], r[i].sn), c.prefix)
  {
    if i < |r| - 1 {
      SamplesOfSent(c, Init(r), i);
      assert Init(r)[..i] == r[..i];
    } else {
      CacheIsHistory(c, Init(r));
      assert r[..i] == Init(r);
    }
  }

  lemma {:induction false} ExposedMeaning(c: Config, r: Run, sn: string, name: string)
    requires Legal(c, r) && name != OnlineName(c.prefix)
    ensures Exposed(c, r, sn, name).Some? <==> exists i :: Decides(c, r, sn, name, i)
    ensures forall i :: Decides(c, r, sn, name, i) ==> Exposed(c, r, sn, name) == LastNumeric(r[i].samples, name)
  {
    if r != [] {
      var h, n := Init(r), |r| - 1;
      ExposedMeaning(c, h, sn, name);
      DecidesLater(c, r, sn, name);
      CarriesBySamples(c, r, sn, name, n);
      if Carries(c, r, sn, name, n) {
        assert Decides(c, r, sn, name, n);
      } else if r[n] != Offline(sn) {
        assert Exposed(c, r, sn, name) == Exposed(c, h, sn, name);
        forall i | Decides(c, r, sn, name, i) ensures Exposed(c, r, sn, name) == LastNumeric(r[i].samples, name) {
          assert Decides(c, h, sn, name, i) && r[i] == h[i];
        }
      }
    }
  }

  lemma CarriesBySamples(c: Config, r: Run, sn: string, name: string, i: nat)
    requires Legal(c, r) && i < |r|
    ensures Carries(c, r, sn, name, i) <==> r[i].Online? && r[i].sn == sn && LastNumeric(r[i].samples, name).Some?
    ensures Carries(c, r, sn, name, i) ==>
              IsExported(Sent(r[..i], sn), c.prefix, name, LastNumeric(r[i].samples, name))
  {
    if r[i].Online? && r[i].sn == sn {
      SamplesOfSent(c, r, i);
      SamplesCarry(r[i].samples, Sent(r[..i], sn), c.prefix, name);
    }
  }

  /** What the last event does to the deciding update. */
  lemma DecidesLater(c: Config, r: Run, sn: string, name: string)
    requires r != []
    ensures var h, n := Init(r), |r| - 1;
      if Carries(c, r, sn, name, n) then forall i :: Decides(c, r, sn, name, i) <==> i == n
      else if r[n] == Offline(sn) then forall i :: !Decides(c, r, sn, name, i)
      else forall i :: Decides(c, r, sn, name, i) <==> Decides(c, h, sn, name, i)
  {
    var h, n := Init(r), |r| - 1;
    forall i | 0 <= i < n ensures Carries(c, r, sn, name, i) == Carries(c, h, sn, name, i) && r[i] == h[i] {
      assert r[..i] == h[..i];
    }
  }

  lemma {:induction false} ExposedStatus(c: Config, r: Run, sn: string)
    ensures Exposed(c, r, sn, OnlineName(c.prefix)).None? <==> forall i | 0 <= i < |r| :: !StatusOf(r[i], sn)
    ensures forall i :: LatestUpdate(r, sn, i) ==>
              Exposed(c, r, sn, OnlineName(c.prefix)) == Some(if r[i].Online? then 1.0 else 0.0)
  {
    if r != [] {
      var h, n := Init(r), |r| - 1;
      ExposedStatus(c, h, sn);
      assert forall j | 0 <= j < n :: h[j] == r[j];
      forall i | LatestUpdate(r, sn, i)
        ensures Exposed(c, r, sn, OnlineName(c.prefix)) == Some(if r[i].Online? then 1.0 else 0.0)
      {
        if i < n { assert LatestUpdate(h, sn, i); }
      }
    }
  }

  /** Every exposed series is one of a configured device, under its display name. */
  lemma SeriesAreConfigured(c: Config, r: Run, key: string)
    requires Legal(c, r) && key in After(c, r).index.metrics
    ensures var s := After(c, r).index.metrics[key];
      && key == Key(s.sn, s.name) && s.sn in c.devices && s.device == c.devices[s.sn]
      && s.name in After(c, r).index.descs
  {
    IndexIsWellKept(c, r);
  }

  /** After every run, a series other than the online one exists exactly when some update since the
      device's last offline update carried a number under its name, and holds a number that the last
      such update carried. Every update carries the later-wins merge of all parameter maps the device
      ever sent; a parameter that turned from a number into a string leaves its last number. */
  lemma SeriesIsCarried(c: Config, r: Run, sn: string, name: string)
    requires Legal(c, r) && OwnKey(c.devices.Keys, c.prefix, sn, name) && name != OnlineName(c.prefix)
    ensures var value := Series(After(c, r).index, sn, name);
      && (value.Some? <==> exists i :: Decides(c, r, sn, name, i))
      && forall i :: Decides(c, r, sn, name, i) ==>
           IsExported(Sent(r[..i], sn), c.prefix, name, value)
  {
    IndexIsExposed(c, r, sn, name);
    ExposedMeaning(c, r, sn, name);
    forall i | Decides(c, r, sn, name, i)
      ensures IsExported(Sent(r[..i], sn), c.prefix, name, LastNumeric(r[i].samples, name))
    {
      CarriesBySamples(c, r, sn, name, i);
    }
  }

  /** So it holds a value exactly when that is the number carried last, if the numbers carried last
      under the name agree. */
  lemma SeriesIsLastCarried(c: Config, r: Run, sn: string, name: string, value: real)
    requires Legal(c, r) && OwnKey(c.devices.Keys, c.prefix, sn, name) && name != OnlineName(c.prefix)
    requires Unambiguous(c, r, sn, name)
    ensures Series(After(c, r).index, sn, name) == Some(value) <==>
            exists i :: CarriedLast(c, r, sn, name, i, value)
  {
    SeriesIsCarried(c, r, sn, name);
    var held := Series(After(c, r).index, sn, name);
    if held == Some(value) {
      var i :| Decides(c, r, sn, name, i);
      AgreedNumber(Sent(r[..i], sn), c.prefix, name, held);
      assert CarriedLast(c, r, sn, name, i, value);
    } else if i :| CarriedLast(c, r, sn, name, i, value) {
      assert Decides(c, r, sn, name, i);
      AgreedNumber(Sent(r[..i], sn), c.prefix, name, held);
    }
  }

  lemma AgreedNumber(params: Params, prefix: string, name: string, value: Option<real>)
    requires NumbersAgree(params, prefix, name) && IsExported(params, prefix, name, value)
    ensures Numeric(params, prefix, name) == value
  {
  }

  /** The online series is the status of the device's last update, whatever parameters it sends. */
  lemma OnlineIsLastStatus(c: Config, r: Run, sn: string)
    requires Legal(c, r) && Unshadowed(c.devices.Keys, c.prefix, sn)
    ensures var online := Series(After(c, r).index, sn, OnlineName(c.prefix));
      && (online.None? <==> forall i | 0 <= i < |r| :: !StatusOf(r[i], sn))
      && forall i :: LatestUpdate(r, sn, i) ==> online == Some(if r[i].Online? then 1.0 else 0.0)
  {
    OnlineIsExposed(c, r, sn);
    ExposedStatus(c, r, sn);
  }

  lemma OnlineIsExposed(c: Config, r: Run, sn: string)
    requires Legal(c, r) && Unshadowed(c.devices.Keys, c.prefix, sn)
    ensures Series(After(c, r).index, sn, OnlineName(c.prefix)) == Exposed(c, r, sn, OnlineName(c.prefix))
  {
    OnlineTail();
    PlainTailOwnsKey(c.devices.Keys, c.prefix, sn, "online");
    IndexIsExposed(c, r, sn, OnlineName(c.prefix));
  }

  lemma OnlineTail()
    ensures MetricTail("online") == "online" && IsNameTail("online") && '_' !in "online"
  {
    NameTailsAreFixed("online", true, false);
  }

  /** While the latest update of a device is an offline one, it has no series but online, whatever the
      other devices are called and do. */
  lemma OfflineLeavesOnlyStatus(c: Config, r: Run, sn: string, k: int, name: string)
    requires Legal(c, r) && LatestUpdate(r, sn, k) && r[k].Offline? && name != OnlineName(c.prefix)
    ensures Series(After(c, r).index, sn, name).None?
  {
    ExposedStatus(c, r, sn);
    OnlyStatusLabels(c, r, sn);
  }

  lemma {:induction false} OnlyStatusLabels(c: Config, r: Run, sn: string)
    requires Legal(c, r) && Exposed(c, r, sn, OnlineName(c.prefix)) == Some(0.0)
    ensures forall k | k in After(c, r).index.metrics && After(c, r).index.metrics[k].sn == sn ::
              After(c, r).index.metrics[k].name == OnlineName(c.prefix)
  {
    var h, e := Init(r), Last(r);
    if !StatusOf(e, sn) {
      OnlyStatusLabels(c, h, sn);
      if e.Online? { OthersKeepLabels(After(c, h).index, DeviceOf(c, e.sn, 1), e.samples, sn); }
    } else {
      StatusLabelsOnly(After(c, h).index, DeviceOf(c, sn, 0), c.prefix);
    }
  }

  lemma StatusLabelsOnly(x: Index, device: Device, prefix: string)
    requires device.online == 0
    ensures var y := Handled(x, device, [], prefix).metrics;
      forall k | k in y && y[k].sn == device.sn :: y[k].name == OnlineName(prefix)
  {
  }

  lemma {:induction false} OthersKeepLabels(x: Index, device: Device, samples: seq<Sample>, sn: string)
    requires device.sn != sn
    ensures var y := PutAll(x, device, samples).metrics;
      forall k | k in y && y[k].sn == sn :: k in x.metrics && x.metrics[k].sn == sn && x.metrics[k].name == y[k].name
    decreases samples
  {
    if samples != [] { OthersKeepLabels(x, device, samples[..|samples| - 1], sn); }
  }
}
