/** From a protobuf field to an exposed number: the decoder and the pipeline put together. */
module EndToEnd {
  import opened Options
  import opened Values
  import opened Naming
  import opened SeriesKeys
  import opened DeviceUpdates
  import opened MetricStore
  import opened Pipeline
  import opened Clashes
  import opened Flatten
  import opened LeafKeys
  import opened Battery
  import Decoder

  // ---------------------------------------------------------------------------
  // One parameter in an update
  // ---------------------------------------------------------------------------

  /** The parameter has the metric name, and no other one does. */
  predicate AloneUnder(params: Params, prefix: string, name: string, param: string) {
    && param in params && param != "" && MetricName(prefix, MetricTail(param)) == name
    && forall q | q in params && q != "" && MetricName(prefix, MetricTail(q)) == name :: q == param
  }

  /** What an update does to the series of a parameter that has its name for itself: a number is exposed,
      a flag as 1 or 0, and anything else leaves the series as it was. */
  lemma UpdateExposes(c: Config, r: Run, sn: string, samples: seq<Sample>, name: string, param: string)
    requires Legal(c, r) && OwnKey(c.devices.Keys, c.prefix, sn, name) && name != OnlineName(c.prefix)
    requires After(c, r).pending == Snapshot(sn, Sent(r, sn)) && AreSamplesOf(samples, Sent(r, sn), c.prefix)
    requires AloneUnder(Sent(r, sn), c.prefix, name, param)
    ensures Legal(c, r + [Online(sn, samples)])
    ensures Series(After(c, r + [Online(sn, samples)]).index, sn, name) ==
            match Sent(r, sn)[param]
            case Number(n) => Some(n)
            case Flag(b) => Some(if b then 1.0 else 0.0)
            case Text(_) => Series(After(c, r).index, sn, name)
            case Compound => Series(After(c, r).index, sn, name)
  {
    OneUpdate(c, r, sn, samples, name);
    AloneCarries(Sent(r, sn), c.prefix, name, param, samples);
  }

  lemma AloneCarries(params: Params, prefix: string, name: string, param: string, samples: seq<Sample>)
    requires AloneUnder(params, prefix, name, param) && AreSamplesOf(samples, params, prefix)
    ensures LastNumeric(samples, name) == ToFloat(params[param])
  {
    SamplesCarry(samples, params, prefix, name);
    if ToFloat(params[param]).Some? { assert CarriedBy(params, prefix, name, param); }
  }

  /** A flag sent as JSON and a protobuf field of type bool export the same number. */
  lemma FlagsAgree(name: string, b: bool, prefix: string, inlineNested: bool)
    ensures var ws := FieldWrites(Field(name, BoolField(b)), prefix, inlineNested);
      |ws| == 1 && ToFloat(ws[0].1) == ToFloat(Flag(b)) == Some(if b then 1.0 else 0.0)
  {
  }

  // ---------------------------------------------------------------------------
  // A field in a message
  // ---------------------------------------------------------------------------

  /** The JSON names of the path lead to a field with this value, which is not a message. */
  predicate FieldAt(fields: seq<Field>, path: seq<string>, value: FieldValue)
    decreases |path|
  {
    && path != [] && !value.MessageField?
    && exists f | f in fields :: f.jsonName == path[0] && Reaches(f.value, path[1..], value)
  }

  predicate Reaches(v: FieldValue, path: seq<string>, value: FieldValue)
    decreases |path|
  {
    if path == [] then v == value else v.MessageField? && exists f | f in v.fields ::
      f.jsonName == path[0] && Reaches(f.value, path[1..], value)
  }

  /** The parameter a scalar field becomes. */
  predicate Becomes(value: FieldValue, v: Value) {
    match value
    case BoolField(b) => v == Number(if b then 1.0 else 0.0)
    case NumberField(n) => v == Number(n)
    case StringField(s) => v == Text(s)
    case SkippedField => false
    case MessageField(_) => false
  }

  lemma {:induction false} LeafOfField(fields: seq<Field>, f: Field, path: seq<string>, value: FieldValue)
    returns (i: nat)
    requires f in fields && Reaches(f.value, path, value) && !value.MessageField? && !value.SkippedField?
    ensures i < |Leaves(fields)| && Leaves(fields)[i].path == [f.jsonName] + path
    ensures Becomes(value, Leaves(fields)[i].value)
    decreases |path|, fields
  {
    if fields[0] != f {
      i := LeafOfField(fields[1..], f, path, value);
      i := i + |FieldLeaves(fields[0])|;
    } else if path == [] {
      i := 0;
      assert FieldLeaves(f)[0].path == [f.jsonName] + path;
    } else {
      var g :| g in f.value.fields && g.jsonName == path[0] && Reaches(g.value, path[1..], value);
      i := LeafOfField(f.value.fields, g, path[1..], value);
      assert [g.jsonName] + path[1..] == path;
      assert FieldLeaves(f)[i].path == [f.jsonName] + path;
    }
  }

  lemma {:induction false} FieldOfLeaf(fields: seq<Field>, i: nat) returns (f: Field, value: FieldValue)
    requires i < |Leaves(fields)|
    ensures f in fields && Leaves(fields)[i].path != [] && Leaves(fields)[i].path[0] == f.jsonName
    ensures Reaches(f.value, Leaves(fields)[i].path[1..], value) && Becomes(value, Leaves(fields)[i].value)
    decreases fields
  {
    f := fields[0];
    if i >= |FieldLeaves(f)| {
      f, value := FieldOfLeaf(fields[1..], i - |FieldLeaves(f)|);
    } else if f.value.MessageField? {
      var g;
      g, value := FieldOfLeaf(f.value.fields, i);
      var path := Leaves(f.value.fields)[i].path;
      assert FieldLeaves(f)[i].path == [f.jsonName] + path && ([f.jsonName] + path)[1..] == path;
      assert g in f.value.fields && g.jsonName == path[0] && Reaches(g.value, path[1..], value);
    } else {
      value := f.value;
      assert FieldLeaves(f)[i].path[1..] == [];
    }
  }

  /** And there are no other parameters: every one is a scalar field under its dotted path. */
  lemma ParameterIsField(m: Decoder.Message, key: string) returns (path: seq<string>, value: FieldValue)
    requires WellNamed(m.fields) && key in Decoder.MessageParams(Decoder.PropertyUpload, m)
    ensures FieldAt(m.fields, path, value) && Dotted(path) == key
    ensures Becomes(value, Decoder.MessageParams(Decoder.PropertyUpload, m)[key])
  {
    var ws := Writes(m.fields, "", false);
    AppliedKeyWasWritten(ws, key);
    WritesAreLeaves(m.fields, "");
    var w :| w in ws && w.0 == key;
    var i: nat :| i < |ws| && ws[i] == w;
    var f;
    f, value := FieldOfLeaf(m.fields, i);
    path := Leaves(m.fields)[i].path;
    assert "" + Dotted(path) == Dotted(path);
    Decoder.ParamsAreLeaves(Decoder.PropertyUpload, m);
    assert HoldsLeaf(Decoder.MessageParams(Decoder.PropertyUpload, m), "", Leaves(m.fields)[i]);
  }

  /** A field of a property upload is the parameter under its dotted path. */
  lemma UploadedField(m: Decoder.Message, path: seq<string>, value: FieldValue)
    requires WellNamed(m.fields) && FieldAt(m.fields, path, value) && !value.SkippedField?
    ensures var params := Decoder.MessageParams(Decoder.PropertyUpload, m);
      Dotted(path) in params && Becomes(value, params[Dotted(path)])
  {
    var f :| f in m.fields && f.jsonName == path[0] && Reaches(f.value, path[1..], value);
    var i := LeafOfField(m.fields, f, path[1..], value);
    assert [f.jsonName] + path[1..] == path;
    Decoder.ParamsAreLeaves(Decoder.PropertyUpload, m);
    assert HoldsLeaf(Decoder.MessageParams(Decoder.PropertyUpload, m), "", Leaves(m.fields)[i]);
    assert "" + Dotted(path) == Dotted(path);
  }

  lemma MessageMerged(c: Config, r: Run, sn: string, params: Params)
    requires Legal(c, r) && After(c, r).pending.Nothing? && sn in c.devices && params != map[]
    ensures var s := r + [Merge(sn, params)];
      && Legal(c, s) && Sent(s, sn) == Sent(r, sn) + params
      && After(c, s).pending == Snapshot(sn, Sent(s, sn)) && After(c, s).index == After(c, r).index
  {
    Extend(c, r, Merge(sn, params));
    CacheIsHistory(c, r);
  }

  /** A field of a property upload, from the header that carries it to its series: a number is exposed
      under its dotted path, a bool as 1 or 0, and a string leaves the series as it was. */
  lemma FieldReachesSeries(c: Config, p: Decoder.Parsers, h: Decoder.Header, m: Decoder.Message,
                           path: seq<string>, value: FieldValue, r: Run, sn: string, samples: seq<Sample>)
    requires p.json(Decoder.PlainPdata(h)).None?
    requires p.proto(Decoder.PropertyUpload, Decoder.PlainPdata(h)) == Some(m)
    requires h.cmdFunc == 254 && (h.cmdId == 21 || h.cmdId == 22)
    requires WellNamed(m.fields) && FieldAt(m.fields, path, value) && !value.SkippedField?
    requires Legal(c, r) && After(c, r).pending.Nothing? && sn in c.devices
    requires var name := MetricName(c.prefix, MetricTail(Dotted(path)));
      && OwnKey(c.devices.Keys, c.prefix, sn, name) && name != OnlineName(c.prefix)
      && var full := Sent(r, sn) + Decoder.MessageParams(Decoder.PropertyUpload, m);
        AreSamplesOf(samples, full, c.prefix) && AloneUnder(full, c.prefix, name, Dotted(path))
    ensures var name, params := MetricName(c.prefix, MetricTail(Dotted(path))), Decoder.Decode(p, [h]);
      && params.Some?
      && var s := r + [Merge(sn, params.value)] + [Online(sn, samples)];
        && Legal(c, s)
        && Series(After(c, s).index, sn, name) ==
           match value
           case NumberField(n) => Some(n)
           case BoolField(b) => Some(if b then 1.0 else 0.0)
           case _ => Series(After(c, r).index, sn, name)
  {
    Decoder.OneHeaderDecodes(p, h, Decoder.PropertyUpload);
    UploadedField(m, path, value);
    var name, params := MetricName(c.prefix, MetricTail(Dotted(path))), Decoder.Decode(p, [h]).value;
    MessageMerged(c, r, sn, params);
    UpdateExposes(c, r + [Merge(sn, params)], sn, samples, name, Dotted(path));
  }
}
