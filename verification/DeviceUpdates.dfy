/** One set of parameters on its way to the metric handlers, and the samples made from it. */
module DeviceUpdates {
  import opened Options
  import opened Values
  import opened Naming
  import opened SeriesKeys

  datatype Device = Device(sn: string, name: string, online: int)

  /** `value` is `None` when the raw value is not a number. */
  datatype Sample = Sample(param: string, name: string, raw: Value, value: Option<real>)

  function SampleOf(param: string, raw: Value, prefix: string): Sample {
    Sample(param, MetricName(prefix, MetricTail(param)), raw, ToFloat(raw))
  }

  function SampledParams(samples: seq<Sample>): set<string> { set s | s in samples :: s.param }

  /** The samples of all parameters that have a name, each once, in some order. */
  predicate AreSamplesOf(samples: seq<Sample>, params: Params, prefix: string) {
    && SampledParams(samples) == params.Keys - {""}
    && (forall s | s in samples :: s.param in params && s == SampleOf(s.param, params[s.param], prefix))
    && (forall i, j | 0 <= i < j < |samples| :: samples[i].param != samples[j].param)
  }

  class DeviceUpdate {
    const device: Device
    const params: ParamMap
    var samples: map<string, seq<Sample>>  // by metric prefix

    ghost predicate Valid()
      reads this, params
    {
      forall prefix | prefix in samples :: AreSamplesOf(samples[prefix], params.entries, prefix)
    }

    constructor (device: Device, params: ParamMap)
      ensures this.device == device && this.params == params && samples == map[] && Valid()
    {
      this.device, this.params, samples := device, params, map[];
    }

    /** Computed once per prefix; every handler with the same prefix gets the same list. */
    method Samples(prefix: string) returns (result: seq<Sample>)
      requires Valid()
      modifies this`samples
      ensures Valid() && AreSamplesOf(result, params.entries, prefix)
      ensures forall s | s in result ::
                && s.param in params.entries && s.raw == params.entries[s.param]
                && s.name == prefix + "_" + MetricTail(s.param)
                && s.value == match s.raw
                              case Number(n) => Some(n)
                              case Flag(b) => Some(if b then 1.0 else 0.0)
                              case _ => None
      ensures samples == old(samples)[prefix := result]
      ensures prefix in old(samples) ==> result == old(samples)[prefix]
    {
      if prefix in samples { return samples[prefix]; }
      result := [];
      var remaining := params.entries.Keys;
      while remaining != {}
        invariant remaining <= params.entries.Keys
        invariant SampledParams(result) == params.entries.Keys - remaining - {""}
        invariant forall s | s in result ::
                    s.param in params.entries && s == SampleOf(s.param, params.entries[s.param], prefix)
        invariant forall i, j | 0 <= i < j < |result| :: result[i].param != result[j].param
        invariant samples == old(samples)
        decreases remaining
      {
        var param :| param in remaining;
        var raw := params.entries[param];
        remaining := remaining - {param};
        var tail := EcoflowParamToPrometheusMetric(param);
        if tail.None? { continue; }
        var s := Sample(param, prefix + "_" + tail.value, raw, ToFloat(raw));
        OneMoreSample(result, s);
        result := result + [s];
      }
      samples := samples[prefix := result];
    }
  }

  lemma OneMoreSample(samples: seq<Sample>, s: Sample)
    ensures SampledParams(samples + [s]) == SampledParams(samples) + {s.param}
    ensures s.param !in SampledParams(samples) ==> forall i | 0 <= i < |samples| :: samples[i].param != s.param
  {
  }
}
