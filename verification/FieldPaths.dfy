/** Metric names of nested fields: flattening joins JSON names with dots, and the conversion turns the
    dots into underscores, so that the nesting is no longer to be seen. */
module FieldPaths {
  import opened Naming
  import opened LeafKeys

  predicate IsPath(path: seq<string>) { path != [] && forall k | 0 <= k < |path| :: IsIdentifier(path[k]) }

  /** The JSON names along a path of field names. */
  function JsonPath(path: seq<string>): (names: seq<string>)
    ensures |names| == |path|
  {
    seq(|path|, i requires 0 <= i < |path| => JsonName(path[i]))
  }

  /** The canonical names along a path, an underscore between them. */
  function Joined(path: seq<string>): string
    requires path != []
  {
    Canonical(path[0], true) + if |path| == 1 then "" else "_" + Joined(path[1..])
  }

  lemma {:induction false} DotJoins(x: string, y: string, start: bool, under: bool)
    ensures Converted(x + ("." + y), start, under) == Converted(x, start, under) + ("_" + MetricTail(y))
    decreases x
  {
    var s := x + ("." + y);
    if x == "" {
      assert s[0] == '.' && s[1..] == y;
      assert Converted(y, false, true) == MetricTail(y);
    } else {
      assert s[0] == x[0] && s[1..] == x[1..] + ("." + y);
      DotJoins(x[1..], y, false, ConvertRune(x[0]) == '_');
    }
  }

  lemma {:induction false} PathMetricName(path: seq<string>)
    requires IsPath(path)
    ensures MetricTail(Dotted(JsonPath(path))) == Joined(path)
    decreases |path|
  {
    var names := JsonPath(path);
    FieldsShareNameExactly(path[0], path[0]);
    if |path| > 1 {
      assert names[1..] == JsonPath(path[1..]);
      PathMetricName(path[1..]);
      DotJoins(names[0], Dotted(names[1..]), true, false);
      assert Dotted(names) == names[0] + ("." + Dotted(names[1..]));
    }
  }

  /** Two fields at any depths share a metric name exactly when their canonical names, joined by
      underscores along the way, are the same. */
  lemma PathsShareNameExactly(p: seq<string>, q: seq<string>)
    requires IsPath(p) && IsPath(q)
    ensures MetricTail(Dotted(JsonPath(p))) == MetricTail(Dotted(JsonPath(q))) <==> Joined(p) == Joined(q)
  {
    PathMetricName(p);
    PathMetricName(q);
  }

  lemma {:induction false} SnakeJoined(f: string, g: string)
    requires SnakeRest(f) && SnakeRest(g) && g != "" && IsLower(g[0])
    ensures SnakeRest(f + ("_" + g))
    decreases |f|
  {
    var s := f + ("_" + g);
    if f == "" {
      assert s[1] == g[0] && s[2..] == g[1..];
    } else if f[0] == '_' {
      assert s[1] == f[1] && s[2..] == f[2..] + ("_" + g);
      SnakeJoined(f[2..], g);
    } else {
      assert s[1..] == f[1..] + ("_" + g);
      SnakeJoined(f[1..], g);
    }
  }

  /** A nested field and a field beside its message, named after both, have different parameter keys
      but one metric name. */
  lemma NestedFieldMeetsFlatOne(f: string, g: string)
    requires IsPath([f, g]) && IsSnake(f) && IsSnake(g) && IsLower(g[0])
    ensures var flat := f + ("_" + g);
      && IsIdentifier(flat) && IsSnake(flat)
      && Dotted(JsonPath([f, g])) != Dotted(JsonPath([flat]))
      && MetricTail(Dotted(JsonPath([f, g]))) == flat == MetricTail(Dotted(JsonPath([flat])))
  {
    var flat, path := f + ("_" + g), [f, g];
    assert IsIdentifier(path[0]) && IsIdentifier(path[1]);
    SnakeJoined(f, g);
    forall field | field in [f, g, flat] ensures Canonical(field, true) == field {
      RoundTrip(field);
      FieldsShareNameExactly(field, field);
    }
    assert path[1..] == [g];
    PathMetricName(path);
    PathMetricName([flat]);
    NoUnderscores(flat, false);
    var names := JsonPath(path);
    assert names[1..] == [JsonName(g)];
    assert Dotted(names) == JsonName(f) + "." + JsonName(g);
    assert Dotted(names)[|JsonName(f)|] == '.';
    assert Dotted(JsonPath([flat])) == JsonName(flat);
  }
}
