/** Metric names: the conversion of parameter names, and the protobuf JSON names they come from.
    Letters are the ASCII ones. */
module Naming {
  import opened Options

  predicate IsUpper(c: char) { 'A' <= c <= 'Z' }

  predicate IsLower(c: char) { 'a' <= c <= 'z' }

  predicate IsDigit(c: char) { '0' <= c <= '9' }

  function ToLower(c: char): char { if IsUpper(c) then c - 'A' + 'a' else c }

  function ToUpper(c: char): char { if IsLower(c) then c - 'a' + 'A' else c }

  predicate IsMetricNameRune(c: char) {
    c == '_' || c == ':' || IsLower(c) || IsUpper(c) || IsDigit(c)
  }

  /** The characters a converted name can hold. */
  predicate IsNameTailRune(c: char) { IsMetricNameRune(c) && !IsUpper(c) }

  predicate IsNameTail(s: string) { s != "" && forall k | 0 <= k < |s| :: IsNameTailRune(s[k]) }

  /** What one character becomes; a dot and anything outside the allowed set become underscores. */
  function ConvertRune(c: char): char {
    if IsUpper(c) then ToLower(c) else if IsMetricNameRune(c) then c else '_'
  }

  /** The rest of a conversion, `start` at the first character, `under` after an underscore. */
  function Converted(s: string, start: bool, under: bool): string {
    if s == "" then ""
    else
      var r := ConvertRune(s[0]);
      (if IsUpper(s[0]) && !start && !under then "_" else "") + [r] + Converted(s[1..], false, r == '_')
  }

  function MetricTail(param: string): string { Converted(param, true, false) }

  /** An empty parameter name is the one that cannot be converted. Every other name becomes one that
      matches the Prometheus data model once a prefix stands in front of it. */
  method EcoflowParamToPrometheusMetric(metricKey: string) returns (name: Option<string>)
    ensures name == if metricKey == "" then None else Some(MetricTail(metricKey))
    ensures name.Some? ==> IsNameTail(name.value)
  {
    if metricKey == "" { return None; }
    var b: string := "";
    var lastUnderscore := false;
    var i := 0;
    while i < |metricKey|
      invariant 0 <= i <= |metricKey|
      invariant MetricTail(metricKey) == b + Converted(metricKey[i..], i == 0, lastUnderscore)
    {
      var r := metricKey[i];
      ConvertedStep(b, metricKey[i..], i == 0, lastUnderscore);
      assert metricKey[i..][1..] == metricKey[i + 1..];
      if IsUpper(r) {
        if i > 0 && !lastUnderscore {
          b := b + "_";
        }
        r := ToLower(r);
      } else if r == '.' {
        r := '_';
      }
      if !IsMetricNameRune(r) {
        r := '_';
      }
      b := b + [r];
      lastUnderscore := r == '_';
      i := i + 1;
    }
    assert metricKey[i..] == "" && b + "" == b;
    ConvertedIsNameTail(metricKey, true, false);
    return Some(b);
  }

  lemma ConvertedStep(b: string, s: string, start: bool, under: bool)
    requires s != ""
    ensures var r := ConvertRune(s[0]);
      b + Converted(s, start, under) ==
      (if IsUpper(s[0]) && !start && !under then b + "_" else b) + [r] + Converted(s[1..], false, r == '_')
  {
  }

  lemma {:induction false} ConvertedIsNameTail(s: string, start: bool, under: bool)
    ensures s != "" ==> IsNameTail(Converted(s, start, under))
  {
    if s != "" { ConvertedIsNameTail(s[1..], false, ConvertRune(s[0]) == '_'); }
  }

  /** Converted names are exactly the fixed points: converting twice changes nothing, and every
      string of allowed characters is the name of some parameter. */
  lemma {:induction false} NameTailsAreFixed(s: string, start: bool, under: bool)
    requires forall k | 0 <= k < |s| :: IsNameTailRune(s[k])
    ensures Converted(s, start, under) == s
  {
    if s != "" { NameTailsAreFixed(s[1..], false, s[0] == '_'); }
  }

  /** Without uppercase letters a name keeps its length: lowercase letters, digits, underscores and
      colons stay, and every other character becomes an underscore. */
  lemma {:induction false} OthersBecomeUnderscores(s: string, start: bool, under: bool)
    requires forall k | 0 <= k < |s| :: !('A' <= s[k] <= 'Z')
    ensures |Converted(s, start, under)| == |s|
    ensures forall k | 0 <= k < |s| ::
              Converted(s, start, under)[k] ==
              if 'a' <= s[k] <= 'z' || '0' <= s[k] <= '9' || s[k] == '_' || s[k] == ':' then s[k] else '_'
  {
    if s != "" { OthersBecomeUnderscores(s[1..], false, ConvertRune(s[0]) == '_'); }
  }

  function FirstConverted(c: char, start: bool, under: bool): string {
    (if IsUpper(c) && !start && !under then "_" else "") + [ConvertRune(c)]
  }

  lemma ConvertedFirst(s: string, start: bool, under: bool)
    requires s != ""
    ensures Converted(s, start, under) ==
            FirstConverted(s[0], start, under) + Converted(s[1..], false, ConvertRune(s[0]) == '_')
  {
  }

  predicate BehindUnderscore(x: string, under: bool) {
    if x == "" then under else ConvertRune(x[|x| - 1]) == '_'
  }

  /** What comes before counts only by whether its last character became an underscore. */
  lemma {:induction false} ConvertedSplits(x: string, z: string, start: bool, under: bool)
    ensures Converted(x + z, start, under) ==
            Converted(x, start, under) + Converted(z, start && x == "", BehindUnderscore(x, under))
    decreases x
  {
    if x == "" {
      assert x + z == z;
    } else {
      var rest, u := x[1..], ConvertRune(x[0]) == '_';
      ConvertedFirst(x, start, under);
      assert (x + z)[0] == x[0] && (x + z)[1..] == rest + z;
      ConvertedFirst(x + z, start, under);
      ConvertedSplits(rest, z, false, u);
      assert BehindUnderscore(rest, u) == BehindUnderscore(x, under);
      var tail := Converted(z, false, BehindUnderscore(x, under));
      Associative(FirstConverted(x[0], start, under), Converted(rest, false, u), tail);
    }
  }

  lemma Associative(a: string, b: string, c: string)
    ensures a + (b + c) == (a + b) + c
  {
  }

  /** An uppercase letter reads as its lowercase one behind an underscore, which is not written where the
      name begins or the character before it becomes one anyway. */
  lemma CapitalBecomesUnderscored(x: string, c: char, y: string)
    requires 'A' <= c <= 'Z'
    ensures var low := c - 'A' + 'a';
      MetricTail(x + ([c] + y)) ==
      MetricTail(x) + Separated(x != "" && !BehindUnderscore(x, false), MetricTail([low] + y))
  {
    ConvertedSplits(x, [c] + y, true, false);
    CapitalFirst(c, y, x == "", BehindUnderscore(x, false));
  }

  lemma CapitalFirst(c: char, y: string, start: bool, under: bool)
    requires 'A' <= c <= 'Z'
    ensures Converted([c] + y, start, under) == Separated(!start && !under, MetricTail([c - 'A' + 'a'] + y))
  {
    var low := c - 'A' + 'a';
    var s, t := [c] + y, [low] + y;
    ConvertedFirst(s, start, under);
    ConvertedFirst(t, true, false);
    assert s[0] == c && s[1..] == y && t[0] == low && t[1..] == y;
  }

  // ---------------------------------------------------------------------------
  // Protobuf field names and their JSON names
  // ---------------------------------------------------------------------------

  predicate IsIdentifierRune(c: char) { c == '_' || IsLower(c) || IsUpper(c) || IsDigit(c) }

  predicate IsIdentifier(s: string) { forall k | 0 <= k < |s| :: IsIdentifierRune(s[k]) }

  /** protobuf's lowerCamelCase: underscores are dropped and a lowercase letter after one is raised. */
  function CamelCased(s: string, under: bool): string {
    if s == "" then ""
    else if s[0] == '_' then CamelCased(s[1..], true)
    else [if under then ToUpper(s[0]) else s[0]] + CamelCased(s[1..], false)
  }

  function JsonName(field: string): string { CamelCased(field, false) }

  /** Every underscore is followed by a lowercase letter and there are no uppercase letters. */
  predicate SnakeRest(s: string) {
    s == "" ||
    (if s[0] == '_' then |s| > 1 && IsLower(s[1]) && SnakeRest(s[2..])
     else !IsUpper(s[0]) && SnakeRest(s[1..]))
  }

  /** The field names whose JSON name leads back to them. */
  predicate IsSnake(field: string) { field != "" && field[0] != '_' && SnakeRest(field) }

  function Separated(apart: bool, s: string): string { if apart then "_" + s else s }

  /** A field name without the underscores that get lost: those not followed by a lowercase letter and
      those at the start. An uppercase letter counts as an underscore and its lowercase letter. */
  function Canonical(s: string, start: bool): string {
    if s == "" then ""
    else if s[0] == '_' then Separated(!start && |s| > 1 && IsLower(s[1]), Canonical(s[1..], start))
    else Separated(!start && IsUpper(s[0]), [ToLower(s[0])] + Canonical(s[1..], false))
  }

  lemma ConvertedHead(c: char, rest: string, start: bool)
    requires c != '_' && IsIdentifierRune(c)
    ensures Converted([c] + rest, start, false) ==
            Separated(!start && IsUpper(c), [ToLower(c)] + Converted(rest, false, false))
    ensures ToLower(c) != '_'
  {
    var s := [c] + rest;
    assert s[0] == c && s[1..] == rest && ConvertRune(c) == ToLower(c);
  }

  lemma {:induction false} CanonicalRest(s: string, start: bool, under: bool)
    requires IsIdentifier(s)
    ensures Converted(CamelCased(s, under), start, false) ==
            Separated(!start && under && s != "" && IsLower(s[0]), Canonical(s, start))
  {
    if s != "" {
      if s[0] == '_' {
        CanonicalRest(s[1..], start, true);
      } else {
        var c, rest := if under then ToUpper(s[0]) else s[0], CamelCased(s[1..], false);
        CanonicalRest(s[1..], false, false);
        ConvertedHead(c, rest, start);
        assert CamelCased(s, under) == [c] + rest;
      }
    }
  }

  /** Canonical names hold no uppercase letters and are not longer than what held none before. */
  lemma {:induction false} CanonicalShrinks(s: string, start: bool)
    ensures forall k | 0 <= k < |Canonical(s, start)| :: !IsUpper(Canonical(s, start)[k])
    ensures (forall k | 0 <= k < |s| :: !IsUpper(s[k])) ==> |Canonical(s, start)| <= |s|
  {
    if s != "" { CanonicalShrinks(s[1..], start && s[0] == '_'); }
  }

  lemma {:induction false} CanonicalFixed(s: string)
    ensures Canonical(s, false) == s <==> SnakeRest(s)
    decreases |s|
  {
    if s != "" {
      var rest := Canonical(s[1..], false);
      CanonicalFixed(s[1..]);
      CanonicalShrinks(s, false);
      CanonicalShrinks(s[1..], false);
      if s[0] != '_' || (|s| > 1 && IsLower(s[1])) {
        assert s == [s[0]] + s[1..];
        assert |s| > 1 ==> s[1..][1..] == s[2..];
        assert IsUpper(s[0]) || Canonical(s, false) == [s[0]] + rest;
      } else {
        assert Canonical(s, false) == rest;
      }
    }
  }

  /** Converting the JSON name of a field gives the field name back exactly when the field name has
      no uppercase letter, does not start with an underscore, and has a lowercase letter after every
      underscore. */
  lemma {:induction false} RoundTrip(field: string)
    requires IsIdentifier(field) && field != ""
    ensures MetricTail(JsonName(field)) == field <==> IsSnake(field)
  {
    CanonicalRest(field, true, false);
    CanonicalFixed(field[1..]);
    CanonicalShrinks(field, true);
    CanonicalShrinks(field[1..], true);
    if field[0] != '_' {
      assert field == [field[0]] + field[1..];
      assert IsUpper(field[0]) || Canonical(field, true) == [field[0]] + Canonical(field[1..], false);
    }
  }

  lemma {:induction false} NoUnderscores(s: string, under: bool)
    requires IsIdentifier(s)
    ensures forall k | 0 <= k < |CamelCased(s, under)| ::
              CamelCased(s, under)[k] != '_' && IsIdentifierRune(CamelCased(s, under)[k])
  {
    if s != "" {
      if s[0] == '_' { NoUnderscores(s[1..], true); } else { NoUnderscores(s[1..], false); }
    }
  }

  /** So conversion is one to one on the JSON names of such fields. */
  lemma SnakeNamesStayApart(f: string, g: string)
    requires IsIdentifier(f) && IsIdentifier(g) && IsSnake(f) && IsSnake(g)
    requires MetricTail(JsonName(f)) == MetricTail(JsonName(g))
    ensures f == g
  {
    RoundTrip(f);
    RoundTrip(g);
  }

  // ---------------------------------------------------------------------------
  // When two fields share a metric name
  // ---------------------------------------------------------------------------

  function LowerFirst(s: string): string { if s == "" then "" else [ToLower(s[0])] + s[1..] }

  predicate CamelWord(s: string) { forall k | 0 <= k < |s| :: s[k] != '_' && IsIdentifierRune(s[k]) }

  lemma {:induction false} CamelWordsStayApart(j: string, k: string)
    requires CamelWord(j) && CamelWord(k) && Converted(j, false, false) == Converted(k, false, false)
    ensures j == k
  {
    if j != "" && k != "" {
      var s, t := Converted(j[1..], false, false), Converted(k[1..], false, false);
      ConvertedHead(j[0], j[1..], false);
      assert j == [j[0]] + j[1..];
      ConvertedHead(k[0], k[1..], false);
      assert k == [k[0]] + k[1..];
      var c := Converted(j, false, false);
      assert IsUpper(j[0]) <==> c[0] == '_';
      assert IsUpper(k[0]) <==> c[0] == '_';
      var at := if IsUpper(j[0]) then 1 else 0;
      assert c[at] == ToLower(j[0]) == ToLower(k[0]);
      assert c[at + 1..] == s == t;
      CamelWordsStayApart(j[1..], k[1..]);
      assert j == [j[0]] + j[1..] && k == [k[0]] + k[1..];
    }
  }

  /** Two fields share a metric name exactly when their names are the same but for underscores that
      get lost; which is exactly when their JSON names are the same but for the case of the first
      letter. Fields of one message have different JSON names. */
  lemma FieldsShareNameExactly(f: string, g: string)
    requires IsIdentifier(f) && IsIdentifier(g)
    ensures MetricTail(JsonName(f)) == Canonical(f, true)
    ensures MetricTail(JsonName(f)) == MetricTail(JsonName(g)) <==> Canonical(f, true) == Canonical(g, true)
    ensures MetricTail(JsonName(f)) == MetricTail(JsonName(g)) <==> LowerFirst(JsonName(f)) == LowerFirst(JsonName(g))
  {
    CanonicalRest(f, true, false);
    CanonicalRest(g, true, false);
    var j, k := JsonName(f), JsonName(g);
    NoUnderscores(f, false);
    NoUnderscores(g, false);
    if j != "" && k != "" {
      ConvertedHead(j[0], j[1..], true);
      assert j == [j[0]] + j[1..];
      ConvertedHead(k[0], k[1..], true);
      assert k == [k[0]] + k[1..];
      var s, t := Converted(j[1..], false, false), Converted(k[1..], false, false);
      assert MetricTail(j)[0] == LowerFirst(j)[0] && MetricTail(k)[0] == LowerFirst(k)[0];
      assert MetricTail(j)[1..] == s && MetricTail(k)[1..] == t;
      assert LowerFirst(j)[1..] == j[1..] && LowerFirst(k)[1..] == k[1..];
      if s == t { CamelWordsStayApart(j[1..], k[1..]); }
    }
  }

  /** An underscore before a digit is always lost. */
  lemma {:induction false} DigitAfterUnderscore(x: string, d: char, y: string, under: bool)
    requires IsDigit(d)
    ensures CamelCased(x + "_" + [d] + y, under) == CamelCased(x + [d] + y, under)
    ensures !under ==> MetricTail(JsonName(x + "_" + [d] + y)) == MetricTail(JsonName(x + [d] + y))
  {
    var s, t := x + "_" + [d] + y, x + [d] + y;
    if x == "" {
      assert s[1..] == t && t[1..] == y;
    } else {
      assert s[1..] == x[1..] + "_" + [d] + y && t[1..] == x[1..] + [d] + y;
      DigitAfterUnderscore(x[1..], d, y, x[0] == '_');
    }
  }
}
