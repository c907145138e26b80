/** Reports of several battery packs: the pack number in the prefix keeps them apart. */
module Battery {
  import opened Naming
  import opened Flatten
  import opened LeafKeys

  function Digit(d: nat): char
    requires d < 10
  {
    '0' + d as char
  }

  function Decimal(n: nat): string {
    if n < 10 then [Digit(n)] else Decimal(n / 10) + [Digit(n % 10)]
  }

  /** The prefix of a battery report's parameters. */
  function PackPrefix(pack: nat): string { "bms." + Decimal(pack) + "." }

  lemma {:induction false} DecimalIsDigits(n: nat)
    ensures Decimal(n) != "" && forall k | 0 <= k < |Decimal(n)| :: IsDigit(Decimal(n)[k])
  {
    if n >= 10 { DecimalIsDigits(n / 10); }
  }

  /** The number that a string of digits denotes. */
  function DecimalValue(s: string): int {
    if s == "" then 0 else 10 * DecimalValue(s[..|s| - 1]) + (s[|s| - 1] as int - '0' as int)
  }

  /** The digits denote the number, and only zero begins with a zero. */
  lemma {:induction false} DecimalDenotes(n: nat)
    ensures DecimalValue(Decimal(n)) == n
    ensures Decimal(n) != "" && (Decimal(n)[0] == '0' ==> n == 0)
  {
    if n >= 10 {
      DecimalDenotes(n / 10);
      var s := Decimal(n);
      assert s[..|s| - 1] == Decimal(n / 10) && s[|s| - 1] == Digit(n % 10);
    } else {
      assert Decimal(n)[..0] == "";
    }
  }

  lemma {:induction false} DecimalIsInjective(n: nat, m: nat)
    requires Decimal(n) == Decimal(m)
    ensures n == m
  {
    DecimalIsDigits(n / 10);
    DecimalIsDigits(m / 10);
    var s := Decimal(n);
    if n >= 10 && m >= 10 {
      assert s[|s| - 1] == Digit(n % 10) == Digit(m % 10);
      assert s[..|s| - 1] == Decimal(n / 10) == Decimal(m / 10);
      DecimalIsInjective(n / 10, m / 10);
    } else {
      assert n < 10 ==> |s| == 1;
      assert n >= 10 ==> |s| > 1;
      assert m >= 10 ==> |s| > 1;
      assert s[0] == Digit(n) == Digit(m);
    }
  }

  lemma PackAndRest(n: nat, m: nat, c: char, x: string, y: string)
    requires !IsDigit(c) && Decimal(n) + [c] + x == Decimal(m) + [c] + y
    ensures n == m && x == y
  {
    DecimalIsDigits(n);
    DecimalIsDigits(m);
    assert Decimal(n) + ([c] + x) == Decimal(n) + [c] + x;
    assert Decimal(m) + ([c] + y) == Decimal(m) + [c] + y;
    SeparatorSplits(c, Decimal(n), Decimal(m), [c] + x, [c] + y);
    DecimalIsInjective(n, m);
    assert x == ([c] + x)[1..] && y == ([c] + y)[1..];
  }

  /** Different packs or different names give different parameter keys. */
  lemma PackKeysDiffer(n: nat, f: string, m: nat, g: string)
    ensures PackPrefix(n) + f == PackPrefix(m) + g ==> n == m && f == g
  {
    if PackPrefix(n) + f == PackPrefix(m) + g {
      assert (PackPrefix(n) + f)[4..] == Decimal(n) + "." + f;
      assert (PackPrefix(m) + g)[4..] == Decimal(m) + "." + g;
      PackAndRest(n, m, '.', f, g);
    }
  }

  predicate IsPlain(c: char) { IsDigit(c) || IsLower(c) }

  lemma PlainRune(c: char, s: string, start: bool, under: bool)
    requires IsPlain(c)
    ensures Converted([c] + s, start, under) == [c] + Converted(s, false, false)
  {
  }

  lemma {:induction false} PlainStays(d: string, rest: string, start: bool, under: bool)
    requires forall k | 0 <= k < |d| :: IsPlain(d[k])
    ensures Converted(d + rest, start, under) == d + Converted(rest, start && d == "", under && d == "")
    decreases d
  {
    if d == "" {
      assert d + rest == rest;
    } else {
      var c, e := d[0], d[1..];
      assert d == [c] + e && d + rest == [c] + (e + rest);
      PlainRune(c, e + rest, start, under);
      PlainStays(e, rest, false, false);
    }
  }

  lemma DotBecomesUnderscore(rest: string)
    ensures Converted("." + rest, false, false) == "_" + Converted(rest, false, true)
  {
  }

  lemma PackMetricTail(n: nat, f: string)
    ensures MetricTail(PackPrefix(n) + f) == "bms_" + (Decimal(n) + "_" + Converted(f, false, true))
  {
    DecimalIsDigits(n);
    var tail := Decimal(n) + ("." + f);
    assert PackPrefix(n) + f == "bms" + ("." + tail);
    PlainStays("bms", "." + tail, true, false);
    DotBecomesUnderscore(tail);
    PlainStays(Decimal(n), "." + f, false, true);
    DotBecomesUnderscore(f);
  }

  /** Two battery parameters share a metric name exactly when they are of one pack and their names
      below the prefix would be converted to the same. */
  lemma PackMetricsExactly(n: nat, f: string, m: nat, g: string)
    ensures MetricTail(PackPrefix(n) + f) == MetricTail(PackPrefix(m) + g) <==> n == m && MetricTail(f) == MetricTail(g)
  {
    PackMetricTail(n, f);
    PackMetricTail(m, g);
    assert Converted(f, false, true) == MetricTail(f) && Converted(g, false, true) == MetricTail(g);
    var s, t := MetricTail(PackPrefix(n) + f), MetricTail(PackPrefix(m) + g);
    if s == t {
      assert s[4..] == Decimal(n) + "_" + MetricTail(f);
      assert t[4..] == Decimal(m) + "_" + MetricTail(g);
      PackAndRest(n, m, '_', MetricTail(f), MetricTail(g));
    }
  }

  /** Two battery fields share a parameter key exactly when they are of one pack and have one JSON
      name, and a metric name exactly when they are of one pack and differ only in underscores that
      get lost; so snake-case names stay apart in both. */
  lemma PackFieldsStayApart(n: nat, f: string, m: nat, g: string)
    requires IsIdentifier(f) && IsIdentifier(g)
    ensures PackPrefix(n) + JsonName(f) == PackPrefix(m) + JsonName(g) <==> n == m && JsonName(f) == JsonName(g)
    ensures MetricTail(PackPrefix(n) + JsonName(f)) == MetricTail(PackPrefix(m) + JsonName(g)) <==>
            n == m && Canonical(f, true) == Canonical(g, true)
    ensures IsSnake(f) && IsSnake(g) && (n != m || f != g) ==>
              && PackPrefix(n) + JsonName(f) != PackPrefix(m) + JsonName(g)
              && MetricTail(PackPrefix(n) + JsonName(f)) != MetricTail(PackPrefix(m) + JsonName(g))
  {
    PackKeysDiffer(n, JsonName(f), m, JsonName(g));
    PackMetricsExactly(n, JsonName(f), m, JsonName(g));
    FieldsShareNameExactly(f, g);
    if IsSnake(f) && IsSnake(g) {
      RoundTrip(f);
      RoundTrip(g);
    }
  }

  lemma {:induction false} WritesKeepPrefix(fields: seq<Field>, prefix: string, inlineNested: bool, w: Write)
    requires w in Writes(fields, prefix, inlineNested)
    ensures prefix <= w.0
    decreases fields
  {
    var f := fields[0];
    if w !in FieldWrites(f, prefix, inlineNested) {
      WritesKeepPrefix(fields[1..], prefix, inlineNested, w);
    } else if f.value.MessageField? {
      WritesKeepPrefix(f.value.fields, if inlineNested then prefix else prefix + f.jsonName + ".", false, w);
    }
  }

  lemma {:induction false} AppliedKeyWasWritten(ws: seq<Write>, k: string)
    requires k in Apply(map[], ws)
    ensures exists w :: w in ws && w.0 == k
    decreases ws
  {
    if ws != [] {
      var front, w := ws[..|ws| - 1], ws[|ws| - 1];
      assert ws == front + [w];
      ApplyAppend(map[], front, [w]);
      assert [w][1..] == [];
      assert Apply(map[], ws) == Apply(map[], front)[w.0 := w.1];
      if k == w.0 {
        assert w in ws;
      } else {
        AppliedKeyWasWritten(front, k);
        var v :| v in front && v.0 == k;
        assert v in ws;
      }
    }
  }

  /** Whole reports: no parameter of one pack is a parameter, or exported under the metric name, of a
      parameter of another pack. */
  lemma FlatsStayApart(n: nat, fs: seq<Field>, m: nat, gs: seq<Field>, k: string, l: string)
    requires n != m
    requires k in Flat(fs, PackPrefix(n), false) && l in Flat(gs, PackPrefix(m), false)
    ensures k != l && MetricTail(k) != MetricTail(l)
  {
    AppliedKeyWasWritten(Writes(fs, PackPrefix(n), false), k);
    AppliedKeyWasWritten(Writes(gs, PackPrefix(m), false), l);
    var v :| v in Writes(fs, PackPrefix(n), false) && v.0 == k;
    var w :| w in Writes(gs, PackPrefix(m), false) && w.0 == l;
    WritesKeepPrefix(fs, PackPrefix(n), false, v);
    WritesKeepPrefix(gs, PackPrefix(m), false, w);
    var f, g := k[|PackPrefix(n)|..], l[|PackPrefix(m)|..];
    assert k == PackPrefix(n) + f && l == PackPrefix(m) + g;
    PackKeysDiffer(n, f, m, g);
    PackMetricsExactly(n, f, m, g);
  }
}
