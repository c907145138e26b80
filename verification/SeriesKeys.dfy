/** The string keys under which series are stored, and when two devices can share one. */
module SeriesKeys {
  import opened Naming

  function MetricName(prefix: string, tail: string): string { prefix + "_" + tail }

  function Key(sn: string, name: string): string { sn + "_" + name }

  /** Some metric of device a and some metric of device b are stored under the same key. */
  ghost predicate Clash(a: string, b: string, prefix: string) {
    exists m, n :: SameKey(a, m, b, n, prefix)
  }

  predicate SameKey(a: string, m: string, b: string, n: string, prefix: string) {
    IsNameTail(m) && IsNameTail(n) && Key(a, MetricName(prefix, m)) == Key(b, MetricName(prefix, n))
  }

  function Infix(prefix: string): string { "_" + prefix + "_" }

  /** Serial number b is a longer one of a kind that runs into a's metric names. */
  predicate Shadows(a: string, b: string, prefix: string) {
    && |a| < |b| && a <= b
    && var gap := b[|a|..] + Infix(prefix);
    && Infix(prefix) <= gap
    && forall k | |Infix(prefix)| <= k < |gap| :: IsNameTailRune(gap[k])
  }

  /** Keys of two devices can coincide exactly when one serial number shadows the other, which can be
      told from the serial numbers and the metric prefix alone. */
  lemma KeysClash(a: string, b: string, prefix: string)
    requires a != b
    ensures Clash(a, b, prefix) <==> Shadows(a, b, prefix) || Shadows(b, a, prefix)
  {
    if Shadows(a, b, prefix) { ShadowClashes(a, b, prefix); }
    if Shadows(b, a, prefix) {
      ShadowClashes(b, a, prefix);
      var m, n :| SameKey(b, m, a, n, prefix);
      assert SameKey(a, n, b, m, prefix);
    }
    if Clash(a, b, prefix) {
      var m, n :| SameKey(a, m, b, n, prefix);
      if |a| <= |b| { ClashShadows(a, m, b, n, prefix); } else { ClashShadows(b, n, a, m, prefix); }
    }
  }

  lemma ShadowClashes(a: string, b: string, prefix: string)
    requires Shadows(a, b, prefix)
    ensures Clash(a, b, prefix)
  {
    var m := ShadowedTail(a, b, prefix, "x");
    assert SameKey(a, m, b, "x", prefix);
  }

  /** Every metric of the shadowing device has the key of some metric of the other one. */
  lemma ShadowedTail(a: string, b: string, prefix: string, n: string) returns (m: string)
    requires Shadows(a, b, prefix) && IsNameTail(n)
    ensures SameKey(a, m, b, n, prefix)
    ensures |m| > |n| && m[|m| - |n|..] == n
  {
    var infix := Infix(prefix);
    var gap := b[|a|..] + infix;
    m := gap[|infix|..] + n;
    assert infix + m == gap + n;
    KeyParts(a, prefix, m);
    KeyParts(b, prefix, n);
    assert a + (gap + n) == b + (infix + n);
  }

  lemma KeyParts(sn: string, prefix: string, tail: string)
    ensures Key(sn, MetricName(prefix, tail)) == sn + (Infix(prefix) + tail)
  {
  }

  lemma Beyond(a: string, b: string, rest: string)
    requires |a| <= |b| && a <= b + rest
    ensures a <= b && (b + rest)[|a|..] == b[|a|..] + rest
  {
    assert a == (b + rest)[..|a|] == b[..|a|];
  }

  lemma ClashShadows(a: string, m: string, b: string, n: string, prefix: string)
    requires SameKey(a, m, b, n, prefix) && a != b && |a| <= |b|
    ensures Shadows(a, b, prefix)
  {
    var infix := Infix(prefix);
    KeyParts(a, prefix, m);
    KeyParts(b, prefix, n);
    Beyond(a, b, infix + n);
    var gap := b[|a|..] + infix;
    assert gap + n == b[|a|..] + (infix + n);
    Between(infix, gap, m, n);
  }

  lemma Between(infix: string, gap: string, m: string, n: string)
    requires gap + n == infix + m && |infix| <= |gap| && IsNameTail(m)
    ensures infix <= gap && forall k | |infix| <= k < |gap| :: IsNameTailRune(gap[k])
  {
    assert gap == (infix + m)[..|gap|];
    forall k | |infix| <= k < |gap| ensures IsNameTailRune(gap[k]) {
      assert gap[k] == (infix + m)[k] == m[k - |infix|];
    }
  }

  /** No key is shared by two of these devices. */
  predicate Apart(sns: set<string>, prefix: string) {
    forall a, b | a in sns && b in sns && a != b :: !Shadows(a, b, prefix)
  }

  // ---------------------------------------------------------------------------
  // One series, or the series of one device
  // ---------------------------------------------------------------------------

  /** No metric of another device is stored under the key of this series. */
  ghost predicate OwnKey(sns: set<string>, prefix: string, sn: string, name: string) {
    forall m, b, n | name == MetricName(prefix, m) && b in sns && b != sn :: !SameKey(sn, m, b, n, prefix)
  }

  predicate Unshadowed(sns: set<string>, prefix: string, sn: string) {
    forall a | a in sns && a != sn :: !Shadows(a, sn, prefix)
  }

  lemma ApartOwnsKeys(sns: set<string>, prefix: string, sn: string, name: string)
    requires Apart(sns, prefix) && sn in sns
    ensures OwnKey(sns, prefix, sn, name) && Unshadowed(sns, prefix, sn)
  {
    forall m, b, n | name == MetricName(prefix, m) && b in sns && b != sn && SameKey(sn, m, b, n, prefix)
      ensures false
    {
      KeysClash(sn, b, prefix);
    }
  }

  /** The metrics without an underscore, online among them, of the shorter one of two devices are safe:
      the key of such a metric is shared exactly when the serial number is shadowed by another one. */
  lemma PlainTailOwnsKey(sns: set<string>, prefix: string, sn: string, m: string)
    requires IsNameTail(m) && '_' !in m
    ensures OwnKey(sns, prefix, sn, MetricName(prefix, m)) <==> Unshadowed(sns, prefix, sn)
  {
    forall k, b, n | MetricName(prefix, m) == MetricName(prefix, k) && b in sns && b != sn &&
                     SameKey(sn, k, b, n, prefix)
      ensures Shadows(b, sn, prefix)
    {
      SameTail(prefix, m, k);
      if |b| > |sn| { LongerSerialNeedsUnderscore(sn, m, b, n, prefix); } else { ClashShadows(b, n, sn, m, prefix); }
    }
    forall b | b in sns && b != sn && Shadows(b, sn, prefix) ensures !OwnKey(sns, prefix, sn, MetricName(prefix, m)) {
      var n := ShadowedTail(b, sn, prefix, m);
      assert SameKey(sn, m, b, n, prefix);
    }
  }

  lemma LongerSerialNeedsUnderscore(a: string, m: string, b: string, n: string, prefix: string)
    requires SameKey(a, m, b, n, prefix) && |a| < |b|
    ensures '_' in m
  {
    var infix := Infix(prefix);
    var key := a + infix + m;
    assert key == Key(a, MetricName(prefix, m));
    assert key == b + infix + n by { assert Key(b, MetricName(prefix, n)) == b + infix + n; }
    var at := |b + infix| - 1;
    assert (b + infix + n)[at] == infix[|infix| - 1] == '_';
    assert key[at] == m[at - |a + infix|];
  }

  lemma SameTail(prefix: string, m: string, n: string)
    requires MetricName(prefix, m) == MetricName(prefix, n)
    ensures m == n
  {
    var front := prefix + "_";
    assert (front + m)[|front|..] == m && (front + n)[|front|..] == n;
  }

  lemma KeysDetermineSeries(sns: set<string>, prefix: string, a: string, m: string, b: string, n: string)
    requires Apart(sns, prefix) && a in sns && b in sns && IsNameTail(m) && IsNameTail(n)
    requires Key(a, MetricName(prefix, m)) == Key(b, MetricName(prefix, n))
    ensures a == b && m == n
  {
    if a != b {
      assert SameKey(a, m, b, n, prefix);
      KeysClash(a, b, prefix);
    } else {
      var infix := Infix(prefix);
      assert Key(a, MetricName(prefix, m)) == (a + infix) + m;
      assert Key(a, MetricName(prefix, n)) == (a + infix) + n;
      assert m == ((a + infix) + m)[|a + infix|..] == n;
    }
  }

  /** Serial numbers without underscores never clash, whatever the prefix. */
  lemma PlainSerialsAreApart(sns: set<string>, prefix: string)
    requires forall sn | sn in sns :: '_' !in sn
    ensures Apart(sns, prefix)
  {
    forall a, b | a in sns && b in sns && a != b ensures !Shadows(a, b, prefix) {
      if |a| < |b| {
        assert (b[|a|..] + Infix(prefix))[0] == b[|a|];
        assert Infix(prefix)[0] == '_';
      }
    }
  }

  /** An underscore in a serial number can do harm: a serial number ending in the metric prefix runs
      into the metrics of the one without it. */
  lemma PrefixedSerialClashes(sn: string, prefix: string)
    requires IsNameTail(prefix)
    ensures !Apart({sn, sn + "_" + prefix}, prefix)
    ensures Clash(sn, sn + "_" + prefix, prefix)
  {
    var other, infix := sn + "_" + prefix, Infix(prefix);
    assert other == sn + ("_" + prefix);
    var gap := other[|sn|..] + infix;
    assert gap == infix + (prefix + "_");
    assert sn == other[..|sn|];
    assert Shadows(sn, other, prefix);
    KeysClash(sn, other, prefix);
  }
}
