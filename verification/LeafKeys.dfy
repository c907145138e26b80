/** Which parameter key each scalar of a message gets, and when no two share one. */
module LeafKeys {
  import opened Values
  import opened Flatten

  /** A set scalar with the JSON names leading to it. */
  datatype Leaf = Leaf(path: seq<string>, value: Value)

  function Leaves(fields: seq<Field>): seq<Leaf>
    decreases fields
  {
    if fields == [] then [] else FieldLeaves(fields[0]) + Leaves(fields[1..])
  }

  function FieldLeaves(f: Field): seq<Leaf>
    decreases f
  {
    match f.value
    case BoolField(b) => [Leaf([f.jsonName], Number(if b then 1.0 else 0.0))]
    case NumberField(n) => [Leaf([f.jsonName], Number(n))]
    case StringField(s) => [Leaf([f.jsonName], Text(s))]
    case SkippedField => []
    case MessageField(fields) =>
      var nested := Leaves(fields);
      seq(|nested|, i requires 0 <= i < |nested| => Leaf([f.jsonName] + nested[i].path, nested[i].value))
  }

  function Dotted(path: seq<string>): string {
    if path == [] then "" else if |path| == 1 then path[0] else path[0] + "." + Dotted(path[1..])
  }

  function LeafKey(prefix: string, leaf: Leaf): string { prefix + Dotted(leaf.path) }

  /** Names are distinct within every message and hold no dot. */
  predicate WellNamed(fields: seq<Field>)
    decreases fields
  {
    && (forall i, j | 0 <= i < j < |fields| :: fields[i].jsonName != fields[j].jsonName)
    && (forall f | f in fields :: '.' !in f.jsonName && (f.value.MessageField? ==> WellNamed(f.value.fields)))
  }

  /** The fields of a message whose wrappers are inlined: each wrapper gives way to its fields. */
  function Hoisted(fields: seq<Field>): seq<Field> {
    if fields == [] then []
    else (if fields[0].value.MessageField? then fields[0].value.fields else [fields[0]]) + Hoisted(fields[1..])
  }

  lemma {:induction false} WritesAreLeaves(fields: seq<Field>, prefix: string)
    ensures |Writes(fields, prefix, false)| == |Leaves(fields)|
    ensures forall i | 0 <= i < |Leaves(fields)| ::
              && Leaves(fields)[i].path != []
              && Writes(fields, prefix, false)[i] == (LeafKey(prefix, Leaves(fields)[i]), Leaves(fields)[i].value)
    decreases fields, 1
  {
    if fields != [] {
      FieldWritesAreLeaves(fields[0], prefix);
      WritesAreLeaves(fields[1..], prefix);
    }
  }

  lemma {:induction false} FieldWritesAreLeaves(f: Field, prefix: string)
    ensures |FieldWrites(f, prefix, false)| == |FieldLeaves(f)|
    ensures forall i | 0 <= i < |FieldLeaves(f)| ::
              && FieldLeaves(f)[i].path != [] && FieldLeaves(f)[i].path[0] == f.jsonName
              && FieldWrites(f, prefix, false)[i] == (LeafKey(prefix, FieldLeaves(f)[i]), FieldLeaves(f)[i].value)
    decreases f, 0
  {
    if f.value.MessageField? {
      var nested, inner := Leaves(f.value.fields), prefix + f.jsonName + ".";
      WritesAreLeaves(f.value.fields, inner);
      forall i | 0 <= i < |nested|
        ensures LeafKey(inner, nested[i]) == LeafKey(prefix, FieldLeaves(f)[i])
      {
        assert FieldLeaves(f)[i].path[1..] == nested[i].path;
      }
    }
  }

  lemma {:induction false} HoistedWrites(fields: seq<Field>, prefix: string)
    ensures Writes(fields, prefix, true) == Writes(Hoisted(fields), prefix, false)
    decreases fields
  {
    if fields != [] {
      HoistedWrites(fields[1..], prefix);
      var f := fields[0];
      var first := if f.value.MessageField? then f.value.fields else [f];
      WritesAppend(first, Hoisted(fields[1..]), prefix, false);
      if !f.value.MessageField? {
        assert [f][1..] == [];
        assert Writes([f], prefix, false) == FieldWrites(f, prefix, true);
      }
    }
  }

  // ---------------------------------------------------------------------------
  // Keys are one to one
  // ---------------------------------------------------------------------------

  /** What stands before the first separator is determined by the whole text, and so is the rest. */
  lemma SeparatorSplits(c: char, a: string, b: string, s: string, t: string)
    requires c !in a && c !in b
    requires a + s == b + t && (s == "" || s[0] == c) && (t == "" || t[0] == c)
    ensures a == b && s == t
  {
    var all := a + s;
    assert a == all[..|a|] && b == all[..|b|];
    assert s == all[|a|..] && t == all[|b|..];
  }

  predicate DotFree(path: seq<string>) {
    path != [] && forall k | 0 <= k < |path| :: '.' !in path[k]
  }

  /** The text after the first name of a path. */
  function Beyond(path: seq<string>): string
    requires path != []
  {
    if |path| == 1 then "" else "." + Dotted(path[1..])
  }

  lemma DottedParts(path: seq<string>)
    requires path != []
    ensures Dotted(path) == path[0] + Beyond(path)
    ensures |path| > 1 ==> Beyond(path)[1..] == Dotted(path[1..])
  {
  }

  lemma {:induction false} DottedIsInjective(p: seq<string>, q: seq<string>)
    requires DotFree(p) && DotFree(q) && Dotted(p) == Dotted(q)
    ensures p == q
    decreases |p|
  {
    DottedParts(p);
    DottedParts(q);
    SeparatorSplits('.', p[0], q[0], Beyond(p), Beyond(q));
    if |p| > 1 {
      assert |q| > 1;
      DottedIsInjective(p[1..], q[1..]);
    }
    assert p == [p[0]] + p[1..] && q == [q[0]] + q[1..];
  }

  lemma RestWellNamed(fields: seq<Field>)
    requires WellNamed(fields) && fields != []
    ensures WellNamed(fields[1..])
  {
    assert forall k | 0 <= k < |fields[1..]| :: fields[1..][k] == fields[k + 1];
  }

  lemma {:induction false} LeafPathsDiffer(fields: seq<Field>, i: nat, j: nat)
    requires WellNamed(fields) && i < j < |Leaves(fields)|
    ensures Leaves(fields)[i].path != Leaves(fields)[j].path
    decreases fields
  {
    var f, rest := fields[0], fields[1..];
    var n := |FieldLeaves(f)|;
    FieldWritesAreLeaves(f, "");
    RestWellNamed(fields);
    if i >= n {
      LeafPathsDiffer(rest, i - n, j - n);
    } else if j >= n {
      var g := LeafOwner(rest, j - n);
      assert f.jsonName != g.jsonName by {
        var k :| 0 <= k < |rest| && rest[k] == g;
        assert fields[k + 1] == g;
      }
    } else if f.value.MessageField? {
      var nested := Leaves(f.value.fields);
      LeafPathsDiffer(f.value.fields, i, j);
      assert FieldLeaves(f)[i].path[1..] == nested[i].path;
      assert FieldLeaves(f)[j].path[1..] == nested[j].path;
    }
  }

  lemma {:induction false} LeafOwner(fields: seq<Field>, i: nat) returns (f: Field)
    requires i < |Leaves(fields)|
    ensures f in fields && Leaves(fields)[i].path != [] && Leaves(fields)[i].path[0] == f.jsonName
    decreases fields
  {
    f := fields[0];
    FieldWritesAreLeaves(f, "");
    if i >= |FieldLeaves(f)| { f := LeafOwner(fields[1..], i - |FieldLeaves(f)|); }
  }

  lemma {:induction false} LeafPathsDotFree(fields: seq<Field>, i: nat)
    requires WellNamed(fields) && i < |Leaves(fields)|
    ensures DotFree(Leaves(fields)[i].path)
    decreases fields
  {
    var f, rest := fields[0], fields[1..];
    var n := |FieldLeaves(f)|;
    RestWellNamed(fields);
    if i >= n {
      LeafPathsDotFree(rest, i - n);
    } else if f.value.MessageField? {
      LeafPathsDotFree(f.value.fields, i);
      assert FieldLeaves(f)[i].path == [f.jsonName] + Leaves(f.value.fields)[i].path;
    }
  }

  lemma LeafKeysDiffer(fields: seq<Field>, prefix: string, i: nat, j: nat)
    requires WellNamed(fields) && i < j < |Leaves(fields)|
    ensures LeafKey(prefix, Leaves(fields)[i]) != LeafKey(prefix, Leaves(fields)[j])
  {
    var p, q := Leaves(fields)[i].path, Leaves(fields)[j].path;
    LeafPathsDiffer(fields, i, j);
    LeafPathsDotFree(fields, i);
    LeafPathsDotFree(fields, j);
    if Dotted(p) == Dotted(q) { DottedIsInjective(p, q); }
    assert (prefix + Dotted(p))[|prefix|..] == Dotted(p);
    assert (prefix + Dotted(q))[|prefix|..] == Dotted(q);
  }

  predicate DistinctKeys(ws: seq<Write>) {
    forall i, j | 0 <= i < j < |ws| :: ws[i].0 != ws[j].0
  }

  lemma WriteKeysDiffer(fields: seq<Field>, prefix: string)
    requires WellNamed(fields)
    ensures DistinctKeys(Writes(fields, prefix, false))
  {
    WritesAreLeaves(fields, prefix);
    forall i, j | 0 <= i < j < |Leaves(fields)|
      ensures LeafKey(prefix, Leaves(fields)[i]) != LeafKey(prefix, Leaves(fields)[j])
    {
      LeafKeysDiffer(fields, prefix, i, j);
    }
  }

  /** Every set scalar gets an entry of its own, under its path, and there are no other entries. */
  lemma OneEntryPerLeaf(fields: seq<Field>, prefix: string)
    requires WellNamed(fields)
    ensures |Flat(fields, prefix, false)| == |Leaves(fields)|
    ensures forall i | 0 <= i < |Leaves(fields)| :: HoldsLeaf(Flat(fields, prefix, false), prefix, Leaves(fields)[i])
    ensures Consistent(Writes(fields, prefix, false))
  {
    var ws := Writes(fields, prefix, false);
    WriteKeysDiffer(fields, prefix);
    DistinctKeysCount(ws);
    ConsistentMap(ws);
    WritesAreLeaves(fields, prefix);
    forall i | 0 <= i < |Leaves(fields)| ensures HoldsLeaf(Flat(fields, prefix, false), prefix, Leaves(fields)[i]) {
      assert ws[i] == (LeafKey(prefix, Leaves(fields)[i]), Leaves(fields)[i].value);
    }
  }

  predicate HoldsLeaf(params: Params, prefix: string, leaf: Leaf) {
    LeafKey(prefix, leaf) in params && params[LeafKey(prefix, leaf)] == leaf.value
  }

  /** The same for a message whose wrapper names are dropped, when the names left are distinct. */
  lemma OneEntryPerInlinedLeaf(fields: seq<Field>, prefix: string)
    requires WellNamed(Hoisted(fields))
    ensures Flat(fields, prefix, true) == Flat(Hoisted(fields), prefix, false)
    ensures |Flat(fields, prefix, true)| == |Leaves(fields)|
    ensures Consistent(Writes(fields, prefix, true))
  {
    HoistedWrites(fields, prefix);
    OneEntryPerLeaf(Hoisted(fields), prefix);
    HoistedLeafCount(fields);
  }

  /** In a message of two wrappers the wrapper names leave no trace. */
  lemma TwoWrappers(f: Field, g: Field, prefix: string)
    requires f.value.MessageField? && g.value.MessageField?
    requires WellNamed(Hoisted([f, g]))
    ensures Flat([f, g], prefix, true) == Flat(f.value.fields + g.value.fields, prefix, false)
    ensures |Flat([f, g], prefix, true)| == |Leaves(f.value.fields)| + |Leaves(g.value.fields)|
  {
    assert [f, g][1..] == [g] && [g][1..] == [];
    assert Hoisted([g]) == g.value.fields;
    assert Hoisted([f, g]) == f.value.fields + g.value.fields;
    OneEntryPerInlinedLeaf([f, g], prefix);
    OneEntryPerLeaf(f.value.fields + g.value.fields, prefix);
    LeavesAppend(f.value.fields, g.value.fields);
  }

  lemma {:induction false} HoistedLeafCount(fields: seq<Field>)
    ensures |Leaves(Hoisted(fields))| == |Leaves(fields)|
    decreases fields
  {
    if fields != [] {
      var f := fields[0];
      HoistedLeafCount(fields[1..]);
      LeavesAppend(if f.value.MessageField? then f.value.fields else [f], Hoisted(fields[1..]));
      if !f.value.MessageField? {
        assert [f][1..] == [];
        assert Leaves([f]) == FieldLeaves(f);
      }
    }
  }

  lemma {:induction false} LeavesAppend(fs: seq<Field>, gs: seq<Field>)
    ensures Leaves(fs + gs) == Leaves(fs) + Leaves(gs)
    decreases fs
  {
    if fs == [] {
      assert fs + gs == gs;
    } else {
      assert (fs + gs)[1..] == fs[1..] + gs;
      LeavesAppend(fs[1..], gs);
    }
  }

  lemma {:induction false} DistinctKeysCount(ws: seq<Write>)
    requires DistinctKeys(ws)
    ensures |Apply(map[], ws)| == |ws|
    decreases ws
  {
    if ws != [] {
      var front, w := ws[..|ws| - 1], ws[|ws| - 1];
      assert ws == front + [w];
      assert forall k | 0 <= k < |front| :: front[k] == ws[k];
      DistinctKeysCount(front);
      ApplyAppend(map[], front, [w]);
      assert [w][1..] == [];
      ConsistentMap(front);
      var m := Apply(map[], front);
      assert w.0 !in m;
      assert Apply(map[], ws) == m[w.0 := w.1];
    }
  }
}
