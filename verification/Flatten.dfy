/** Flattening a decoded protobuf message into dotted parameter names. */
module Flatten {
  import opened Values

  /** A populated field. Repeated fields, maps and bytes carry no parameter. */
  datatype Field = Field(jsonName: string, value: FieldValue)

  datatype FieldValue =
    | BoolField(b: bool)
    | NumberField(n: real)
    | StringField(s: string)
    | SkippedField
    | MessageField(fields: seq<Field>)

  type Write = (string, Value)

  // ---------------------------------------------------------------------------
  // The traversal, with fields in the order in which they happen to be visited
  // ---------------------------------------------------------------------------

  /** The assignments to the output map, in order. */
  function Writes(fields: seq<Field>, prefix: string, inlineNested: bool): seq<Write>
    decreases fields
  {
    if fields == [] then []
    else FieldWrites(fields[0], prefix, inlineNested) + Writes(fields[1..], prefix, inlineNested)
  }

  function FieldWrites(f: Field, prefix: string, inlineNested: bool): seq<Write>
    decreases f
  {
    var key := prefix + f.jsonName;
    match f.value
    case BoolField(b) => [(key, Number(if b then 1.0 else 0.0))]
    case NumberField(n) => [(key, Number(n))]
    case StringField(s) => [(key, Text(s))]
    case SkippedField => []
    case MessageField(fields) => Writes(fields, if inlineNested then prefix else key + ".", false)
  }

  function Apply(out: Params, ws: seq<Write>): Params
    decreases ws
  {
    if ws == [] then out else Apply(out[ws[0].0 := ws[0].1], ws[1..])
  }

  function Flat(fields: seq<Field>, prefix: string, inlineNested: bool): Params {
    Apply(map[], Writes(fields, prefix, inlineNested))
  }

  lemma {:induction false} ApplyAppend(out: Params, ws: seq<Write>, vs: seq<Write>)
    ensures Apply(out, ws + vs) == Apply(Apply(out, ws), vs)
    decreases ws
  {
    if ws == [] {
      assert ws + vs == vs;
    } else {
      assert (ws + vs)[1..] == ws[1..] + vs;
      ApplyAppend(out[ws[0].0 := ws[0].1], ws[1..], vs);
    }
  }

  method FlattenMessage(fields: seq<Field>, prefix: string, inlineNested: bool, out: ParamMap)
    modifies out
    ensures out.entries == Apply(old(out.entries), Writes(fields, prefix, inlineNested))
    decreases fields
  {
    var i := 0;
    ghost var all := Writes(fields, prefix, inlineNested);
    while i < |fields|
      invariant 0 <= i <= |fields|
      invariant Apply(old(out.entries), all) ==
                Apply(out.entries, Writes(fields[i..], prefix, inlineNested))
    {
      var f := fields[i];
      var key := prefix + f.jsonName;
      ghost var rest := Writes(fields[i..][1..], prefix, inlineNested);
      assert fields[i..][0] == f && fields[i..][1..] == fields[i + 1..];
      ApplyAppend(out.entries, FieldWrites(f, prefix, inlineNested), rest);
      match f.value {
        case BoolField(b) => out.entries := out.entries[key := Number(if b then 1.0 else 0.0)];
        case NumberField(n) => out.entries := out.entries[key := Number(n)];
        case StringField(s) => out.entries := out.entries[key := Text(s)];
        case SkippedField =>
        case MessageField(nested) =>
          var nestedPrefix := if inlineNested then prefix else key + ".";
          FlattenMessage(nested, nestedPrefix, false, out);
      }
      i := i + 1;
    }
    assert fields[i..] == [];
  }

  // ---------------------------------------------------------------------------
  // Visiting orders
  // ---------------------------------------------------------------------------

  /** The same message visited in another order, at any level. */
  ghost predicate Shuffled(fs: seq<Field>, gs: seq<Field>)
    decreases fs, 1
  {
    |fs| == |gs| && (fs == [] || exists i :: Picked(fs, gs, i))
  }

  ghost predicate Picked(fs: seq<Field>, gs: seq<Field>, i: int)
    requires fs != []
    decreases fs, 0
  {
    0 <= i < |gs| && SameField(fs[0], gs[i]) && Shuffled(fs[1..], Without(gs, i))
  }

  ghost predicate SameField(f: Field, g: Field)
    decreases f, 0
  {
    && f.jsonName == g.jsonName
    && if f.value.MessageField? then g.value.MessageField? && Shuffled(f.value.fields, g.value.fields)
       else f.value == g.value
  }

  function Without(fs: seq<Field>, i: nat): seq<Field>
    requires i < |fs|
  {
    fs[..i] + fs[i + 1..]
  }

  /** One key is never written with two different values. */
  predicate Consistent(ws: seq<Write>) {
    forall i, j | 0 <= i < |ws| && 0 <= j < |ws| && ws[i].0 == ws[j].0 :: ws[i].1 == ws[j].1
  }

  /** The flattened map is the same for every visiting order exactly when no key is written with two
      different values. */
  lemma OrderIrrelevant(fields: seq<Field>, prefix: string, inlineNested: bool)
    ensures (forall gs | Shuffled(fields, gs) :: Flat(gs, prefix, inlineNested) == Flat(fields, prefix, inlineNested))
       <==> Consistent(Writes(fields, prefix, inlineNested))
  {
    var ws := Writes(fields, prefix, inlineNested);
    if Consistent(ws) {
      forall gs | Shuffled(fields, gs)
        ensures Flat(gs, prefix, inlineNested) == Flat(fields, prefix, inlineNested)
      {
        ShuffleKeepsWrites(fields, gs, prefix, inlineNested);
        SameWritesSameMap(ws, Writes(gs, prefix, inlineNested));
      }
    } else {
      var i, j :| 0 <= i < |ws| && 0 <= j < |ws| && ws[i].0 == ws[j].0 && ws[i].1 != ws[j].1;
      var first := PutLast(fields, prefix, inlineNested, ws[i]);
      var second := PutLast(fields, prefix, inlineNested, ws[j]);
      LastWins(Writes(first, prefix, inlineNested));
      LastWins(Writes(second, prefix, inlineNested));
      assert Flat(first, prefix, inlineNested) != Flat(second, prefix, inlineNested);
    }
  }

  lemma {:induction false} LastWins(ws: seq<Write>)
    requires ws != []
    ensures var last := ws[|ws| - 1]; last.0 in Apply(map[], ws) && Apply(map[], ws)[last.0] == last.1
  {
    var front := ws[..|ws| - 1];
    assert ws == front + [ws[|ws| - 1]];
    ApplyAppend(map[], front, [ws[|ws| - 1]]);
    assert [ws[|ws| - 1]][1..] == [];
  }

  /** Consistent writes leave exactly what was written. */
  lemma {:induction false} ConsistentMap(ws: seq<Write>)
    requires Consistent(ws)
    ensures forall i | 0 <= i < |ws| :: ws[i].0 in Apply(map[], ws) && Apply(map[], ws)[ws[i].0] == ws[i].1
    ensures forall k | k in Apply(map[], ws) :: exists i :: 0 <= i < |ws| && ws[i].0 == k
    decreases ws
  {
    if ws != [] {
      var front, w := ws[..|ws| - 1], ws[|ws| - 1];
      assert ws == front + [w];
      assert forall k | 0 <= k < |front| :: front[k] == ws[k];
      ConsistentMap(front);
      ApplyAppend(map[], front, [w]);
      assert [w][1..] == [];
      assert Apply(map[], ws) == Apply(map[], front)[w.0 := w.1];
    }
  }

  lemma {:induction false} WritesAppend(fs: seq<Field>, gs: seq<Field>, prefix: string, inlineNested: bool)
    ensures Writes(fs + gs, prefix, inlineNested) ==
            Writes(fs, prefix, inlineNested) + Writes(gs, prefix, inlineNested)
    decreases fs
  {
    if fs == [] {
      assert fs + gs == gs;
    } else {
      assert (fs + gs)[1..] == fs[1..] + gs;
      WritesAppend(fs[1..], gs, prefix, inlineNested);
    }
  }

  lemma WritesAround(fs: seq<Field>, i: nat, prefix: string, inlineNested: bool)
    requires i < |fs|
    ensures Writes(fs, prefix, inlineNested) ==
            Writes(fs[..i], prefix, inlineNested) + FieldWrites(fs[i], prefix, inlineNested) +
            Writes(fs[i + 1..], prefix, inlineNested)
    ensures Writes(Without(fs, i), prefix, inlineNested) ==
            Writes(fs[..i], prefix, inlineNested) + Writes(fs[i + 1..], prefix, inlineNested)
  {
    assert fs == fs[..i] + fs[i..] && fs[i..][1..] == fs[i + 1..];
    WritesAppend(fs[..i], fs[i..], prefix, inlineNested);
    WritesAppend(fs[..i], fs[i + 1..], prefix, inlineNested);
  }

  lemma {:induction false} ShuffleKeepsWrites(fs: seq<Field>, gs: seq<Field>, prefix: string, inlineNested: bool)
    requires Shuffled(fs, gs)
    ensures multiset(Writes(fs, prefix, inlineNested)) == multiset(Writes(gs, prefix, inlineNested))
    decreases fs, 1
  {
    if fs != [] {
      var i :| Picked(fs, gs, i);
      FieldKeepsWrites(fs[0], gs[i], prefix, inlineNested);
      ShuffleKeepsWrites(fs[1..], Without(gs, i), prefix, inlineNested);
      WritesAround(gs, i, prefix, inlineNested);
    }
  }

  lemma SameElements(ws: seq<Write>, vs: seq<Write>)
    requires multiset(ws) == multiset(vs)
    ensures forall i | 0 <= i < |vs| :: vs[i] in ws
    ensures Consistent(ws) ==> Consistent(vs)
  {
    forall i | 0 <= i < |vs| ensures vs[i] in ws {
      assert vs[i] in multiset(vs);
    }
  }

  lemma SameWritesSameMap(ws: seq<Write>, vs: seq<Write>)
    requires multiset(ws) == multiset(vs) && Consistent(ws)
    ensures Apply(map[], ws) == Apply(map[], vs)
  {
    SameElements(ws, vs);
    SameElements(vs, ws);
    ConsistentMap(ws);
    ConsistentMap(vs);
    var m, n := Apply(map[], ws), Apply(map[], vs);
    forall k | k in m ensures k in n && n[k] == m[k] {
      var i :| 0 <= i < |ws| && ws[i].0 == k;
      var j :| 0 <= j < |vs| && vs[j] == ws[i];
    }
    forall k | k in n ensures k in m {
      var i :| 0 <= i < |vs| && vs[i].0 == k;
      var j :| 0 <= j < |ws| && ws[j] == vs[i];
    }
  }

  lemma {:induction false} FieldKeepsWrites(f: Field, g: Field, prefix: string, inlineNested: bool)
    requires SameField(f, g)
    ensures multiset(FieldWrites(f, prefix, inlineNested)) == multiset(FieldWrites(g, prefix, inlineNested))
    decreases f, 0
  {
    if f.value.MessageField? {
      ShuffleKeepsWrites(f.value.fields, g.value.fields,
                         if inlineNested then prefix else prefix + f.jsonName + ".", false);
    }
  }

  lemma {:induction false} ShuffledSelf(fs: seq<Field>)
    ensures Shuffled(fs, fs)
    decreases fs, 1
  {
    if fs != [] {
      SameFieldSelf(fs[0]);
      ShuffledSelf(fs[1..]);
      assert Without(fs, 0) == fs[1..];
      assert Picked(fs, fs, 0);
    }
  }

  lemma {:induction false} SameFieldSelf(f: Field)
    ensures SameField(f, f)
    decreases f, 0
  {
    if f.value.MessageField? { ShuffledSelf(f.value.fields); }
  }

  lemma {:induction false} MovedToEnd(fs: seq<Field>, i: nat, g: Field)
    requires i < |fs| && SameField(fs[i], g)
    ensures Shuffled(fs, Without(fs, i) + [g])
    decreases i
  {
    var gs := Without(fs, i) + [g];
    if i == 0 {
      ShuffledSelf(fs[1..]);
      assert Without(gs, |gs| - 1) == fs[1..];
      assert Picked(fs, gs, |gs| - 1);
    } else {
      MovedToEnd(fs[1..], i - 1, g);
      SameFieldSelf(fs[0]);
      assert Without(gs, 0) == Without(fs[1..], i - 1) + [g];
      assert Picked(fs, gs, 0);
    }
  }

  /** Some order makes any given write the last one. */
  lemma {:induction false} PutLast(fs: seq<Field>, prefix: string, inlineNested: bool, w: Write)
    returns (gs: seq<Field>)
    requires w in Writes(fs, prefix, inlineNested)
    ensures Shuffled(fs, gs)
    ensures var ws := Writes(gs, prefix, inlineNested); ws != [] && ws[|ws| - 1] == w
    decreases fs
  {
    var i := FieldOf(fs, prefix, inlineNested, w);
    var g := fs[i];
    SameFieldSelf(g);
    if g.value.MessageField? {
      var nested := PutLast(g.value.fields, if inlineNested then prefix else prefix + g.jsonName + ".", false, w);
      g := Field(g.jsonName, MessageField(nested));
    }
    gs := Without(fs, i) + [g];
    MovedToEnd(fs, i, g);
    WritesAppend(Without(fs, i), [g], prefix, inlineNested);
    assert [g][1..] == [];
    assert Writes([g], prefix, inlineNested) == FieldWrites(g, prefix, inlineNested);
  }

  lemma {:induction false} FieldOf(fs: seq<Field>, prefix: string, inlineNested: bool, w: Write) returns (i: nat)
    requires w in Writes(fs, prefix, inlineNested)
    ensures i < |fs| && w in FieldWrites(fs[i], prefix, inlineNested)
    decreases fs
  {
    if w in FieldWrites(fs[0], prefix, inlineNested) {
      i := 0;
    } else {
      i := FieldOf(fs[1..], prefix, inlineNested, w);
      i := i + 1;
    }
  }
}
