/** Maps of protobuf messages promise neither the order of their entries nor duplicates: the round trip through
    `google.protobuf.Value` when messages are stored as maps store them. */
module ProtoMaps {
  import opened ProtoJson

  // ----- any order of entries -----

  function Without<T>(xs: seq<T>, k: nat): (r: seq<T>)
    requires k < |xs|
    ensures |r| == |xs| - 1
  {
    xs[..k] + xs[k + 1..]
  }

  /** The same message, with the entries of its maps in any order. */
  ghost predicate Stored(a: Json, b: Json)
    decreases a, 0
  {
    match (a, b)
    case (ListValue(xs), ListValue(ys)) => |xs| == |ys| && forall i :: 0 <= i < |xs| ==> Stored(xs[i], ys[i])
    case (StructValue(fs), StructValue(gs)) => StoredFields(fs, gs)
    case _ => !a.ListValue? && !a.StructValue? && a == b
  }

  ghost predicate StoredFields(fs: seq<Field>, gs: seq<Field>)
    decreases fs, |fs|
  {
    if fs == [] then gs == []
    else
      var n := |fs| - 1;
      exists k: nat :: k < |gs| && gs[k].key == fs[n].key && Stored(fs[n].value, gs[k].value) &&
                       StoredFields(fs[..n], Without(gs, k))
  }

  /** The same value, with the entries of its maps in any order. */
  ghost predicate Reordered(v: Value, w: Value)
    decreases v, 0
  {
    match (v, w)
    case (List(xs), List(ys)) => |xs| == |ys| && forall i :: 0 <= i < |xs| ==> Reordered(xs[i], ys[i])
    case (Map(es), Map(gs)) => ReorderedEntries(es, gs)
    case _ => !v.List? && !v.Map? && v == w
  }

  ghost predicate ReorderedEntries(es: seq<Entry>, gs: seq<Entry>)
    decreases es, |es|
  {
    if es == [] then gs == []
    else
      var n := |es| - 1;
      exists k: nat :: k < |gs| && ReorderedEntry(es[n], gs[k]) && ReorderedEntries(es[..n], Without(gs, k))
  }

  ghost predicate ReorderedEntry(e: Entry, g: Entry)
    decreases e, 0
  {
    g.key == e.key && Reordered(e.value, g.value)
  }

  /** Where the last field, or entry, went. */
  lemma {:induction false} LastField(fs: seq<Field>, gs: seq<Field>) returns (k: nat)
    requires StoredFields(fs, gs) && fs != []
    ensures k < |gs| && gs[k].key == fs[|fs| - 1].key && Stored(fs[|fs| - 1].value, gs[k].value)
    ensures StoredFields(fs[..|fs| - 1], Without(gs, k))
  {
    var n := |fs| - 1;
    k :| k < |gs| && gs[k].key == fs[n].key && Stored(fs[n].value, gs[k].value) &&
        StoredFields(fs[..n], Without(gs, k));
  }

  lemma {:induction false} LastEntry(es: seq<Entry>, gs: seq<Entry>) returns (k: nat)
    requires ReorderedEntries(es, gs) && es != []
    ensures k < |gs| && gs[k].key == es[|es| - 1].key && Reordered(es[|es| - 1].value, gs[k].value)
    ensures ReorderedEntries(es[..|es| - 1], Without(gs, k))
  {
    var n := |es| - 1;
    k :| k < |gs| && gs[k].key == es[n].key && Reordered(es[n].value, gs[k].value) &&
        ReorderedEntries(es[..n], Without(gs, k));
  }

  lemma {:induction false} NoFields(fs: seq<Field>, gs: seq<Field>)
    requires StoredFields(fs, gs) && fs == []
    ensures gs == []
  {
  }

  lemma {:induction false} NoEntries(es: seq<Entry>, gs: seq<Entry>)
    requires ReorderedEntries(es, gs) && es == []
    ensures gs == []
  {
  }

  lemma {:induction false} PutEntry(es: seq<Entry>, gs: seq<Entry>, k: nat)
    requires es != [] && k < |gs| && gs[k].key == es[|es| - 1].key && Reordered(es[|es| - 1].value, gs[k].value)
    requires ReorderedEntries(es[..|es| - 1], Without(gs, k))
    ensures ReorderedEntries(es, gs)
  {
  }

  /** What holds of every other element and of the one left out holds of all. */
  lemma {:induction false} WithoutElements<T>(xs: seq<T>, k: nat)
    requires k < |xs|
    ensures forall i :: 0 <= i < |xs| ==> xs[i] == xs[k] || xs[i] in Without(xs, k)
    ensures forall x :: x in Without(xs, k) ==> x in xs
  {
    var rest := Without(xs, k);
    forall i | 0 <= i < |xs| ensures xs[i] == xs[k] || xs[i] in rest {
      if i != k {
        assert xs[i] == rest[if i < k then i else i - 1];
      }
    }
  }

  // ----- distinct keys -----

  /** The maps of CEL have distinct keys. */
  predicate Distinct(v: Value) {
    match v
    case List(items) => forall i :: 0 <= i < |items| ==> Distinct(items[i])
    case Map(entries) =>
      && (forall i, j :: 0 <= i < j < |entries| ==> entries[i].key != entries[j].key)
      && forall i :: 0 <= i < |entries| ==> Distinct(entries[i].value)
    case _ => true
  }

  predicate DistinctFields(j: Json) {
    match j
    case ListValue(values) => forall i :: 0 <= i < |values| ==> DistinctFields(values[i])
    case StructValue(fields) =>
      && (forall i, k :: 0 <= i < k < |fields| ==> fields[i].key != fields[k].key)
      && forall i :: 0 <= i < |fields| ==> DistinctFields(fields[i].value)
    case _ => true
  }

  lemma {:induction false} BoxedDistinct(v: Value)
    requires Boxable(v) && Distinct(v)
    ensures DistinctFields(Boxed(v))
    decreases v
  {
    match v
    case List(items) =>
      forall i | 0 <= i < |items| ensures DistinctFields(Boxed(items[i])) {
        BoxedDistinct(items[i]);
      }
    case Map(entries) =>
      forall i | 0 <= i < |entries| ensures DistinctFields(Boxed(entries[i].value)) {
        BoxedDistinct(entries[i].value);
      }
    case _ =>
  }

  // ----- the order does not matter -----

  lemma {:induction false} WithoutCosts(gs: seq<Field>, k: nat)
    requires k < |gs|
    ensures AdaptUnitsOfFields(gs) == AdaptUnitsOfFields(Without(gs, k)) + 2 + AdaptUnits(gs[k].value)
    ensures TextBytesOfFields(gs) == TextBytesOfFields(Without(gs, k)) + |gs[k].key| + TextBytes(gs[k].value)
    decreases |gs|
  {
    var n := |gs| - 1;
    var rest := Without(gs, k);
    if k == n {
      assert rest == gs[..n];
    } else {
      WithoutCosts(gs[..n], k);
      assert rest[..|rest| - 1] == Without(gs[..n], k);
    }
  }

  /** Reading a message draws the same work in any order, and stays within the same limits. */
  lemma {:induction false} StoredCosts(a: Json, b: Json, depth: nat, limits: Limits)
    requires Stored(a, b)
    ensures AdaptUnits(a) == AdaptUnits(b) && TextBytes(a) == TextBytes(b)
    ensures InLimits(a, depth, limits) <==> InLimits(b, depth, limits)
    decreases a, 0
  {
    match a
    case ListValue(xs) => StoredItemsCosts(xs, b.values, depth, limits);
    case StructValue(fs) =>
      StoredFieldsCosts(fs, b.fields, depth, limits);
      FieldsInLimits(fs, depth, limits);
      FieldsInLimits(b.fields, depth, limits);
    case _ =>
  }

  lemma {:induction false} FieldsInLimits(fs: seq<Field>, depth: nat, limits: Limits)
    ensures InLimits(StructValue(fs), depth, limits) <==>
              depth + 3 <= limits.depth && forall f :: f in fs ==> FieldInLimits(f, depth, limits)
  {
    assert forall i :: 0 <= i < |fs| ==> fs[i] in fs;
    hide AdaptUnitsOfFields;
    assert (forall f :: f in fs ==> FieldInLimits(f, depth, limits)) <==>
           forall i :: 0 <= i < |fs| ==> FieldInLimits(fs[i], depth, limits);
  }

  lemma {:induction false} StoredItemsCosts(xs: seq<Json>, ys: seq<Json>, depth: nat, limits: Limits)
    requires |xs| == |ys| && forall i :: 0 <= i < |xs| ==> Stored(xs[i], ys[i])
    ensures AdaptUnitsOfItems(xs) == AdaptUnitsOfItems(ys) && TextBytesOfItems(xs) == TextBytesOfItems(ys)
    ensures (forall i :: 0 <= i < |xs| ==> InLimits(xs[i], depth + 5, limits)) <==>
            (forall i :: 0 <= i < |ys| ==> InLimits(ys[i], depth + 5, limits))
    decreases xs, |xs|
  {
    hide AdaptUnits, TextBytes, InLimits;
    if xs != [] {
      var n := |xs| - 1;
      forall i | 0 <= i < |xs|
        ensures InLimits(xs[i], depth + 5, limits) <==> InLimits(ys[i], depth + 5, limits)
      {
        StoredCosts(xs[i], ys[i], depth + 5, limits);
      }
      StoredCosts(xs[n], ys[n], depth + 5, limits);
      StoredItemsCosts(xs[..n], ys[..n], depth, limits);
    }
  }

  predicate FieldInLimits(f: Field, depth: nat, limits: Limits) {
    |f.key| <= limits.bytes && InLimits(f.value, depth + 5, limits)
  }

  lemma {:induction false} StoredFieldsCosts(fs: seq<Field>, gs: seq<Field>, depth: nat, limits: Limits)
    requires StoredFields(fs, gs)
    ensures AdaptUnitsOfFields(fs) == AdaptUnitsOfFields(gs) && TextBytesOfFields(fs) == TextBytesOfFields(gs)
    ensures (forall f :: f in fs ==> FieldInLimits(f, depth, limits)) <==>
            (forall g :: g in gs ==> FieldInLimits(g, depth, limits))
    decreases fs, |fs|
  {
    hide StoredFields, Stored, AdaptUnits, TextBytes, InLimits, Without;
    if fs == [] {
      NoFields(fs, gs);
    } else {
      var n := |fs| - 1;
      var k := LastField(fs, gs);
      StoredCosts(fs[n].value, gs[k].value, depth + 5, limits);
      StoredFieldsCosts(fs[..n], Without(gs, k), depth, limits);
      WithoutCosts(gs, k);
      WithoutElements(gs, k);
      assert fs == fs[..n] + [fs[n]];
      assert FieldInLimits(fs[n], depth, limits) <==> FieldInLimits(gs[k], depth, limits);
      hide FieldInLimits, AdaptUnitsOfFields, TextBytesOfFields;
    }
  }

  lemma {:induction false} StoredAdapted(a: Json, b: Json)
    requires Stored(a, b)
    ensures Reordered(Adapted(a), Adapted(b))
    decreases a, 0
  {
    match a
    case ListValue(xs) =>
      forall i | 0 <= i < |xs| ensures Reordered(Adapted(xs[i]), Adapted(b.values[i])) {
        StoredAdapted(xs[i], b.values[i]);
      }
    case StructValue(fs) =>
      StoredFieldsAdapted(fs, b.fields);
      assert Adapted(a).entries == EntriesOf(fs) && Adapted(b).entries == EntriesOf(b.fields);
    case _ =>
  }

  function EntriesOf(fs: seq<Field>): seq<Entry> {
    seq(|fs|, i requires 0 <= i < |fs| => Entry(String(fs[i].key), Adapted(fs[i].value)))
  }

  lemma {:induction false} StoredFieldsAdapted(fs: seq<Field>, gs: seq<Field>)
    requires StoredFields(fs, gs)
    ensures ReorderedEntries(EntriesOf(fs), EntriesOf(gs))
    decreases fs, |fs|
  {
    hide StoredFields, Stored, Reordered, Adapted;
    if fs == [] {
      NoFields(fs, gs);
    } else {
      hide ReorderedEntries;
      var n := |fs| - 1;
      var k := LastField(fs, gs);
      StoredAdapted(fs[n].value, gs[k].value);
      StoredFieldsAdapted(fs[..n], Without(gs, k));
      assert EntriesOf(fs)[..n] == EntriesOf(fs[..n]);
      assert Without(EntriesOf(gs), k) == EntriesOf(Without(gs, k));
      PutEntry(EntriesOf(fs), EntriesOf(gs), k);
    }
  }

  /** Reordered maps hold the same keys, with reordered values: every entry of one has its counterpart in the other. */
  lemma {:induction false} ReorderedLookup(es: seq<Entry>, gs: seq<Entry>)
    requires ReorderedEntries(es, gs)
    ensures |es| == |gs|
    ensures forall e :: e in es ==> HasCounterpart(e, gs)
    ensures forall g :: g in gs ==> IsCounterpart(es, g)
    decreases |es|
  {
    hide ReorderedEntries, Reordered, Without;
    if es == [] {
      NoEntries(es, gs);
    } else {
      var n := |es| - 1;
      var k := LastEntry(es, gs);
      ReorderedLookup(es[..n], Without(gs, k));
      WithoutElements(gs, k);
      assert es == es[..n] + [es[n]];
    }
  }

  ghost predicate HasCounterpart(e: Entry, gs: seq<Entry>) {
    exists g :: g in gs && g.key == e.key && Reordered(e.value, g.value)
  }

  ghost predicate IsCounterpart(es: seq<Entry>, g: Entry) {
    exists e :: e in es && e.key == g.key && Reordered(e.value, g.value)
  }

  // ----- the round trip -----

  /** A message store that keeps messages whose map keys are distinct, but for the order of entries. */
  ghost predicate Keeps(stored: Json -> Json) {
    forall j :: DistinctFields(j) ==> Stored(j, stored(j))
  }

  /** A value assigned to a field of type `google.protobuf.Value` and read back from the message as it is stored: given
      the budget for both ways, every boxable value comes back in its normal form, up to the order of map entries. */
  method ThroughStoredValue(scope: Scope, v: Value, stored: Json -> Json) returns (status: Status, w: Value)
    requires Distinct(v) && Keeps(stored)
    modifies scope
    ensures status == StatusOk <==>
              && Boxable(v) && InLimits(Boxed(v), 0, scope.limits)
              && BoxUnits(Boxed(v)) + AdaptUnits(Boxed(v)) <= old(scope.remaining)
              && 2 * TextBytes(Boxed(v)) <= old(scope.remainingBytes)
    ensures status == StatusOk ==> Reordered(Normal(v), w)
  {
    w := Null;
    var j;
    status, j := scope.BoxValue(v, 0);
    if status == StatusOk {
      BoxedDistinct(v);
      AdaptedBoxed(v);
      StoredCosts(j, stored(j), 0, scope.limits);
      StoredAdapted(j, stored(j));
      status, w := scope.AdaptValue(stored(j), 0);
    }
  }
}
