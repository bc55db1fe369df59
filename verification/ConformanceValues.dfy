/** Comparison of conformance results, whose maps are lists of entries in no particular order. */
module ConformanceValues {
  import opened Values

  /** A double as `float` parses it. Zero has no sign here: 0.0 and -0.0 compare equal. */
  datatype Double = Finite(value: real) | PositiveInfinity | NegativeInfinity | NaN

  datatype Entry = Entry(key: ProtoValue, value: ProtoValue)

  /** A JSON object with one key, which names the kind of its value. `Malformed` is an object with no key or with more
      than one. Messages are kept by type name and canonical encoding. */
  datatype ProtoValue =
    | NullValue
    | BoolValue(b: bool)
    | Int64Value(n: int)
    | Uint64Value(n: int)
    | DoubleValue(d: Double)
    | StringValue(t: Text)
    | BytesValue(t: Text)
    | TypeValue(t: Text)
    | IpValue(t: Text)
    | CidrValue(t: Text)
    | EnumValue(typeName: Text, n: int)
    | ObjectValue(typeName: Text, canonical: Text)
    | OptionalValue(content: Option<ProtoValue>)
    | ListValue(values: seq<ProtoValue>)
    | MapValue(entries: seq<Entry>)
    | Malformed(keys: set<Text>)

  // ----- what equality means -----

  /** p and q are inverse to each other, so each is a permutation of the first n numbers. */
  ghost predicate Inverse(p: seq<nat>, q: seq<nat>, n: nat) {
    && |p| == n && |q| == n
    && (forall i :: 0 <= i < n ==> p[i] < n && q[p[i]] == i)
    && (forall i :: 0 <= i < n ==> q[i] < n && p[q[i]] == i)
  }

  /** Values mean the same: maps when some bijection pairs equal entries, NaN with NaN, and no malformed value with
      anything. */
  ghost predicate Same(a: ProtoValue, b: ProtoValue)
    decreases a, 0
  {
    match (a, b)
    case (Malformed(_), _) => false
    case (OptionalValue(x), OptionalValue(y)) =>
      (x.None? && y.None?) || (x.Some? && y.Some? && Same(x.value, y.value))
    case (ListValue(xs), ListValue(ys)) => |xs| == |ys| && forall i :: 0 <= i < |xs| ==> Same(xs[i], ys[i])
    case (MapValue(xs), MapValue(ys)) =>
      |xs| == |ys| && exists p, q :: Inverse(p, q, |xs|) && forall i :: 0 <= i < |ys| ==> SameEntry(xs[p[i]], ys[i])
    case _ => a == b
  }

  ghost predicate SameEntry(a: Entry, b: Entry)
    decreases a, 1
  {
    Same(a.key, b.key) && Same(a.value, b.value)
  }

  /** p pairs each entry of ys with an equal entry of xs. */
  ghost predicate Pairs(xs: seq<Entry>, ys: seq<Entry>, p: seq<nat>, q: seq<nat>) {
    && |xs| == |ys| && Inverse(p, q, |xs|)
    && forall i :: 0 <= i < |ys| ==> SameEntry(xs[p[i]], ys[i])
  }

  ghost predicate SameEntries(xs: seq<Entry>, ys: seq<Entry>) {
    exists p, q :: Pairs(xs, ys, p, q)
  }

  lemma {:induction false} MapsSame(xs: seq<Entry>, ys: seq<Entry>)
    ensures Same(MapValue(xs), MapValue(ys)) <==> SameEntries(xs, ys)
  {
    if SameEntries(xs, ys) {
      var p, q :| Pairs(xs, ys, p, q);
      assert Inverse(p, q, |xs|) && forall i :: 0 <= i < |ys| ==> SameEntry(xs[p[i]], ys[i]);
    }
    if Same(MapValue(xs), MapValue(ys)) {
      var p, q :| Inverse(p, q, |xs|) && forall i :: 0 <= i < |ys| ==> SameEntry(xs[p[i]], ys[i]);
      assert Pairs(xs, ys, p, q);
    }
  }

  // ----- it is an equivalence on well-formed values -----

  /** No malformed value anywhere inside. */
  predicate Proper(a: ProtoValue) {
    match a
    case Malformed(_) => false
    case OptionalValue(x) => x.Some? ==> Proper(x.value)
    case ListValue(xs) => forall i :: 0 <= i < |xs| ==> Proper(xs[i])
    case MapValue(xs) => forall i :: 0 <= i < |xs| ==> Proper(xs[i].key) && Proper(xs[i].value)
    case _ => true
  }

  predicate NoMaps(a: ProtoValue) {
    match a
    case OptionalValue(x) => x.Some? ==> NoMaps(x.value)
    case ListValue(xs) => forall i :: 0 <= i < |xs| ==> NoMaps(xs[i])
    case MapValue(_) => false
    case _ => true
  }

  /** Only the order of entries is forgotten: without maps, values mean the same if and only if they are well formed and
      identical. */
  lemma {:induction false} SameIsIdentical(a: ProtoValue, b: ProtoValue)
    requires NoMaps(a)
    ensures Same(a, b) <==> Proper(a) && a == b
    decreases a
  {
    match (a, b)
    case (OptionalValue(x), OptionalValue(y)) => if x.Some? && y.Some? { SameIsIdentical(x.value, y.value); }
    case (ListValue(xs), ListValue(ys)) =>
      if |xs| == |ys| {
        forall i | 0 <= i < |xs| ensures Same(xs[i], ys[i]) <==> Proper(xs[i]) && xs[i] == ys[i] {
          SameIsIdentical(xs[i], ys[i]);
        }
      }
    case _ =>
  }

  /** Comparing a value with itself succeeds exactly on well-formed values. */
  lemma {:induction false} Reflexive(a: ProtoValue)
    ensures Same(a, a) <==> Proper(a)
    decreases a
  {
    match a
    case OptionalValue(x) => if x.Some? { Reflexive(x.value); }
    case ListValue(xs) =>
      forall i | 0 <= i < |xs| ensures Same(xs[i], xs[i]) <==> Proper(xs[i]) { Reflexive(xs[i]); }
    case MapValue(xs) => ReflexiveMap(a, xs);
    case _ =>
  }

  lemma {:induction false} ReflexiveMap(a: ProtoValue, xs: seq<Entry>)
    requires a == MapValue(xs)
    ensures Same(a, a) <==> Proper(a)
    decreases a, 1
  {
    assert Proper(a) <==> forall i :: 0 <= i < |xs| ==> Proper(xs[i].key) && Proper(xs[i].value);
    hide Same, Proper;
    MapsSame(xs, xs);
    forall i | 0 <= i < |xs|
      ensures Same(xs[i].key, xs[i].key) <==> Proper(xs[i].key)
      ensures Same(xs[i].value, xs[i].value) <==> Proper(xs[i].value)
    {
      Reflexive(xs[i].key);
      Reflexive(xs[i].value);
    }
    if Proper(a) {
      var id := seq(|xs|, i requires 0 <= i < |xs| => i);
      assert Pairs(xs, xs, id, id);
    }
    if SameEntries(xs, xs) {
      SelfPaired(a, xs);
    }
  }

  /** An entry that some entry equals equals itself. */
  lemma {:induction false} SelfPaired(a: ProtoValue, xs: seq<Entry>)
    requires a == MapValue(xs) && SameEntries(xs, xs)
    ensures forall i :: 0 <= i < |xs| ==> SameEntry(xs[i], xs[i])
    decreases a, 0
  {
    hide Same;
    var p, q :| Pairs(xs, xs, p, q);
    forall i | 0 <= i < |xs| ensures SameEntry(xs[i], xs[i]) {
      var x, y := xs[i], xs[q[i]];
      assert SameEntry(xs[p[i]], x) && SameEntry(xs[p[q[i]]], y);
      Symmetric(x.key, y.key);
      Symmetric(x.value, y.value);
      Transitive(x.key, y.key, x.key);
      Transitive(x.value, y.value, x.value);
    }
  }

  lemma {:induction false} Symmetric(a: ProtoValue, b: ProtoValue)
    requires Same(a, b)
    ensures Same(b, a)
    decreases a
  {
    match (a, b)
    case (OptionalValue(x), OptionalValue(y)) => if x.Some? { Symmetric(x.value, y.value); }
    case (ListValue(xs), ListValue(ys)) =>
      forall i | 0 <= i < |xs| ensures Same(ys[i], xs[i]) { Symmetric(xs[i], ys[i]); }
    case (MapValue(xs), MapValue(ys)) =>
      MapsSame(xs, ys);
      var p, q :| Pairs(xs, ys, p, q);
      forall i | 0 <= i < |xs| ensures SameEntry(ys[q[i]], xs[i]) {
        assert SameEntry(xs[p[q[i]]], ys[q[i]]);
        Symmetric(xs[i].key, ys[q[i]].key);
        Symmetric(xs[i].value, ys[q[i]].value);
      }
      assert Pairs(ys, xs, q, p);
      MapsSame(ys, xs);
    case _ =>
  }

  lemma {:induction false} Transitive(a: ProtoValue, b: ProtoValue, c: ProtoValue)
    requires Same(a, b) && Same(b, c)
    ensures Same(a, c)
    decreases a
  {
    match (a, b, c)
    case (OptionalValue(x), OptionalValue(y), OptionalValue(z)) =>
      if x.Some? { Transitive(x.value, y.value, z.value); }
    case (ListValue(xs), ListValue(ys), ListValue(zs)) =>
      forall i | 0 <= i < |xs| ensures Same(xs[i], zs[i]) { Transitive(xs[i], ys[i], zs[i]); }
    case (MapValue(xs), MapValue(ys), MapValue(zs)) =>
      TransitiveMaps(a, b, c, xs, ys, zs);
    case _ =>
  }

  lemma {:induction false} TransitiveMaps(a: ProtoValue, b: ProtoValue, c: ProtoValue, xs: seq<Entry>, ys: seq<Entry>,
                                          zs: seq<Entry>)
    requires a == MapValue(xs) && b == MapValue(ys) && c == MapValue(zs) && Same(a, b) && Same(b, c)
    ensures Same(a, c)
    decreases a, 0
  {
    MapsSame(xs, ys);
    MapsSame(ys, zs);
    var p, q :| Pairs(xs, ys, p, q);
    var p', q' :| Pairs(ys, zs, p', q');
    forall i | 0 <= i < |zs| ensures SameEntry(xs[p[p'[i]]], zs[i]) {
      assert SameEntry(xs[p[p'[i]]], ys[p'[i]]) && SameEntry(ys[p'[i]], zs[i]);
      Transitive(xs[p[p'[i]]].key, ys[p'[i]].key, zs[i].key);
      Transitive(xs[p[p'[i]]].value, ys[p'[i]].value, zs[i].value);
    }
    Compose(xs, ys, zs, p, q, p', q');
    MapsSame(xs, zs);
  }

  lemma {:induction false} Compose(xs: seq<Entry>, ys: seq<Entry>, zs: seq<Entry>, p: seq<nat>, q: seq<nat>,
      p': seq<nat>, q': seq<nat>)
    requires |xs| == |ys| == |zs| && Inverse(p, q, |xs|) && Inverse(p', q', |xs|)
    requires forall i :: 0 <= i < |zs| ==> SameEntry(xs[p[p'[i]]], zs[i])
    ensures SameEntries(xs, zs)
  {
    hide SameEntry;
    var r: seq<nat> := seq(|xs|, i requires 0 <= i < |xs| => p[p'[i]]);
    var s: seq<nat> := seq(|xs|, i requires 0 <= i < |xs| => q'[q[i]]);
    assert Pairs(xs, zs, r, s);
  }

  // ----- the comparison, with its greedy matching of map entries -----

  function Without(xs: seq<Entry>, k: nat): seq<Entry>
    requires k < |xs|
  {
    xs[..k] + xs[k + 1..]
  }

  /** Where position i of the shorter sequence was before position k was removed, and back. */
  function Widen(k: nat, i: nat): nat {
    if i < k then i else i + 1
  }

  function Narrow(k: nat, i: nat): nat
    requires i != k
  {
    if i < k then i else i - 1
  }

  /** Permutations of n numbers that send 0 to k are permutations of n - 1 numbers. */
  function Insert(k: nat, p: seq<nat>): (r: seq<nat>)
    ensures |r| == |p| + 1
  {
    seq(|p| + 1, i requires 0 <= i < |p| + 1 => if i == 0 then k else Widen(k, p[i - 1]))
  }

  function InsertBack(k: nat, q: seq<nat>): (r: seq<nat>)
    requires k <= |q|
    ensures |r| == |q| + 1
  {
    seq(|q| + 1, i requires 0 <= i < |q| + 1 => if i == k then 0 else q[Narrow(k, i)] + 1)
  }

  lemma {:induction false} InsertInverse(k: nat, p: seq<nat>, q: seq<nat>)
    requires k <= |p| && Inverse(p, q, |p|)
    ensures Inverse(Insert(k, p), InsertBack(k, q), |p| + 1)
  {
    var r, s := Insert(k, p), InsertBack(k, q);
    forall i | 0 <= i < |r| ensures r[i] < |r| && s[r[i]] == i {
    }
    forall i | 0 <= i < |r| ensures s[i] < |r| && r[s[i]] == i {
      if i != k {
        assert p[q[Narrow(k, i)]] == Narrow(k, i);
      }
    }
  }

  function Delete(k: nat, p: seq<nat>): (r: seq<nat>)
    requires p != [] && forall i :: 1 <= i < |p| ==> p[i] != k
    ensures |r| == |p| - 1
  {
    seq(|p| - 1, i requires 0 <= i < |p| - 1 => Narrow(k, p[i + 1]))
  }

  function DeleteBack(k: nat, q: seq<nat>): (r: seq<nat>)
    requires q != [] && forall i :: 0 <= i < |q| && i != k ==> q[i] > 0
    ensures |r| == |q| - 1
  {
    seq(|q| - 1, i requires 0 <= i < |q| - 1 => if Widen(k, i) < |q| then q[Widen(k, i)] - 1 else 0)
  }

  lemma {:induction false} DeleteInverse(k: nat, p: seq<nat>, q: seq<nat>)
    requires p != [] && Inverse(p, q, |p|) && p[0] == k
    ensures forall i :: 1 <= i < |p| ==> p[i] != k
    ensures forall i :: 0 <= i < |p| && i != k ==> q[i] > 0
    ensures Inverse(Delete(k, p), DeleteBack(k, q), |p| - 1)
  {
    forall i | 1 <= i < |p| ensures p[i] != k {
      assert q[p[i]] == i && q[p[0]] == 0;
    }
    forall i | 0 <= i < |p| && i != k ensures q[i] > 0 {
      assert p[q[i]] == i;
    }
    var r, s := Delete(k, p), DeleteBack(k, q);
    forall i | 0 <= i < |r| ensures r[i] < |r| && s[r[i]] == i {
      assert q[p[i + 1]] == i + 1;
    }
    forall i | 0 <= i < |r| ensures s[i] < |r| && r[s[i]] == i {
      assert p[q[Widen(k, i)]] == Widen(k, i);
    }
  }

  /** A pairing of the rest, and a candidate for the first entry, make a pairing of everything. */
  lemma {:induction false} ExtendPairs(xs: seq<Entry>, ys: seq<Entry>, k: nat)
    requires ys != [] && k < |xs| && SameEntry(xs[k], ys[0]) && SameEntries(Without(xs, k), ys[1..])
    ensures SameEntries(xs, ys)
  {
    hide SameEntry;
    var p, q :| Pairs(Without(xs, k), ys[1..], p, q);
    InsertInverse(k, p, q);
    hide Inverse;
    var r := Insert(k, p);
    forall i | 0 <= i < |ys| ensures SameEntry(xs[r[i]], ys[i]) {
      if i > 0 {
        assert SameEntry(Without(xs, k)[p[i - 1]], ys[1..][i - 1]);
      }
    }
    assert Pairs(xs, ys, r, InsertBack(k, q));
  }

  /** Any candidate for the first entry will do: if some pairing exists, one exists that gives the first entry this
      candidate. The entry that lost its candidate takes the other one. */
  lemma {:induction false} AnyCandidate(xs: seq<Entry>, ys: seq<Entry>, k: nat)
    requires ys != [] && k < |xs| && SameEntry(xs[k], ys[0]) && SameEntries(xs, ys)
    ensures SameEntries(Without(xs, k), ys[1..])
  {
    var n := |xs|;
    var p, q :| Pairs(xs, ys, p, q);
    var j, i0 := p[0], q[k];
    assert SameEntry(xs[j], ys[0]) && SameEntry(xs[k], ys[i0]);
    Exchange(xs[j], xs[k], ys[0], ys[i0]);
    hide SameEntry;
    var p1, q1 := p[i0 := j][0 := k], q[j := i0][k := 0];
    assert Pairs(xs, ys, p1, q1);
    Shrink(xs, ys, k, p1, q1);
  }

  lemma {:induction false} Exchange(a: Entry, b: Entry, x: Entry, y: Entry)
    requires SameEntry(a, x) && SameEntry(b, x) && SameEntry(b, y)
    ensures SameEntry(a, y)
  {
    Symmetric(b.key, x.key);
    Symmetric(b.value, x.value);
    Transitive(a.key, x.key, b.key);
    Transitive(a.value, x.value, b.value);
    Transitive(a.key, b.key, y.key);
    Transitive(a.value, b.value, y.value);
  }

  lemma {:induction false} Shrink(xs: seq<Entry>, ys: seq<Entry>, k: nat, p: seq<nat>, q: seq<nat>)
    requires ys != [] && k < |xs| && Pairs(xs, ys, p, q) && p[0] == k
    ensures SameEntries(Without(xs, k), ys[1..])
  {
    hide SameEntry;
    DeleteInverse(k, p, q);
    var r := Delete(k, p);
    forall i | 0 <= i < |ys| - 1 ensures SameEntry(Without(xs, k)[r[i]], ys[1..][i]) {
      assert SameEntry(xs[p[i + 1]], ys[i + 1]) && Without(xs, k)[r[i]] == xs[p[i + 1]];
    }
    assert Pairs(Without(xs, k), ys[1..], r, DeleteBack(k, q));
  }

  /** `values_equal`: the relation above, decided by taking for each entry the first candidate that is left. */
  method ValuesEqual(actual: ProtoValue, expected: ProtoValue) returns (equal: bool)
    ensures equal <==> Same(actual, expected)
    decreases actual, 2
  {
    match (actual, expected)
    case (Malformed(_), _) => equal := false;
    case (OptionalValue(x), OptionalValue(y)) =>
      if x.Some? && y.Some? {
        equal := ValuesEqual(x.value, y.value);
      } else {
        equal := x.None? && y.None?;
      }
    case (ListValue(xs), ListValue(ys)) =>
      if |xs| != |ys| {
        return false;
      }
      for i := 0 to |xs|
        invariant forall j :: 0 <= j < i ==> Same(xs[j], ys[j])
      {
        var same := ValuesEqual(xs[i], ys[i]);
        if !same {
          return false;
        }
      }
      equal := true;
    case (MapValue(xs), MapValue(ys)) =>
      equal := EntriesMatch(actual, xs, ys);
    case _ => equal := actual == expected;
  }

  method EntriesMatch(ghost actual: ProtoValue, xs: seq<Entry>, ys: seq<Entry>) returns (equal: bool)
    requires actual == MapValue(xs)
    ensures equal <==> Same(actual, MapValue(ys))
    decreases actual, 1
  {
    MapsSame(xs, ys);
    hide Same, SameEntries;
    var unmatched := xs;
    if |unmatched| != |ys| {
      Lengths(xs, ys);
      return false;
    }
    for i := 0 to |ys|
      invariant |unmatched| == |ys| - i
      invariant forall e :: e in unmatched ==> e in xs
      invariant SameEntries(xs, ys) <==> SameEntries(unmatched, ys[i..])
    {
      var index := FirstMatch(actual, xs, unmatched, ys[i]);
      if index == |unmatched| {
        HasCandidate(unmatched, ys[i..]);
        return false;
      }
      ghost var rest := ys[i..];
      assert rest[0] == ys[i] && rest[1..] == ys[i + 1..];
      if SameEntries(unmatched, rest) {
        AnyCandidate(unmatched, rest, index);
      }
      if SameEntries(Without(unmatched, index), rest[1..]) {
        ExtendPairs(unmatched, rest, index);
      }
      unmatched := Without(unmatched, index);
    }
    assert SameEntries(unmatched, ys[|ys|..]) by { NothingLeft(unmatched, ys[|ys|..]); }
    return true;
  }

  lemma {:induction false} Lengths(xs: seq<Entry>, ys: seq<Entry>)
    ensures SameEntries(xs, ys) ==> |xs| == |ys|
  {
  }

  lemma {:induction false} HasCandidate(xs: seq<Entry>, ys: seq<Entry>)
    requires ys != []
    ensures SameEntries(xs, ys) ==> exists j :: 0 <= j < |xs| && SameEntry(xs[j], ys[0])
  {
    if SameEntries(xs, ys) {
      var p, q :| Pairs(xs, ys, p, q);
      assert SameEntry(xs[p[0]], ys[0]);
    }
  }

  lemma {:induction false} NothingLeft(xs: seq<Entry>, ys: seq<Entry>)
    requires xs == [] && ys == []
    ensures SameEntries(xs, ys)
  {
    assert Pairs(xs, ys, [], []);
  }

  method FirstMatch(ghost actual: ProtoValue, ghost xs: seq<Entry>, unmatched: seq<Entry>, entry: Entry)
    returns (index: nat)
    requires actual == MapValue(xs) && forall e :: e in unmatched ==> e in xs
    ensures index <= |unmatched|
    ensures index < |unmatched| ==> SameEntry(unmatched[index], entry)
    ensures forall j :: 0 <= j < index ==> !SameEntry(unmatched[j], entry)
    decreases actual, 0
  {
    index := 0;
    while index < |unmatched|
      invariant index <= |unmatched|
      invariant forall j :: 0 <= j < index ==> !SameEntry(unmatched[j], entry)
    {
      var candidate := unmatched[index];
      assert candidate in xs;
      var same := ValuesEqual(candidate.key, entry.key);
      if same {
        same := ValuesEqual(candidate.value, entry.value);
      }
      if same {
        return;
      }
      index := index + 1;
    }
  }
}
