/** JavaScript values as an object graph, possibly cyclic, and the trees they unfold to. */
module PlainValues {
  import opened Values
  import opened Encodings
  import opened PlainStream

  datatype JsValue =
    | JsUndefined
    | JsSymbol
    | JsProxy
    | JsNull
    | JsBoolean(b: bool)
    | JsDouble(d: JsNumber)
    | JsString(units: seq<Unit>)
    | JsBigInt(n: int)
    | JsFunction(ref: Ref)
    | JsObject(ref: Ref)

  datatype Key = StringKey(units: seq<Unit>) | SymbolKey

  datatype Property = Property(key: Key, value: JsValue)

  /** What the encoder sees of an object: a `Map` by the number of its entries and whether some key is a proxy, an array
      or a plain object by its contents, and anything else as one value. */
  datatype Node =
    | MapNode(size: nat, proxyKeys: bool)
    | ArrayNode(items: seq<JsValue>)
    | PlainNode(properties: seq<Property>)
    | OtherNode

  type Graph = Ref -> Node

  function Utf8(units: seq<Unit>): seq<Unit>
    requires WellFormedUtf16(units)
  {
    Write(UTF_8, ReadUtf16(units))
  }

  /** The tree of a value under the containers of a path, outermost first; None when the value is unsupported, its text
      is not well formed, an ancestor contains itself, or the path is too long. */
  function Unfold(g: Graph, v: JsValue, path: seq<Ref>): Option<Tree>
    decreases MAX_DEPTH + 1 - |path|, 0, 0
  {
    if |path| > MAX_DEPTH then None else
    match v
    case JsUndefined | JsSymbol | JsProxy => None
    case JsNull => Some(NullTree)
    case JsBoolean(b) => Some(BoolTree(b))
    case JsDouble(d) => Some(NumberTree(d))
    case JsString(units) => if WellFormedUtf16(units) then Some(StringTree(Utf8(units))) else None
    case JsBigInt(n) => if IsInt64(n) then Some(BigIntTree(n)) else None
    case JsFunction(ref) => Some(DeferredTree(Deferred(ref, path, None)))
    case JsObject(ref) =>
      match g(ref)
      case MapNode(size, proxyKeys) => if proxyKeys then None else Some(DeferredTree(Deferred(ref, path, Some(size))))
      case ArrayNode(items) =>
        if ref in path then None else
        var trees :- UnfoldItems(g, items, path + [ref]);
        Some(ListTree(trees))
      case PlainNode(properties) =>
        if ref in path then None else
        var entries :- UnfoldEntries(g, properties, path + [ref]);
        Some(MapTree(entries))
      case OtherNode => Some(DeferredTree(Deferred(ref, path, None)))
  }

  /** A value may have 128 containers around it, the bindings included. */
  lemma {:induction false} DepthLimit(g: Graph, path: seq<Ref>, ref: Ref)
    ensures Unfold(g, JsNull, path).Some? <==> |path| <= 128
    ensures g(ref) == ArrayNode([]) && ref !in path ==> (Unfold(g, JsObject(ref), path).Some? <==> |path| <= 128)
  {
  }

  function UnfoldItems(g: Graph, items: seq<JsValue>, path: seq<Ref>): (r: Option<seq<Tree>>)
    ensures r.Some? ==> |r.value| == |items|
    decreases MAX_DEPTH + 1 - |path|, 1, |items|
  {
    if items == [] then Some([])
    else
      var rest :- UnfoldItems(g, items[..|items| - 1], path);
      var last :- Unfold(g, items[|items| - 1], path);
      Some(rest + [last])
  }

  function UnfoldEntries(g: Graph, properties: seq<Property>, path: seq<Ref>): (r: Option<seq<Entry>>)
    ensures r.Some? ==> |r.value| == |properties|
    decreases MAX_DEPTH + 1 - |path|, 1, |properties|
  {
    if properties == [] then Some([])
    else
      var rest :- UnfoldEntries(g, properties[..|properties| - 1], path);
      var last := properties[|properties| - 1];
      if !last.key.StringKey? || !WellFormedUtf16(last.key.units) then None else
      var value :- Unfold(g, last.value, path);
      Some(rest + [Entry(Utf8(last.key.units), value)])
  }

  /** Unfolding respects the limits of the stream. */
  lemma {:induction false} UnfoldedIsShallow(g: Graph, v: JsValue, path: seq<Ref>)
    requires path != [] && Unfold(g, v, path).Some?
    ensures Shallow(Unfold(g, v, path).value, |path| - 1)
    decreases MAX_DEPTH + 1 - |path|, 0, 0
  {
    if v.JsObject? {
      match g(v.ref)
      case ArrayNode(items) => ItemsAreShallow(g, items, path + [v.ref]);
      case PlainNode(properties) => EntriesAreShallow(g, properties, path + [v.ref]);
      case _ =>
    }
  }

  lemma {:induction false} ItemsAreShallow(g: Graph, items: seq<JsValue>, path: seq<Ref>)
    requires path != [] && UnfoldItems(g, items, path).Some?
    ensures forall i :: 0 <= i < |items| ==> Shallow(UnfoldItems(g, items, path).value[i], |path| - 1)
    decreases MAX_DEPTH + 1 - |path|, 1, |items|
  {
    if items != [] {
      ItemsAreShallow(g, items[..|items| - 1], path);
      UnfoldedIsShallow(g, items[|items| - 1], path);
    }
  }

  lemma {:induction false} EntriesAreShallow(g: Graph, properties: seq<Property>, path: seq<Ref>)
    requires path != [] && UnfoldEntries(g, properties, path).Some?
    ensures forall i :: 0 <= i < |properties| ==> Shallow(UnfoldEntries(g, properties, path).value[i].value, |path| - 1)
    decreases MAX_DEPTH + 1 - |path|, 1, |properties|
  {
    if properties != [] {
      EntriesAreShallow(g, properties[..|properties| - 1], path);
      UnfoldedIsShallow(g, properties[|properties| - 1].value, path);
    }
  }

  // ----- success, and what it leaves -----

  /** Encoding succeeds: the value unfolds, and both budgets suffice. */
  predicate Succeeds(t: Option<Tree>, remaining: nat, byteLength: nat) {
    t.Some? && Fits(t.value, remaining) && byteLength + |BytesOf(t.value)| <= MAX_BYTES
  }

  predicate ItemsSucceed(ts: Option<seq<Tree>>, remaining: int, byteLength: nat) {
    ts.Some? && FitsItems(ts.value, remaining) && byteLength + |BytesOfItems(ts.value)| <= MAX_BYTES
  }

  predicate EntriesSucceed(es: Option<seq<Entry>>, remaining: int, byteLength: nat) {
    es.Some? && FitsEntries(es.value, remaining) && byteLength + |BytesOfEntries(es.value)| <= MAX_BYTES
  }

  /** Success of a list is success of its items one after the other. */
  lemma {:induction false} ItemsSucceedStep(g: Graph, items: seq<JsValue>, path: seq<Ref>, remaining: int,
      byteLength: nat)
    requires items != []
    ensures var rest := UnfoldItems(g, items[..|items| - 1], path);
            ItemsSucceed(UnfoldItems(g, items, path), remaining, byteLength) <==>
              && ItemsSucceed(rest, remaining, byteLength)
              && UnitsOfItems(rest.value) <= remaining
              && Succeeds(Unfold(g, items[|items| - 1], path), remaining - UnitsOfItems(rest.value),
                          byteLength + |BytesOfItems(rest.value)|)
  {
    var rest, last := UnfoldItems(g, items[..|items| - 1], path), Unfold(g, items[|items| - 1], path);
    if rest.Some? {
      if FitsItems(rest.value, remaining) {
        FitsItemsBounds(rest.value, remaining);
      }
      if last.Some? {
        var all := rest.value + [last.value];
        assert all[..|all| - 1] == rest.value;
      }
    }
  }

  lemma {:induction false} EntriesSucceedStep(g: Graph, properties: seq<Property>, path: seq<Ref>, remaining: int,
                                              byteLength: nat)
    requires properties != []
    ensures var rest, last := UnfoldEntries(g, properties[..|properties| - 1], path), properties[|properties| - 1];
            EntriesSucceed(UnfoldEntries(g, properties, path), remaining, byteLength) <==>
              && EntriesSucceed(rest, remaining, byteLength)
              && UnitsOfEntries(rest.value) <= remaining
              && last.key.StringKey? && WellFormedUtf16(last.key.units)
              && Succeeds(Unfold(g, last.value, path), remaining - UnitsOfEntries(rest.value),
                          byteLength + |BytesOfEntries(rest.value)| + |Utf8(last.key.units)|)
  {
    var rest, last := UnfoldEntries(g, properties[..|properties| - 1], path), properties[|properties| - 1];
    if rest.Some? {
      if FitsEntries(rest.value, remaining) {
        FitsEntriesBounds(rest.value, remaining);
      }
      if last.key.StringKey? && WellFormedUtf16(last.key.units) && Unfold(g, last.value, path).Some? {
        var all := rest.value + [Entry(Utf8(last.key.units), Unfold(g, last.value, path).value)];
        assert all[..|all| - 1] == rest.value;
      }
    }
  }

  /** A list does not succeed when its beginning does not. */
  lemma {:induction false} PrefixSucceeds(g: Graph, items: seq<JsValue>, n: nat, path: seq<Ref>, remaining: int,
                                          byteLength: nat)
    requires n <= |items| && ItemsSucceed(UnfoldItems(g, items, path), remaining, byteLength)
    ensures ItemsSucceed(UnfoldItems(g, items[..n], path), remaining, byteLength)
    decreases |items|
  {
    if n < |items| {
      ItemsSucceedStep(g, items, path, remaining, byteLength);
      assert items[..|items| - 1][..n] == items[..n];
      PrefixSucceeds(g, items[..|items| - 1], n, path, remaining, byteLength);
    } else {
      assert items[..n] == items;
    }
  }

  lemma {:induction false} EntriesPrefixSucceeds(g: Graph, properties: seq<Property>, n: nat, path: seq<Ref>,
                                                 remaining: int, byteLength: nat)
    requires n <= |properties| && EntriesSucceed(UnfoldEntries(g, properties, path), remaining, byteLength)
    ensures EntriesSucceed(UnfoldEntries(g, properties[..n], path), remaining, byteLength)
    decreases |properties|
  {
    if n < |properties| {
      EntriesSucceedStep(g, properties, path, remaining, byteLength);
      assert properties[..|properties| - 1][..n] == properties[..n];
      EntriesPrefixSucceeds(g, properties[..|properties| - 1], n, path, remaining, byteLength);
    } else {
      assert properties[..n] == properties;
    }
  }

  // ----- what is written, as one value -----

  datatype Parts = Parts(numbers: seq<JsNumber>, bytes: seq<Unit>, deferred: seq<Deferred>)

  function Join(a: Parts, b: Parts): (r: Parts)
    ensures |r.deferred| == |a.deferred| + |b.deferred| && |r.bytes| == |a.bytes| + |b.bytes|
  {
    Parts(a.numbers + b.numbers, a.bytes + b.bytes, a.deferred + b.deferred)
  }

  lemma {:induction false} JoinJoin(a: Parts, b: Parts, c: Parts)
    ensures Join(Join(a, b), c) == Join(a, Join(b, c))
  {
  }

  const NOTHING: Parts := Parts([], [], [])

  function PartsOf(t: Tree, deferred: nat): Parts {
    Parts(NumbersOf(t, deferred), BytesOf(t), DeferredOf(t))
  }

  function PartsOfItems(ts: seq<Tree>, deferred: nat): Parts {
    Parts(NumbersOfItems(ts, deferred), BytesOfItems(ts), DeferredOfItems(ts))
  }

  function PartsOfEntries(es: seq<Entry>, deferred: nat): Parts {
    Parts(NumbersOfEntries(es, deferred), BytesOfEntries(es), DeferredOfEntries(es))
  }

  function HeadParts(tag: nat, n: nat): (r: Parts)
    ensures r.bytes == [] && r.deferred == []
  {
    Parts([Int(tag), Int(n)], [], [])
  }

  function TextParts(bytes: seq<Unit>): (r: Parts)
    ensures r.bytes == bytes && r.deferred == []
  {
    Parts([Int(PLAIN_STRING), Int(|bytes|)], bytes, [])
  }

  lemma {:induction false} PartsOfMore(ts: seq<Tree>, t: Tree, deferred: nat)
    ensures PartsOfItems(ts + [t], deferred)
         == Join(PartsOfItems(ts, deferred), PartsOf(t, deferred + |DeferredOfItems(ts)|))
    ensures UnitsOfItems(ts + [t]) == UnitsOfItems(ts) + UnitsOf(t)
  {
    var all := ts + [t];
    assert all[..|all| - 1] == ts;
  }

  lemma {:induction false} PartsOfMoreEntries(es: seq<Entry>, e: Entry, deferred: nat)
    ensures PartsOfEntries(es + [e], deferred)
         == Join(Join(PartsOfEntries(es, deferred), TextParts(e.key)),
                 PartsOf(e.value, deferred + |DeferredOfEntries(es)|))
    ensures UnitsOfEntries(es + [e]) == UnitsOfEntries(es) + UnitsOf(e.value)
  {
    var all := es + [e];
    assert all[..|all| - 1] == es;
  }

  /** One more item of a list whose beginning succeeded: it decides, and the parts of the list grow by its parts. */
  lemma {:induction false} NextItem(g: Graph, items: seq<JsValue>, i: nat, path: seq<Ref>, remaining: nat,
      byteLength: nat, deferred: nat)
    requires i < |items| && ItemsSucceed(UnfoldItems(g, items[..i], path), remaining, byteLength)
    ensures var ts := UnfoldItems(g, items[..i], path).value;
            var t := Unfold(g, items[i], path);
            var all := UnfoldItems(g, items[..i + 1], path);
            var done := PartsOfItems(ts, deferred);
            && UnitsOfItems(ts) <= remaining
            && var decides := Succeeds(t, remaining - UnitsOfItems(ts), byteLength + |done.bytes|);
               && (ItemsSucceed(all, remaining, byteLength) <==> decides)
               && (!decides ==> !ItemsSucceed(UnfoldItems(g, items, path), remaining, byteLength))
               && (decides ==>
                     && PartsOfItems(all.value, deferred) == Join(done, PartsOf(t.value, deferred + |done.deferred|))
                     && UnitsOfItems(all.value) == UnitsOfItems(ts) + UnitsOf(t.value))
  {
    hide Fits, FitsItems, Unfold, UnfoldItems, NumbersOfItems, BytesOfItems, DeferredOfItems, UnitsOfItems, Join;
    hide NumbersOf, BytesOf, DeferredOf, UnitsOf;
    var part := items[..i + 1];
    assert part[..|part| - 1] == items[..i] && part[|part| - 1] == items[i];
    ItemsSucceedStep(g, part, path, remaining, byteLength);
    if ItemsSucceed(UnfoldItems(g, items, path), remaining, byteLength) {
      PrefixSucceeds(g, items, i + 1, path, remaining, byteLength);
    }
    ItemUnfolds(g, items, i, path);
    var ts, t := UnfoldItems(g, items[..i], path).value, Unfold(g, items[i], path);
    FitsItemsBounds(ts, remaining);
    if t.Some? {
      PartsOfMore(ts, t.value, deferred);
    }
  }

  lemma {:induction false} ItemUnfolds(g: Graph, items: seq<JsValue>, i: nat, path: seq<Ref>)
    requires i < |items| && UnfoldItems(g, items[..i], path).Some?
    ensures var t := Unfold(g, items[i], path);
            t.Some? ==>
              UnfoldItems(g, items[..i + 1], path) == Some(UnfoldItems(g, items[..i], path).value + [t.value])
  {
    var part := items[..i + 1];
    assert part[..|part| - 1] == items[..i] && part[|part| - 1] == items[i];
  }

  lemma {:induction false} NextEntry(g: Graph, properties: seq<Property>, i: nat, path: seq<Ref>, remaining: nat,
                                     byteLength: nat, deferred: nat)
    requires i < |properties| && EntriesSucceed(UnfoldEntries(g, properties[..i], path), remaining, byteLength)
    ensures var es := UnfoldEntries(g, properties[..i], path).value;
            var t := Unfold(g, properties[i].value, path);
            var key := properties[i].key;
            var all := UnfoldEntries(g, properties[..i + 1], path);
            var done := PartsOfEntries(es, deferred);
            && UnitsOfEntries(es) <= remaining
            && var decides := key.StringKey? && WellFormedUtf16(key.units) &&
                              Succeeds(t, remaining - UnitsOfEntries(es),
                                       byteLength + |done.bytes| + |Utf8(key.units)|);
               && (EntriesSucceed(all, remaining, byteLength) <==> decides)
               && (!decides ==> !EntriesSucceed(UnfoldEntries(g, properties, path), remaining, byteLength))
               && (decides ==>
                     && PartsOfEntries(all.value, deferred)
                        == Join(Join(done, TextParts(Utf8(key.units))), PartsOf(t.value, deferred + |done.deferred|))
                     && UnitsOfEntries(all.value) == UnitsOfEntries(es) + UnitsOf(t.value))
  {
    hide Fits, FitsEntries, Unfold, UnfoldEntries, NumbersOfEntries, BytesOfEntries, DeferredOfEntries, UnitsOfEntries;
    hide Join, Utf8, WellFormedUtf16, TextParts, NumbersOf, BytesOf, DeferredOf, UnitsOf;
    var part := properties[..i + 1];
    assert part[..|part| - 1] == properties[..i] && part[|part| - 1] == properties[i];
    EntriesSucceedStep(g, part, path, remaining, byteLength);
    if EntriesSucceed(UnfoldEntries(g, properties, path), remaining, byteLength) {
      EntriesPrefixSucceeds(g, properties, i + 1, path, remaining, byteLength);
    }
    EntryUnfolds(g, properties, i, path);
    var es, t := UnfoldEntries(g, properties[..i], path).value, Unfold(g, properties[i].value, path);
    var key := properties[i].key;
    FitsEntriesBounds(es, remaining);
    if t.Some? && key.StringKey? && WellFormedUtf16(key.units) {
      PartsOfMoreEntries(es, Entry(Utf8(key.units), t.value), deferred);
    }
  }

  lemma {:induction false} EntryUnfolds(g: Graph, properties: seq<Property>, i: nat, path: seq<Ref>)
    requires i < |properties| && UnfoldEntries(g, properties[..i], path).Some?
    ensures var key, t := properties[i].key, Unfold(g, properties[i].value, path);
            t.Some? && key.StringKey? && WellFormedUtf16(key.units) ==>
              UnfoldEntries(g, properties[..i + 1], path)
              == Some(UnfoldEntries(g, properties[..i], path).value + [Entry(Utf8(key.units), t.value)])
  {
    var part := properties[..i + 1];
    assert part[..|part| - 1] == properties[..i] && part[|part| - 1] == properties[i];
  }

  /** An array succeeds when it is no ancestor of itself and its items succeed; it fails at once when there are more
      items than units left. */
  lemma {:induction false} ArraySucceeds(g: Graph, ref: Ref, items: seq<JsValue>, path: seq<Ref>, remaining: nat,
                                         byteLength: nat, deferred: nat)
    requires g(ref) == ArrayNode(items) && |path| <= MAX_DEPTH
    ensures var ts := UnfoldItems(g, items, path + [ref]);
            var t := Unfold(g, JsObject(ref), path);
            && (Succeeds(t, remaining + 1, byteLength) <==> ref !in path && ItemsSucceed(ts, remaining, byteLength))
            && (ItemsSucceed(ts, remaining, byteLength) ==> |items| <= remaining)
            && (t.Some? ==>
                  && PartsOf(t.value, deferred)
                      == Join(HeadParts(PLAIN_LIST, |items|), PartsOfItems(ts.value, deferred))
                  && UnitsOf(t.value) == 1 + UnitsOfItems(ts.value))
  {
    var ts := UnfoldItems(g, items, path + [ref]);
    if ItemsSucceed(ts, remaining, byteLength) {
      FitsItemsBounds(ts.value, remaining);
    }
  }

  lemma {:induction false} PlainSucceeds(g: Graph, ref: Ref, properties: seq<Property>, path: seq<Ref>, remaining: nat,
                                         byteLength: nat, deferred: nat)
    requires g(ref) == PlainNode(properties) && |path| <= MAX_DEPTH
    ensures var n := |properties|;
            var es := UnfoldEntries(g, properties, path + [ref]);
            var t := Unfold(g, JsObject(ref), path);
            && (Succeeds(t, remaining + 1, byteLength) <==>
                ref !in path && EntriesSucceed(es, remaining - n, byteLength))
            && (EntriesSucceed(es, remaining - n, byteLength) ==> n <= remaining / 2)
            && (t.Some? ==>
                  && PartsOf(t.value, deferred) == Join(HeadParts(PLAIN_MAP, n), PartsOfEntries(es.value, deferred))
                  && UnitsOf(t.value) == 1 + n + UnitsOfEntries(es.value))
  {
    var es := UnfoldEntries(g, properties, path + [ref]);
    if EntriesSucceed(es, remaining - |properties|, byteLength) {
      FitsEntriesBounds(es.value, remaining - |properties|);
    }
  }
}
