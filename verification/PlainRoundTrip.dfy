/** Decoding the stream of a tree gives the tree back. */
module PlainRoundTrip {
  import opened Values
  import opened Encodings
  import opened PlainStream

  predicate At<T(==)>(s: seq<T>, i: nat, part: seq<T>) {
    i + |part| <= |s| && s[i..i + |part|] == part
  }

  lemma {:induction false} AtSplit<T>(s: seq<T>, i: nat, a: seq<T>, b: seq<T>)
    requires At(s, i, a + b)
    ensures At(s, i, a) && At(s, i + |a|, b)
  {
    assert s[i..i + |a|] == (a + b)[..|a|] && s[i + |a|..i + |a| + |b|] == (a + b)[|a|..];
  }

  lemma {:induction false} AtSplits<T>(s: seq<T>, i: nat, a: seq<T>, b: seq<T>, c: seq<T>)
    requires At(s, i, a + b + c)
    ensures At(s, i, a) && At(s, i + |a|, b) && At(s, i + |a| + |b|, c)
  {
    AtSplit(s, i, a + b, c);
    AtSplit(s, i, a, b);
  }

  lemma {:induction false} AtIndices<T>(s: seq<T>, i: nat, part: seq<T>)
    requires At(s, i, part)
    ensures i + |part| <= |s| && forall j :: 0 <= j < |part| ==> s[i + j] == part[j]
  {
    forall j | 0 <= j < |part| ensures s[i + j] == part[j] {
      assert s[i..i + |part|][j] == s[i + j];
    }
  }

  /** Numbers that are integers are safe ones. */
  predicate Readable(t: Tree)
    decreases t, 0
  {
    match t
    case NumberTree(d) => IsReadable(d)
    case ListTree(items) => forall i :: 0 <= i < |items| ==> Readable(items[i])
    case MapTree(entries) => forall i :: 0 <= i < |entries| ==> Readable(entries[i].value)
    case _ => true
  }

  /** The parts of the stream that the tree occupies, from a cursor. */
  predicate Holds(s: Stream, c: Cursor, deferred: nat, numbers: seq<JsNumber>, bytes: seq<Unit>, more: seq<Deferred>) {
    At(s.numbers, c.index, numbers) && At(s.bytes, c.byteIndex, bytes) && At(s.deferred, deferred, more)
  }

  function After(c: Cursor, numbers: seq<JsNumber>, bytes: seq<Unit>, units: nat): Cursor
    requires units <= c.remaining
  {
    Cursor(c.index + |numbers|, c.byteIndex + |bytes|, c.remaining - units)
  }

  predicate Roomy(c: Cursor, deferred: nat, bytes: seq<Unit>) {
    deferred + c.remaining <= MAX_VALUES && c.byteIndex + |bytes| <= MAX_BYTES
  }

  /** The tree stands at the cursor, and the budgets suffice for it. */
  predicate Ready(s: Stream, c: Cursor, t: Tree, deferred: nat) {
    && Holds(s, c, deferred, NumbersOf(t, deferred), BytesOf(t), DeferredOf(t))
    && Fits(t, c.remaining) && Roomy(c, deferred, BytesOf(t))
  }

  predicate ReadyItems(s: Stream, c: Cursor, items: seq<Tree>, deferred: nat) {
    && Holds(s, c, deferred, NumbersOfItems(items, deferred), BytesOfItems(items), DeferredOfItems(items))
    && FitsItems(items, c.remaining) && Roomy(c, deferred, BytesOfItems(items))
  }

  predicate ReadyEntries(s: Stream, c: Cursor, entries: seq<Entry>, deferred: nat) {
    && Holds(s, c, deferred, NumbersOfEntries(entries, deferred), BytesOfEntries(entries), DeferredOfEntries(entries))
    && FitsEntries(entries, c.remaining) && Roomy(c, deferred, BytesOfEntries(entries))
  }

  lemma {:induction false} DeferredFewer(t: Tree)
    ensures |DeferredOf(t)| <= UnitsOf(t)
    decreases t, 0
  {
    match t
    case ListTree(items) => DeferredFewerItems(items);
    case MapTree(entries) => DeferredFewerEntries(entries);
    case _ =>
  }

  lemma {:induction false} DeferredFewerItems(items: seq<Tree>)
    ensures |DeferredOfItems(items)| <= UnitsOfItems(items)
    decreases items, |items|
  {
    if items != [] {
      DeferredFewerItems(items[..|items| - 1]);
      DeferredFewer(items[|items| - 1]);
    }
  }

  lemma {:induction false} DeferredFewerEntries(entries: seq<Entry>)
    ensures |DeferredOfEntries(entries)| <= UnitsOfEntries(entries)
    decreases entries, |entries|
  {
    if entries != [] {
      DeferredFewerEntries(entries[..|entries| - 1]);
      DeferredFewer(entries[|entries| - 1].value);
    }
  }

  /** Decoding at the cursor reads this tree and stops behind it. */
  ghost predicate Reads(s: Stream, c: Cursor, t: Tree, deferred: nat, depth: nat) {
    UnitsOf(t) <= c.remaining &&
    Decode(s, c, depth) == Some(Read(t, After(c, NumbersOf(t, deferred), BytesOf(t), UnitsOf(t))))
  }

  ghost predicate ReadsItems(s: Stream, c: Cursor, items: seq<Tree>, deferred: nat, depth: nat) {
    UnitsOfItems(items) <= c.remaining &&
    DecodeItems(s, c, |items|, depth)
    == Some(Read(items, After(c, NumbersOfItems(items, deferred), BytesOfItems(items), UnitsOfItems(items))))
  }

  ghost predicate ReadsEntries(s: Stream, c: Cursor, entries: seq<Entry>, deferred: nat, depth: nat) {
    UnitsOfEntries(entries) <= c.remaining &&
    DecodeEntries(s, c, |entries|, depth)
    == Some(Read(entries,
                 After(c, NumbersOfEntries(entries, deferred), BytesOfEntries(entries), UnitsOfEntries(entries))))
  }

  /** The main step: wherever a tree that fits stands in a stream, decoding reads it. */
  lemma {:induction false} DecodesTree(s: Stream, c: Cursor, t: Tree, deferred: nat, depth: nat)
    requires Ready(s, c, t, deferred) && Shallow(t, depth) && Readable(t)
    ensures Reads(s, c, t, deferred, depth)
    decreases t, 2
  {
    FitsBounds(t, c.remaining);
    match t
    case ListTree(items) =>
      AtSplit(s.numbers, c.index, [Int(PLAIN_LIST), Int(|items|)], NumbersOfItems(items, deferred));
      DecodesItems(s, Cursor(c.index + 2, c.byteIndex, c.remaining - 1), items, deferred, depth + 1);
      ListRead(s, c, items, deferred, depth);
    case MapTree(entries) =>
      AtSplit(s.numbers, c.index, [Int(PLAIN_MAP), Int(|entries|)], NumbersOfEntries(entries, deferred));
      FitsEntriesBounds(entries, c.remaining - 1 - |entries|);
      DecodesEntries(s, Cursor(c.index + 2, c.byteIndex, c.remaining - 1 - |entries|), entries, deferred, depth + 1);
      MapRead(s, c, entries, deferred, depth);
    case _ => DecodesLeaf(s, c, t, deferred, depth);
  }

  lemma {:induction false} DecodesLeaf(s: Stream, c: Cursor, t: Tree, deferred: nat, depth: nat)
    requires !t.ListTree? && !t.MapTree?
    requires Ready(s, c, t, deferred) && Shallow(t, depth) && Readable(t) && UnitsOf(t) <= c.remaining
    ensures Reads(s, c, t, deferred, depth)
  {
    if t.DeferredTree? {
      DeferredRead(s, c, t.deferred, deferred, depth);
    } else if t.StringTree? {
      StringRead(s, c, t.bytes, depth);
    } else if t.BigIntTree? {
      BigIntRead(s, c, t.n, depth);
    } else {
      ConstantRead(s, c, t, deferred, depth);
    }
  }

  lemma {:induction false} ConstantRead(s: Stream, c: Cursor, t: Tree, deferred: nat, depth: nat)
    requires (t.NullTree? || t.BoolTree? || t.NumberTree?) && Readable(t) && depth < MAX_DEPTH && 1 <= c.remaining
    requires At(s.numbers, c.index, NumbersOf(t, deferred))
    ensures Reads(s, c, t, deferred, depth)
  {
    AtIndices(s.numbers, c.index, NumbersOf(t, deferred));
    IntegerBack(PLAIN_NULL);
    IntegerBack(PLAIN_FALSE);
    IntegerBack(PLAIN_TRUE);
    IntegerBack(PLAIN_NUMBER);
    assert s.numbers[c.index + 0] == NumbersOf(t, deferred)[0];
    assert t.NumberTree? ==> s.numbers[c.index + 1] == t.d;
    hide At, DecodeItems, DecodeEntries, DecodeString, DecodeBigInt, IntegerOf, Int;
  }

  lemma {:induction false} DeferredRead(s: Stream, c: Cursor, d: Deferred, deferred: nat, depth: nat)
    requires depth < MAX_DEPTH && 1 <= c.remaining && deferred + c.remaining <= MAX_VALUES
    requires At(s.numbers, c.index, [Int(PLAIN_DEFERRED), Int(3 * deferred)]) && At(s.deferred, deferred, [d])
    requires Fits(DeferredTree(d), c.remaining) && UnitsOf(DeferredTree(d)) <= c.remaining
    ensures Reads(s, c, DeferredTree(d), deferred, depth)
  {
    AtIndices(s.numbers, c.index, [Int(PLAIN_DEFERRED), Int(3 * deferred)]);
    AtIndices(s.deferred, deferred, [d]);
    assert [d][0] == d && s.deferred[deferred + 0] == d;
    IntegerBack(PLAIN_DEFERRED);
    IntegerBack(3 * deferred);
    hide DecodeItems, DecodeEntries, DecodeString, DecodeBigInt, IntegerOf, Int;
    assert NumbersOf(DeferredTree(d), deferred) == [Int(PLAIN_DEFERRED), Int(3 * deferred)];
  }

  lemma {:induction false} StringRead(s: Stream, c: Cursor, bytes: seq<Unit>, depth: nat)
    requires depth < MAX_DEPTH && 1 <= c.remaining && c.byteIndex + |bytes| <= MAX_BYTES
    requires At(s.numbers, c.index, [Int(PLAIN_STRING), Int(|bytes|)]) && At(s.bytes, c.byteIndex, bytes)
    ensures forall deferred :: Reads(s, c, StringTree(bytes), deferred, depth)
  {
    KeyAt(s, c.(remaining := c.remaining - 1), bytes);
    hide DecodeItems, DecodeEntries, DecodeString, DecodeBigInt, NextCount, At;
  }

  lemma {:induction false} BigIntRead(s: Stream, c: Cursor, n: int, depth: nat)
    requires depth < MAX_DEPTH && 1 <= c.remaining && IsInt64(n)
    requires At(s.numbers, c.index, [Int(PLAIN_BIGINT), Int(High(n)), Int(Low(n))])
    ensures forall deferred :: Reads(s, c, BigIntTree(n), deferred, depth)
  {
    AtIndices(s.numbers, c.index, [Int(PLAIN_BIGINT), Int(High(n)), Int(Low(n))]);
    HalvesJoin(n);
    IntegerBack(PLAIN_BIGINT);
    IntegerBack(High(n));
    IntegerBack(Low(n));
    assert [Int(PLAIN_BIGINT), Int(High(n)), Int(Low(n))][2] == Int(Low(n));
    hide DecodeItems, DecodeEntries, DecodeString, IntegerOf, Int, At, High, Low;
  }

  lemma {:induction false} ListRead(s: Stream, c: Cursor, items: seq<Tree>, deferred: nat, depth: nat)
    requires depth < MAX_DEPTH && 1 + UnitsOfItems(items) <= c.remaining <= MAX_VALUES
    requires At(s.numbers, c.index, [Int(PLAIN_LIST), Int(|items|)])
    requires ReadsItems(s, Cursor(c.index + 2, c.byteIndex, c.remaining - 1), items, deferred, depth + 1)
    ensures Reads(s, c, ListTree(items), deferred, depth)
  {
    CountsAt(s, c, PLAIN_LIST, |items|);
    var t := ListTree(items);
    assert NumbersOf(t, deferred) == [Int(PLAIN_LIST), Int(|items|)] + NumbersOfItems(items, deferred);
    assert BytesOf(t) == BytesOfItems(items) && UnitsOf(t) == 1 + UnitsOfItems(items);
    hide NumbersOf, BytesOf, UnitsOf, Int;
    hide DecodeItems, NumbersOfItems, BytesOfItems, UnitsOfItems, NextCount, Next, DecodeString, DecodeBigInt, At;
  }

  lemma {:induction false} MapRead(s: Stream, c: Cursor, entries: seq<Entry>, deferred: nat, depth: nat)
    requires depth < MAX_DEPTH && 1 + |entries| + UnitsOfEntries(entries) <= c.remaining <= MAX_VALUES
    requires At(s.numbers, c.index, [Int(PLAIN_MAP), Int(|entries|)])
    requires ReadsEntries(s, Cursor(c.index + 2, c.byteIndex, c.remaining - 1 - |entries|), entries, deferred,
                          depth + 1)
    ensures Reads(s, c, MapTree(entries), deferred, depth)
  {
    CountsAt(s, c, PLAIN_MAP, |entries|);
    assert |entries| <= (c.remaining - 1) / 2;
    var t := MapTree(entries);
    assert NumbersOf(t, deferred) == [Int(PLAIN_MAP), Int(|entries|)] + NumbersOfEntries(entries, deferred);
    assert BytesOf(t) == BytesOfEntries(entries) && UnitsOf(t) == 1 + |entries| + UnitsOfEntries(entries);
    hide NumbersOf, BytesOf, UnitsOf, Int;
    hide DecodeEntries, NumbersOfEntries, BytesOfEntries, UnitsOfEntries, NextCount, Next, DecodeString, DecodeBigInt,
         At;
  }

  lemma {:induction false} DecodesItems(s: Stream, c: Cursor, items: seq<Tree>, deferred: nat, depth: nat)
    requires ReadyItems(s, c, items, deferred)
    requires forall i :: 0 <= i < |items| ==> Shallow(items[i], depth) && Readable(items[i])
    ensures ReadsItems(s, c, items, deferred, depth)
    decreases items, |items|
  {
    hide ReadyItems, Ready, NumbersOfItems, BytesOfItems, DeferredOfItems, UnitsOfItems, FitsItems, ReadsItems, Reads;
    hide NumbersOf, BytesOf, DeferredOf, UnitsOf, Fits, Shallow, Readable, Decode, DecodeItems;
    if items == [] {
      NothingToRead(s, c, deferred, depth);
    } else {
      var rest, last := items[..|items| - 1], items[|items| - 1];
      var after := SplitItems(s, c, items, deferred);
      DecodesItems(s, c, rest, deferred, depth);
      DecodesTree(s, after, last, deferred + |DeferredOfItems(rest)|, depth);
      LastItem(s, c, after, items, deferred, depth);
    }
  }

  /** The last item stands behind the others. */
  lemma {:induction false} SplitItems(s: Stream, c: Cursor, items: seq<Tree>, deferred: nat) returns (after: Cursor)
    requires items != [] && ReadyItems(s, c, items, deferred)
    ensures UnitsOfItems(items) <= c.remaining
    ensures var rest, last := items[..|items| - 1], items[|items| - 1];
            var k := deferred + |DeferredOfItems(rest)|;
            && ReadyItems(s, c, rest, deferred) && UnitsOfItems(rest) <= c.remaining
            && after == After(c, NumbersOfItems(rest, deferred), BytesOfItems(rest), UnitsOfItems(rest))
            && Ready(s, after, last, k)
  {
    hide NumbersOfItems, BytesOfItems, DeferredOfItems, UnitsOfItems, FitsItems;
    hide NumbersOf, BytesOf, DeferredOf, UnitsOf, Fits, At, Holds, Roomy;
    FitsItemsBounds(items, c.remaining);
    ItemsUnfold(items, deferred, c.remaining);
    var rest, last := items[..|items| - 1], items[|items| - 1];
    var k := deferred + |DeferredOfItems(rest)|;
    DeferredFewerItems(rest);
    FitsBounds(last, c.remaining - UnitsOfItems(rest));
    var before := NumbersOfItems(rest, deferred);
    assert before + NumbersOf(last, k) == before + [] + NumbersOf(last, k);
    assert BytesOfItems(rest) + BytesOf(last) == BytesOfItems(rest) + [] + BytesOf(last);
    after := After(c, NumbersOfItems(rest, deferred), BytesOfItems(rest), UnitsOfItems(rest));
    SplitParts(s, c, deferred, NumbersOfItems(rest, deferred), [], NumbersOf(last, k), BytesOfItems(rest), [],
               BytesOf(last), DeferredOfItems(rest), DeferredOf(last), UnitsOfItems(rest));
    assert After(after, [], [], 0) == after;
  }

  lemma {:induction false} ItemsUnfold(items: seq<Tree>, deferred: nat, remaining: int)
    requires items != []
    ensures var rest, last := items[..|items| - 1], items[|items| - 1];
            && NumbersOfItems(items, deferred)
               == NumbersOfItems(rest, deferred) + NumbersOf(last, deferred + |DeferredOfItems(rest)|)
            && BytesOfItems(items) == BytesOfItems(rest) + BytesOf(last)
            && DeferredOfItems(items) == DeferredOfItems(rest) + DeferredOf(last)
            && UnitsOfItems(items) == UnitsOfItems(rest) + UnitsOf(last)
            && (FitsItems(items, remaining) ==>
                  FitsItems(rest, remaining) && Fits(last, remaining - UnitsOfItems(rest)))
  {
  }

  lemma {:induction false} EntriesUnfold(entries: seq<Entry>, deferred: nat, remaining: int)
    requires entries != []
    ensures var rest, last := entries[..|entries| - 1], entries[|entries| - 1];
            && NumbersOfEntries(entries, deferred)
               == NumbersOfEntries(rest, deferred) + [Int(PLAIN_STRING), Int(|last.key|)]
                  + NumbersOf(last.value, deferred + |DeferredOfEntries(rest)|)
            && BytesOfEntries(entries) == BytesOfEntries(rest) + last.key + BytesOf(last.value)
            && DeferredOfEntries(entries) == DeferredOfEntries(rest) + DeferredOf(last.value)
            && UnitsOfEntries(entries) == UnitsOfEntries(rest) + UnitsOf(last.value)
            && (FitsEntries(entries, remaining) ==>
                  FitsEntries(rest, remaining) && Fits(last.value, remaining - UnitsOfEntries(rest)))
  {
  }

  lemma {:induction false} NothingToRead(s: Stream, c: Cursor, deferred: nat, depth: nat)
    ensures ReadsItems(s, c, [], deferred, depth) && ReadsEntries(s, c, [], deferred, depth)
  {
  }

  lemma {:induction false} LastItem(s: Stream, c: Cursor, after: Cursor, items: seq<Tree>, deferred: nat, depth: nat)
    requires items != [] && UnitsOfItems(items) <= c.remaining
    requires var rest := items[..|items| - 1];
             && ReadsItems(s, c, rest, deferred, depth)
             && after == After(c, NumbersOfItems(rest, deferred), BytesOfItems(rest), UnitsOfItems(rest))
             && Reads(s, after, items[|items| - 1], deferred + |DeferredOfItems(rest)|, depth)
    ensures ReadsItems(s, c, items, deferred, depth)
  {
    hide Decode, NumbersOf, BytesOf, UnitsOf, DeferredOf;
    var rest, last := items[..|items| - 1], items[|items| - 1];
    var k := deferred + |DeferredOfItems(rest)|;
    AfterJoin(c, NumbersOfItems(rest, deferred), BytesOfItems(rest), UnitsOfItems(rest),
              NumbersOf(last, k), BytesOf(last), UnitsOf(last));
    assert items == rest + [last];
  }

  lemma {:induction false} AfterJoin(c: Cursor, n1: seq<JsNumber>, b1: seq<Unit>, u1: nat, n2: seq<JsNumber>,
      b2: seq<Unit>, u2: nat)
    requires u1 + u2 <= c.remaining
    ensures After(After(c, n1, b1, u1), n2, b2, u2) == After(c, n1 + n2, b1 + b2, u1 + u2)
  {
  }

  lemma {:induction false} DecodesEntries(s: Stream, c: Cursor, entries: seq<Entry>, deferred: nat, depth: nat)
    requires ReadyEntries(s, c, entries, deferred)
    requires forall i :: 0 <= i < |entries| ==> Shallow(entries[i].value, depth) && Readable(entries[i].value)
    ensures ReadsEntries(s, c, entries, deferred, depth)
    decreases entries, |entries|
  {
    hide ReadyEntries, Ready, NumbersOfEntries, BytesOfEntries, DeferredOfEntries, UnitsOfEntries, FitsEntries;
    hide ReadsEntries, Reads, NumbersOf, BytesOf, DeferredOf, UnitsOf, Fits, Shallow, Readable, Decode, DecodeEntries,
         At;
    if entries == [] {
      NothingToRead(s, c, deferred, depth);
    } else {
      var rest, last := entries[..|entries| - 1], entries[|entries| - 1];
      var head := [Int(PLAIN_STRING), Int(|last.key|)];
      var after := SplitEntries(s, c, entries, deferred);
      DecodesEntries(s, c, rest, deferred, depth);
      DecodesTree(s, After(after, head, last.key, 0), last.value, deferred + |DeferredOfEntries(rest)|, depth);
      LastEntry(s, c, after, entries, deferred, depth);
    }
  }

  lemma {:induction false} SplitEntries(s: Stream, c: Cursor, entries: seq<Entry>,
      deferred: nat) returns (after: Cursor)
    requires entries != [] && ReadyEntries(s, c, entries, deferred)
    ensures UnitsOfEntries(entries) <= c.remaining
    ensures var rest, last := entries[..|entries| - 1], entries[|entries| - 1];
            var k := deferred + |DeferredOfEntries(rest)|;
            var head := [Int(PLAIN_STRING), Int(|last.key|)];
            && ReadyEntries(s, c, rest, deferred) && UnitsOfEntries(rest) <= c.remaining
            && after == After(c, NumbersOfEntries(rest, deferred), BytesOfEntries(rest), UnitsOfEntries(rest))
            && At(s.numbers, after.index, head) && At(s.bytes, after.byteIndex, last.key)
            && after.byteIndex + |last.key| <= MAX_BYTES
            && Ready(s, After(after, head, last.key, 0), last.value, k)
  {
    hide NumbersOfEntries, BytesOfEntries, DeferredOfEntries, UnitsOfEntries, FitsEntries;
    hide NumbersOf, BytesOf, DeferredOf, UnitsOf, Fits, At, Holds, Roomy;
    FitsEntriesBounds(entries, c.remaining);
    EntriesUnfold(entries, deferred, c.remaining);
    var rest, last := entries[..|entries| - 1], entries[|entries| - 1];
    DeferredFewerEntries(rest);
    FitsBounds(last.value, c.remaining - UnitsOfEntries(rest));
    after := After(c, NumbersOfEntries(rest, deferred), BytesOfEntries(rest), UnitsOfEntries(rest));
    SplitParts(s, c, deferred, NumbersOfEntries(rest, deferred), [Int(PLAIN_STRING), Int(|last.key|)],
               NumbersOf(last.value, deferred + |DeferredOfEntries(rest)|), BytesOfEntries(rest), last.key,
               BytesOf(last.value), DeferredOfEntries(rest), DeferredOf(last.value), UnitsOfEntries(rest));
  }

  lemma {:induction false} SplitParts(s: Stream, c: Cursor, deferred: nat, n1: seq<JsNumber>, n2: seq<JsNumber>,
                                      n3: seq<JsNumber>, b1: seq<Unit>, b2: seq<Unit>, b3: seq<Unit>,
                                      d1: seq<Deferred>, d2: seq<Deferred>, units: nat)
    requires Holds(s, c, deferred, n1 + n2 + n3, b1 + b2 + b3, d1 + d2) && Roomy(c, deferred, b1 + b2 + b3)
    requires |d1| <= units <= c.remaining
    ensures Holds(s, c, deferred, n1, b1, d1) && Roomy(c, deferred, b1)
    ensures var after := After(c, n1, b1, units);
            var inner := After(after, n2, b2, 0);
            && At(s.numbers, after.index, n2) && At(s.bytes, after.byteIndex, b2) && after.byteIndex + |b2| <= MAX_BYTES
            && Holds(s, inner, deferred + |d1|, n3, b3, d2) && Roomy(inner, deferred + |d1|, b3)
  {
    AtSplits(s.numbers, c.index, n1, n2, n3);
    AtSplits(s.bytes, c.byteIndex, b1, b2, b3);
    AtSplit(s.deferred, deferred, d1, d2);
    hide At;
  }

  lemma {:induction false} LastEntry(s: Stream, c: Cursor, after: Cursor, entries: seq<Entry>, deferred: nat,
      depth: nat)
    requires entries != [] && UnitsOfEntries(entries) <= c.remaining
    requires var rest, last := entries[..|entries| - 1], entries[|entries| - 1];
             var head := [Int(PLAIN_STRING), Int(|last.key|)];
             && ReadsEntries(s, c, rest, deferred, depth)
             && after == After(c, NumbersOfEntries(rest, deferred), BytesOfEntries(rest), UnitsOfEntries(rest))
             && At(s.numbers, after.index, head) && At(s.bytes, after.byteIndex, last.key)
             && after.byteIndex + |last.key| <= MAX_BYTES
             && Reads(s, After(after, head, last.key, 0), last.value, deferred + |DeferredOfEntries(rest)|, depth)
    ensures ReadsEntries(s, c, entries, deferred, depth)
  {
    hide Decode, NumbersOf, BytesOf, UnitsOf, DeferredOf, NextCount, DecodeString, At;
    var rest, last := entries[..|entries| - 1], entries[|entries| - 1];
    KeyAt(s, after, last.key);
    var k := deferred + |DeferredOfEntries(rest)|;
    var head := [Int(PLAIN_STRING), Int(|last.key|)];
    AfterJoin(c, NumbersOfEntries(rest, deferred), BytesOfEntries(rest), UnitsOfEntries(rest), head, last.key, 0);
    AfterJoin(c, NumbersOfEntries(rest, deferred) + head, BytesOfEntries(rest) + last.key, UnitsOfEntries(rest),
              NumbersOf(last.value, k), BytesOf(last.value), UnitsOf(last.value));
    assert entries == rest + [last];
  }

  lemma {:induction false} CountsAt(s: Stream, c: Cursor, tag: nat, n: nat)
    requires At(s.numbers, c.index, [Int(tag), Int(n)]) && tag <= PLAIN_BIGINT && c.remaining > 0
    requires n < c.remaining <= MAX_VALUES
    ensures var after := Cursor(c.index + 1, c.byteIndex, c.remaining - 1);
            && NextCount(s, c.(remaining := c.remaining - 1), PLAIN_BIGINT) == Some(Read(tag, after))
            && NextCount(s, after, 16 * MAX_VALUES) == Some(Read(n, after.(index := c.index + 2)))
  {
    assert s.numbers[c.index] == [Int(tag), Int(n)][0] && s.numbers[c.index + 1] == [Int(tag), Int(n)][1];
    IntegerBack(tag);
    IntegerBack(n);
  }

  lemma {:induction false} KeyAt(s: Stream, c: Cursor, key: seq<Unit>)
    requires At(s.numbers, c.index, [Int(PLAIN_STRING), Int(|key|)]) && At(s.bytes, c.byteIndex, key)
    requires c.byteIndex + |key| <= MAX_BYTES
    ensures var after := c.(index := c.index + 1);
            && NextCount(s, c, PLAIN_BIGINT) == Some(Read(PLAIN_STRING, after))
            && DecodeString(s, after) == Some(Read(key, After(c, [Int(PLAIN_STRING), Int(|key|)], key, 0)))
  {
    var pair := [Int(PLAIN_STRING), Int(|key|)];
    assert s.numbers[c.index] == pair[0] && s.numbers[c.index + 1] == pair[1];
    IntegerBack(PLAIN_STRING);
    IntegerBack(|key|);
  }

  lemma {:induction false} IntegerBack(n: int)
    ensures IntegerOf(Int(n)) == Some(n)
  {
  }

  /** The halves of a 64-bit integer. */
  lemma {:induction false} HalvesJoin(n: int)
    requires IsInt64(n)
    ensures -0x8000_0000 <= High(n) <= 0x7FFF_FFFF && 0 <= Low(n) <= 0xFFFF_FFFF
    ensures High(n) * 0x1_0000_0000 + Low(n) == n
  {
  }

  /** Everything the encoder writes for a tree is read back, with the budget drawn as the encoder drew it. */
  lemma {:induction false} RoundTrip(t: Tree, depth: nat, remaining: nat)
    requires Fits(t, remaining) && remaining <= MAX_VALUES && Shallow(t, depth) && Readable(t)
    requires |BytesOf(t)| <= MAX_BYTES
    ensures var r := Decode(Stream(NumbersOf(t, 0), BytesOf(t), DeferredOf(t)), Cursor(0, 0, remaining), depth);
            && r.Some? && r.value.value == t
            && r.value.cursor.index == |NumbersOf(t, 0)| && r.value.cursor.byteIndex == |BytesOf(t)|
            && r.value.cursor.remaining == remaining - UnitsOf(t)
  {
    hide NumbersOf, BytesOf, DeferredOf, UnitsOf, Fits, Shallow, Readable, Decode;
    DecodesTree(Stream(NumbersOf(t, 0), BytesOf(t), DeferredOf(t)), Cursor(0, 0, remaining), t, 0, depth);
  }

  /** Different trees have different streams, whatever follows them. */
  lemma {:induction false} UniquelyDecodable(t: Tree, u: Tree, depth: nat, remaining: nat, numbers: seq<JsNumber>,
                                             bytes: seq<Unit>, more: seq<Deferred>)
    requires Fits(t, remaining) && remaining <= MAX_VALUES && Shallow(t, depth) && Readable(t)
    requires Fits(u, remaining) && Shallow(u, depth) && Readable(u)
    requires |BytesOf(t)| <= MAX_BYTES && |BytesOf(u)| <= MAX_BYTES
    requires NumbersOf(t, 0) <= numbers && NumbersOf(u, 0) <= numbers
    requires BytesOf(t) <= bytes && BytesOf(u) <= bytes && DeferredOf(t) <= more && DeferredOf(u) <= more
    ensures t == u
  {
    hide NumbersOf, BytesOf, DeferredOf, UnitsOf, Fits, Shallow, Readable, Decode;
    DecodesTree(Stream(numbers, bytes, more), Cursor(0, 0, remaining), t, 0, depth);
    DecodesTree(Stream(numbers, bytes, more), Cursor(0, 0, remaining), u, 0, depth);
  }
}
