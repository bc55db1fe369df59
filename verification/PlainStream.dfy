/** The flattened form of plain data: a stream of tags and numbers beside a buffer of string bytes, and its decoder. */
module PlainStream {
  import opened Values
  import opened Encodings

  /** The numbers of JavaScript. */
  datatype JsNumber = Finite(r: real) | NegativeZero | NotANumber | Infinite(negative: bool)

  type Ref = nat

  /** Values that are converted one by one: what was deferred, the containers around it, outermost first, and the number
      of entries captured from a `Map`. */
  datatype Deferred = Deferred(value: Ref, ancestors: seq<Ref>, captured: Option<nat>)

  datatype Tree =
    | NullTree
    | BoolTree(b: bool)
    | NumberTree(d: JsNumber)
    | StringTree(bytes: seq<Unit>)
    | BigIntTree(n: int)
    | ListTree(items: seq<Tree>)
    | MapTree(entries: seq<Entry>)
    | DeferredTree(deferred: Deferred)

  datatype Entry = Entry(key: seq<Unit>, value: Tree)

  const PLAIN_NULL: nat := 0
  const PLAIN_FALSE: nat := 1
  const PLAIN_TRUE: nat := 2
  const PLAIN_NUMBER: nat := 3
  const PLAIN_STRING: nat := 4
  const PLAIN_LIST: nat := 5
  const PLAIN_MAP: nat := 6
  const PLAIN_DEFERRED: nat := 7
  const PLAIN_BIGINT: nat := 8

  const MAX_DEPTH: nat := 128
  const MAX_BYTES: nat := 1_048_576
  const MAX_VALUES: nat := 100_000

  function Int(n: int): JsNumber {
    Finite(n as real)
  }

  // ----- what the encoder writes -----

  /** `BigInt.asIntN(32, n >> 32)` and `BigInt.asUintN(32, n)`. */
  function High(n: int): int {
    n / 0x1_0000_0000
  }

  function Low(n: int): int {
    n % 0x1_0000_0000
  }

  /** The stream of a tree, when so many values were deferred before it. A deferred value takes three slots. */
  function NumbersOf(t: Tree, deferred: nat): seq<JsNumber>
    decreases t, 0
  {
    match t
    case NullTree => [Int(PLAIN_NULL)]
    case BoolTree(b) => [Int(if b then PLAIN_TRUE else PLAIN_FALSE)]
    case NumberTree(d) => [Int(PLAIN_NUMBER), d]
    case StringTree(bytes) => [Int(PLAIN_STRING), Int(|bytes|)]
    case BigIntTree(n) => [Int(PLAIN_BIGINT), Int(High(n)), Int(Low(n))]
    case ListTree(items) => [Int(PLAIN_LIST), Int(|items|)] + NumbersOfItems(items, deferred)
    case MapTree(entries) => [Int(PLAIN_MAP), Int(|entries|)] + NumbersOfEntries(entries, deferred)
    case DeferredTree(_) => [Int(PLAIN_DEFERRED), Int(3 * deferred)]
  }

  /** The tags on the wire. */
  lemma {:induction false} Tags(k: nat, n: int, d: JsNumber, deferred: Deferred)
    ensures NumbersOf(NullTree, k) == [Int(0)] && NumbersOf(BoolTree(false), k) == [Int(1)]
    ensures NumbersOf(BoolTree(true), k) == [Int(2)] && NumbersOf(NumberTree(d), k) == [Int(3), d]
    ensures NumbersOf(StringTree([]), k) == [Int(4), Int(0)] && NumbersOf(ListTree([]), k) == [Int(5), Int(0)]
    ensures NumbersOf(MapTree([]), k) == [Int(6), Int(0)] && NumbersOf(DeferredTree(deferred), k)[0] == Int(7)
    ensures NumbersOf(BigIntTree(n), k)[0] == Int(8)
  {
  }

  function NumbersOfItems(items: seq<Tree>, deferred: nat): seq<JsNumber>
    decreases items, |items|
  {
    if items == [] then []
    else
      var rest := items[..|items| - 1];
      NumbersOfItems(rest, deferred) + NumbersOf(items[|items| - 1], deferred + |DeferredOfItems(rest)|)
  }

  function NumbersOfEntries(entries: seq<Entry>, deferred: nat): seq<JsNumber>
    decreases entries, |entries|
  {
    if entries == [] then []
    else
      var rest, last := entries[..|entries| - 1], entries[|entries| - 1];
      NumbersOfEntries(rest, deferred) + [Int(PLAIN_STRING), Int(|last.key|)]
      + NumbersOf(last.value, deferred + |DeferredOfEntries(rest)|)
  }

  function BytesOf(t: Tree): seq<Unit>
    decreases t, 0
  {
    match t
    case StringTree(bytes) => bytes
    case ListTree(items) => BytesOfItems(items)
    case MapTree(entries) => BytesOfEntries(entries)
    case _ => []
  }

  function BytesOfItems(items: seq<Tree>): seq<Unit>
    decreases items, |items|
  {
    if items == [] then [] else BytesOfItems(items[..|items| - 1]) + BytesOf(items[|items| - 1])
  }

  function BytesOfEntries(entries: seq<Entry>): seq<Unit>
    decreases entries, |entries|
  {
    if entries == [] then []
    else
      var last := entries[|entries| - 1];
      BytesOfEntries(entries[..|entries| - 1]) + last.key + BytesOf(last.value)
  }

  function DeferredOf(t: Tree): seq<Deferred>
    decreases t, 0
  {
    match t
    case ListTree(items) => DeferredOfItems(items)
    case MapTree(entries) => DeferredOfEntries(entries)
    case DeferredTree(d) => [d]
    case _ => []
  }

  function DeferredOfItems(items: seq<Tree>): seq<Deferred>
    decreases items, |items|
  {
    if items == [] then [] else DeferredOfItems(items[..|items| - 1]) + DeferredOf(items[|items| - 1])
  }

  function DeferredOfEntries(entries: seq<Entry>): seq<Deferred>
    decreases entries, |entries|
  {
    if entries == [] then []
    else DeferredOfEntries(entries[..|entries| - 1]) + DeferredOf(entries[|entries| - 1].value)
  }

  /** What a tree draws from the value budget: one for every value, one for every key of a nested map, and one for every
      captured entry. */
  function UnitsOf(t: Tree): nat
    decreases t, 0
  {
    match t
    case ListTree(items) => 1 + UnitsOfItems(items)
    case MapTree(entries) => 1 + |entries| + UnitsOfEntries(entries)
    case DeferredTree(d) => 1 + if d.captured.Some? then d.captured.value else 0
    case _ => 1
  }

  function UnitsOfItems(items: seq<Tree>): (n: nat)
    ensures n >= |items|
    decreases items, |items|
  {
    if items == [] then 0 else UnitsOfItems(items[..|items| - 1]) + UnitsOf(items[|items| - 1])
  }

  function UnitsOfEntries(entries: seq<Entry>): (n: nat)
    ensures n >= |entries|
    decreases entries, |entries|
  {
    if entries == [] then 0 else UnitsOfEntries(entries[..|entries| - 1]) + UnitsOf(entries[|entries| - 1].value)
  }

  /** The value budget suffices at every step of the way: every value finds one unit, the keys of a nested map are drawn
      before its values, and the entries captured from a `Map` must fit twice in what is left. */
  predicate Fits(t: Tree, remaining: int)
    decreases t, 0
  {
    remaining >= 1 &&
    match t
    case ListTree(items) => FitsItems(items, remaining - 1)
    case MapTree(entries) => FitsEntries(entries, remaining - 1 - |entries|)
    case DeferredTree(d) => d.captured.Some? ==> 2 * d.captured.value <= remaining - 1
    case _ => true
  }

  predicate FitsItems(items: seq<Tree>, remaining: int)
    decreases items, |items|
  {
    if items == [] then remaining >= 0
    else
      var rest := items[..|items| - 1];
      FitsItems(rest, remaining) && Fits(items[|items| - 1], remaining - UnitsOfItems(rest))
  }

  predicate FitsEntries(entries: seq<Entry>, remaining: int)
    decreases entries, |entries|
  {
    if entries == [] then remaining >= 0
    else
      var rest := entries[..|entries| - 1];
      FitsEntries(rest, remaining) && Fits(entries[|entries| - 1].value, remaining - UnitsOfEntries(rest))
  }

  lemma {:induction false} FitsBounds(t: Tree, remaining: int)
    requires Fits(t, remaining)
    ensures UnitsOf(t) <= remaining
    decreases t, 0
  {
    match t
    case ListTree(items) => FitsItemsBounds(items, remaining - 1);
    case MapTree(entries) => FitsEntriesBounds(entries, remaining - 1 - |entries|);
    case _ =>
  }

  lemma {:induction false} FitsItemsBounds(items: seq<Tree>, remaining: int)
    requires FitsItems(items, remaining)
    ensures UnitsOfItems(items) <= remaining
    decreases items, |items|
  {
    if items != [] {
      FitsBounds(items[|items| - 1], remaining - UnitsOfItems(items[..|items| - 1]));
    }
  }

  lemma {:induction false} FitsEntriesBounds(entries: seq<Entry>, remaining: int)
    requires FitsEntries(entries, remaining)
    ensures UnitsOfEntries(entries) <= remaining
    decreases entries, |entries|
  {
    if entries != [] {
      FitsBounds(entries[|entries| - 1].value, remaining - UnitsOfEntries(entries[..|entries| - 1]));
    }
  }

  /** What the stream can hold: integers of 64 bits, and containers no deeper than the limit. */
  predicate Shallow(t: Tree, depth: nat)
    decreases t, 0
  {
    depth < MAX_DEPTH &&
    match t
    case BigIntTree(n) => IsInt64(n)
    case ListTree(items) => forall i :: 0 <= i < |items| ==> Shallow(items[i], depth + 1)
    case MapTree(entries) => forall i :: 0 <= i < |entries| ==> Shallow(entries[i].value, depth + 1)
    case _ => true
  }

  // ----- the decoder -----

  datatype Stream = Stream(numbers: seq<JsNumber>, bytes: seq<Unit>, deferred: seq<Deferred>)

  datatype Cursor = Cursor(index: nat, byteIndex: nat, remaining: nat)

  datatype Read<+T> = Read(value: T, cursor: Cursor)

  function IntegerOf(d: JsNumber): Option<int> {
    match d
    case Finite(r) => if r == r.Floor as real then Some(r.Floor) else None
    case NegativeZero => Some(0)
    case _ => None
  }

  function Next(s: Stream, c: Cursor): Option<Read<JsNumber>> {
    if c.index >= |s.numbers| then None else Some(Read(s.numbers[c.index], c.(index := c.index + 1)))
  }

  /** An integer from 0 to the limit. */
  function NextCount(s: Stream, c: Cursor, limit: nat): (r: Option<Read<nat>>) {
    var d :- Next(s, c);
    var n :- IntegerOf(d.value);
    if 0 <= n <= limit then Some(Read(n as nat, d.cursor)) else None
  }

  /** Integers outside the safe range must be given as bigints. */
  predicate IsReadable(d: JsNumber) {
    d.Finite? && d.r == d.r.Floor as real ==> -0x1F_FFFF_FFFF_FFFF <= d.r.Floor <= 0x1F_FFFF_FFFF_FFFF
  }

  function DecodeString(s: Stream, c: Cursor): Option<Read<seq<Unit>>> {
    var n :- NextCount(s, c, 16 * MAX_VALUES);
    var end := c.byteIndex + n.value;
    if end > |s.bytes| || end > MAX_BYTES then None
    else Some(Read(s.bytes[c.byteIndex..end], n.cursor.(byteIndex := end)))
  }

  function DecodeBigInt(s: Stream, c: Cursor): Option<Read<int>> {
    var high :- Next(s, c);
    var h :- IntegerOf(high.value);
    var low :- Next(s, high.cursor);
    var l :- IntegerOf(low.value);
    if -0x8000_0000 <= h <= 0x7FFF_FFFF && 0 <= l <= 0xFFFF_FFFF then
      Some(Read(h * 0x1_0000_0000 + l, low.cursor))
    else None
  }

  /** `plainValue`. The conversion of a deferred value is left to its place in the list; a captured map draws its
      entries from the budget first. */
  function Decode(s: Stream, c: Cursor, depth: nat): (r: Option<Read<Tree>>)
    decreases MAX_DEPTH - depth, 0, 0
  {
    if depth >= MAX_DEPTH || c.remaining == 0 then None else
    var tag :- NextCount(s, c.(remaining := c.remaining - 1), PLAIN_BIGINT);
    var after := tag.cursor;
    if tag.value == PLAIN_NULL then Some(Read(NullTree, after))
    else if tag.value == PLAIN_FALSE then Some(Read(BoolTree(false), after))
    else if tag.value == PLAIN_TRUE then Some(Read(BoolTree(true), after))
    else if tag.value == PLAIN_NUMBER then
      var d :- Next(s, after);
      if IsReadable(d.value) then Some(Read(NumberTree(d.value), d.cursor)) else None
    else if tag.value == PLAIN_STRING then
      var text :- DecodeString(s, after);
      Some(Read(StringTree(text.value), text.cursor))
    else if tag.value == PLAIN_BIGINT then
      var n :- DecodeBigInt(s, after);
      Some(Read(BigIntTree(n.value), n.cursor))
    else if tag.value == PLAIN_LIST then
      var n :- NextCount(s, after, 16 * MAX_VALUES);
      if n.value > n.cursor.remaining then None else
      var items :- DecodeItems(s, n.cursor, n.value, depth + 1);
      Some(Read(ListTree(items.value), items.cursor))
    else if tag.value == PLAIN_MAP then
      var n :- NextCount(s, after, 16 * MAX_VALUES);
      if n.value > n.cursor.remaining / 2 then None else
      var entries :- DecodeEntries(s, n.cursor.(remaining := n.cursor.remaining - n.value), n.value, depth + 1);
      Some(Read(MapTree(entries.value), entries.cursor))
    else
      var n :- NextCount(s, after, 16 * MAX_VALUES);
      if n.value % 3 != 0 || n.value / 3 >= |s.deferred| then None else
      var d := s.deferred[n.value / 3];
      if d.captured.Some? && d.captured.value > n.cursor.remaining / 2 then None else
      Some(Read(DeferredTree(d), if d.captured.Some? then n.cursor.(remaining := n.cursor.remaining - d.captured.value)
                                 else n.cursor))
  }

  function DecodeItems(s: Stream, c: Cursor, n: nat, depth: nat): (r: Option<Read<seq<Tree>>>)
    decreases MAX_DEPTH - depth, 1, n
  {
    if n == 0 then Some(Read([], c))
    else
      var items :- DecodeItems(s, c, n - 1, depth);
      var last :- Decode(s, items.cursor, depth);
      Some(Read(items.value + [last.value], last.cursor))
  }

  function DecodeEntries(s: Stream, c: Cursor, n: nat, depth: nat): (r: Option<Read<seq<Entry>>>)
    decreases MAX_DEPTH - depth, 1, n
  {
    if n == 0 then Some(Read([], c))
    else
      var entries :- DecodeEntries(s, c, n - 1, depth);
      var tag :- NextCount(s, entries.cursor, PLAIN_BIGINT);
      if tag.value != PLAIN_STRING then None else
      var key :- DecodeString(s, tag.cursor);
      var last :- Decode(s, key.cursor, depth);
      Some(Read(entries.value + [Entry(key.value, last.value)], last.cursor))
  }
}
