/** The encoder as the object it is: two growing buffers, the list of deferred values, the path of active containers and
    the value budget. */
module PlainEncoder {
  import opened Values
  import opened Encodings
  import opened PlainStream
  import opened PlainValues

  /** `Thrown` stands for the errors of the encoder: a limit, a cycle, or an unsupported value. */
  datatype Outcome = Done | Thrown

  class PlainEncoder {
    var numbers: array<JsNumber>
    var length: nat
    var bytes: array<Unit>
    var byteLength: nat
    var deferred: seq<Deferred>
    /** Entries at `depth` and above are stale. */
    var ancestors: seq<Ref>
    var depth: nat
    var remaining: nat

    constructor ()
      ensures Valid() && fresh(numbers) && fresh(bytes) && deferred == []
    {
      numbers := new JsNumber[256](_ => NegativeZero);
      bytes := new Unit[4096](_ => 0);
      length, byteLength, depth, remaining := 0, 0, 0, MAX_VALUES;
      deferred, ancestors := [], [];
    }

    ghost predicate Valid()
      reads this
    {
      && length <= numbers.Length && 2 <= numbers.Length
      && byteLength <= bytes.Length && 1 <= bytes.Length && byteLength <= MAX_BYTES
      && depth <= |ancestors| && remaining <= MAX_VALUES
    }

    ghost function Numbers(): seq<JsNumber>
      requires Valid()
      reads this, numbers
    {
      numbers[..length]
    }

    ghost function Bytes(): seq<Unit>
      requires Valid()
      reads this, bytes
    {
      bytes[..byteLength]
    }

    /** Everything written so far. */
    ghost function Current(): Parts
      requires Valid()
      reads this, numbers, bytes
    {
      Parts(Numbers(), Bytes(), deferred)
    }

    /** The containers being encoded, outermost first. */
    ghost function Path(): seq<Ref>
      requires Valid()
      reads this
    {
      ancestors[..depth]
    }

    /** Buffers are replaced by new ones only. */
    twostate predicate Grown()
      reads this
    {
      (numbers == old(numbers) || fresh(numbers)) && (bytes == old(bytes) || fresh(bytes))
    }

    method Push(value: JsNumber)
      requires Valid()
      modifies this`numbers, this`length, numbers
      ensures Valid() && Grown() && Numbers() == old(Numbers()) + [value]
    {
      if length == numbers.Length {
        var grown := new JsNumber[2 * numbers.Length](i requires 0 <= i < 2 * numbers.Length reads this, numbers =>
          if i < numbers.Length then numbers[i] else NegativeZero);
        numbers := grown;
      }
      numbers[length] := value;
      length := length + 1;
    }

    /** The text behind the bytes that count: one pass over its ASCII beginning, the rest through the text encoder.
        None when the text is not well formed. */
    method WriteText(text: seq<Unit>) returns (written: Option<nat>)
      requires Valid() && byteLength + |text| * 3 <= bytes.Length
      modifies bytes
      ensures Bytes() == old(Bytes())
      ensures written.Some? <==> WellFormedUtf16(text)
      ensures written.Some? ==>
                && written.value == |Utf8(text)| && byteLength + written.value <= bytes.Length
                && bytes[byteLength..byteLength + written.value] == Utf8(text)
    {
      hide Utf8, WellFormedUtf16;
      var start := byteLength;
      var index := 0;
      while index < |text| && text[index] < 0x80
        invariant index <= |text|
        invariant forall j :: 0 <= j < index ==> text[j] < 0x80
        invariant bytes[..start] == old(Bytes()) && bytes[start..start + index] == text[..index]
      {
        bytes[start + index] := text[index];
        index := index + 1;
      }
      AsciiBeginning(text, index);
      var rest := text[index..];
      NoText();
      if !WellFormedUtf16(rest) {
        return None;
      }
      if index < |text| {
        EncodeInto(start + index, rest);
      }
      Utf8Bounds(rest);
      ghost var end := start + index + |Utf8(rest)|;
      assert bytes[start..end] == bytes[start..start + index] + bytes[start + index..end];
      return Some(index + |Utf8(rest)|);
    }

    /** `encodeInto`. */
    method EncodeInto(start: nat, text: seq<Unit>)
      requires WellFormedUtf16(text) && start + |text| * 3 <= bytes.Length
      modifies bytes
      ensures start + |Utf8(text)| <= bytes.Length
      ensures bytes[..start] == old(bytes[..start]) && bytes[start..start + |Utf8(text)|] == Utf8(text)
    {
      var encoded := Utf8(text);
      Utf8Bounds(text);
      forall j | 0 <= j < |encoded| {
        bytes[start + j] := encoded[j];
      }
    }

    /** `string`. Room for three bytes a unit is made first. */
    method WriteString(text: seq<Unit>) returns (outcome: Outcome)
      requires Valid()
      modifies this`numbers, this`length, this`bytes, this`byteLength, numbers, bytes
      ensures Valid() && Grown()
      ensures outcome == Done <==> WellFormedUtf16(text) && old(byteLength) + |Utf8(text)| <= MAX_BYTES
      ensures outcome == Done ==> Current() == Join(old(Current()), TextParts(Utf8(text)))
    {
      Utf8Bounds(text);
      hide Utf8, WellFormedUtf16;
      var room := byteLength + |text| * 3;
      if room > bytes.Length {
        if byteLength + |text| > MAX_BYTES {
          return Thrown;
        }
        GrowBytes(room);
      }
      var written := WriteText(text);
      if written.None? || written.value > MAX_BYTES - byteLength {
        return Thrown;
      }
      WritePair(Int(PLAIN_STRING), Int(written.value));
      byteLength := byteLength + written.value;
      return Done;
    }

    method GrowBytes(room: nat)
      requires Valid()
      modifies this`bytes
      ensures Valid() && fresh(bytes) && bytes.Length >= room && Bytes() == old(Bytes())
    {
      var size := bytes.Length * 2;
      while size < room
        invariant size >= bytes.Length
        decreases room - size
      {
        size := size * 2;
      }
      var grown := new Unit[size](i requires 0 <= i < size reads this, bytes =>
        if i < bytes.Length then bytes[i] else 0);
      bytes := grown;
    }

    method WritePair(tag: JsNumber, value: JsNumber)
      requires Valid()
      modifies this`numbers, this`length, numbers
      ensures Valid() && (numbers == old(numbers) || fresh(numbers)) && Numbers() == old(Numbers()) + [tag, value]
    {
      if length + 2 > numbers.Length {
        var grown := new JsNumber[2 * numbers.Length](i requires 0 <= i < 2 * numbers.Length reads this, numbers =>
          if i < numbers.Length then numbers[i] else NegativeZero);
        numbers := grown;
      }
      numbers[length] := tag;
      numbers[length + 1] := value;
      length := length + 2;
    }

    method PushHead(tag: nat, n: nat)
      requires Valid()
      modifies this`numbers, this`length, numbers
      ensures Valid() && Grown() && Current() == Join(old(Current()), HeadParts(tag, n))
    {
      Push(Int(tag));
      Push(Int(n));
    }

    /** `defer`: the value, the path and the snapshot take three places of the list. */
    method Defer(ref: Ref, captured: Option<nat>)
      requires Valid()
      modifies this`numbers, this`length, this`deferred, numbers
      ensures Valid() && Grown()
      ensures Current() == Join(old(Current()),
                                PartsOf(DeferredTree(Deferred(ref, old(Path()), captured)), |old(deferred)|))
    {
      Push(Int(PLAIN_DEFERRED));
      Push(Int(3 * |deferred|));
      deferred := deferred + [Deferred(ref, ancestors[..depth], captured)];
    }

    /** `enter`. */
    method Enter(ref: Ref) returns (outcome: Outcome)
      requires Valid()
      modifies this`ancestors, this`depth
      ensures Valid() && (outcome == Done <==> ref !in old(Path()))
      ensures outcome == Done ==> depth == old(depth) + 1 && Path() == old(Path()) + [ref]
    {
      for index := 0 to depth
        invariant ref !in ancestors[..index]
      {
        if ancestors[index] == ref {
          return Thrown;
        }
      }
      ancestors := if depth < |ancestors| then ancestors[depth := ref] else ancestors + [ref];
      depth := depth + 1;
      return Done;
    }

    /** The parts were appended, the units were drawn, and the path is as before. */
    twostate predicate Wrote(parts: Parts, units: nat, remaining0: nat)
      requires Valid() && old(Valid())
      reads this, numbers, bytes
    {
      && Current() == Join(old(Current()), parts) && remaining == remaining0 - units
      && Path() == old(Path()) && depth == old(depth)
    }

    /** `value`: the tree of the value is appended exactly when it exists and both budgets suffice for it, on graphs of
        any shape. */
    method WriteValue(g: Graph, v: JsValue, level: nat) returns (outcome: Outcome)
      requires Valid() && depth == level + 1 && level <= MAX_DEPTH
      modifies this, numbers, bytes
      ensures Valid() && Grown()
      ensures outcome == Done <==> Succeeds(Unfold(g, v, old(Path())), old(remaining), old(byteLength))
      ensures outcome == Done ==>
                var t := Unfold(g, v, old(Path())).value;
                Wrote(PartsOf(t, |old(deferred)|), UnitsOf(t), old(remaining))
      decreases MAX_DEPTH - level, 3, 0
    {
      if level >= MAX_DEPTH {
        return Thrown;
      }
      if remaining == 0 {
        return Thrown;
      }
      remaining := remaining - 1;
      match v
      case JsString(units) => outcome := WriteString(units);
      case JsFunction(ref) => Defer(ref, None); return Done;
      case JsObject(ref) => outcome := WriteObject(g, ref, level);
      case JsUndefined | JsSymbol | JsProxy => return Thrown;
      case JsNull | JsBoolean(_) | JsDouble(_) | JsBigInt(_) => outcome := WriteScalar(v);
    }

    method WriteScalar(v: JsValue) returns (outcome: Outcome)
      requires Valid() && (v.JsNull? || v.JsBoolean? || v.JsDouble? || v.JsBigInt?)
      modifies this`numbers, this`length, numbers
      ensures Valid() && Grown() && (outcome == Done <==> Scalar(v).Some?)
      ensures outcome == Done ==> Current() == Join(old(Current()), PartsOf(Scalar(v).value, |old(deferred)|))
    {
      hide Int, High, Low;
      match v {
        case JsNull => Push(Int(PLAIN_NULL));
        case JsBoolean(b) => Push(Int(if b then PLAIN_TRUE else PLAIN_FALSE));
        case JsDouble(d) =>
          Push(Int(PLAIN_NUMBER));
          Push(d);
        case JsBigInt(n) =>
          if !IsInt64(n) {
            return Thrown;
          }
          Push(Int(PLAIN_BIGINT));
          Push(Int(High(n)));
          Push(Int(Low(n)));
      }
      return Done;
    }

    method WriteObject(g: Graph, ref: Ref, level: nat) returns (outcome: Outcome)
      requires Valid() && depth == level + 1 && level < MAX_DEPTH
      modifies this, numbers, bytes
      ensures Valid() && Grown()
      ensures outcome == Done <==> Succeeds(Unfold(g, JsObject(ref), old(Path())), old(remaining) + 1, old(byteLength))
      ensures outcome == Done ==>
                var t := Unfold(g, JsObject(ref), old(Path())).value;
                Wrote(PartsOf(t, |old(deferred)|), UnitsOf(t), old(remaining) + 1)
      decreases MAX_DEPTH - level, 2, 0
    {
      match g(ref)
      case MapNode(size, proxyKeys) =>
        if proxyKeys || size > remaining / 2 {
          return Thrown;
        }
        remaining := remaining - size;
        Defer(ref, Some(size));
        return Done;
      case ArrayNode(items) => outcome := WriteArray(g, ref, items, level);
      case PlainNode(properties) => outcome := WritePlain(g, ref, properties, level);
      case OtherNode => Defer(ref, None); return Done;
    }

    method WriteArray(g: Graph, ref: Ref, items: seq<JsValue>, level: nat) returns (outcome: Outcome)
      requires Valid() && depth == level + 1 && level < MAX_DEPTH && g(ref) == ArrayNode(items)
      modifies this, numbers, bytes
      ensures Valid() && Grown()
      ensures outcome == Done <==> Succeeds(Unfold(g, JsObject(ref), old(Path())), old(remaining) + 1, old(byteLength))
      ensures outcome == Done ==>
                var t := Unfold(g, JsObject(ref), old(Path())).value;
                Wrote(PartsOf(t, |old(deferred)|), UnitsOf(t), old(remaining) + 1)
      decreases MAX_DEPTH - level, 1, 0
    {
      hide Unfold, UnfoldItems, FitsItems, PartsOf, PartsOfItems, UnitsOf, UnitsOfItems, HeadParts, Join;
      ArraySucceeds(g, ref, items, Path(), remaining, byteLength, |deferred|);
      ghost var ts := UnfoldItems(g, items, Path() + [ref]);
      outcome := Enter(ref);
      if outcome == Thrown {
        return;
      }
      if |items| > remaining {
        return Thrown;
      }
      PushHead(PLAIN_LIST, |items|);
      outcome := WriteItems(g, items, level + 1);
      if outcome == Done {
        JoinJoin(old(Current()), HeadParts(PLAIN_LIST, |items|), PartsOfItems(ts.value, |old(deferred)|));
        depth := depth - 1;
      }
    }

    method WriteItems(g: Graph, items: seq<JsValue>, level: nat) returns (outcome: Outcome)
      requires Valid() && depth == level + 1 && level <= MAX_DEPTH
      modifies this, numbers, bytes
      ensures Valid() && Grown()
      ensures outcome == Done <==> ItemsSucceed(UnfoldItems(g, items, old(Path())), old(remaining), old(byteLength))
      ensures outcome == Done ==>
                var ts := UnfoldItems(g, items, old(Path())).value;
                Wrote(PartsOfItems(ts, |old(deferred)|), UnitsOfItems(ts), old(remaining))
      decreases MAX_DEPTH - level, 4, 0
    {
      hide Unfold, UnfoldItems, Fits, PartsOf, PartsOfItems, UnitsOf, UnitsOfItems, Join, FitsItems, BytesOfItems;
      NothingYet(g, Path(), remaining, byteLength, |deferred|);
      ghost var path := Path();
      JoinNothing(Current());
      assert items[..0] == [];
      for index := 0 to |items|
        invariant Valid() && Grown()
        invariant ItemsSucceed(UnfoldItems(g, items[..index], path), old(remaining), old(byteLength))
        invariant var ts := UnfoldItems(g, items[..index], path).value;
                  Wrote(PartsOfItems(ts, |old(deferred)|), UnitsOfItems(ts), old(remaining))
      {
        NextItem(g, items, index, path, old(remaining), old(byteLength), |old(deferred)|);
        ghost var done := PartsOfItems(UnfoldItems(g, items[..index], path).value, |old(deferred)|);
        ghost var k := |deferred|;
        outcome := WriteValue(g, items[index], level);
        if outcome == Thrown {
          return;
        }
        JoinJoin(old(Current()), done, PartsOf(Unfold(g, items[index], path).value, k));
      }
      assert items[..|items|] == items;
      return Done;
    }

    method WritePlain(g: Graph, ref: Ref, properties: seq<Property>, level: nat) returns (outcome: Outcome)
      requires Valid() && depth == level + 1 && level < MAX_DEPTH && g(ref) == PlainNode(properties)
      modifies this, numbers, bytes
      ensures Valid() && Grown()
      ensures outcome == Done <==> Succeeds(Unfold(g, JsObject(ref), old(Path())), old(remaining) + 1, old(byteLength))
      ensures outcome == Done ==>
                var t := Unfold(g, JsObject(ref), old(Path())).value;
                Wrote(PartsOf(t, |old(deferred)|), UnitsOf(t), old(remaining) + 1)
      decreases MAX_DEPTH - level, 1, 0
    {
      hide Unfold, UnfoldEntries, FitsEntries, PartsOf, PartsOfEntries, UnitsOf, UnitsOfEntries, HeadParts, Join;
      PlainSucceeds(g, ref, properties, Path(), remaining, byteLength, |deferred|);
      ghost var es := UnfoldEntries(g, properties, Path() + [ref]);
      outcome := Enter(ref);
      if outcome == Thrown {
        return;
      }
      if |properties| > remaining / 2 {
        return Thrown;
      }
      remaining := remaining - |properties|;
      PushHead(PLAIN_MAP, |properties|);
      outcome := WriteEntries(g, properties, level + 1);
      if outcome == Done {
        JoinJoin(old(Current()), HeadParts(PLAIN_MAP, |properties|), PartsOfEntries(es.value, |old(deferred)|));
        depth := depth - 1;
      }
    }

    /** `entries`. */
    method WriteEntries(g: Graph, properties: seq<Property>, level: nat) returns (outcome: Outcome)
      requires Valid() && depth == level + 1 && level <= MAX_DEPTH
      modifies this, numbers, bytes
      ensures Valid() && Grown()
      ensures outcome == Done <==>
                EntriesSucceed(UnfoldEntries(g, properties, old(Path())), old(remaining), old(byteLength))
      ensures outcome == Done ==>
                var es := UnfoldEntries(g, properties, old(Path())).value;
                Wrote(PartsOfEntries(es, |old(deferred)|), UnitsOfEntries(es), old(remaining))
      decreases MAX_DEPTH - level, 4, 0
    {
      hide Unfold, UnfoldEntries, Fits, PartsOf, PartsOfEntries, UnitsOf, UnitsOfEntries, Join, FitsEntries;
      hide BytesOfEntries, Utf8, WellFormedUtf16, TextParts;
      NothingYet(g, Path(), remaining, byteLength, |deferred|);
      ghost var path := Path();
      JoinNothing(Current());
      assert properties[..0] == [];
      for index := 0 to |properties|
        invariant Valid() && Grown()
        invariant EntriesSucceed(UnfoldEntries(g, properties[..index], path), old(remaining), old(byteLength))
        invariant var es := UnfoldEntries(g, properties[..index], path).value;
                  Wrote(PartsOfEntries(es, |old(deferred)|), UnitsOfEntries(es), old(remaining))
      {
        NextEntry(g, properties, index, path, old(remaining), old(byteLength), |old(deferred)|);
        ghost var done := PartsOfEntries(UnfoldEntries(g, properties[..index], path).value, |old(deferred)|);
        ghost var k := |deferred|;
        var property := properties[index];
        if !property.key.StringKey? {
          return Thrown;
        }
        outcome := WriteString(property.key.units);
        if outcome == Thrown {
          return;
        }
        JoinJoin(old(Current()), done, TextParts(Utf8(property.key.units)));
        outcome := WriteValue(g, property.value, level);
        if outcome == Thrown {
          return;
        }
        JoinJoin(old(Current()), Join(done, TextParts(Utf8(property.key.units))),
                 PartsOf(Unfold(g, property.value, path).value, k));
      }
      assert properties[..|properties|] == properties;
      return Done;
    }

    /** `bindings`: the encoder is reused from call to call, and starts over. The keys of the bindings themselves are
        not drawn from the budget. */
    method WriteBindings(g: Graph, root: Ref) returns (outcome: Outcome)
      requires Valid() && deferred == [] && g(root).PlainNode?
      modifies this, numbers, bytes
      ensures Valid() && Grown()
      ensures outcome == Done <==>
                var es := UnfoldEntries(g, g(root).properties, [root]);
                es.Some? && FitsEntries(es.value, 100_000) && |BytesOfEntries(es.value)| <= 1_048_576
      ensures outcome == Done ==>
                var es := UnfoldEntries(g, g(root).properties, [root]).value;
                && Current() == Join(HeadParts(PLAIN_MAP, |es|), PartsOfEntries(es, 0))
                && remaining == 100_000 - UnitsOfEntries(es) && depth == 0
    {
      hide UnfoldEntries, FitsEntries, PartsOfEntries, UnitsOfEntries, Join, HeadParts;
      var properties := g(root).properties;
      length, byteLength, remaining := 0, 0, MAX_VALUES;
      ancestors := if ancestors == [] then [root] else ancestors[0 := root];
      depth := 1;
      assert Path() == [root];
      assert Current() == NOTHING;
      PushHead(PLAIN_MAP, |properties|);
      assert Current() == HeadParts(PLAIN_MAP, |properties|) by { NothingJoin(HeadParts(PLAIN_MAP, |properties|)); }
      outcome := WriteEntries(g, properties, 0);
      if outcome == Done {
        depth := 0;
      }
    }
  }

  lemma {:induction false} NothingJoin(a: Parts)
    ensures Join(NOTHING, a) == a
  {
  }

  /** The trees of the values that are written without further ado. */
  function Scalar(v: JsValue): Option<Tree>
    requires v.JsNull? || v.JsBoolean? || v.JsDouble? || v.JsBigInt?
  {
    match v
    case JsNull => Some(NullTree)
    case JsBoolean(b) => Some(BoolTree(b))
    case JsDouble(d) => Some(NumberTree(d))
    case JsBigInt(n) => if IsInt64(n) then Some(BigIntTree(n)) else None
  }

  lemma {:induction false} JoinNothing(a: Parts)
    ensures Join(a, NOTHING) == a
  {
  }

  lemma {:induction false} NothingYet(g: Graph, path: seq<Ref>, remaining: nat, byteLength: nat, deferred: nat)
    requires byteLength <= MAX_BYTES
    ensures UnfoldItems(g, [], path) == Some([]) && ItemsSucceed(UnfoldItems(g, [], path), remaining, byteLength)
    ensures UnfoldEntries(g, [], path) == Some([]) && EntriesSucceed(UnfoldEntries(g, [], path), remaining, byteLength)
    ensures PartsOfItems([], deferred) == NOTHING == PartsOfEntries([], deferred)
    ensures UnitsOfItems([]) == 0 == UnitsOfEntries([])
  {
  }

  // ----- UTF-8 of UTF-16 strings -----

  /** Two or three bytes a unit at most, and one at least. */
  lemma {:induction false} Utf8Bounds(units: seq<Unit>)
    ensures WellFormedUtf16(units) ==> |units| <= |Utf8(units)| <= 3 * |units|
    decreases |units|
  {
    if units != [] && WellFormedUtf16(units) {
      var t := ReadUtf16(units);
      var n := if IsHigh(units[0]) then 2 else 1;
      Utf8Bounds(units[n..]);
      assert t[1..] == ReadUtf16(units[n..]);
    }
  }

  lemma {:induction false} NoText()
    ensures WellFormedUtf16([]) && Utf8([]) == []
  {
  }

  /** An ASCII beginning is its own encoding. */
  lemma {:induction false} AsciiBeginning(units: seq<Unit>, n: nat)
    requires n <= |units| && forall j :: 0 <= j < n ==> units[j] < 0x80
    ensures WellFormedUtf16(units) <==> WellFormedUtf16(units[n..])
    ensures WellFormedUtf16(units) ==> Utf8(units) == units[..n] + Utf8(units[n..])
    decreases n
  {
    if n == 0 {
      assert units[0..] == units;
    } else {
      AsciiBeginning(units[1..], n - 1);
      assert units[1..][n - 1..] == units[n..] && units[..n] == [units[0]] + units[1..][..n - 1];
      if WellFormedUtf16(units) {
        var t := ReadUtf16(units);
        assert t[1..] == ReadUtf16(units[1..]) && UTF_8.write(t[0]) == [units[0]];
      }
    }
  }
}
