/** Values of CEL as `google.protobuf.Value` messages, and back. */
module ProtoJson {
  import Base64

  type Byte = Base64.Byte

  /** A double: an exact value, or one of those that no integer converts to. */
  datatype Double = Exact(r: real) | Special(code: nat)

  /** Values at the boundary to protobuf. Timestamps, durations, enumerations and messages take other ways and count as
      `Other`. */
  datatype Value =
    | Null
    | Bool(b: bool)
    | Int(n: int)
    | Uint(n: int)
    | Number(d: Double)
    | String(text: seq<Byte>)
    | Bytes(bytes: seq<Byte>)
    | List(items: seq<Value>)
    | Map(entries: seq<Entry>)
    | Other

  datatype Entry = Entry(key: Value, value: Value)

  /** A `google.protobuf.Value` message, by the member of `kind` that is set; none may be. */
  datatype Json =
    | Unset
    | NullValue
    | BoolValue(b: bool)
    | NumberValue(d: Double)
    | StringValue(text: seq<Byte>)
    | ListValue(values: seq<Json>)
    | StructValue(fields: seq<Field>)

  datatype Field = Field(key: seq<Byte>, value: Json)

  const MAX_SAFE: int := 0x1F_FFFF_FFFF_FFFF

  // ----- decimal texts -----

  /** `std::to_string`. */
  function Decimal(n: int): seq<Byte> {
    if n < 0 then [0x2D] + Digits(-n) else Digits(n)
  }

  function Digits(n: nat): (s: seq<Byte>)
    ensures s != [] && s[0] != 0x2D
  {
    if n < 10 then [0x30 + n] else Digits(n / 10) + [0x30 + n % 10]
  }

  function ReadDigits(s: seq<Byte>): int {
    if s == [] then 0 else ReadDigits(s[..|s| - 1]) * 10 + (s[|s| - 1] as int - 0x30)
  }

  function ReadDecimal(s: seq<Byte>): int {
    if s != [] && s[0] == 0x2D then -ReadDigits(s[1..]) else ReadDigits(s)
  }

  lemma {:induction false} DigitsRead(n: nat)
    ensures ReadDigits(Digits(n)) == n
  {
    if n < 10 {
      assert [0x30 + n as Byte][..0] == [];
    } else {
      var s := Digits(n);
      assert s[..|s| - 1] == Digits(n / 10);
      DigitsRead(n / 10);
    }
  }

  lemma {:induction false} DecimalRead(n: int)
    ensures ReadDecimal(Decimal(n)) == n
  {
    if n < 0 {
      DigitsRead(-n);
      assert Decimal(n)[1..] == Digits(-n);
    } else {
      DigitsRead(n);
    }
  }

  /** The text is the shortest one: digits only, and no zero in front of others. */
  lemma {:induction false} DigitsAreShort(n: nat)
    ensures forall i :: 0 <= i < |Digits(n)| ==> 0x30 <= Digits(n)[i] <= 0x39
    ensures Digits(n)[0] == 0x30 <==> n == 0
    ensures n == 0 ==> |Digits(n)| == 1
  {
    if n >= 10 {
      DigitsAreShort(n / 10);
    }
  }

  // ----- the normal form -----

  /** What a value becomes: small integers are doubles, large ones decimal texts, bytes are Base64, and nulls stay. */
  function Normal(v: Value): Value {
    match v
    case Int(n) => if -MAX_SAFE <= n <= MAX_SAFE then Number(Exact(n as real)) else String(Decimal(n))
    case Uint(n) => if n <= MAX_SAFE then Number(Exact(n as real)) else String(Decimal(n))
    case Bytes(bytes) => String(Base64.Encode(false, bytes))
    case List(items) => List(seq(|items|, i requires 0 <= i < |items| => Normal(items[i])))
    case Map(entries) =>
      Map(seq(|entries|, i requires 0 <= i < |entries| => Entry(entries[i].key, Normal(entries[i].value))))
    case _ => v
  }

  /** Integers become doubles exactly where doubles hold all integers. */
  lemma {:induction false} NormalIntegers(n: int)
    ensures Normal(Int(n)) == Number(Exact(n as real)) <==> -9_007_199_254_740_992 < n < 9_007_199_254_740_992
    ensures Normal(Int(n)).Number? || (Normal(Int(n)).String? && ReadDecimal(Normal(Int(n)).text) == n)
    ensures n >= 0 ==> Normal(Uint(n)) == Normal(Int(n))
  {
    DecimalRead(n);
  }

  lemma {:induction false} NormalTwice(v: Value)
    ensures Normal(Normal(v)) == Normal(v)
    decreases v
  {
    match v
    case List(items) =>
      forall i | 0 <= i < |items| ensures Normal(Normal(items[i])) == Normal(items[i]) {
        NormalTwice(items[i]);
      }
      var once := Normal(v).items;
      assert Normal(Normal(v)).items == once;
    case Map(entries) =>
      forall i | 0 <= i < |entries| ensures Normal(Normal(entries[i].value)) == Normal(entries[i].value) {
        NormalTwice(entries[i].value);
      }
      var once := Normal(v).entries;
      assert Normal(Normal(v)).entries == once;
    case _ =>
  }

  // ----- messages, and what they cost -----

  /** Map keys are texts, and nothing inside takes another way. */
  predicate Boxable(v: Value) {
    match v
    case Other => false
    case List(items) => forall i :: 0 <= i < |items| ==> Boxable(items[i])
    case Map(entries) => forall i :: 0 <= i < |entries| ==> entries[i].key.String? && Boxable(entries[i].value)
    case _ => true
  }

  /** The message of a value. */
  function Boxed(v: Value): Json
    requires Boxable(v)
  {
    match v
    case Null => NullValue
    case Bool(b) => BoolValue(b)
    case Int(n) => if -MAX_SAFE <= n <= MAX_SAFE then NumberValue(Exact(n as real)) else StringValue(Decimal(n))
    case Uint(n) => if n <= MAX_SAFE then NumberValue(Exact(n as real)) else StringValue(Decimal(n))
    case Number(d) => NumberValue(d)
    case String(text) => StringValue(text)
    case Bytes(bytes) => StringValue(Base64.Encode(false, bytes))
    case List(items) => ListValue(seq(|items|, i requires 0 <= i < |items| => Boxed(items[i])))
    case Map(entries) =>
      StructValue(seq(|entries|, i requires 0 <= i < |entries| => Field(entries[i].key.text, Boxed(entries[i].value))))
  }

  function Adapted(j: Json): Value {
    match j
    case Unset => Null
    case NullValue => Null
    case BoolValue(b) => Bool(b)
    case NumberValue(d) => Number(d)
    case StringValue(text) => String(text)
    case ListValue(values) => List(seq(|values|, i requires 0 <= i < |values| => Adapted(values[i])))
    case StructValue(fields) =>
      Map(seq(|fields|, i requires 0 <= i < |fields| => Entry(String(fields[i].key), Adapted(fields[i].value))))
  }

  /** Reading a boxed value back gives its normal form. */
  lemma {:induction false} AdaptedBoxed(v: Value)
    requires Boxable(v)
    ensures Adapted(Boxed(v)) == Normal(v)
    decreases v
  {
    match v
    case List(items) =>
      forall i | 0 <= i < |items| ensures Adapted(Boxed(items[i])) == Normal(items[i]) {
        AdaptedBoxed(items[i]);
      }
      assert Adapted(Boxed(v)).items == Normal(v).items;
    case Map(entries) =>
      forall i | 0 <= i < |entries| ensures Adapted(Boxed(entries[i].value)) == Normal(entries[i].value) {
        AdaptedBoxed(entries[i].value);
      }
      assert Adapted(Boxed(v)).entries == Normal(v).entries;
    case _ =>
  }

  /** Calls of the converter that draw a unit while boxing: one for the message and one for its field, and for every
      item of a list one more, and for every entry of a map two more. */
  function BoxUnits(j: Json): nat {
    match j
    case Unset | NullValue => 1
    case ListValue(values) => 4 + BoxUnitsOfItems(values)
    case StructValue(fields) => 4 + BoxUnitsOfFields(fields)
    case _ => 2
  }

  function BoxUnitsOfItems(values: seq<Json>): (n: nat)
    ensures n >= |values|
    decreases values, |values|
  {
    if values == [] then 0 else BoxUnitsOfItems(values[..|values| - 1]) + 1 + BoxUnits(values[|values| - 1])
  }

  function BoxUnitsOfFields(fields: seq<Field>): (n: nat)
    ensures n >= 2 * |fields|
    decreases fields, |fields|
  {
    if fields == [] then 0 else BoxUnitsOfFields(fields[..|fields| - 1]) + 2 + BoxUnits(fields[|fields| - 1].value)
  }

  /** The same for reading back, where messages themselves are free. */
  function AdaptUnits(j: Json): nat {
    match j
    case Unset | NullValue => 0
    case ListValue(values) => 2 + AdaptUnitsOfItems(values)
    case StructValue(fields) => 2 + AdaptUnitsOfFields(fields)
    case _ => 1
  }

  function AdaptUnitsOfItems(values: seq<Json>): (n: nat)
    ensures n >= |values|
    decreases values, |values|
  {
    if values == [] then 0 else AdaptUnitsOfItems(values[..|values| - 1]) + 1 + AdaptUnits(values[|values| - 1])
  }

  function AdaptUnitsOfFields(fields: seq<Field>): (n: nat)
    ensures n >= 2 * |fields|
    decreases fields, |fields|
  {
    if fields == [] then 0 else AdaptUnitsOfFields(fields[..|fields| - 1]) + 2 + AdaptUnits(fields[|fields| - 1].value)
  }

  /** The bytes of all texts, keys included. */
  function TextBytes(j: Json): nat {
    match j
    case StringValue(text) => |text|
    case ListValue(values) => TextBytesOfItems(values)
    case StructValue(fields) => TextBytesOfFields(fields)
    case _ => 0
  }

  function TextBytesOfItems(values: seq<Json>): nat
    decreases values, |values|
  {
    if values == [] then 0 else TextBytesOfItems(values[..|values| - 1]) + TextBytes(values[|values| - 1])
  }

  function TextBytesOfFields(fields: seq<Field>): nat
    decreases fields, |fields|
  {
    if fields == [] then 0
    else
      var last := fields[|fields| - 1];
      TextBytesOfFields(fields[..|fields| - 1]) + |last.key| + TextBytes(last.value)
  }

  datatype Limits = Limits(depth: int, bytes: nat)

  /** No call is too deep and no text too long: a container takes five levels. */
  predicate InLimits(j: Json, depth: nat, limits: Limits) {
    match j
    case Unset | NullValue => depth <= limits.depth
    case StringValue(text) => depth + 1 <= limits.depth && |text| <= limits.bytes
    case ListValue(values) =>
      depth + 3 <= limits.depth && forall i :: 0 <= i < |values| ==> InLimits(values[i], depth + 5, limits)
    case StructValue(fields) =>
      depth + 3 <= limits.depth &&
      forall i :: 0 <= i < |fields| ==> |fields[i].key| <= limits.bytes && InLimits(fields[i].value, depth + 5, limits)
    case _ => depth + 1 <= limits.depth
  }

  /** Reading back draws less than boxing did. */
  lemma {:induction false} AdaptIsCheaper(j: Json)
    ensures AdaptUnits(j) < BoxUnits(j)
    decreases j, 0
  {
    match j
    case ListValue(values) => AdaptItemsCheaper(values);
    case StructValue(fields) => AdaptFieldsCheaper(fields);
    case _ =>
  }

  lemma {:induction false} AdaptItemsCheaper(values: seq<Json>)
    ensures AdaptUnitsOfItems(values) <= BoxUnitsOfItems(values)
    decreases values, |values|
  {
    if values != [] {
      AdaptItemsCheaper(values[..|values| - 1]);
      AdaptIsCheaper(values[|values| - 1]);
    }
  }

  lemma {:induction false} AdaptFieldsCheaper(fields: seq<Field>)
    ensures AdaptUnitsOfFields(fields) <= BoxUnitsOfFields(fields)
    decreases fields, |fields|
  {
    if fields != [] {
      AdaptFieldsCheaper(fields[..|fields| - 1]);
      AdaptIsCheaper(fields[|fields| - 1].value);
    }
  }

  // ----- the converter -----

  datatype Status = StatusOk | StatusLimit | StatusType

  class Scope {
    const limits: Limits
    var remaining: nat
    var remainingBytes: nat

    constructor (limits: Limits, remaining: nat, remainingBytes: nat)
      ensures this.limits == limits && this.remaining == remaining && this.remainingBytes == remainingBytes
    {
      this.limits, this.remaining, this.remainingBytes := limits, remaining, remainingBytes;
    }

    /** How `box`, `assign` and `read` begin. */
    method Enter(depth: nat) returns (entered: bool)
      modifies this`remaining
      ensures entered <==> depth <= limits.depth && old(remaining) > 0
      ensures remaining == if entered then old(remaining) - 1 else old(remaining)
    {
      if depth > limits.depth || remaining == 0 {
        return false;
      }
      remaining := remaining - 1;
      return true;
    }

    /** How texts are charged, written or read. */
    method ChargeText(size: nat) returns (paid: bool)
      modifies this`remainingBytes
      ensures paid <==> size <= limits.bytes && size <= old(remainingBytes)
      ensures remainingBytes == if paid then old(remainingBytes) - size else old(remainingBytes)
    {
      if size > limits.bytes || size > remainingBytes {
        return false;
      }
      remainingBytes := remainingBytes - size;
      return true;
    }

    /** Within the limits, and both budgets suffice. */
    ghost predicate Affords(j: Json, depth: nat, units: nat)
      reads this
    {
      InLimits(j, depth, limits) && units <= remaining && TextBytes(j) <= remainingBytes
    }

    twostate predicate Drew(units: nat, bytes: nat)
      reads this
    {
      remaining == old(remaining) - units && remainingBytes == old(remainingBytes) - bytes
    }

    /** `box` for the type `google.protobuf.Value`: exactly the boxable values that the limits and budgets allow become
        their messages, for exactly the announced work. */
    method BoxValue(v: Value, depth: nat) returns (status: Status, j: Json)
      modifies this
      ensures status == StatusOk <==> Boxable(v) && old(Affords(Boxed(v), depth, BoxUnits(Boxed(v))))
      ensures status == StatusOk ==> j == Boxed(v) && Drew(BoxUnits(j), TextBytes(j))
      decreases v, 2
    {
      j := Unset;
      var entered := Enter(depth);
      if !entered {
        return StatusLimit, j;
      }
      match v
      case Null => return StatusOk, NullValue;
      case Other => return StatusType, j;
      case List(items) => status, j := BoxList(v, items, depth);
      case Map(entries) => status, j := BoxMap(v, entries, depth);
      case Bool(_) | Int(_) | Uint(_) | Number(_) | String(_) | Bytes(_) =>
        status, j := MoveScalar(Boxed(v), depth + 1);
    }

    /** `assign` and `read` of a boolean, number or string field. */
    method MoveScalar(field: Json, depth: nat) returns (status: Status, j: Json)
      requires field.BoolValue? || field.NumberValue? || field.StringValue?
      modifies this
      ensures status == StatusOk <==>
                && depth <= limits.depth && 1 <= old(remaining)
                && TextBytes(field) <= old(remainingBytes) && (field.StringValue? ==> |field.text| <= limits.bytes)
      ensures status == StatusOk ==> j == field && Drew(1, TextBytes(field))
    {
      j := Unset;
      var entered := Enter(depth);
      if !entered {
        return StatusLimit, j;
      }
      if field.StringValue? {
        var paid := ChargeText(|field.text|);
        if !paid {
          return StatusLimit, j;
        }
      }
      return StatusOk, field;
    }

    /** The way from a list to its items: the field of the value, the list message, and its repeated field. */
    method EnterContainer(depth: nat) returns (entered: bool)
      modifies this`remaining
      ensures entered <==> depth + 3 <= limits.depth && 3 <= old(remaining)
      ensures entered ==> remaining == old(remaining) - 3
    {
      entered := Enter(depth + 1);
      if entered {
        entered := Enter(depth + 2);
      }
      if entered {
        entered := Enter(depth + 3);
      }
    }

    method BoxList(ghost v: Value, items: seq<Value>, depth: nat) returns (status: Status, j: Json)
      requires v == List(items)
      modifies this
      ensures status == StatusOk <==> Boxable(v) && old(Affords(Boxed(v), depth, BoxUnits(Boxed(v)) - 1))
      ensures status == StatusOk ==> j == Boxed(v) && Drew(BoxUnits(j) - 1, TextBytes(j))
      decreases v, 1
    {
      hide Boxable, Boxed, BoxUnits, TextBytes, BoxUnitsOfItems, TextBytesOfItems, InLimits;
      ListFacts(items, depth, limits);
      j := Unset;
      var entered := EnterContainer(depth);
      if !entered {
        return StatusLimit, j;
      }
      if |items| > remaining {
        return StatusLimit, j;
      }
      var values: seq<Json> := [];
      for i := 0 to |items|
        invariant |values| == i
        invariant forall k :: 0 <= k < i ==>
                    Boxable(items[k]) && values[k] == Boxed(items[k]) && InLimits(values[k], depth + 5, limits)
        invariant remaining + 3 + BoxUnitsOfItems(values) == old(remaining)
        invariant remainingBytes + TextBytesOfItems(values) == old(remainingBytes)
      {
        if Boxable(v) {
          NextCosts(Boxed(v).values, i, depth + 5, limits);
          assert Boxed(v).values[..i] == values;
        }
        entered := Enter(depth + 4);
        if !entered {
          return StatusLimit, j;
        }
        var next;
        status, next := BoxValue(items[i], depth + 5);
        if status != StatusOk {
          return;
        }
        MoreItems(values, next);
        values := values + [next];
      }
      j := ListValue(values);
      assert Boxable(v) && values == Boxed(v).values;
      return StatusOk, j;
    }

    /** The key of an entry, and the field of its value. */
    method EnterEntry(key: seq<Byte>, depth: nat) returns (entered: bool)
      modifies this
      ensures entered <==>
                depth <= limits.depth && 2 <= old(remaining) && |key| <= limits.bytes && |key| <= old(remainingBytes)
      ensures entered ==> Drew(2, |key|)
    {
      var status, field := MoveScalar(StringValue(key), depth);
      entered := status == StatusOk;
      if entered {
        entered := Enter(depth);
      }
    }

    method BoxMap(ghost v: Value, entries: seq<Entry>, depth: nat) returns (status: Status, j: Json)
      requires v == Map(entries)
      modifies this
      ensures status == StatusOk <==> Boxable(v) && old(Affords(Boxed(v), depth, BoxUnits(Boxed(v)) - 1))
      ensures status == StatusOk ==> j == Boxed(v) && Drew(BoxUnits(j) - 1, TextBytes(j))
      decreases v, 1
    {
      hide Boxable, Boxed, BoxUnits, TextBytes, BoxUnitsOfFields, TextBytesOfFields, InLimits;
      MapFacts(entries, depth, limits);
      j := Unset;
      var entered := EnterContainer(depth);
      if !entered {
        return StatusLimit, j;
      }
      if |entries| > remaining / 2 {
        return StatusType, j;
      }
      var fields: seq<Field> := [];
      for i := 0 to |entries|
        invariant |fields| == i
        invariant forall k :: 0 <= k < i ==>
                    && entries[k].key.String? && Boxable(entries[k].value)
                    && fields[k] == Field(entries[k].key.text, Boxed(entries[k].value))
                    && |fields[k].key| <= limits.bytes && InLimits(fields[k].value, depth + 5, limits)
        invariant remaining + 3 + BoxUnitsOfFields(fields) == old(remaining)
        invariant remainingBytes + TextBytesOfFields(fields) == old(remainingBytes)
      {
        if Boxable(v) {
          NextFieldCosts(Boxed(v).fields, i, depth + 5, limits);
          assert Boxed(v).fields[..i] == fields;
        }
        if !entries[i].key.String? {
          return StatusType, j;
        }
        entered := EnterEntry(entries[i].key.text, depth + 4);
        if !entered {
          return StatusLimit, j;
        }
        var next;
        status, next := BoxValue(entries[i].value, depth + 5);
        if status != StatusOk {
          return;
        }
        MoreFields(fields, Field(entries[i].key.text, next));
        fields := fields + [Field(entries[i].key.text, next)];
      }
      j := StructValue(fields);
      assert Boxable(v) && fields == Boxed(v).fields;
      return StatusOk, j;
    }

    /** `adapt` and `read` of a value message: exactly within the limits and budgets it becomes its value, for exactly
        the announced work. */
    method AdaptValue(j: Json, depth: nat) returns (status: Status, v: Value)
      modifies this
      ensures status == StatusOk <==> old(Affords(j, depth, AdaptUnits(j)))
      ensures status == StatusOk ==> v == Adapted(j) && Drew(AdaptUnits(j), TextBytes(j))
      decreases j, 2
    {
      v := Null;
      if depth > limits.depth {
        return StatusLimit, v;
      }
      match j
      case Unset | NullValue => return StatusOk, Null;
      case ListValue(values) => status, v := AdaptList(j, values, depth);
      case StructValue(fields) => status, v := AdaptStruct(j, fields, depth);
      case BoolValue(_) | NumberValue(_) | StringValue(_) =>
        var field;
        status, field := MoveScalar(j, depth + 1);
        v := Adapted(field);
    }

    /** The way from a value message to the items of its list: the field, the list message, and its repeated field. */
    method EnterItems(depth: nat) returns (entered: bool)
      modifies this`remaining
      ensures entered <==> depth + 3 <= limits.depth && 2 <= old(remaining)
      ensures entered ==> remaining == old(remaining) - 2
    {
      entered := Enter(depth + 1);
      if entered && depth + 2 > limits.depth {
        entered := false;
      }
      if entered {
        entered := Enter(depth + 3);
      }
    }

    method AdaptList(ghost j: Json, values: seq<Json>, depth: nat) returns (status: Status, v: Value)
      requires j == ListValue(values) && depth <= limits.depth
      modifies this
      ensures status == StatusOk <==> old(Affords(j, depth, AdaptUnits(j)))
      ensures status == StatusOk ==> v == Adapted(j) && Drew(AdaptUnits(j), TextBytes(j))
      decreases j, 1
    {
      hide Adapted, AdaptUnits, TextBytes, AdaptUnitsOfItems, TextBytesOfItems, InLimits, BoxUnits, BoxUnitsOfItems;
      JsonListFacts(values, depth, limits);
      v := Null;
      var entered := EnterItems(depth);
      if !entered {
        return StatusLimit, v;
      }
      if |values| > remaining {
        return StatusLimit, v;
      }
      var items: seq<Value> := [];
      for i := 0 to |values|
        invariant |items| == i
        invariant forall k :: 0 <= k < i ==> items[k] == Adapted(values[k]) && InLimits(values[k], depth + 5, limits)
        invariant remaining + 2 + AdaptUnitsOfItems(values[..i]) == old(remaining)
        invariant remainingBytes + TextBytesOfItems(values[..i]) == old(remainingBytes)
      {
        NextCosts(values, i, depth + 5, limits);
        MoreItems(values[..i], values[i]);
        assert values[..i] + [values[i]] == values[..i + 1];
        entered := Enter(depth + 4);
        if !entered {
          return StatusLimit, v;
        }
        var next;
        status, next := AdaptValue(values[i], depth + 5);
        if status != StatusOk {
          return;
        }
        items := items + [next];
      }
      assert values[..|values|] == values;
      v := List(items);
      assert items == Adapted(j).items;
      return StatusOk, v;
    }

    method AdaptStruct(ghost j: Json, fields: seq<Field>, depth: nat) returns (status: Status, v: Value)
      requires j == StructValue(fields) && depth <= limits.depth
      modifies this
      ensures status == StatusOk <==> old(Affords(j, depth, AdaptUnits(j)))
      ensures status == StatusOk ==> v == Adapted(j) && Drew(AdaptUnits(j), TextBytes(j))
      decreases j, 1
    {
      hide Adapted, AdaptUnits, TextBytes, AdaptUnitsOfFields, TextBytesOfFields, InLimits, BoxUnits, BoxUnitsOfFields;
      JsonStructFacts(fields, depth, limits);
      v := Null;
      var entered := EnterItems(depth);
      if !entered {
        return StatusLimit, v;
      }
      if |fields| > remaining / 2 {
        return StatusLimit, v;
      }
      var entries: seq<Entry> := [];
      for i := 0 to |fields|
        invariant |entries| == i
        invariant forall k :: 0 <= k < i ==>
                    && entries[k] == Entry(String(fields[k].key), Adapted(fields[k].value))
                    && |fields[k].key| <= limits.bytes && InLimits(fields[k].value, depth + 5, limits)
        invariant remaining + 2 + AdaptUnitsOfFields(fields[..i]) == old(remaining)
        invariant remainingBytes + TextBytesOfFields(fields[..i]) == old(remainingBytes)
      {
        NextFieldCosts(fields, i, depth + 5, limits);
        MoreFields(fields[..i], fields[i]);
        assert fields[..i] + [fields[i]] == fields[..i + 1];
        entered := EnterEntry(fields[i].key, depth + 4);
        if !entered {
          return StatusLimit, v;
        }
        var next;
        status, next := AdaptValue(fields[i].value, depth + 5);
        if status != StatusOk {
          return;
        }
        entries := entries + [Entry(String(fields[i].key), next)];
      }
      assert fields[..|fields|] == fields;
      v := Map(entries);
      assert entries == Adapted(j).entries;
      return StatusOk, v;
    }

    /** A value assigned to a field of type `google.protobuf.Value` and read back: given the budget for both ways, every
        boxable value comes back in its normal form. */
    method ThroughValue(v: Value) returns (status: Status, w: Value)
      modifies this
      ensures status == StatusOk <==>
                && Boxable(v) && InLimits(Boxed(v), 0, limits)
                && BoxUnits(Boxed(v)) + AdaptUnits(Boxed(v)) <= old(remaining)
                && 2 * TextBytes(Boxed(v)) <= old(remainingBytes)
      ensures status == StatusOk ==> w == Normal(v)
    {
      w := Null;
      var j;
      status, j := BoxValue(v, 0);
      if status == StatusOk {
        AdaptedBoxed(v);
        status, w := AdaptValue(j, 0);
      }
    }
  }

  // ----- one container at a time -----

  lemma {:induction false} ListFacts(items: seq<Value>, depth: nat, limits: Limits)
    ensures Boxable(List(items)) <==> forall i :: 0 <= i < |items| ==> Boxable(items[i])
    ensures BoxUnitsOfItems([]) == 0 == TextBytesOfItems([])
    ensures Boxable(List(items)) ==>
              var j := Boxed(List(items));
              && j.ListValue? && |j.values| == |items|
              && (forall i :: 0 <= i < |items| ==> j.values[i] == Boxed(items[i]))
              && BoxUnits(j) == 4 + BoxUnitsOfItems(j.values) && TextBytes(j) == TextBytesOfItems(j.values)
              && (InLimits(j, depth, limits) <==>
                    && depth + 3 <= limits.depth
                    && forall i :: 0 <= i < |items| ==> InLimits(j.values[i], depth + 5, limits))
  {
  }

  lemma {:induction false} MapFacts(entries: seq<Entry>, depth: nat, limits: Limits)
    ensures Boxable(Map(entries)) <==>
              forall i :: 0 <= i < |entries| ==> entries[i].key.String? && Boxable(entries[i].value)
    ensures BoxUnitsOfFields([]) == 0 == TextBytesOfFields([])
    ensures Boxable(Map(entries)) ==>
              var j := Boxed(Map(entries));
              && j.StructValue? && |j.fields| == |entries|
              && (forall i :: 0 <= i < |entries| ==> j.fields[i] == Field(entries[i].key.text, Boxed(entries[i].value)))
              && BoxUnits(j) == 4 + BoxUnitsOfFields(j.fields) && TextBytes(j) == TextBytesOfFields(j.fields)
              && (InLimits(j, depth, limits) <==>
                    depth + 3 <= limits.depth &&
                    forall i :: 0 <= i < |entries| ==>
                      |j.fields[i].key| <= limits.bytes && InLimits(j.fields[i].value, depth + 5, limits))
  {
  }

  lemma {:induction false} JsonListFacts(values: seq<Json>, depth: nat, limits: Limits)
    ensures var j := ListValue(values);
            && Adapted(j).List? && |Adapted(j).items| == |values|
            && (forall i :: 0 <= i < |values| ==> Adapted(j).items[i] == Adapted(values[i]))
            && AdaptUnits(j) == 2 + AdaptUnitsOfItems(values) && TextBytes(j) == TextBytesOfItems(values)
            && (InLimits(j, depth, limits) <==>
                  depth + 3 <= limits.depth && forall i :: 0 <= i < |values| ==> InLimits(values[i], depth + 5, limits))
    ensures AdaptUnitsOfItems(values[..0]) == 0 == TextBytesOfItems(values[..0])
  {
  }

  lemma {:induction false} JsonStructFacts(fields: seq<Field>, depth: nat, limits: Limits)
    ensures var j := StructValue(fields);
            && Adapted(j).Map? && |Adapted(j).entries| == |fields|
            && (forall i :: 0 <= i < |fields| ==>
                  Adapted(j).entries[i] == Entry(String(fields[i].key), Adapted(fields[i].value)))
            && AdaptUnits(j) == 2 + AdaptUnitsOfFields(fields) && TextBytes(j) == TextBytesOfFields(fields)
            && (InLimits(j, depth, limits) <==>
                  depth + 3 <= limits.depth &&
                  forall i :: 0 <= i < |fields| ==>
                    |fields[i].key| <= limits.bytes && InLimits(fields[i].value, depth + 5, limits))
    ensures AdaptUnitsOfFields(fields[..0]) == 0 == TextBytesOfFields(fields[..0])
  {
  }

  lemma {:induction false} MoreItems(values: seq<Json>, next: Json)
    ensures BoxUnitsOfItems(values + [next]) == BoxUnitsOfItems(values) + 1 + BoxUnits(next)
    ensures AdaptUnitsOfItems(values + [next]) == AdaptUnitsOfItems(values) + 1 + AdaptUnits(next)
    ensures TextBytesOfItems(values + [next]) == TextBytesOfItems(values) + TextBytes(next)
  {
    var all := values + [next];
    assert all[..|all| - 1] == values;
  }

  lemma {:induction false} MoreFields(fields: seq<Field>, next: Field)
    ensures BoxUnitsOfFields(fields + [next]) == BoxUnitsOfFields(fields) + 2 + BoxUnits(next.value)
    ensures AdaptUnitsOfFields(fields + [next]) == AdaptUnitsOfFields(fields) + 2 + AdaptUnits(next.value)
    ensures TextBytesOfFields(fields + [next]) == TextBytesOfFields(fields) + |next.key| + TextBytes(next.value)
  {
    var all := fields + [next];
    assert all[..|all| - 1] == fields;
  }


  lemma {:induction false} PrefixCosts(values: seq<Json>, n: nat)
    requires n <= |values|
    ensures BoxUnitsOfItems(values[..n]) <= BoxUnitsOfItems(values)
    ensures AdaptUnitsOfItems(values[..n]) <= AdaptUnitsOfItems(values)
    ensures TextBytesOfItems(values[..n]) <= TextBytesOfItems(values)
    decreases |values|
  {
    if n < |values| {
      PrefixCosts(values[..|values| - 1], n);
      assert values[..|values| - 1][..n] == values[..n];
    } else {
      assert values[..n] == values;
    }
  }

  lemma {:induction false} PrefixFieldCosts(fields: seq<Field>, n: nat)
    requires n <= |fields|
    ensures BoxUnitsOfFields(fields[..n]) <= BoxUnitsOfFields(fields)
    ensures AdaptUnitsOfFields(fields[..n]) <= AdaptUnitsOfFields(fields)
    ensures TextBytesOfFields(fields[..n]) <= TextBytesOfFields(fields)
    decreases |fields|
  {
    if n < |fields| {
      PrefixFieldCosts(fields[..|fields| - 1], n);
      assert fields[..|fields| - 1][..n] == fields[..n];
    } else {
      assert fields[..n] == fields;
    }
  }

  lemma {:induction false} ShallowEnough(j: Json, depth: nat, limits: Limits)
    requires InLimits(j, depth, limits)
    ensures depth <= limits.depth
  {
  }

  /** What is needed for a list is needed for its next item. */
  lemma {:induction false} NextCosts(values: seq<Json>, i: nat, depth: nat, limits: Limits)
    requires i < |values|
    ensures InLimits(values[i], depth, limits) ==> depth <= limits.depth
    ensures BoxUnitsOfItems(values[..i]) + 1 + BoxUnits(values[i]) <= BoxUnitsOfItems(values)
    ensures AdaptUnitsOfItems(values[..i]) + 1 + AdaptUnits(values[i]) <= AdaptUnitsOfItems(values)
    ensures TextBytesOfItems(values[..i]) + TextBytes(values[i]) <= TextBytesOfItems(values)
  {
    if InLimits(values[i], depth, limits) {
      ShallowEnough(values[i], depth, limits);
    }
    PrefixCosts(values, i + 1);
    var part := values[..i + 1];
    assert part[..|part| - 1] == values[..i];
  }

  lemma {:induction false} NextFieldCosts(fields: seq<Field>, i: nat, depth: nat, limits: Limits)
    requires i < |fields|
    ensures InLimits(fields[i].value, depth, limits) ==> depth <= limits.depth
    ensures BoxUnitsOfFields(fields[..i]) + 2 + BoxUnits(fields[i].value) <= BoxUnitsOfFields(fields)
    ensures AdaptUnitsOfFields(fields[..i]) + 2 + AdaptUnits(fields[i].value) <= AdaptUnitsOfFields(fields)
    ensures TextBytesOfFields(fields[..i]) + |fields[i].key| + TextBytes(fields[i].value) <= TextBytesOfFields(fields)
  {
    if InLimits(fields[i].value, depth, limits) {
      ShallowEnough(fields[i].value, depth, limits);
    }
    PrefixFieldCosts(fields, i + 1);
    var part := fields[..i + 1];
    assert part[..|part| - 1] == fields[..i];
  }
}
