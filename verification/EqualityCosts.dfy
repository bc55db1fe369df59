/** The work charged for comparing two protobuf messages, with its memo table. */
module EqualityCosts {

  type Address = nat

  /** A message at its address: its encoded size, the number of fields its descriptor declares, and the messages in its
      populated fields, repeated ones in order. */
  datatype Message = Message(address: Address, bytes: nat, declared: nat, nested: seq<Message>)

  datatype EqualityCost = EqualityCost(bytes: nat, fields: nat)

  datatype Status = StatusOk | StatusCost

  const SIZE_MAX: nat := 0xFFFF_FFFF_FFFF_FFFF

  /** `addCost`. */
  function AddCost(a: nat, b: nat): (r: nat)
    requires a <= SIZE_MAX && b <= SIZE_MAX
    ensures r <= SIZE_MAX
  {
    if b > SIZE_MAX - a then SIZE_MAX else a + b
  }

  function Saturated(n: nat): (r: nat)
    ensures r <= SIZE_MAX
  {
    if n > SIZE_MAX then SIZE_MAX else n
  }

  // ----- the reference: an exact count over the whole tree, cut off once at the end -----

  function Fields(m: Message): nat {
    m.declared + 1 + FieldsOf(m.nested)
  }

  function FieldsOf(ms: seq<Message>): nat {
    if ms == [] then 0 else FieldsOf(ms[..|ms| - 1]) + Fields(ms[|ms| - 1])
  }

  function CostOf(m: Message): EqualityCost {
    EqualityCost(m.bytes, Saturated(Fields(m)))
  }

  /** The message and every message inside it, however deep. */
  function All(m: Message): seq<Message> {
    [m] + AllOf(m.nested)
  }

  function AllOf(ms: seq<Message>): seq<Message> {
    if ms == [] then [] else AllOf(ms[..|ms| - 1]) + All(ms[|ms| - 1])
  }

  /** The declared fields of messages, and one for each message. */
  function Declared(ms: seq<Message>): nat {
    if ms == [] then 0 else ms[0].declared + 1 + Declared(ms[1..])
  }

  lemma {:induction false} DeclaredParts(a: seq<Message>, b: seq<Message>)
    ensures Declared(a + b) == Declared(a) + Declared(b)
  {
    if a == [] {
      assert a + b == b;
    } else {
      DeclaredParts(a[1..], b);
      assert (a + b)[1..] == a[1..] + b;
    }
  }

  /** Nothing is counted twice or left out: the count is that of the list of all messages. */
  lemma {:induction false} FieldsOfAll(m: Message)
    ensures Fields(m) == Declared(All(m))
    decreases m, 1
  {
    FieldsOfEach(m.nested);
    DeclaredParts([m], AllOf(m.nested));
    assert [m][1..] == [] && Declared([]) == 0;
    hide Fields, All;
    FieldsUnfold(m);
    AllUnfold(m);
  }

  lemma {:induction false} AllUnfold(m: Message)
    ensures All(m) == [m] + AllOf(m.nested)
  {
  }

  lemma {:induction false} FieldsOfEach(ms: seq<Message>)
    ensures FieldsOf(ms) == Declared(AllOf(ms))
    decreases ms, 0
  {
    if ms != [] {
      FieldsOfEach(ms[..|ms| - 1]);
      FieldsOfAll(ms[|ms| - 1]);
      DeclaredParts(AllOf(ms[..|ms| - 1]), All(ms[|ms| - 1]));
    }
  }

  // ----- memory -----

  /** The message and everything inside it are where they say they are, and have the sizes of a machine. */
  ghost predicate Placed(memory: Address -> Message, m: Message) {
    && memory(m.address) == m && m.bytes <= SIZE_MAX && m.declared < SIZE_MAX
    && forall i :: 0 <= i < |m.nested| ==> Placed(memory, m.nested[i])
  }

  /** The addresses of a message and of everything inside it. */
  function Addresses(m: Message): set<Address> {
    {m.address} + set i, a | 0 <= i < |m.nested| && a in Addresses(m.nested[i]) :: a
  }

  lemma {:induction false} AddressesOf(m: Message)
    ensures m.address in Addresses(m)
    ensures forall i :: 0 <= i < |m.nested| ==> Addresses(m.nested[i]) <= Addresses(m)
  {
    forall i | 0 <= i < |m.nested| ensures Addresses(m.nested[i]) <= Addresses(m) {
    }
  }

  /** Cutting off at every addition is cutting off once. */
  lemma {:induction false} SaturatedSum(a: nat, b: nat)
    ensures AddCost(Saturated(a), Saturated(b)) == Saturated(a + b)
  {
  }

  lemma {:induction false} SaturatedSmall(n: nat)
    requires n <= SIZE_MAX
    ensures Saturated(n) == n
  {
  }

  lemma {:induction false} FieldsUnfold(m: Message)
    ensures Fields(m) == m.declared + 1 + FieldsOf(m.nested)
  {
  }

  class Scope {
    var costs: map<Address, EqualityCost>

    constructor ()
      ensures costs == map[]
    {
      costs := map[];
    }

    /** Every entry is the cost of the message at its address. */
    ghost predicate Valid(memory: Address -> Message)
      reads this
    {
      forall a :: a in costs ==> memory(a).address == a && costs[a] == CostOf(memory(a))
    }

    /** `equalityCost`: the cost of the message, whatever the table held, and entries for no other message. */
    method Cost(memory: Address -> Message, m: Message) returns (cost: EqualityCost)
      requires Valid(memory) && Placed(memory, m)
      modifies this
      ensures cost == CostOf(m)
      ensures Valid(memory) && m.address in costs
      ensures forall a :: a in old(costs) ==> a in costs && costs[a] == old(costs)[a]
      ensures costs.Keys <= old(costs).Keys + Addresses(m)
      decreases m
    {
      hide Addresses, Saturated, AddCost, Fields;
      AddressesOf(m);
      if m.address in costs {
        return costs[m.address];
      }
      var fields := m.declared + 1;
      SaturatedSmall(fields);
      for i := 0 to |m.nested|
        invariant Valid(memory)
        invariant fields == Saturated(m.declared + 1 + FieldsOf(m.nested[..i]))
        invariant forall a :: a in old(costs) ==> a in costs && costs[a] == old(costs)[a]
        invariant costs.Keys <= old(costs).Keys + Addresses(m)
      {
        ghost var sum := m.declared + 1 + FieldsOf(m.nested[..i]);
        var nested := Cost(memory, m.nested[i]);
        SaturatedSum(sum, Fields(m.nested[i]));
        fields := AddCost(fields, nested.fields);
        assert m.nested[..i + 1][..i] == m.nested[..i];
      }
      assert m.nested[..|m.nested|] == m.nested;
      FieldsUnfold(m);
      cost := EqualityCost(m.bytes, fields);
      costs := costs[m.address := cost];
    }

    /** `cel_proto_equal`: the charge depends on the two messages alone, not on what was compared before. */
    method Equal(memory: Address -> Message, a: Message, b: Message, equals: (Message, Message) -> bool, remaining: nat)
      returns (status: Status, left: nat, equal: bool)
      requires Valid(memory) && Placed(memory, a) && Placed(memory, b)
      modifies this
      ensures Valid(memory)
      ensures status == StatusOk <==> remaining > 0 && Charge(a, b) <= remaining
      ensures left == if status == StatusOk then remaining - Charge(a, b) else remaining
      ensures status == StatusOk ==> equal == equals(a, b)
    {
      if remaining == 0 {
        return StatusCost, remaining, false;
      }
      var aCost := Cost(memory, a);
      var bCost := Cost(memory, b);
      var aTotal, bTotal := AddCost(aCost.bytes, aCost.fields), AddCost(bCost.bytes, bCost.fields);
      var cost := if aTotal < bTotal then bTotal else aTotal;
      if cost > remaining {
        return StatusCost, remaining, false;
      }
      return StatusOk, remaining - cost, equals(a, b);
    }
  }

  /** The exact size of the larger message: its bytes, its declared fields and one unit for every message in it. */
  function Charge(a: Message, b: Message): nat {
    var x, y := a.bytes + Fields(a), b.bytes + Fields(b);
    Saturated(if x < y then y else x)
  }

  /** A comparison is affordable exactly when each message on its own is, and it costs the same either way round. */
  lemma {:induction false} ChargeIsSymmetric(a: Message, b: Message, remaining: nat)
    requires remaining < 0xFFFF_FFFF_FFFF_FFFF
    ensures Charge(a, b) == Charge(b, a) <= 0xFFFF_FFFF_FFFF_FFFF
    ensures Charge(a, b) <= remaining <==> a.bytes + Fields(a) <= remaining && b.bytes + Fields(b) <= remaining
  {
  }

  /** A message costs at least what every message inside it costs. */
  lemma {:induction false} NestedCostsLess(m: Message, i: nat)
    requires i < |m.nested|
    ensures Fields(m.nested[i]) < Fields(m)
  {
    PartOfSum(m.nested, i);
  }

  lemma {:induction false} PartOfSum(ms: seq<Message>, i: nat)
    requires i < |ms|
    ensures Fields(ms[i]) <= FieldsOf(ms)
  {
    if i < |ms| - 1 {
      PartOfSum(ms[..|ms| - 1], i);
    }
  }
}
