/** The reference: conversion of the bindings, then CEL evaluation of a plan, as the engine's tree evaluator performs
    it, without work limits. */
module Engine {
  import opened Values
  import opened Plans
  import opened Encodings

  datatype EvalError =
    | NoMatchingOverload
    | NoSuchKey
    | UndeclaredReference
    | IndexOutOfBounds
    | Overflow
    | DivisionByZero
    | InvalidArgument
    | RegexLimitExceeded
    | CostLimitExceeded

  datatype Result<+T> = Ok(value: T) | Err(error: EvalError) {
    predicate IsFailure() { Err? }

    function PropagateFailure<U>(): Result<U>
      requires Err?
    {
      Err(error)
    }

    function Extract(): T
      requires Ok?
    {
      value
    }
  }

  /** What the evaluator takes from outside: RE2 on the program's literal patterns, the qualified names of the built-in
      types (`net.IP`, `net.CIDR` and those of the well-known protobuf descriptors), whatever the operators mean on
      values outside the plain-data shape, which of those values convert, and whether bindings stay within the limits on
      depth, number of values and bytes. */
  datatype Host = Host(
    matches: (Text, Text) -> Result<bool>,
    builtin: Text -> bool,
    foreign: (Plan, seq<Value>) -> Result<Value>,
    converts: Text -> bool,
    affords: Bindings -> bool)

  datatype Local = Local(name: Text, value: Value)

  /** The qualified names of built-in types, which exist without any declaration. */
  predicate BuiltinName(host: Host, name: Text) {
    host.builtin(name)
  }

  /** The identifiers of the basic types, used when no binding has the name. */
  predicate TypeName(name: Text) {
    name in {
      [0x62, 0x6F, 0x6F, 0x6C],  // bool
      [0x62, 0x79, 0x74, 0x65, 0x73],  // bytes
      [0x64, 0x6F, 0x75, 0x62, 0x6C, 0x65],  // double
      [0x69, 0x6E, 0x74],  // int
      [0x6C, 0x69, 0x73, 0x74],  // list
      [0x6D, 0x61, 0x70],  // map
      [0x6E, 0x75, 0x6C, 0x6C, 0x5F, 0x74, 0x79, 0x70, 0x65],  // null_type
      [0x73, 0x74, 0x72, 0x69, 0x6E, 0x67],  // string
      [0x74, 0x79, 0x70, 0x65],  // type
      [0x75, 0x69, 0x6E, 0x74],  // uint
      [0x6F, 0x70, 0x74, 0x69, 0x6F, 0x6E, 0x61, 0x6C, 0x5F, 0x74, 0x79, 0x70, 0x65]  // optional_type
    }
  }

  /** The innermost comprehension variable of the name. Locals are listed outermost first. */
  function FindLocal(locals: seq<Local>, name: Text): Option<Value> {
    if locals == [] then None
    else if locals[|locals| - 1].name == name then Some(locals[|locals| - 1].value)
    else FindLocal(locals[..|locals| - 1], name)
  }

  function LocalNames(locals: seq<Local>): set<Text> {
    set l | l in locals :: l.name
  }

  /** A name looked up as a whole: an activation entry first, then the built-in types. */
  function Resolve(host: Host, b: Bindings, name: Text): Option<Value> {
    if TextKey(name) in b then Some(b[TextKey(name)])
    else if BuiltinName(host, name) then Some(Foreign(name))
    else None
  }

  function Boolean(v: Value): Result<bool> {
    if v.VBool? then Ok(v.b) else Err(NoMatchingOverload)
  }

  function EvalBool(r: Result<Value>): Result<bool> {
    var v :- r;
    Boolean(v)
  }

  /** Division truncates toward zero, whatever the signs. */
  function TruncDiv(a: int, b: int): int
    requires b != 0
  {
    var q := Abs(a) / Abs(b);
    if (a < 0) == (b < 0) then q else -q
  }

  function Abs(a: int): nat {
    if a < 0 then -a else a
  }

  function Checked(n: int): Result<Value> {
    if IsInt64(n) then Ok(VInt(n)) else Err(Overflow)
  }

  function Arithmetics(op: Arithmetic, a: Value, b: Value): Result<Value> {
    if a.VInt? && b.VInt? then
      match op
      case Add => Checked(a.n + b.n)
      case Sub => Checked(a.n - b.n)
      case Mul => Checked(a.n * b.n)
      case Div => if b.n == 0 then Err(DivisionByZero) else Checked(TruncDiv(a.n, b.n))
      case Rem =>
        if b.n == 0 then Err(DivisionByZero)
        else if a.n == INT64_MIN && b.n == -1 then Ok(VInt(0))
        else Ok(VInt(a.n - b.n * TruncDiv(a.n, b.n)))
    else if op.Add? && a.VText? && b.VText? then Ok(VText(a.t + b.t))
    else if op.Add? && a.VList? && b.VList? then Ok(VList(a.items + b.items))
    else Err(NoMatchingOverload)
  }

  function Ordered(op: Comparison, less: bool, greater: bool): bool
    requires IsOrdering(op)
  {
    match op
    case CmpLt => less
    case CmpLe => !greater
    case CmpGt => greater
    case CmpGe => !less
  }

  /** Equality is heterogeneous: values of different types are different. */
  function Compared(op: Comparison, a: Value, b: Value): Result<Value> {
    match op
    case CmpEq => Ok(VBool(a == b))
    case CmpNe => Ok(VBool(a != b))
    case _ =>
      match (a, b)
      case (VInt(x), VInt(y)) => Ok(VBool(Ordered(op, x < y, x > y)))
      case (VText(x), VText(y)) => Ok(VBool(Ordered(op, TextLess(x, y), TextLess(y, x))))
      case (VBool(x), VBool(y)) => Ok(VBool(Ordered(op, !x && y, x && !y)))
      case _ => Err(NoMatchingOverload)
  }

  /** Values of one ordered type are equal or one is the smaller one, and the operators agree about it. */
  lemma {:induction false} OrderIsTotal(a: Value, b: Value)
    requires (a.VInt? && b.VInt?) || (a.VText? && b.VText?) || (a.VBool? && b.VBool?)
    ensures var less, more := Compared(CmpLt, a, b) == Ok(VBool(true)), Compared(CmpLt, b, a) == Ok(VBool(true));
            && (a == b <==> !less && !more) && !(less && more)
            && Compared(CmpLt, a, b) == Ok(VBool(less)) && Compared(CmpGt, a, b) == Ok(VBool(more))
            && Compared(CmpLe, a, b) == Ok(VBool(!more)) && Compared(CmpGe, a, b) == Ok(VBool(!less))
            && Compared(CmpEq, a, b) == Ok(VBool(a == b)) && Compared(CmpNe, a, b) == Ok(VBool(a != b))
    ensures a == VBool(false) && b == VBool(true) ==> Compared(CmpLt, a, b) == Ok(VBool(true))
    ensures a.VInt? && b.VInt? && a.n < b.n ==> Compared(CmpLt, a, b) == Ok(VBool(true))
  {
    if a.VText? {
      TextsOrdered(a.t, b.t);
    }
  }

  lemma {:induction false} TextsOrdered(a: Text, b: Text)
    ensures a == b <==> !TextLess(a, b) && !TextLess(b, a)
    ensures !(TextLess(a, b) && TextLess(b, a))
  {
    if a != [] && b != [] && a[0] == b[0] {
      TextsOrdered(a[1..], b[1..]);
      assert a == [a[0]] + a[1..] && b == [b[0]] + b[1..];
    }
  }

  /** The text tests compare bytes: the engine holds texts in UTF-8. */
  predicate Tested(test: TextTest, text: Text, argument: Text) {
    UnitsTested(test, Write(UTF_8, text), Write(UTF_8, argument))
  }

  function KeyOf(v: Value): Option<Key> {
    match v
    case VBool(b) => Some(BoolKey(b))
    case VInt(n) => Some(IntKey(n))
    case VText(t) => Some(TextKey(t))
    case _ => None
  }

  /** `target[key]` on lists and maps. */
  function Indexed(target: Value, key: Value): Result<Value> {
    match target
    case VMap(fields) =>
      (match KeyOf(key)
       case Some(k) => if k in fields then Ok(fields[k]) else Err(NoSuchKey)
       case None => Err(NoSuchKey))
    case VList(items) =>
      if !key.VInt? then Err(NoMatchingOverload)
      else if 0 <= key.n < |items| then Ok(items[key.n])
      else Err(IndexOutOfBounds)
    case _ => Err(NoMatchingOverload)
  }

  function Selected(target: Value, field: Text): Result<Value> {
    if !target.VMap? then Err(NoMatchingOverload)
    else if TextKey(field) in target.fields then Ok(target.fields[TextKey(field)])
    else Err(NoSuchKey)
  }

  function Member(needle: Value, list: Value): Result<Value> {
    match list
    case VList(items) => Ok(VBool(needle in items))
    case VMap(fields) => Ok(VBool(KeyOf(needle).Some? && KeyOf(needle).value in fields))
    case _ => Err(NoMatchingOverload)
  }

  function Sized(v: Value): Result<Value> {
    match v
    case VText(t) => Ok(VInt(|t|))
    case VList(items) => Ok(VInt(|items|))
    case VMap(fields) => Ok(VInt(|fields|))
    case _ => Err(NoMatchingOverload)
  }

  function Negated(v: Value): Result<Value> {
    if v.VInt? then Checked(-v.n) else Err(NoMatchingOverload)
  }

  /** A pattern over this many bytes is never compiled. */
  const MAX_PATTERN_BYTES: nat := 65_536

  predicate TooLong(pattern: Text) {
    |Write(UTF_8, pattern)| > MAX_PATTERN_BYTES
  }

  /** `matches` with a literal pattern. */
  function Matched(host: Host, t: Text, pattern: Text): Result<bool> {
    if TooLong(pattern) then Err(RegexLimitExceeded) else host.matches(t, pattern)
  }

  /** What the compiled functions call: the program's compiled patterns, where one never compiled is invalid. */
  function LiteralMatched(host: Host, t: Text, pattern: Text): Result<bool> {
    if TooLong(pattern) then Err(InvalidArgument) else host.matches(t, pattern)
  }

  /** Errors of limits end the evaluation wherever they occur. */
  predicate Fatal(e: EvalError) {
    e == RegexLimitExceeded || e == CostLimitExceeded
  }

  predicate FailsFatally(r: Result<bool>) {
    r.Err? && Fatal(r.error)
  }

  /** `&&` and `||` absorb an error of one operand when the other decides, unless it is fatal; of two errors the left
      one remains. */
  function Absorbed(conj: bool, left: Result<bool>, right: Result<bool>): Result<Value> {
    if left == Ok(!conj) then Ok(VBool(!conj))
    else if FailsFatally(left) then Err(left.error)
    else if right == Ok(!conj) then Ok(VBool(!conj))
    else if FailsFatally(right) then Err(right.error)
    else if left.Err? then Err(left.error)
    else if right.Err? then Err(right.error)
    else Ok(VBool(conj))
  }

  function TextsOf(members: seq<Text>): seq<Value> {
    seq(|members|, i requires 0 <= i < |members| => VText(members[i]))
  }

  function Eval(host: Host, b: Bindings, locals: seq<Local>, p: Plan): Result<Value>
    decreases p, 0, 0
  {
    match p
    case BoolLit(x) => Ok(VBool(x))
    case IntLit(n) => Ok(VInt(n))
    case TextLit(t) => Ok(VText(t))
    case ListLit(members) => Ok(VList(TextsOf(members)))
    case Ident(name) =>
      (match FindLocal(locals, name)
       case Some(v) => Ok(v)
       case None =>
         match Resolve(host, b, name)
         case Some(v) => Ok(v)
         case None => if TypeName(name) then Ok(Foreign(name)) else Err(UndeclaredReference))
    case Select(target, field, _) =>
      var whole := if Unquoted(p) && ChainRoot(p).Some? && FindLocal(locals, ChainRoot(p).value).None? &&
                      QualifiedName(p).Some?
                   then Resolve(host, b, QualifiedName(p).value) else None;
      if whole.Some? then Ok(whole.value) else
      var t :- Eval(host, b, locals, target);
      if t.Foreign? then host.foreign(p, [t]) else Selected(t, field)
    case Index(target, key) =>
      var t :- Eval(host, b, locals, target);
      var k :- Eval(host, b, locals, key);
      if t.Foreign? || k.Foreign? then host.foreign(p, [t, k]) else Indexed(t, k)
    case Logic(conj, left, right) =>
      Absorbed(conj, EvalBool(Eval(host, b, locals, left)), EvalBool(Eval(host, b, locals, right)))
    case Compare(op, left, right) =>
      var l :- Eval(host, b, locals, left);
      var r :- Eval(host, b, locals, right);
      if l.Foreign? || r.Foreign? then host.foreign(p, [l, r]) else Compared(op, l, r)
    case Arith(op, left, right) =>
      var l :- Eval(host, b, locals, left);
      var r :- Eval(host, b, locals, right);
      if l.Foreign? || r.Foreign? then host.foreign(p, [l, r]) else Arithmetics(op, l, r)
    case Neg(operand) =>
      var v :- Eval(host, b, locals, operand);
      if v.Foreign? then host.foreign(p, [v]) else Negated(v)
    case Not(operand) =>
      var x :- EvalBool(Eval(host, b, locals, operand));
      Ok(VBool(!x))
    case Size(operand) =>
      var v :- Eval(host, b, locals, operand);
      if v.Foreign? then host.foreign(p, [v]) else Sized(v)
    case In(needle, list) =>
      var n :- Eval(host, b, locals, needle);
      var l :- Eval(host, b, locals, list);
      if n.Foreign? || l.Foreign? then host.foreign(p, [n, l]) else Member(n, l)
    case Quantifier(universal, target, variable, body) =>
      var t :- Eval(host, b, locals, target);
      (match t
       case VList(items) => EvalItems(host, b, locals, universal, variable, body, items, None)
       case VMap(_) | Foreign(_) => host.foreign(p, [t])  // the keys of a map, in an order no plan observes
       case _ => Err(NoMatchingOverload))
    case Cond(condition, yes, no) =>
      var c :- EvalBool(Eval(host, b, locals, condition));
      if c then Eval(host, b, locals, yes) else Eval(host, b, locals, no)
    case Matches(text, pattern) =>
      var t :- Eval(host, b, locals, text);
      if t.Foreign? then host.foreign(p, [t])
      else if !t.VText? then Err(NoMatchingOverload)
      else
        var matched :- Matched(host, t.t, pattern);
        Ok(VBool(matched))
    case Test(test, text, argument) =>
      var t :- Eval(host, b, locals, text);
      var a :- Eval(host, b, locals, argument);
      if t.Foreign? || a.Foreign? then host.foreign(p, [t, a])
      else if t.VText? && a.VText? then Ok(VBool(Tested(test, t.t, a.t)))
      else Err(NoMatchingOverload)
    case Nonsense => Err(NoMatchingOverload)
  }

  /** `all` and `exists` over the remaining elements: a deciding element wins over every error, seen or to come, that is
      not fatal. */
  function EvalItems(host: Host, b: Bindings, locals: seq<Local>, universal: bool, variable: Text, body: Plan,
                     items: seq<Value>, saved: Option<EvalError>): Result<Value>
    decreases body, 1, |items|
  {
    if items == [] then
      match saved
      case Some(e) => Err(e)
      case None => Ok(VBool(universal))
    else
      match EvalBool(Eval(host, b, locals + [Local(variable, items[0])], body))
      case Err(e) =>
        if Fatal(e) then Err(e) else EvalItems(host, b, locals, universal, variable, body, items[1..], Some(e))
      case Ok(x) =>
        if x != universal then Ok(VBool(x))
        else EvalItems(host, b, locals, universal, variable, body, items[1..], saved)
  }

  // ----- conversion of the bindings -----

  const NONE: Value := Foreign([0x4E])

  predicate KeyConverts(k: Key) {
    match k
    case BoolKey(_) => true
    case IntKey(n) => IsInt64(n)
    case TextKey(t) => WellFormed(t)
  }

  /** Keys convert as the values they are looked up by. */
  lemma {:induction false} KeysAreValues(host: Host, v: Value)
    requires KeyOf(v).Some?
    ensures KeyConverts(KeyOf(v).value) <==> ValueConverts(host, v)
  {
  }

  /** Everything inside is converted, whether the program reads it or not: texts need a UTF-8 encoding, and integers
      64 bits. */
  predicate ValueConverts(host: Host, v: Value) {
    match v
    case VBool(_) => true
    case VInt(n) => IsInt64(n)
    case VText(t) => WellFormed(t)
    case VList(items) => forall i :: 0 <= i < |items| ==> ValueConverts(host, items[i])
    case VMap(fields) => forall k :: k in fields ==> KeyConverts(k) && ValueConverts(host, fields[k])
    case Foreign(_) => v == NONE || host.converts(v.tag)
  }

  predicate Converts(host: Host, b: Bindings) {
    host.affords(b) && forall k :: k in b ==> k.TextKey? && KeyConverts(k) && ValueConverts(host, b[k])
  }

  /** `Refused` is the exception of a conversion. */
  datatype Outcome = Evaluated(result: Result<Value>) | Refused

  /** `evaluate` of the native module. */
  function Evaluate(host: Host, b: Bindings, p: Plan): Outcome {
    if Converts(host, b) then Evaluated(Eval(host, b, [], p)) else Refused
  }
}
