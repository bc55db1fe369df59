/** The JavaScript that plain-data plans are compiled to: one expression of guarded reads, and what it does. */
module JavaScriptTarget {
  import opened Values
  import opened Plans
  import opened Encodings
  import opened JavaScriptNumbers
  import Engine

  /** No JavaScript string or array is longer. */
  const MAX_LENGTH: nat := MAX_SAFE

  /** A binding tree as JavaScript holds it: texts are UTF-16 units, and integers are doubles unless they are bigints.
      JOther stands for everything outside the plain-data shape: fractions, bytes, null, functions, class instances...
      A property name with lone surrogates equals no name a plan can read. */
  datatype JsVal =
    | JBool(b: bool)
    | JNumber(n: int)
    | JBigInt(big: int)
    | JText(units: seq<Unit>)
    | JList(items: seq<JsVal>)
    | JObject(fields: map<Text, JsVal>)
    | JOther(tag: Text)
    | JUndefined

  /** Operators of one operand, the helper functions included. `OpComma` is `(x, false)`. */
  datatype Op1 = OpNot | OpNeg | OpStringSize | OpSizeOf | OpMatches(pattern: Text) | OpComma | OpField(field: Text)

  /** Operators of two operands. `OpEntry` is `ownEntry`, `OpItem` is `listEntry`. */
  datatype Op2 =
    | OpSame
    | OpDiffers
    | OpOrder(op: Comparison)
    | OpInt(aop: Arithmetic)
    | OpTest(test: TextTest)
    | OpEntry
    | OpItem

  /** `JGuard` is `((v = read), check ? v : bail())`, or `(v = read)` when any value will do. */
  datatype Js =
    | JLit(v: JsVal)
    | JBinding(name: Text)
    | JLocal(e: nat)
    | JGuard(temp: nat, read: Js, expected: PlainType)
    | JUnary(op1: Op1, x: Js)
    | JBinary(op2: Op2, l: Js, r: Js)
    | JLogic(conj: bool, l: Js, r: Js)
    | JChoice(c: Js, yes: Js, no: Js)
    | JLoop(universal: bool, list: Js, e: nat, body: Js)

  type Temps = map<nat, JsVal>

  /** A bail, an exception of the matcher, or something the emitted code never does: an undeclared name, or an operator
      on operands it is not meant for. */
  datatype Result = Val(value: JsVal) | Bail | Threw(error: Engine.EvalError) | Fault {
    predicate IsFailure() { !Val? }

    function PropagateFailure(): Result
      requires !Val?
    {
      this
    }

    function Extract(): JsVal
      requires Val?
    {
      value
    }
  }

  /** `declared` counts the names declared by `let`. An error of `run` is an exception of the native matcher. */
  datatype Machine = Machine(
    fl: real -> real,
    run: (Text, Text) -> Engine.Result<bool>,
    bindings: map<Text, JsVal>,
    declared: nat)

  function FieldOf(fields: map<Text, JsVal>, name: Text): JsVal {
    if name in fields then fields[name] else JUndefined
  }

  /** The checks of a guarded read. */
  predicate Passes(v: JsVal, expected: PlainType) {
    match expected
    case TBool => v.JBool?
    case TInt => v.JNumber? && IsSafe(v.n)
    case TText => v.JText? && |v.units| <= MAX_LENGTH && WellFormedUtf16(v.units)
    case TObject => v.JObject?
    case TList => v.JList? && |v.items| <= MAX_LENGTH
    case TAny => true
  }

  function IntOrBail(n: Option<int>): Result {
    match n
    case Some(k) => Val(JNumber(k))
    case None => Bail
  }

  predicate NumbersOrdered(op: Comparison, a: int, b: int) {
    match op
    case CmpLt => a < b
    case CmpLe => a <= b
    case CmpGt => a > b
    case CmpGe => a >= b
    case CmpEq => a == b
    case CmpNe => a != b
  }

  /** `===` on primitive values. */
  function Same(a: JsVal, b: JsVal): Option<bool> {
    match (a, b)
    case (JBool(x), JBool(y)) => Some(x == y)
    case (JNumber(x), JNumber(y)) => Some(x == y)
    case (JText(x), JText(y)) => Some(x == y)
    case _ => None
  }

  function Apply1(m: Machine, op: Op1, v: JsVal): Result {
    match (op, v)
    case (OpNot, JBool(b)) => Val(JBool(!b))
    case (OpNeg, JNumber(n)) => IntOrBail(NegInt(n))
    case (OpStringSize, JText(units)) => Val(JNumber(NotHigh(units)))
    case (OpSizeOf, _) =>
      if v.JText? then (if Passes(v, TText) then Val(JNumber(NotHigh(v.units))) else Bail)
      else if Passes(v, TList) then Val(JNumber(|v.items|))
      else Bail
    case (OpMatches(pattern), JText(units)) =>
      if !WellFormedUtf16(units) then Fault
      else
        (match m.run(ReadUtf16(units), pattern)
         case Ok(matched) => Val(JBool(matched))
         case Err(e) => Threw(e))
    case (OpComma, _) => Val(JBool(false))
    case (OpField(field), JObject(fields)) => Val(FieldOf(fields, field))
    case _ => Fault
  }

  function Apply2(m: Machine, op: Op2, a: JsVal, b: JsVal): Result {
    match (op, a, b)
    case (OpSame, _, _) => if Same(a, b).Some? then Val(JBool(Same(a, b).value)) else Fault
    case (OpDiffers, _, _) => if Same(a, b).Some? then Val(JBool(!Same(a, b).value)) else Fault
    case (OpOrder(op), JNumber(x), JNumber(y)) => Val(JBool(NumbersOrdered(op, x, y)))
    case (OpInt(op), JNumber(x), JNumber(y)) => IntOrBail(ArithmeticInt(m.fl, op, x, y))
    case (OpTest(test), JText(x), JText(y)) => Val(JBool(UnitsTested(test, x, y)))
    case (OpEntry, JObject(fields), JText(key)) =>
      if WellFormedUtf16(key) then Val(FieldOf(fields, ReadUtf16(key))) else Fault
    case (OpItem, JList(items), JNumber(k)) => Val(if 0 <= k < |items| then items[k] else JUndefined)
    case _ => Fault
  }

  /** A result, and the temporaries after it. */
  datatype Done = Done(result: Result, temps: Temps)

  function Eval(m: Machine, env: Temps, s: Temps, x: Js): Done
    decreases x, 0, 0
  {
    match x
    case JLit(v) => Done(Val(v), s)
    case JBinding(name) => Done(Val(FieldOf(m.bindings, name)), s)
    case JLocal(e) => Done(if e in env then Val(env[e]) else Fault, s)
    case JGuard(temp, read, expected) =>
      var r := Eval(m, env, s, read);
      if !r.result.Val? then r
      else if !(1 <= temp <= m.declared) then Done(Fault, r.temps)
      else
        var t := r.temps[temp := r.result.value];
        Done(if Passes(t[temp], expected) then Val(t[temp]) else Bail, t)
    case JUnary(op, y) =>
      var r := Eval(m, env, s, y);
      if r.result.Val? then Done(Apply1(m, op, r.result.value), r.temps) else r
    case JBinary(op, l, r) =>
      var a := Eval(m, env, s, l);
      if !a.result.Val? then a else
      var b := Eval(m, env, a.temps, r);
      if b.result.Val? then Done(Apply2(m, op, a.result.value, b.result.value), b.temps) else b
    case JLogic(conj, l, r) =>
      var a := Eval(m, env, s, l);
      if !a.result.Val? then a
      else if !a.result.value.JBool? then Done(Fault, a.temps)
      else if a.result.value.b == conj then Eval(m, env, a.temps, r)
      else a
    case JChoice(c, yes, no) =>
      var a := Eval(m, env, s, c);
      if !a.result.Val? then a
      else if !a.result.value.JBool? then Done(Fault, a.temps)
      else if a.result.value.b then Eval(m, env, a.temps, yes)
      else Eval(m, env, a.temps, no)
    case JLoop(universal, list, e, body) =>
      var a := Eval(m, env, s, list);
      if !a.result.Val? then a
      else if !a.result.value.JList? then Done(Fault, a.temps)
      else EvalLoop(m, env, a.temps, universal, e, body, a.result.value.items)
  }

  /** `every` and `some`: the arrow function binds its parameter anew for every item, and the first deciding item ends
      the loop. */
  function EvalLoop(m: Machine, env: Temps, s: Temps, universal: bool, e: nat, body: Js, items: seq<JsVal>): Done
    decreases body, 1, |items|
  {
    if items == [] then Done(Val(JBool(universal)), s)
    else
      var r := Eval(m, env[e := items[0]], s, body);
      if !r.result.Val? then r
      else if !r.result.value.JBool? then Done(Fault, r.temps)
      else if r.result.value.b != universal then r
      else EvalLoop(m, env, r.temps, universal, e, body, items[1..])
  }

  /** A compiled function: how many temporaries it declares, and the expression it returns. */
  datatype Function = Function(declared: nat, body: Js)

  /** `evaluate` up to the engine: bindings with a dotted name are not for the compiled function. */
  function Call(f: Function, fl: real -> real, run: (Text, Text) -> Engine.Result<bool>, b: JsVal): Result {
    if !b.JObject? || (exists name :: name in b.fields && DOT in name) then Bail
    else Eval(Machine(fl, run, b.fields, f.declared), map[], map[], f.body).result
  }
}
