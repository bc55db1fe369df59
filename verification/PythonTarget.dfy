/** The fragment of Python that compiled functions are written in, with its execution. */
module PythonTarget {
  import opened Values
  import opened Plans
  import Engine

  /** The local variable `v1`, `v2`, ... of the generated function. */
  type Var = nat

  datatype Expr =
    | EVar(v: Var)
    | EBool(b: bool)
    | EInt(n: int)
    | EText(t: Text)
    | EBinding(name: Text)  // b.get(name, _MISSING)
    | EGet(target: Expr, key: Expr)  // target.get(key, _MISSING)
    | EItem(target: Expr, key: Expr)  // target[key] if 0 <= key < len(target) else _MISSING
    | ECompare(op: Comparison, left: Expr, right: Expr)
    | EArith(aop: Arithmetic, left: Expr, right: Expr)  // _add, _sub, _mul, _div, _rem
    | ENeg(operand: Expr)  // _checked(-operand)
    | ENot(operand: Expr)
    | ELen(operand: Expr)  // len(operand)
    | ESize(operand: Expr)  // _size(operand)
    | EMember(needle: Expr, members: set<Text>)  // needle in {...}
    | EMatches(text: Expr, pattern: Text)  // _matches(text, pattern)
    | ETest(test: TextTest, text: Expr, argument: Expr)

  datatype Stmt =
    | Assign(v: Var, e: Expr)
    | Guard(v: Var, expected: PlainType, checkedText: bool)  // if type(v) is not ...: _bail()
    | If(condition: Expr, thenBlock: seq<Stmt>)
    | IfElse(condition: Expr, thenBlock: seq<Stmt>, elseBlock: seq<Stmt>)
    | For(v: Var, items: Expr, block: seq<Stmt>)
    | Break

  /** `v = b.get(name, _MISSING)` followed by the dictionary check, at the start of the function. */
  datatype HoistedRead = HoistedRead(v: Var, name: Text)

  /** `def fast(b)`: the dotted names it refuses, the hoisted reads, the body, and the returned expression. */
  datatype Function = Function(dotted: set<Text>, roots: seq<HoistedRead>, body: seq<Stmt>, result: Expr)

  /** Why Python code stops: `_Bail`, a variable read before its assignment, an exception raised by the matcher,
      or an operation on an operand of the wrong type. */
  datatype Failure = Bailed | UnboundVariable | MatcherRaised(error: Engine.EvalError) | TypeFault

  datatype ExprResult = Val(value: Value) | Fails(failure: Failure) {
    predicate IsFailure() { Fails? }

    function PropagateFailure(): ExprResult
      requires Fails?
    {
      this
    }

    function Extract(): Value
      requires Val?
    {
      value
    }
  }

  type Store = map<Var, Value>

  datatype Outcome = Done(store: Store) | Broke(store: Store) | Failed(failure: Failure)

  /** What calling the compiled function does. */
  datatype Answer = Answered(value: Value) | BAIL | Raised(failure: Failure)

  /** The `_matches` helper: without a matcher every call bails. An error is raised as an exception of that name. */
  datatype Matcher = NoMatcher | LiteralMatcher(run: (Text, Text) -> Engine.Result<bool>)

  datatype Machine = Machine(matcher: Matcher, bindings: Bindings)

  // ----- the helpers of the generated code -----

  function CheckedInt(n: int): ExprResult {
    if IsInt64(n) then Val(VInt(n)) else Fails(Bailed)
  }

  function PyAbs(a: int): nat {
    if a < 0 then -a else a
  }

  /** `_div`: the quotient of the absolute values, then the sign. */
  function DivHelper(a: int, b: int): (r: ExprResult)
    ensures r.Val? ==> r.value.VInt?
  {
    if b == 0 then Fails(Bailed)
    else
      var quotient := PyAbs(a) / PyAbs(b);
      CheckedInt(if (a < 0) == (b < 0) then quotient else -quotient)
  }

  function ArithHelper(op: Arithmetic, a: int, b: int): ExprResult {
    match op
    case Add => CheckedInt(a + b)
    case Sub => CheckedInt(a - b)
    case Mul => CheckedInt(a * b)
    case Div => DivHelper(a, b)
    case Rem =>
      if b == 0 then Fails(Bailed)
      else
        var q :- DivHelper(a, b);
        Val(VInt(a - b * q.n))
  }

  /** `_size`. */
  function SizeHelper(v: Value): ExprResult {
    match v
    case VText(t) => if WellFormed(t) then Val(VInt(|t|)) else Fails(Bailed)
    case VList(items) => Val(VInt(|items|))
    case _ => Fails(Bailed)
  }

  function CompareHelper(op: Comparison, a: Value, b: Value): ExprResult {
    if op.CmpEq? then Val(VBool(a == b))
    else if op.CmpNe? then Val(VBool(a != b))
    else if !a.VInt? || !b.VInt? then Fails(TypeFault)
    else if op.CmpLt? then Val(VBool(a.n < b.n))
    else if op.CmpLe? then Val(VBool(a.n <= b.n))
    else if op.CmpGt? then Val(VBool(a.n > b.n))
    else Val(VBool(a.n >= b.n))
  }

  function MatchHelper(matcher: Matcher, t: Text, pattern: Text): ExprResult {
    match matcher
    case NoMatcher => Fails(Bailed)
    case LiteralMatcher(run) =>
      match run(t, pattern)
      case Ok(matched) => Val(VBool(matched))
      case Err(e) => Fails(MatcherRaised(e))
  }

  /** The type tests of guards. A well-formedness test is added only where texts are compared or returned. */
  predicate Fits(v: Value, expected: PlainType, checkedText: bool) {
    match expected
    case TAny => true
    case TObject => v.VMap?
    case TList => v.VList?
    case TText => v.VText? && (checkedText ==> WellFormed(v.t))
    case TBool => v.VBool?
    case TInt => v.VInt? && IsInt64(v.n)
  }

  // ----- expressions -----

  function EvalExpr(m: Machine, s: Store, e: Expr): ExprResult
    decreases e
  {
    match e
    case EVar(v) => if v in s then Val(s[v]) else Fails(UnboundVariable)
    case EBool(b) => Val(VBool(b))
    case EInt(n) => Val(VInt(n))
    case EText(t) => Val(VText(t))
    case EBinding(name) => Val(Get(m.bindings, name))
    case EGet(target, key) =>
      var t :- EvalExpr(m, s, target);
      var k :- EvalExpr(m, s, key);
      if t.VMap? && k.VText? then Val(Get(t.fields, k.t)) else Fails(TypeFault)
    case EItem(target, key) =>
      var k :- EvalExpr(m, s, key);
      var t :- EvalExpr(m, s, target);
      if !t.VList? || !k.VInt? then Fails(TypeFault)
      else Val(if 0 <= k.n < |t.items| then t.items[k.n] else MISSING)
    case ECompare(op, left, right) =>
      var l :- EvalExpr(m, s, left);
      var r :- EvalExpr(m, s, right);
      CompareHelper(op, l, r)
    case EArith(op, left, right) =>
      var l :- EvalExpr(m, s, left);
      var r :- EvalExpr(m, s, right);
      if l.VInt? && r.VInt? then ArithHelper(op, l.n, r.n) else Fails(TypeFault)
    case ENeg(operand) =>
      var v :- EvalExpr(m, s, operand);
      if v.VInt? then CheckedInt(-v.n) else Fails(TypeFault)
    case ENot(operand) =>
      var v :- EvalExpr(m, s, operand);
      if v.VBool? then Val(VBool(!v.b)) else Fails(TypeFault)
    case ELen(operand) =>
      var v :- EvalExpr(m, s, operand);
      if v.VText? then Val(VInt(|v.t|)) else Fails(TypeFault)
    case ESize(operand) =>
      var v :- EvalExpr(m, s, operand);
      SizeHelper(v)
    case EMember(needle, members) =>
      var v :- EvalExpr(m, s, needle);
      if v.VText? then Val(VBool(v.t in members)) else Fails(TypeFault)
    case EMatches(text, pattern) =>
      var v :- EvalExpr(m, s, text);
      if v.VText? then MatchHelper(m.matcher, v.t, pattern) else Fails(TypeFault)
    case ETest(test, text, argument) =>
      var t :- EvalExpr(m, s, text);
      var a :- EvalExpr(m, s, argument);
      if t.VText? && a.VText? then Val(VBool(TextTested(test, t.t, a.t))) else Fails(TypeFault)
  }

  // ----- statements -----

  function Run(m: Machine, s: Store, code: seq<Stmt>): Outcome
    decreases code, 0, 0
  {
    if code == [] then Done(s)
    else
      match Step(m, s, code[0])
      case Done(s') => Run(m, s', code[1..])
      case other => other
  }

  function Step(m: Machine, s: Store, stmt: Stmt): Outcome
    decreases stmt, 1, 0
  {
    match stmt
    case Assign(v, e) =>
      (match EvalExpr(m, s, e)
       case Val(x) => Done(s[v := x])
       case Fails(f) => Failed(f))
    case Guard(v, expected, checkedText) =>
      if v !in s then Failed(UnboundVariable)
      else if Fits(s[v], expected, checkedText) then Done(s)
      else Failed(Bailed)
    case If(condition, thenBlock) =>
      (match EvalExpr(m, s, condition)
       case Fails(f) => Failed(f)
       case Val(c) =>
         if !c.VBool? then Failed(TypeFault)
         else if c.b then Run(m, s, thenBlock)
         else Done(s))
    case IfElse(condition, thenBlock, elseBlock) =>
      (match EvalExpr(m, s, condition)
       case Fails(f) => Failed(f)
       case Val(c) =>
         if !c.VBool? then Failed(TypeFault)
         else if c.b then Run(m, s, thenBlock)
         else Run(m, s, elseBlock))
    case For(v, items, block) =>
      (match EvalExpr(m, s, items)
       case Fails(f) => Failed(f)
       case Val(xs) => if xs.VList? then Loop(m, s, v, block, xs.items) else Failed(TypeFault))
    case Break => Broke(s)
  }

  function Loop(m: Machine, s: Store, v: Var, block: seq<Stmt>, items: seq<Value>): Outcome
    decreases block, 1, |items|
  {
    if items == [] then Done(s)
    else
      match Run(m, s[v := items[0]], block)
      case Done(s') => Loop(m, s', v, block, items[1..])
      case Broke(s') => Done(s')
      case Failed(f) => Failed(f)
  }

  /** The hoisted reads, in order. */
  function RunRoots(m: Machine, s: Store, roots: seq<HoistedRead>): Outcome
    decreases roots
  {
    if roots == [] then Done(s)
    else
      var x := Get(m.bindings, roots[0].name);
      if x.VMap? then RunRoots(m, s[roots[0].v := x], roots[1..]) else Failed(Bailed)
  }

  function Stop(f: Failure): Answer {
    if f.Bailed? then BAIL else Raised(f)
  }

  /** The statements of the function and its `return`. */
  function Return(m: Machine, s: Store, f: Function): Answer {
    match Run(m, s, f.body)
    case Failed(e) => Stop(e)
    case Broke(_) => Raised(TypeFault)
    case Done(t) =>
      match EvalExpr(m, t, f.result)
      case Val(v) => Answered(v)
      case Fails(e) => Stop(e)
  }

  /** Calling `fast(b)`: only `_Bail` is caught. */
  function Call(f: Function, matcher: Matcher, b: Value): Answer {
    if !b.VMap? then BAIL
    else if exists name :: name in f.dotted && TextKey(name) in b.fields then BAIL
    else
      match RunRoots(Machine(matcher, b.fields), map[], f.roots)
      case Failed(e) => Stop(e)
      case Broke(_) => Raised(TypeFault)
      case Done(s) => Return(Machine(matcher, b.fields), s, f)
  }
}
