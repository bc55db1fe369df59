/** The plain-data reading of a plan, without hoisting and without caching: every object is read again where it is
    used, every read is checked against the type its context expects, and None is "give up". Also the static facts
    about a plan that do not depend on any binding: whether it is accepted, which roots it hoists, and which dotted
    names it could be confused with. */
module LazySemantics {
  import opened Values
  import opened Plans
  import opened PythonTarget
  import opened Engine

  function Checked_(v: Value, expected: PlainType, checkedText: bool): Option<Value> {
    if Fits(v, expected, checkedText) then Some(v) else None
  }

  predicate HasType(v: Value, expected: PlainType) {
    match expected
    case TBool => v.VBool?
    case TText => v.VText?
    case TInt => v.VInt?
    case TObject => v.VMap?
    case TList => v.VList?
    case TAny => true
  }

  function Answers(r: ExprResult): Option<Value> {
    if r.Val? then Some(r.value) else None
  }

  /** What an operator makes of an operand of its type. */
  function UnaryResult(m: Machine, p: Plan, v: Value): ExprResult
    requires IsUnary(p) && OperandType(p).Some? && HasType(v, OperandType(p).value)
  {
    match p
    case Neg(_) => CheckedInt(-v.n)
    case Not(_) => Val(VBool(!v.b))
    case Size(_) => if OperandType(p) == Some(TText) then Val(VInt(|v.t|)) else SizeHelper(v)
    case In(_, list) => Val(VBool(v.t in list.members))
    case Matches(_, pattern) => MatchHelper(m.matcher, v.t, pattern)
  }

  function BinaryResult(p: Plan, l: Value, r: Value): ExprResult
    requires IsBinary(p) && OperandsType(p).Some?
    requires HasType(l, OperandsType(p).value) && HasType(r, OperandsType(p).value)
  {
    match p
    case Compare(op, _, _) => CompareHelper(op, l, r)
    case Arith(op, _, _) => ArithHelper(op, l.n, r.n)
    case Test(test, _, _) => Val(VBool(TextTested(test, l.t, r.t)))
  }

  function Lazy(m: Machine, locals: seq<Local>, p: Plan, expected: PlainType, checkedText: bool): (r: Option<Value>)
    ensures r.Some? ==> HasType(r.value, expected)
    decreases p, 1, 0
  {
    match p
    case BoolLit(b) => if expected == TBool then Some(VBool(b)) else None
    case IntLit(n) => if expected == TInt then Some(VInt(n)) else None
    case TextLit(t) => if expected == TText then Some(VText(t)) else None
    case Ident(name) =>
      (match FindLocal(locals, name)
       case Some(v) => Checked_(v, expected, checkedText)
       case None => Checked_(Get(m.bindings, name), expected, checkedText))
    case Select(target, field, _) =>
      var t :- LazyObject(m, locals, target);
      Checked_(Get(t, field), expected, checkedText)
    case Index(target, key) =>
      if KeyType(key) == TText then
        var t :- LazyObject(m, locals, target);
        var k :- LazyText(m, locals, key, false);
        Checked_(Get(t, k), expected, checkedText)
      else if KeyType(key) == TInt then
        var xs :- LazyList(m, locals, target);
        var k :- LazyInt(m, locals, key);
        Checked_(if 0 <= k < |xs| then xs[k] else MISSING, expected, checkedText)
      else None
    case Logic(conj, left, right) =>
      if expected != TBool then None else
      var l :- LazyBool(m, locals, left);
      if l != conj then Some(VBool(l)) else
      var r :- LazyBool(m, locals, right);
      Some(VBool(r))
    case Quantifier(universal, target, variable, body) =>
      if expected != TBool then None else
      var xs :- LazyList(m, locals, target);
      LazyItems(m, locals, universal, variable, body, xs)
    case Cond(condition, yes, no) =>
      if expected in {TObject, TList, TAny} then None else
      var c :- LazyBool(m, locals, condition);
      Lazy(m, locals, if c then yes else no, expected, true)
    case Neg(_) | Not(_) | Size(_) | In(_, _) | Matches(_, _) =>
      if expected != ResultType(p) then None else LazyUnary(m, locals, p)
    case Compare(_, _, _) | Arith(_, _, _) | Test(_, _, _) =>
      if expected != ResultType(p) then None else LazyBinary(m, locals, p)
    case ListLit(_) | Nonsense => None
  }

  function LazyUnary(m: Machine, locals: seq<Local>, p: Plan): (r: Option<Value>)
    requires IsUnary(p)
    ensures r.Some? ==> HasType(r.value, ResultType(p))
    decreases p, 0, 0
  {
    var kind :- OperandType(p);
    var v :- Lazy(m, locals, Operand(p), kind, OperandChecked(p));
    Answers(UnaryResult(m, p, v))
  }

  function LazyBinary(m: Machine, locals: seq<Local>, p: Plan): (r: Option<Value>)
    requires IsBinary(p)
    ensures r.Some? ==> HasType(r.value, ResultType(p))
    decreases p, 0, 0
  {
    var kind :- OperandsType(p);
    var l :- Lazy(m, locals, LeftOperand(p), kind, OperandsChecked(p));
    var r :- Lazy(m, locals, RightOperand(p), kind, OperandsChecked(p));
    Answers(BinaryResult(p, l, r))
  }

  function LazyBool(m: Machine, locals: seq<Local>, p: Plan): Option<bool>
    decreases p, 2, 0
  {
    var v :- Lazy(m, locals, p, TBool, true);
    Some(v.b)
  }

  function LazyInt(m: Machine, locals: seq<Local>, p: Plan): Option<int>
    decreases p, 2, 0
  {
    var v :- Lazy(m, locals, p, TInt, true);
    Some(v.n)
  }

  function LazyText(m: Machine, locals: seq<Local>, p: Plan, checkedText: bool): Option<Text>
    decreases p, 2, 0
  {
    var v :- Lazy(m, locals, p, TText, checkedText);
    Some(v.t)
  }

  function LazyList(m: Machine, locals: seq<Local>, p: Plan): Option<seq<Value>>
    decreases p, 2, 0
  {
    var v :- Lazy(m, locals, p, TList, true);
    Some(v.items)
  }

  function LazyObject(m: Machine, locals: seq<Local>, p: Plan): Option<map<Key, Value>>
    decreases p, 2, 0
  {
    var v :- Lazy(m, locals, p, TObject, true);
    Some(v.fields)
  }

  function LazyItems(m: Machine, locals: seq<Local>, universal: bool, variable: Text, body: Plan,
                     items: seq<Value>): (r: Option<Value>)
    ensures r.Some? ==> r.value.VBool?
    decreases body, 3, |items|
  {
    if items == [] then Some(VBool(universal))
    else
      var x :- LazyBool(m, locals + [Local(variable, items[0])], body);
      if x != universal then Some(VBool(x))
      else LazyItems(m, locals, universal, variable, body, items[1..])
  }

  // ----- static facts -----

  /** The plans the compiler accepts, by the type their context expects. */
  predicate Accepts(p: Plan, expected: PlainType) {
    match p
    case BoolLit(_) => expected == TBool
    case IntLit(_) => expected == TInt
    case TextLit(_) => expected == TText
    case Ident(_) => true
    case Select(target, _, _) => Accepts(target, TObject)
    case Index(target, key) =>
      || (Infer(key) in {None, Some(TText)} && Accepts(target, TObject) && Accepts(key, TText))
      || (Infer(key) == Some(TInt) && Accepts(target, TList) && Accepts(key, TInt))
    case Logic(_, left, right) => expected == TBool && Accepts(left, TBool) && Accepts(right, TBool)
    case Quantifier(_, target, _, body) => expected == TBool && Accepts(target, TList) && Accepts(body, TBool)
    case Cond(condition, yes, no) =>
      expected in {TBool, TText, TInt} && Accepts(condition, TBool) && Accepts(yes, expected) && Accepts(no, expected)
    case Neg(operand) => expected == TInt && Accepts(operand, TInt)
    case Not(operand) => expected == TBool && Accepts(operand, TBool)
    case Size(operand) =>
      && expected == TInt
      && if operand.Ident? || operand.Select? || operand.Index? then Accepts(operand, TAny)
         else Infer(operand) == Some(TText) && Accepts(operand, TText)
    case In(needle, list) => expected == TBool && list.ListLit? && Accepts(needle, TText)
    case Matches(text, _) => expected == TBool && Accepts(text, TText)
    case Compare(op, left, right) =>
      && expected == TBool
      && (if op in {CmpLt, CmpLe, CmpGt, CmpGe} then Accepts(left, TInt) && Accepts(right, TInt)
          else
            match OrElse(Infer(left), Infer(right))
            case Some(kind) => kind in {TBool, TText, TInt} && Accepts(left, kind) && Accepts(right, kind)
            case None => Accepts(left, TText) && Accepts(right, TText))
    case Arith(_, left, right) => expected == TInt && Accepts(left, TInt) && Accepts(right, TInt)
    case Test(_, text, argument) => expected == TBool && Accepts(text, TText) && Accepts(argument, TText)
    case ListLit(_) | Nonsense => false
  }

  /** The bindings read as dictionaries, not counting comprehension variables in scope; `asObject` tells whether the
      plan itself is needed as one. */
  function ObjectRoots(p: Plan, asObject: bool, names: set<Text>): set<Text> {
    match p
    case Ident(name) => if asObject && name !in names then {name} else {}
    case Select(target, _, _) => ObjectRoots(target, true, names)
    case Index(target, key) => ObjectRoots(target, KeyType(key) == TText, names) + ObjectRoots(key, false, names)
    case Logic(_, left, right) => ObjectRoots(left, false, names) + ObjectRoots(right, false, names)
    case Quantifier(_, target, variable, body) =>
      ObjectRoots(target, false, names) + ObjectRoots(body, false, names + {variable})
    case Cond(condition, yes, no) =>
      ObjectRoots(condition, false, names) + ObjectRoots(yes, false, names) + ObjectRoots(no, false, names)
    case Neg(_) | Not(_) | Size(_) | In(_, _) | Matches(_, _) => ObjectRoots(Operand(p), false, names)
    case Compare(_, _, _) | Arith(_, _, _) | Test(_, _, _) =>
      ObjectRoots(LeftOperand(p), false, names) + ObjectRoots(RightOperand(p), false, names)
    case BoolLit(_) | IntLit(_) | TextLit(_) | ListLit(_) | Nonsense => {}
  }

  /** The names of the selection chains whose root is no comprehension variable. */
  function DottedNames(p: Plan, names: set<Text>): set<Text> {
    match p
    case Select(target, _, _) =>
      var rest := DottedNames(target, names);
      if QualifiedName(p).Some? && ChainRoot(p).Some? && ChainRoot(p).value !in names
      then rest + {QualifiedName(p).value} else rest
    case Index(target, key) => DottedNames(target, names) + DottedNames(key, names)
    case Logic(_, left, right) => DottedNames(left, names) + DottedNames(right, names)
    case Quantifier(_, target, variable, body) => DottedNames(target, names) + DottedNames(body, names + {variable})
    case Cond(condition, yes, no) =>
      DottedNames(condition, names) + DottedNames(yes, names) + DottedNames(no, names)
    case Neg(_) | Not(_) | Size(_) | In(_, _) | Matches(_, _) => DottedNames(Operand(p), names)
    case Compare(_, _, _) | Arith(_, _, _) | Test(_, _, _) =>
      DottedNames(LeftOperand(p), names) + DottedNames(RightOperand(p), names)
    case Ident(_) | BoolLit(_) | IntLit(_) | TextLit(_) | ListLit(_) | Nonsense => {}
  }

  /** The literal patterns of the plan's `matches` calls. */
  function Patterns(p: Plan): set<Text> {
    match p
    case Matches(text, pattern) => Patterns(text) + {pattern}
    case Select(target, _, _) => Patterns(target)
    case Index(target, key) => Patterns(target) + Patterns(key)
    case Logic(_, left, right) => Patterns(left) + Patterns(right)
    case Quantifier(_, target, _, body) => Patterns(target) + Patterns(body)
    case Cond(condition, yes, no) => Patterns(condition) + Patterns(yes) + Patterns(no)
    case Neg(_) | Not(_) | Size(_) | In(_, _) => Patterns(Operand(p))
    case Compare(_, _, _) | Arith(_, _, _) | Test(_, _, _) => Patterns(LeftOperand(p)) + Patterns(RightOperand(p))
    case Ident(_) | BoolLit(_) | IntLit(_) | TextLit(_) | ListLit(_) | Nonsense => {}
  }
}
