/** The compiler of plain-data plans to JavaScript: a counter, a stack of scopes, and nested expressions. */
module JavaScriptEmitter {
  import opened Values
  import opened Plans
  import opened Encodings
  import Emitter
  import opened JavaScriptTarget

  datatype Emission = Emission(x: Js, counter: nat)

  /** `JSON.stringify` of a literal. */
  function Literal(p: Plan): Option<JsVal> {
    match p
    case BoolLit(b) => Some(JBool(b))
    case IntLit(n) => Some(JNumber(n))
    case TextLit(t) => Some(JText(Write(UTF_16, t)))
    case _ => None
  }

  function Guarded(read: Js, expected: PlainType, counter: nat): Emission {
    Emission(JGuard(counter + 1, read, expected), counter + 1)
  }

  /** Membership is a chain of comparisons, each with its own copy of the needle. */
  function Members(needle: Js, members: seq<Text>): Js {
    if members == [] then JUnary(OpComma, needle)
    else if |members| == 1 then JBinary(OpSame, needle, JLit(JText(Write(UTF_16, members[0]))))
    else JLogic(false, JBinary(OpSame, needle, JLit(JText(Write(UTF_16, members[0])))), Members(needle, members[1..]))
  }

  function UnaryOp(p: Plan): Op1
    requires IsUnary(p) && !p.In? && OperandType(p).Some?
  {
    match p
    case Neg(_) => OpNeg
    case Not(_) => OpNot
    case Size(_) => if OperandType(p) == Some(TText) then OpStringSize else OpSizeOf
    case Matches(_, pattern) => OpMatches(pattern)
  }

  function UnaryJs(p: Plan, x: Js): Js
    requires IsUnary(p) && OperandType(p).Some?
  {
    if p.In? then Members(x, p.list.members) else JUnary(UnaryOp(p), x)
  }

  function BinaryOp(p: Plan): Op2
    requires IsBinary(p)
  {
    match p
    case Compare(op, _, _) => if op == CmpEq then OpSame else if op == CmpNe then OpDiffers else OpOrder(op)
    case Arith(op, _, _) => OpInt(op)
    case Test(test, _, _) => OpTest(test)
  }

  /** The operator and the operand types of `target[key]`; keys of other types are refused. */
  function IndexOp(p: Plan): Option<Op2>
    requires p.Index?
  {
    if KeyType(p.key) == TText then Some(OpEntry) else if KeyType(p.key) == TInt then Some(OpItem) else None
  }

  /** `emit`, as a function of the counter. */
  function Emit(p: Plan, expected: PlainType, scopes: seq<Emitter.Scope>, counter: nat): Option<Emission> {
    match p
    case BoolLit(_) => if expected == TBool then Some(Emission(JLit(Literal(p).value), counter)) else None
    case IntLit(_) => if expected == TInt then Some(Emission(JLit(Literal(p).value), counter)) else None
    case TextLit(_) => if expected == TText then Some(Emission(JLit(Literal(p).value), counter)) else None
    case Ident(name) =>
      (match Emitter.FindScope(scopes, name)
       case Some(e) => Some(Guarded(JLocal(e), expected, counter))
       case None => Some(Guarded(JBinding(name), expected, counter)))
    case Select(target, field, _) =>
      var t :- Emit(target, TObject, scopes, counter);
      Some(Guarded(JUnary(OpField(field), t.x), expected, t.counter))
    case Index(target, key) =>
      var op :- IndexOp(p);
      var t :- Emit(target, IndexedType(p), scopes, counter);
      var k :- Emit(key, KeyType(key), scopes, t.counter);
      Some(Guarded(JBinary(op, t.x, k.x), expected, k.counter))
    case Cond(condition, yes, no) =>
      if expected in {TObject, TList, TAny} then None else
      var c :- Emit(condition, TBool, scopes, counter);
      var y :- Emit(yes, expected, scopes, c.counter);
      var n :- Emit(no, expected, scopes, y.counter);
      Some(Emission(JChoice(c.x, y.x, n.x), n.counter))
    case Logic(conj, left, right) =>
      if expected != TBool then None else
      var l :- Emit(left, TBool, scopes, counter);
      var r :- Emit(right, TBool, scopes, l.counter);
      Some(Emission(JLogic(conj, l.x, r.x), r.counter))
    case Quantifier(universal, target, variable, body) =>
      if expected != TBool then None else
      var t :- Emit(target, TList, scopes, counter);
      var e := t.counter + 1;
      var b :- Emit(body, TBool, scopes + [Emitter.Scope(variable, e)], e);
      Some(Emission(JLoop(universal, t.x, e, b.x), b.counter))
    case Neg(_) | Not(_) | Size(_) | In(_, _) | Matches(_, _) =>
      if expected != ResultType(p) then None else
      var kind :- OperandType(p);
      var o :- Emit(Operand(p), kind, scopes, counter);
      Some(Emission(UnaryJs(p, o.x), o.counter))
    case Compare(_, _, _) | Arith(_, _, _) | Test(_, _, _) =>
      if expected != ResultType(p) then None else
      var kind :- OperandsType(p);
      var l :- Emit(LeftOperand(p), kind, scopes, counter);
      var r :- Emit(RightOperand(p), kind, scopes, l.counter);
      Some(Emission(JBinary(BinaryOp(p), l.x, r.x), r.counter))
    case ListLit(_) | Nonsense => None
  }

  /** `compileFastPath`: only boolean and text results; every temporary is declared. */
  function Compile(p: Plan): Option<Function> {
    if Infer(p) != Some(TBool) && Infer(p) != Some(TText) then None else
    var e :- Emit(p, Infer(p).value, [], 0);
    Some(Function(e.counter, e.x))
  }

  // ----- the compiler as the object it is -----

  class PlainCompiler {
    var counter: nat
    var scopes: seq<Emitter.Scope>

    constructor ()
      ensures counter == 0 && scopes == []
    {
      counter, scopes := 0, [];
    }

    method Guard(read: Js, expected: PlainType) returns (x: Js)
      modifies this`counter
      ensures Emission(x, counter) == Guarded(read, expected, old(counter))
    {
      counter := counter + 1;
      x := JGuard(counter, read, expected);
    }

    method FindLocal(name: Text) returns (e: Option<nat>)
      ensures e == Emitter.FindScope(scopes, name)
    {
      var index := |scopes|;
      assert scopes[..index] == scopes;
      while index > 0
        invariant 0 <= index <= |scopes|
        invariant Emitter.FindScope(scopes, name) == Emitter.FindScope(scopes[..index], name)
      {
        index := index - 1;
        assert scopes[..index + 1][..index] == scopes[..index];
        if scopes[index].name == name {
          return Some(scopes[index].v);
        }
      }
      e := None;
    }

    /** `emit`. The stack of scopes is what it was, also where the node is refused. */
    method EmitNode(p: Plan, expected: PlainType) returns (x: Option<Js>)
      modifies this
      ensures scopes == old(scopes)
      ensures var r := Emit(p, expected, old(scopes), old(counter));
              (x.Some? <==> r.Some?) && (x.Some? ==> r.value == Emission(x.value, counter))
      decreases p
    {
      hide Infer, OperandType, OperandsType, KeyType, IndexedType, ResultType, IndexOp, UnaryJs, BinaryOp,
           Emitter.FindScope;
      match p
      case BoolLit(_) => return if expected == TBool then Some(JLit(Literal(p).value)) else None;
      case IntLit(_) => return if expected == TInt then Some(JLit(Literal(p).value)) else None;
      case TextLit(_) => return if expected == TText then Some(JLit(Literal(p).value)) else None;
      case Ident(name) =>
        var e := FindLocal(name);
        var read := Guard(if e.Some? then JLocal(e.value) else JBinding(name), expected);
        return Some(read);
      case Select(target, field, _) =>
        var t := EmitNode(target, TObject);
        if t.None? {
          return None;
        }
        var read := Guard(JUnary(OpField(field), t.value), expected);
        return Some(read);
      case Index(target, key) =>
        var op := IndexOp(p);
        if op.None? {
          return None;
        }
        var t := EmitNode(target, IndexedType(p));
        var k := EmitNode(key, KeyType(key));
        if t.None? || k.None? {
          return None;
        }
        var read := Guard(JBinary(op.value, t.value, k.value), expected);
        return Some(read);
      case Cond(condition, yes, no) =>
        if expected in {TObject, TList, TAny} {
          return None;
        }
        var c := EmitNode(condition, TBool);
        var y := EmitNode(yes, expected);
        var n := EmitNode(no, expected);
        return if c.None? || y.None? || n.None? then None else Some(JChoice(c.value, y.value, n.value));
      case Logic(conj, left, right) =>
        if expected != TBool {
          return None;
        }
        var l := EmitNode(left, TBool);
        var r := EmitNode(right, TBool);
        return if l.None? || r.None? then None else Some(JLogic(conj, l.value, r.value));
      case Quantifier(universal, target, variable, body) =>
        if expected != TBool {
          return None;
        }
        var list := EmitNode(target, TList);
        if list.None? {
          return None;
        }
        counter := counter + 1;
        var e := counter;
        scopes := scopes + [Emitter.Scope(variable, e)];
        var inner := EmitNode(body, TBool);
        scopes := scopes[..|scopes| - 1];
        return if inner.None? then None else Some(JLoop(universal, list.value, e, inner.value));
      case Neg(_) | Not(_) | Size(_) | In(_, _) | Matches(_, _) =>
        if expected != ResultType(p) || OperandType(p).None? {
          return None;
        }
        var o := EmitNode(Operand(p), OperandType(p).value);
        return if o.None? then None else Some(UnaryJs(p, o.value));
      case Compare(_, _, _) | Arith(_, _, _) | Test(_, _, _) =>
        if expected != ResultType(p) || OperandsType(p).None? {
          return None;
        }
        var l := EmitNode(LeftOperand(p), OperandsType(p).value);
        var r := EmitNode(RightOperand(p), OperandsType(p).value);
        return if l.None? || r.None? then None else Some(JBinary(BinaryOp(p), l.value, r.value));
      case ListLit(_) | Nonsense => return None;
    }
  }

  /** `compileFastPath`, up to the text it writes. */
  method CompileFastPath(root: Plan) returns (f: Option<Function>)
    ensures f == Compile(root)
  {
    if Infer(root) != Some(TBool) && Infer(root) != Some(TText) {
      return None;
    }
    var compiler := new PlainCompiler();
    var body := compiler.EmitNode(root, Infer(root).value);
    return if body.None? then None else Some(Function(compiler.counter, body.value));
  }
}
