/** What the compiled JavaScript answers is what CEL answers, for the same bindings as the engine receives them. */
module JavaScriptSoundness {
  import opened Values
  import opened Plans
  import opened Encodings
  import opened JavaScriptNumbers
  import opened JavaScriptTarget
  import opened JavaScriptReading
  import JavaScriptEmitter
  import LazySemantics
  import CompiledPlans
  import Soundness
  import Engine
  import Emitter
  import PythonTarget
  import Contract

  /** The value the engine receives: exact integers, decoded texts. Whatever it does not receive as one of the plain
      values, fractions and ill-formed texts among them, is foreign. */
  function Cel(v: JsVal): Value {
    match v
    case JBool(b) => VBool(b)
    case JNumber(n) => if IsSafe(n) then VInt(n) else MISSING
    case JBigInt(n) => if IsInt64(n) then VInt(n) else MISSING
    case JText(units) => if WellFormedUtf16(units) then VText(ReadUtf16(units)) else MISSING
    case JList(items) => VList(seq(|items|, i requires 0 <= i < |items| => Cel(items[i])))
    case JObject(fields) => VMap(map k | k in TextKeys(fields) :: Cel(fields[k.t]))
    case JOther(tag) => Foreign(tag)
    case JUndefined => MISSING
  }

  function TextKeys(fields: map<Text, JsVal>): (r: set<Key>)
    ensures forall k :: k in r <==> k.TextKey? && k.t in fields
  {
    set name | name in fields :: TextKey(name)
  }

  function CelLocals(locals: seq<JsLocal>): seq<Engine.Local> {
    seq(|locals|, i requires 0 <= i < |locals| => Engine.Local(locals[i].name, Cel(locals[i].value)))
  }

  function CelBindings(b: map<Text, JsVal>): Bindings {
    Cel(JObject(b)).fields
  }

  /** The native matcher answers what the engine's matcher answers, whenever it answers. */
  ghost predicate MatcherAgrees(run: (Text, Text) -> Engine.Result<bool>, host: Engine.Host) {
    forall t, pattern :: run(t, pattern).Ok? ==> Engine.Matched(host, t, pattern) == run(t, pattern)
  }

  ghost predicate Reads(host: Engine.Host, m: Machine, locals: seq<JsLocal>, p: Plan) {
    && Rounding(m.fl) && Planned(p) && MatcherAgrees(m.run, host)
    && Soundness.Unambiguous(host, CelBindings(m.bindings), p, Engine.LocalNames(CelLocals(locals)))
  }

  /** The value of a reading is the CEL result. */
  ghost predicate IsCel(host: Engine.Host, m: Machine, locals: seq<JsLocal>, p: Plan, expected: PlainType) {
    var v := Reading(m, locals, p, expected);
    v.Some? && !Cel(v.value).Foreign? ==>
      Engine.Eval(host, CelBindings(m.bindings), CelLocals(locals), p) == Engine.Ok(Cel(v.value))
  }

  lemma {:induction false} ReadingIsCel(host: Engine.Host, m: Machine, locals: seq<JsLocal>, p: Plan,
      expected: PlainType)
    requires Reads(host, m, locals, p)
    ensures IsCel(host, m, locals, p, expected)
    decreases p, 1
  {
    match p
    case BoolLit(_) | IntLit(_) | ListLit(_) | Nonsense =>
    case TextLit(t) => ReadAfterWrite(t);
    case Ident(name) =>
      LocalIsCel(locals, name);
      FieldIsCel(m.bindings, name);
    case Select(_, _, _) => SelectIsCel(host, m, locals, p, expected);
    case Index(_, _) => IndexIsCel(host, m, locals, p, expected);
    case Logic(_, _, _) => LogicIsCel(host, m, locals, p, expected);
    case Quantifier(_, _, _, _) => QuantifierIsCel(host, m, locals, p, expected);
    case Cond(_, _, _) => CondIsCel(host, m, locals, p, expected);
    case Neg(_) | Not(_) | Size(_) | In(_, _) | Matches(_, _) => UnaryIsCel(host, m, locals, p, expected);
    case Compare(_, _, _) | Arith(_, _, _) | Test(_, _, _) => BinaryIsCel(host, m, locals, p, expected);
  }

  lemma {:induction false} LocalIsCel(locals: seq<JsLocal>, name: Text)
    ensures match FindLocal(locals, name)
            case Some(v) => Engine.FindLocal(CelLocals(locals), name) == Some(Cel(v))
            case None => Engine.FindLocal(CelLocals(locals), name).None?
  {
    if locals != [] {
      var n := |locals| - 1;
      LocalIsCel(locals[..n], name);
      assert CelLocals(locals)[..n] == CelLocals(locals[..n]);
    }
  }

  lemma {:induction false} FieldIsCel(fields: map<Text, JsVal>, name: Text)
    ensures name in fields <==> TextKey(name) in CelBindings(fields)
    ensures name in fields ==> CelBindings(fields)[TextKey(name)] == Cel(FieldOf(fields, name))
  {
  }

  lemma {:induction false} SelectIsCel(host: Engine.Host, m: Machine, locals: seq<JsLocal>, p: Plan,
      expected: PlainType)
    requires p.Select? && Reads(host, m, locals, p)
    ensures IsCel(host, m, locals, p, expected)
    decreases p, 0
  {
    ReadingIsCel(host, m, locals, p.target, TObject);
    var t := Reading(m, locals, p.target, TObject);
    if t.Some? {
      FieldIsCel(t.value.fields, p.field);
    }
    Soundness.SelectNotResolved(host, CelBindings(m.bindings), CelLocals(locals), p);
  }

  lemma {:induction false} IndexIsCel(host: Engine.Host, m: Machine, locals: seq<JsLocal>, p: Plan, expected: PlainType)
    requires p.Index? && Reads(host, m, locals, p)
    ensures IsCel(host, m, locals, p, expected)
    decreases p, 0
  {
    hide Rounding, Planned, MatcherAgrees, Soundness.Unambiguous, Cel, Apply2, Engine.Indexed;
    var kind := IndexedType(p);
    IndexReads(host, m, locals, p);
    ReadingIsCel(host, m, locals, p.target, kind);
    ReadingIsCel(host, m, locals, p.key, KeyType(p.key));
    var t, k := Reading(m, locals, p.target, kind), Reading(m, locals, p.key, KeyType(p.key));
    if t.Some? && k.Some? && JavaScriptEmitter.IndexOp(p).Some? {
      EntryIsCel(m, p, t.value, k.value);
    }
  }

  lemma {:induction false} IndexReads(host: Engine.Host, m: Machine, locals: seq<JsLocal>, p: Plan)
    requires p.Index? && Reads(host, m, locals, p)
    ensures Reads(host, m, locals, p.target) && Reads(host, m, locals, p.key)
  {
    hide Rounding, MatcherAgrees;
  }

  lemma {:induction false} EntryIsCel(m: Machine, p: Plan, t: JsVal, k: JsVal)
    requires p.Index? && JavaScriptEmitter.IndexOp(p).Some? && Passes(t, IndexedType(p)) && Passes(k, KeyType(p.key))
    ensures var r := Apply2(m, JavaScriptEmitter.IndexOp(p).value, t, k);
            && !Cel(t).Foreign? && !Cel(k).Foreign? && r.Val?
            && (!Cel(r.value).Foreign? ==> Engine.Indexed(Cel(t), Cel(k)) == Engine.Ok(Cel(r.value)))
  {
    if k.JText? {
      FieldIsCel(t.fields, ReadUtf16(k.units));
    }
  }

  lemma {:induction false} LogicIsCel(host: Engine.Host, m: Machine, locals: seq<JsLocal>, p: Plan, expected: PlainType)
    requires p.Logic? && Reads(host, m, locals, p)
    ensures IsCel(host, m, locals, p, expected)
    decreases p, 0
  {
    ReadingIsCel(host, m, locals, p.left, TBool);
    ReadingIsCel(host, m, locals, p.right, TBool);
  }

  lemma {:induction false} CondIsCel(host: Engine.Host, m: Machine, locals: seq<JsLocal>, p: Plan, expected: PlainType)
    requires p.Cond? && Reads(host, m, locals, p)
    ensures IsCel(host, m, locals, p, expected)
    decreases p, 0
  {
    ReadingIsCel(host, m, locals, p.condition, TBool);
    ReadingIsCel(host, m, locals, p.yes, expected);
    ReadingIsCel(host, m, locals, p.no, expected);
  }

  lemma {:induction false} QuantifierIsCel(host: Engine.Host, m: Machine, locals: seq<JsLocal>, p: Plan,
      expected: PlainType)
    requires p.Quantifier? && Reads(host, m, locals, p)
    ensures IsCel(host, m, locals, p, expected)
    decreases p, 0
  {
    ReadingIsCel(host, m, locals, p.target, TList);
    var t := Reading(m, locals, p.target, TList);
    if t.Some? {
      ItemsAreCel(host, m, locals, p.universal, p.variable, p.body, t.value.items);
    }
  }

  lemma {:induction false} ItemsAreCel(host: Engine.Host, m: Machine, locals: seq<JsLocal>, universal: bool,
      variable: Text, body: Plan, items: seq<JsVal>)
    requires Rounding(m.fl) && Planned(body) && MatcherAgrees(m.run, host)
    requires Soundness.Unambiguous(host, CelBindings(m.bindings), body,
                                   Engine.LocalNames(CelLocals(locals)) + {variable})
    ensures var v := ReadingItems(m, locals, universal, variable, body, items);
            v.Some? ==>
              Engine.EvalItems(host, CelBindings(m.bindings), CelLocals(locals), universal, variable, body,
                               Cel(JList(items)).items, None) == Engine.Ok(Cel(v.value))
    decreases body, 2, |items|
  {
    if items != [] {
      var inner := locals + [JsLocal(variable, items[0])];
      assert CelLocals(inner) == CelLocals(locals) + [Engine.Local(variable, Cel(items[0]))];
      Soundness.PushedNames(CelLocals(locals), Engine.Local(variable, Cel(items[0])));
      ReadingIsCel(host, m, inner, body, TBool);
      ItemsAreCel(host, m, locals, universal, variable, body, items[1..]);
      assert Cel(JList(items)).items[1..] == Cel(JList(items[1..])).items;
    }
  }

  lemma {:induction false} UnaryIsCel(host: Engine.Host, m: Machine, locals: seq<JsLocal>, p: Plan, expected: PlainType)
    requires IsUnary(p) && Reads(host, m, locals, p)
    ensures IsCel(host, m, locals, p, expected)
    decreases p, 0
  {
    hide Rounding, MatcherAgrees, Soundness.Unambiguous, Engine.Eval, Cel, UnaryAnswer, OneAnswered;
    UnaryReads(host, m, locals, p);
    UnaryIsChecked(m, locals, p, expected);
    if OperandType(p).Some? && Reading(m, locals, Operand(p), OperandType(p).value).Some? {
      var v := Reading(m, locals, Operand(p), OperandType(p).value).value;
      ReadingIsCel(host, m, locals, Operand(p), OperandType(p).value);
      OneIsCel(host, m, p, v);
      var answer := UnaryAnswer(m, p, v);
      if answer.Some? {
        OneEvaluates(host, CelBindings(m.bindings), CelLocals(locals), p, Cel(v), Cel(answer.value));
      }
    }
  }

  lemma {:induction false} UnaryReads(host: Engine.Host, m: Machine, locals: seq<JsLocal>, p: Plan)
    requires IsUnary(p) && Reads(host, m, locals, p)
    ensures Reads(host, m, locals, Operand(p))
  {
    hide Rounding, MatcherAgrees;
  }

  lemma {:induction false} UnaryIsChecked(m: Machine, locals: seq<JsLocal>, p: Plan, expected: PlainType)
    requires IsUnary(p)
    ensures var a := ReadingUnary(m, locals, p);
            Reading(m, locals, p, expected) == (if a.Some? then Checked(a.value, expected) else None)
  {
    hide ReadingUnary;
  }

  /** An answer of an operator with one operand, as the engine gives it. */
  ghost predicate OneAnswered(host: Engine.Host, p: Plan, v: Value, answer: Value)
    requires IsUnary(p)
  {
    && !v.Foreign?
    && match p
       case Neg(_) => Engine.Negated(v) == Engine.Ok(answer)
       case Not(_) => v.VBool? && answer == VBool(!v.b)
       case Size(_) => Engine.Sized(v) == Engine.Ok(answer)
       case In(_, list) => list.ListLit? && Engine.Member(v, VList(Engine.TextsOf(list.members))) == Engine.Ok(answer)
       case Matches(_, pattern) =>
         && v.VText?
         && answer.VBool?
         && Engine.Matched(host, v.t, pattern) == Engine.Ok(answer.b)
  }

  lemma {:induction false} OneEvaluates(host: Engine.Host, b: Bindings, locals: seq<Engine.Local>, p: Plan, v: Value,
      answer: Value)
    requires IsUnary(p) && OneAnswered(host, p, v, answer) && Engine.Eval(host, b, locals, Operand(p)) == Engine.Ok(v)
    ensures Engine.Eval(host, b, locals, p) == Engine.Ok(answer)
  {
    hide Engine.Negated, Engine.Sized, Engine.Member;
  }

  /** One operator, its operand being what it is meant for. */
  lemma {:induction false} OneIsCel(host: Engine.Host, m: Machine, p: Plan, v: JsVal)
    requires IsUnary(p) && OperandType(p).Some? && Passes(v, OperandType(p).value) && Planned(p)
    requires MatcherAgrees(m.run, host)
    ensures UnaryAnswer(m, p, v).Some? ==>
              OneAnswered(host, p, Cel(v), Cel(UnaryAnswer(m, p, v).value)) && !Cel(v).Foreign?
  {
    match p
    case Neg(_) => NegationIsExact(v.n);
    case Not(_) =>
    case Size(_) => if v.JText? && WellFormedUtf16(v.units) { SizeIsCount(v.units); NotHighShorter(v.units); }
    case In(_, list) => MembersAreCel(v.units, list.members);
    case Matches(_, _) =>
  }

  lemma {:induction false} MembersAreCel(units: seq<Unit>, members: seq<Text>)
    requires WellFormedUtf16(units) && forall i :: 0 <= i < |members| ==> PlannedText(members[i])
    ensures Among(units, members) <==> VText(ReadUtf16(units)) in Engine.TextsOf(members)
  {
    Soundness.TextMembership(ReadUtf16(units), members);
    WriteAfterRead(units);
    forall t | t in members && units == Write(UTF_16, t) ensures t == ReadUtf16(units) {
      ReadAfterWrite(t);
    }
  }

  lemma {:induction false} BinaryIsCel(host: Engine.Host, m: Machine, locals: seq<JsLocal>, p: Plan,
      expected: PlainType)
    requires IsBinary(p) && Reads(host, m, locals, p)
    ensures IsCel(host, m, locals, p, expected)
    decreases p, 0
  {
    hide Rounding, Planned, MatcherAgrees, Soundness.Unambiguous, Engine.Eval, Cel, Apply2, PairAnswered;
    BinaryReads(host, m, locals, p);
    ReadingIsChecked(m, locals, p, expected);
    if OperandsType(p).Some? {
      var kind := OperandsType(p).value;
      var l, r := Reading(m, locals, LeftOperand(p), kind), Reading(m, locals, RightOperand(p), kind);
      ReadingIsCel(host, m, locals, LeftOperand(p), kind);
      ReadingIsCel(host, m, locals, RightOperand(p), kind);
      if l.Some? && r.Some? {
        var answer := Apply2(m, JavaScriptEmitter.BinaryOp(p), l.value, r.value);
        PairIsCel(m, p, l.value, r.value);
        if answer.Val? {
          PairForeign(p, Cel(l.value), Cel(r.value), Cel(answer.value));
          PairEvaluates(host, CelBindings(m.bindings), CelLocals(locals), p, Cel(l.value), Cel(r.value),
                        Cel(answer.value));
        }
      }
    }
  }

  lemma {:induction false} PairForeign(p: Plan, a: Value, b: Value, answer: Value)
    requires IsBinary(p) && PairAnswered(p, a, b, answer)
    ensures !a.Foreign? && !b.Foreign?
  {
  }

  lemma {:induction false} PairEvaluates(host: Engine.Host, b: Bindings, locals: seq<Engine.Local>, p: Plan, x: Value,
      y: Value, answer: Value)
    requires IsBinary(p) && PairAnswered(p, x, y, answer)
    requires Engine.Eval(host, b, locals, LeftOperand(p)) == Engine.Ok(x)
    requires Engine.Eval(host, b, locals, RightOperand(p)) == Engine.Ok(y)
    ensures Engine.Eval(host, b, locals, p) == Engine.Ok(answer)
  {
    hide Engine.Compared, Engine.Arithmetics, Engine.Tested;
  }

  lemma {:induction false} ReadingIsChecked(m: Machine, locals: seq<JsLocal>, p: Plan, expected: PlainType)
    requires IsBinary(p)
    ensures var a := ReadingBinary(m, locals, p);
            Reading(m, locals, p, expected) == (if a.Some? then Checked(a.value, expected) else None)
  {
    hide ReadingBinary;
  }

  lemma {:induction false} BinaryReads(host: Engine.Host, m: Machine, locals: seq<JsLocal>, p: Plan)
    requires IsBinary(p) && Reads(host, m, locals, p)
    ensures Reads(host, m, locals, LeftOperand(p)) && Reads(host, m, locals, RightOperand(p))
  {
    hide Rounding, MatcherAgrees;
  }

  /** An answer of an operator with two operands, as the engine gives it. */
  ghost predicate PairAnswered(p: Plan, a: Value, b: Value, answer: Value)
    requires IsBinary(p)
  {
    && !a.Foreign? && !b.Foreign?
    && match p
       case Compare(op, _, _) => Engine.Compared(op, a, b) == Engine.Ok(answer)
       case Arith(op, _, _) => Engine.Arithmetics(op, a, b) == Engine.Ok(answer)
       case Test(test, _, _) => a.VText? && b.VText? && answer == VBool(Engine.Tested(test, a.t, b.t))
  }

  lemma {:induction false} PairIsCel(m: Machine, p: Plan, a: JsVal, b: JsVal)
    requires IsBinary(p) && OperandsType(p).Some? && Rounding(m.fl)
    requires Passes(a, OperandsType(p).value) && Passes(b, OperandsType(p).value)
    ensures var r := Apply2(m, JavaScriptEmitter.BinaryOp(p), a, b);
            r.Val? ==> PairAnswered(p, Cel(a), Cel(b), Cel(r.value))
  {
    match p
    case Compare(_, _, _) => ComparisonIsCel(m, p, a, b);
    case Arith(op, _, _) =>
      hide Rounding, ArithmeticInt, Engine.Arithmetics;
      IntsAreCel(m.fl, op, a.n, b.n);
    case Test(test, _, _) =>
      hide Rounding, ReadUtf16, WellFormedUtf16, UnitsTested, Engine.Tested;
      TestIsCel(test, a.units, b.units);
  }

  lemma {:induction false} ComparisonIsCel(m: Machine, p: Plan, a: JsVal, b: JsVal)
    requires p.Compare? && OperandsType(p).Some?
    requires Passes(a, OperandsType(p).value) && Passes(b, OperandsType(p).value)
    ensures var r := Apply2(m, JavaScriptEmitter.BinaryOp(p), a, b);
            r.Val? ==> PairAnswered(p, Cel(a), Cel(b), Cel(r.value))
  {
    hide ReadUtf16, WellFormedUtf16, Infer;
    if a.JText? && b.JText? {
      TextsRead(a.units, b.units);
    }
  }

  lemma {:induction false} TestIsCel(test: TextTest, a: seq<Unit>, b: seq<Unit>)
    requires WellFormedUtf16(a) && WellFormedUtf16(b)
    ensures UnitsTested(test, a, b) <==> Engine.Tested(test, ReadUtf16(a), ReadUtf16(b))
  {
    hide ReadUtf16, WellFormedUtf16, UnitsTested;
    TextsRead(a, b);
    ThreeViewsAgree(test, ReadUtf16(a), ReadUtf16(b));
  }

  lemma {:induction false} IntsAreCel(fl: real -> real, op: Arithmetic, a: int, b: int)
    requires Rounding(fl) && IsSafe(a) && IsSafe(b)
    ensures ArithmeticInt(fl, op, a, b).Some? ==>
              var n := ArithmeticInt(fl, op, a, b).value;
              IsSafe(n) && Engine.Arithmetics(op, VInt(a), VInt(b)) == Engine.Ok(VInt(n))
  {
    hide Rounding, ArithmeticInt, Engine.Arithmetics;
    ArithmeticIsExact(fl, op, a, b);
  }

  lemma {:induction false} TextsRead(a: seq<Unit>, b: seq<Unit>)
    requires WellFormedUtf16(a) && WellFormedUtf16(b)
    ensures a == b <==> ReadUtf16(a) == ReadUtf16(b)
    ensures Write(UTF_16, ReadUtf16(a)) == a && Write(UTF_16, ReadUtf16(b)) == b
  {
    WriteAfterRead(a);
    WriteAfterRead(b);
  }

  // ----- calls -----

  lemma {:induction false} DottedHaveDots(p: Plan, names: set<Text>)
    ensures forall q :: q in LazySemantics.DottedNames(p, names) ==> DOT in q
  {
    match p
    case Select(target, field, _) =>
      DottedHaveDots(target, names);
      if QualifiedName(target).Some? {
        assert QualifiedName(p).value[|QualifiedName(target).value|] == DOT;
      }
    case Index(target, key) => DottedHaveDots(target, names); DottedHaveDots(key, names);
    case Logic(_, left, right) => DottedHaveDots(left, names); DottedHaveDots(right, names);
    case Quantifier(_, target, variable, body) =>
      DottedHaveDots(target, names);
      DottedHaveDots(body, names + {variable});
    case Cond(condition, yes, no) =>
      DottedHaveDots(condition, names);
      DottedHaveDots(yes, names);
      DottedHaveDots(no, names);
    case Neg(_) | Not(_) | Size(_) | In(_, _) | Matches(_, _) => DottedHaveDots(Operand(p), names);
    case Compare(_, _, _) | Arith(_, _, _) | Test(_, _, _) =>
      DottedHaveDots(LeftOperand(p), names);
      DottedHaveDots(RightOperand(p), names);
    case Ident(_) | BoolLit(_) | IntLit(_) | TextLit(_) | ListLit(_) | Nonsense =>
  }

  /** Bindings the compiled function takes. */
  predicate Admits(b: JsVal) {
    b.JObject? && forall name :: name in b.fields ==> DOT !in name
  }

  /** Calls, completely: a compiled function answers exactly when it admits the bindings and the reading has a value,
      and then answers that value. It raises nothing but what the matcher raises, and never uses an undeclared name. */
  lemma {:induction false} CallsAnswerTheReading(p: Plan, fl: real -> real, run: (Text, Text) -> Engine.Result<bool>,
                                                 b: JsVal)
    requires Rounding(fl) && Planned(p) && JavaScriptEmitter.Compile(p).Some?
    ensures var f := JavaScriptEmitter.Compile(p).value;
            match Call(f, fl, run, b)
            case Val(v) =>
              Admits(b) && Reading(Machine(fl, run, b.fields, f.declared), [], p, Infer(p).value) == Some(v)
            case Bail => !Admits(b) || Reading(Machine(fl, run, b.fields, f.declared), [], p, Infer(p).value).None?
            case Threw(e) =>
              && Admits(b)
              && Reading(Machine(fl, run, b.fields, f.declared), [], p, Infer(p).value).None?
              && exists t, pattern :: pattern in LazySemantics.Patterns(p) && run(t, pattern) == Engine.Err(e)
            case Fault => false
  {
    hide Rounding, Planned, Reading, Eval, JavaScriptEmitter.Emit, Infer;
    if Admits(b) {
      var f := JavaScriptEmitter.Compile(p).value;
      var m := Machine(fl, run, b.fields, f.declared);
      EmissionReads(m, map[], map[], p, Infer(p).value, [], 0, []);
    }
  }

  /** The contract of the fast path in JavaScript: an answer is the answer CEL gives for the same bindings, with
      whatever does not convert out of the way. */
  lemma {:induction false} AnswersAreCel(p: Plan, fl: real -> real, run: (Text, Text) -> Engine.Result<bool>,
      host: Engine.Host, b: JsVal)
    requires Rounding(fl) && Planned(p) && JavaScriptEmitter.Compile(p).Some?
    requires MatcherAgrees(run, host) && CompiledPlans.NoBuiltinNames(host, p)
    ensures var r := Call(JavaScriptEmitter.Compile(p).value, fl, run, b);
            r.Val? ==> b.JObject? && (r.value.JBool? || r.value.JText?) &&
                       Engine.Eval(host, Cel(b).fields, [], p) == Engine.Ok(Cel(r.value))
  {
    hide Rounding, Planned, Reading, Eval, JavaScriptEmitter.Emit, Engine.Eval;
    CallsAnswerTheReading(p, fl, run, b);
    if Admits(b) {
      var m := Machine(fl, run, b.fields, JavaScriptEmitter.Compile(p).value.declared);
      DottedHaveDots(p, {});
      assert Engine.LocalNames(CelLocals([])) == {};
      assert CelLocals([]) == [];
      ReadingIsCel(host, m, [], p, Infer(p).value);
    }
  }

  // ----- evaluation of a program -----

  /** The native matcher of a program: the engine's, on its literal patterns. */
  function LiteralPatterns(host: Engine.Host): (Text, Text) -> Engine.Result<bool> {
    (t, pattern) => Engine.LiteralMatched(host, t, pattern)
  }

  /** The encoder and the native converter take the value, and everything inside it. */
  predicate ValueConverts(host: Engine.Host, v: JsVal) {
    match v
    case JBool(_) => true
    case JNumber(n) => IsSafe(n)
    case JBigInt(n) => IsInt64(n)
    case JText(units) => WellFormedUtf16(units)
    case JList(items) => forall i :: 0 <= i < |items| ==> ValueConverts(host, items[i])
    case JObject(fields) => forall name :: name in fields ==> WellFormed(name) && ValueConverts(host, fields[name])
    case JOther(tag) => Cel(v) == Engine.NONE || host.converts(tag)
    case JUndefined => false
  }

  predicate Converts(host: Engine.Host, b: map<Text, JsVal>) {
    host.affords(CelBindings(b)) && ValueConverts(host, JObject(b))
  }

  /** What converts in JavaScript is converted to what the engine takes. */
  lemma {:induction false} ConvertedIsCel(host: Engine.Host, v: JsVal)
    requires ValueConverts(host, v)
    ensures Engine.ValueConverts(host, Cel(v))
    decreases v
  {
    match v
    case JNumber(_) =>
    case JText(units) =>
    case JList(items) =>
      forall i | 0 <= i < |items| ensures Engine.ValueConverts(host, Cel(items[i])) {
        ConvertedIsCel(host, items[i]);
      }
    case JObject(fields) =>
      forall k | k in TextKeys(fields) ensures Engine.ValueConverts(host, Cel(fields[k.t])) {
        ConvertedIsCel(host, fields[k.t]);
      }
    case _ =>
  }

  /** The same of whole bindings. */
  lemma {:induction false} ConvertedBindings(host: Engine.Host, b: map<Text, JsVal>)
    requires Converts(host, b)
    ensures Engine.Converts(host, CelBindings(b))
  {
    ConvertedIsCel(host, JObject(b));
  }

  /** What `evaluate` does: a result or an exception of the native module, which the matcher raises too, or a fault. */
  datatype Evaluation = Native(outcome: Engine.Outcome) | Escaped

  /** `evaluate`: the engine, after the compiled function bailed or when there is none. */
  function Evaluate(host: Engine.Host, p: Plan, fl: real -> real, b: map<Text, JsVal>, plainData: bool): Evaluation {
    var engine := Native(if Converts(host, b) then Engine.Evaluated(Engine.Eval(host, CelBindings(b), [], p))
                         else Engine.Refused);
    if plainData then
      match Compiled(host, p, fl, b)
      case Val(v) => Native(Engine.Evaluated(Engine.Ok(Cel(v))))
      case Bail => engine
      case Threw(e) => Native(Engine.Evaluated(Engine.Err(e)))
      case Fault => Escaped
    else engine
  }

  /** What the compiled function does; a program without one leaves every call to the engine. */
  function Compiled(host: Engine.Host, p: Plan, fl: real -> real, b: map<Text, JsVal>): Result {
    if JavaScriptEmitter.Compile(p).Some? then
      Call(JavaScriptEmitter.Compile(p).value, fl, LiteralPatterns(host), JObject(b))
    else Bail
  }

  /** When plain-data evaluation changes no result in JavaScript, for programs without selection chains that spell a
      built-in type: exactly when the call is left to the engine, or the bindings convert and the engine raises whatever
      error the matcher raised. What the function reads always converts, so only what it does not read can fail to. */
  lemma {:induction false} PlainDataChangesNothing(host: Engine.Host, p: Plan, fl: real -> real, b: map<Text, JsVal>)
    requires Rounding(fl) && Planned(p) && CompiledPlans.NoBuiltinNames(host, p)
    ensures Evaluate(host, p, fl, b, true) == Evaluate(host, p, fl, b, false) <==>
              match Compiled(host, p, fl, b)
              case Bail => true
              case Val(_) => Converts(host, b)
              case Threw(e) => Converts(host, b) && Engine.Eval(host, CelBindings(b), [], p) == Engine.Err(e)
              case Fault => false
    ensures !Compiled(host, p, fl, b).Fault?
  {
    hide Rounding, Planned, CompiledPlans.NoBuiltinNames, Call, JavaScriptEmitter.Compile, Engine.Eval, Reading, Cel,
         LazySemantics.Patterns, Converts;
    if JavaScriptEmitter.Compile(p).Some? {
      CallsAnswerTheReading(p, fl, LiteralPatterns(host), JObject(b));
      AnswersAreCel(p, fl, LiteralPatterns(host), host, JObject(b));
    }
  }

  /** With accepted patterns, only bindings that do not convert make a difference. */
  lemma {:induction false} AcceptedPatternsNeverThrow(host: Engine.Host, p: Plan, fl: real -> real, b: map<Text, JsVal>)
    requires Rounding(fl) && Planned(p) && CompiledPlans.NoBuiltinNames(host, p) && Contract.AcceptedPatterns(host, p)
    ensures !Compiled(host, p, fl, b).Threw?
    ensures Evaluate(host, p, fl, b, true) == Evaluate(host, p, fl, b, false) <==>
              Converts(host, b) || Compiled(host, p, fl, b) == Bail
  {
    hide Rounding, Planned, CompiledPlans.NoBuiltinNames, Call, JavaScriptEmitter.Compile, Engine.Eval, Reading, Cel,
         LazySemantics.Patterns, Converts;
    PlainDataChangesNothing(host, p, fl, b);
    if JavaScriptEmitter.Compile(p).Some? {
      CallsAnswerTheReading(p, fl, LiteralPatterns(host), JObject(b));
      forall t, pattern | pattern in LazySemantics.Patterns(p) ensures LiteralPatterns(host)(t, pattern).Ok? {
        assert host.matches(t, pattern).Ok?;
      }
    }
  }

  /** The two hosts never answer differently on the same data. Neither looks at built-in names, so this holds of chains
      that spell one, too: an engine without them agrees with both. */
  lemma {:induction false} HostsAgree(host: Engine.Host, p: Plan, fl: real -> real, b: JsVal)
    requires Rounding(fl) && Planned(p)
    requires JavaScriptEmitter.Compile(p).Some? && Emitter.CompilePlain(Emitter.AsWritten, p).Some?
    ensures var js := Call(JavaScriptEmitter.Compile(p).value, fl, LiteralPatterns(host), b);
            var python := PythonTarget.Call(Emitter.CompilePlain(Emitter.AsWritten, p).value,
                                            Contract.LiteralPatterns(host), Cel(b));
            js.Val? && python.Answered? ==> python.value == Cel(js.value)
  {
    hide Rounding, Planned, Call, PythonTarget.Call, JavaScriptEmitter.Compile, Engine.Eval, Cel;
    hide Emitter.CompilePlain;
    var plain := host.(builtin := _ => false);
    assert MatcherAgrees(LiteralPatterns(host), plain);
    AnswersAreCel(p, fl, LiteralPatterns(host), plain, b);
    var f := Emitter.CompilePlain(Emitter.AsWritten, p).value;
    if PythonTarget.Call(f, Contract.LiteralPatterns(host), Cel(b)).Answered? {
      CompiledPlans.AnswersAreCel(Emitter.AsWritten, p, Contract.LiteralPatterns(host), plain, Cel(b));
    }
  }
}
