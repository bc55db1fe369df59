/** The plain-data reading that the emitted JavaScript evaluates, temporaries and all, and its agreement with CEL. */
module JavaScriptReading {
  import opened Values
  import opened Plans
  import opened Encodings
  import opened JavaScriptNumbers
  import opened JavaScriptTarget
  import Emitter
  import JavaScriptEmitter
  import LazySemantics
  import Engine

  datatype JsLocal = JsLocal(name: Text, value: JsVal)

  function FindLocal(locals: seq<JsLocal>, name: Text): Option<JsVal> {
    if locals == [] then None
    else if locals[|locals| - 1].name == name then Some(locals[|locals| - 1].value)
    else FindLocal(locals[..|locals| - 1], name)
  }

  function ValueOf(r: Result): Option<JsVal> {
    if r.Val? then Some(r.value) else None
  }

  function Checked(v: JsVal, expected: PlainType): Option<JsVal> {
    if Passes(v, expected) then Some(v) else None
  }

  predicate Among(units: seq<Unit>, members: seq<Text>) {
    exists t :: t in members && units == Write(UTF_16, t)
  }

  /** What an operator with one operand answers, given its operand. Membership is membership in the list of texts. */
  function UnaryAnswer(m: Machine, p: Plan, v: JsVal): Option<JsVal>
    requires IsUnary(p)
  {
    match p
    case Neg(_) => ValueOf(Apply1(m, OpNeg, v))
    case Not(_) => ValueOf(Apply1(m, OpNot, v))
    case Size(_) => ValueOf(Apply1(m, OpSizeOf, v))
    case In(_, list) =>
      if v.JText? && list.ListLit? then Some(JBool(Among(v.units, list.members))) else None
    case Matches(_, pattern) => ValueOf(Apply1(m, OpMatches(pattern), v))
  }

  /** What a plan reads from the bindings: its value, of the expected type, or None where the engine must be asked. */
  function Reading(m: Machine, locals: seq<JsLocal>, p: Plan, expected: PlainType): (r: Option<JsVal>)
    ensures r.Some? ==> Passes(r.value, expected)
    decreases p, 1
  {
    match p
    case BoolLit(_) | IntLit(_) | TextLit(_) => Checked(JavaScriptEmitter.Literal(p).value, expected)
    case Ident(name) =>
      (match FindLocal(locals, name)
       case Some(v) => Checked(v, expected)
       case None => Checked(FieldOf(m.bindings, name), expected))
    case Select(target, field, _) =>
      var t :- Reading(m, locals, target, TObject);
      var v :- ValueOf(Apply1(m, OpField(field), t));
      Checked(v, expected)
    case Index(target, key) =>
      var op :- JavaScriptEmitter.IndexOp(p);
      var t :- Reading(m, locals, target, IndexedType(p));
      var k :- Reading(m, locals, key, KeyType(key));
      var v :- ValueOf(Apply2(m, op, t, k));
      Checked(v, expected)
    case Cond(condition, yes, no) =>
      var c :- Reading(m, locals, condition, TBool);
      if c == JBool(true) then Reading(m, locals, yes, expected) else Reading(m, locals, no, expected)
    case Logic(conj, left, right) =>
      var l :- Reading(m, locals, left, TBool);
      var v :- if l == JBool(conj) then Reading(m, locals, right, TBool) else Some(l);
      Checked(v, expected)
    case Quantifier(universal, target, variable, body) =>
      var t :- Reading(m, locals, target, TList);
      var v :- ReadingItems(m, locals, universal, variable, body, t.items);
      Checked(v, expected)
    case Neg(_) | Not(_) | Size(_) | In(_, _) | Matches(_, _) =>
      var a :- ReadingUnary(m, locals, p);
      Checked(a, expected)
    case Compare(_, _, _) | Arith(_, _, _) | Test(_, _, _) =>
      var a :- ReadingBinary(m, locals, p);
      Checked(a, expected)
    case ListLit(_) | Nonsense => None
  }

  function ReadingUnary(m: Machine, locals: seq<JsLocal>, p: Plan): Option<JsVal>
    requires IsUnary(p)
    decreases p, 0
  {
    var kind :- OperandType(p);
    var v :- Reading(m, locals, Operand(p), kind);
    UnaryAnswer(m, p, v)
  }

  function ReadingBinary(m: Machine, locals: seq<JsLocal>, p: Plan): Option<JsVal>
    requires IsBinary(p)
    decreases p, 0
  {
    var kind :- OperandsType(p);
    var l :- Reading(m, locals, LeftOperand(p), kind);
    var r :- Reading(m, locals, RightOperand(p), kind);
    ValueOf(Apply2(m, JavaScriptEmitter.BinaryOp(p), l, r))
  }

  function ReadingItems(m: Machine, locals: seq<JsLocal>, universal: bool, variable: Text, body: Plan,
      items: seq<JsVal>):
    (r: Option<JsVal>)
    ensures r.Some? ==> r.value.JBool?
    decreases body, 2, |items|
  {
    if items == [] then Some(JBool(universal))
    else
      var v :- Reading(m, locals + [JsLocal(variable, items[0])], body, TBool);
      if v != JBool(universal) then Some(v)
      else ReadingItems(m, locals, universal, variable, body, items[1..])
  }

  // ----- what the plan emitter of the engine guarantees -----

  /** Integer literals are exact doubles, and texts are well formed. */
  predicate Planned(p: Plan) {
    match p
    case IntLit(n) => IsSafe(n)
    case TextLit(t) => PlannedText(t)
    case ListLit(members) => forall i :: 0 <= i < |members| ==> PlannedText(members[i])
    case Select(target, _, _) => Planned(target)
    case Index(target, key) => Planned(target) && Planned(key)
    case Logic(_, left, right) => Planned(left) && Planned(right)
    case Quantifier(_, target, _, body) => Planned(target) && Planned(body)
    case Cond(condition, yes, no) => Planned(condition) && Planned(yes) && Planned(no)
    case In(needle, list) => Planned(needle) && Planned(list)
    case Neg(_) | Not(_) | Size(_) | Matches(_, _) => Planned(Operand(p))
    case Compare(_, _, _) | Arith(_, _, _) | Test(_, _, _) => Planned(LeftOperand(p)) && Planned(RightOperand(p))
    case Ident(_) | BoolLit(_) | Nonsense => true
  }

  predicate PlannedText(t: Text) {
    WellFormed(t) && |Write(UTF_16, t)| <= MAX_LENGTH
  }

  // ----- the emitted expression evaluates the reading -----

  /** The parameters of the arrow functions around an expression hold the comprehension variables in scope. */
  ghost predicate Holds(scopes: seq<Emitter.Scope>, counter: nat, env: Temps, locals: seq<JsLocal>) {
    && |scopes| == |locals|
    && forall i :: 0 <= i < |scopes| ==>
         && scopes[i].name == locals[i].name && scopes[i].v <= counter
         && scopes[i].v in env && env[scopes[i].v] == locals[i].value
  }

  ghost predicate MatcherThrows(m: Machine, p: Plan, e: Engine.EvalError) {
    exists t, pattern :: pattern in LazySemantics.Patterns(p) && m.run(t, pattern) == Engine.Err(e)
  }

  /** Nothing but the value of the reading, of the expected type; no value where the reading has none; no fault. */
  ghost predicate Agrees(m: Machine, p: Plan, expected: PlainType, r: Result, reading: Option<JsVal>) {
    match r
    case Val(v) => reading == Some(v) && Passes(v, expected)
    case Bail => reading.None?
    case Threw(e) => reading.None? && MatcherThrows(m, p, e)
    case Fault => false
  }

  lemma {:induction false} ScopeHolds(scopes: seq<Emitter.Scope>, counter: nat, env: Temps, locals: seq<JsLocal>,
      name: Text)
    requires Holds(scopes, counter, env, locals)
    ensures match Emitter.FindScope(scopes, name)
            case Some(e) => e in env && FindLocal(locals, name) == Some(env[e])
            case None => FindLocal(locals, name).None?
  {
    if scopes != [] {
      var n := |scopes| - 1;
      ScopeHolds(scopes[..n], counter, env, locals[..n], name);
    }
  }

  lemma {:induction false} EmissionReads(m: Machine, env: Temps, s: Temps, p: Plan, expected: PlainType,
      scopes: seq<Emitter.Scope>, counter: nat, locals: seq<JsLocal>)
    requires Rounding(m.fl) && Planned(p) && Holds(scopes, counter, env, locals)
    requires JavaScriptEmitter.Emit(p, expected, scopes, counter).Some?
    requires JavaScriptEmitter.Emit(p, expected, scopes, counter).value.counter <= m.declared
    ensures Agrees(m, p, expected, Eval(m, env, s, JavaScriptEmitter.Emit(p, expected, scopes, counter).value.x).result,
                   Reading(m, locals, p, expected))
    decreases p, 1
  {
    match p
    case BoolLit(_) | IntLit(_) =>
    case TextLit(t) => ReadAfterWrite(t);
    case Ident(name) => IdentReads(m, env, s, name, expected, scopes, counter, locals);
    case Select(_, _, _) => SelectReads(m, env, s, p, expected, scopes, counter, locals);
    case Index(_, _) => IndexReads(m, env, s, p, expected, scopes, counter, locals);
    case Cond(_, _, _) => CondReads(m, env, s, p, expected, scopes, counter, locals);
    case Logic(_, _, _) => LogicReads(m, env, s, p, expected, scopes, counter, locals);
    case Quantifier(_, _, _, _) => QuantifierReads(m, env, s, p, expected, scopes, counter, locals);
    case Neg(_) | Not(_) | Size(_) | In(_, _) | Matches(_, _) =>
      UnaryReads(m, env, s, p, expected, scopes, counter, locals);
    case Compare(_, _, _) | Arith(_, _, _) | Test(_, _, _) =>
      BinaryReads(m, env, s, p, expected, scopes, counter, locals);
    case ListLit(_) | Nonsense =>
  }

  lemma {:induction false} CounterGrows(p: Plan, expected: PlainType, scopes: seq<Emitter.Scope>, counter: nat)
    requires JavaScriptEmitter.Emit(p, expected, scopes, counter).Some?
    ensures counter <= JavaScriptEmitter.Emit(p, expected, scopes, counter).value.counter
  {
    hide Infer, OperandType, OperandsType, KeyType, IndexedType, JavaScriptEmitter.UnaryJs, JavaScriptEmitter.BinaryOp,
         JavaScriptEmitter.Literal, JavaScriptEmitter.IndexOp, Emitter.FindScope;
    match p
    case Select(target, _, _) => CounterGrows(target, TObject, scopes, counter);
    case Index(target, key) =>
      CounterGrows(target, IndexedType(p), scopes, counter);
      CounterGrows(key, KeyType(key), scopes,
                   JavaScriptEmitter.Emit(target, IndexedType(p), scopes, counter).value.counter);
    case Cond(condition, yes, no) =>
      CounterGrows(condition, TBool, scopes, counter);
      var c := JavaScriptEmitter.Emit(condition, TBool, scopes, counter).value.counter;
      CounterGrows(yes, expected, scopes, c);
      CounterGrows(no, expected, scopes, JavaScriptEmitter.Emit(yes, expected, scopes, c).value.counter);
    case Logic(_, left, right) =>
      CounterGrows(left, TBool, scopes, counter);
      CounterGrows(right, TBool, scopes, JavaScriptEmitter.Emit(left, TBool, scopes, counter).value.counter);
    case Quantifier(_, target, variable, body) =>
      CounterGrows(target, TList, scopes, counter);
      var e := JavaScriptEmitter.Emit(target, TList, scopes, counter).value.counter + 1;
      CounterGrows(body, TBool, scopes + [Emitter.Scope(variable, e)], e);
    case Neg(_) | Not(_) | Size(_) | In(_, _) | Matches(_, _) =>
      CounterGrows(Operand(p), OperandType(p).value, scopes, counter);
    case Compare(_, _, _) | Arith(_, _, _) | Test(_, _, _) =>
      var kind := OperandsType(p).value;
      CounterGrows(LeftOperand(p), kind, scopes, counter);
      CounterGrows(RightOperand(p), kind, scopes,
                   JavaScriptEmitter.Emit(LeftOperand(p), kind, scopes, counter).value.counter);
    case Ident(_) | BoolLit(_) | IntLit(_) | TextLit(_) | ListLit(_) | Nonsense =>
  }

  lemma {:induction false} HoldsLater(scopes: seq<Emitter.Scope>, counter: nat, env: Temps, locals: seq<JsLocal>,
      later: nat)
    requires Holds(scopes, counter, env, locals) && counter <= later
    ensures Holds(scopes, later, env, locals)
  {
  }

  /** A guarded read: its temporary holds the value just read. */
  lemma {:induction false} GuardReads(m: Machine, env: Temps, s: Temps, p: Plan, read: Js, expected: PlainType,
      counter: nat, v: Option<JsVal>)
    requires Agrees(m, p, TAny, Eval(m, env, s, read).result, v) && counter + 1 <= m.declared
    ensures Agrees(m, p, expected, Eval(m, env, s, JavaScriptEmitter.Guarded(read, expected, counter).x).result,
                   match v case Some(value) => Checked(value, expected) case None => None)
  {
    hide MatcherThrows;
  }

  /** What holds of an operand holds where the operand is part of a plan. */
  lemma {:induction false} PartAgrees(m: Machine, part: Plan, p: Plan, kind: PlainType, r: Result, v: Option<JsVal>)
    requires Agrees(m, part, kind, r, v) && LazySemantics.Patterns(part) <= LazySemantics.Patterns(p)
    ensures Agrees(m, p, kind, r, v)
  {
  }

  lemma {:induction false} PairReads(m: Machine, env: Temps, s: Temps, p: Plan, op: Op2, x: Js, y: Js, k1: PlainType,
      k2: PlainType, v: Option<JsVal>, w: Option<JsVal>)
    requires Agrees(m, p, k1, Eval(m, env, s, x).result, v)
    requires Agrees(m, p, k2, Eval(m, env, Eval(m, env, s, x).temps, y).result, w)
    requires v.Some? && w.Some? && Passes(v.value, k1) && Passes(w.value, k2) ==>
               Apply2(m, op, v.value, w.value).Val? || Apply2(m, op, v.value, w.value).Bail?
    ensures Agrees(m, p, TAny, Eval(m, env, s, JBinary(op, x, y)).result,
                   if v.Some? && w.Some? then ValueOf(Apply2(m, op, v.value, w.value)) else None)
    ensures Eval(m, env, s, JBinary(op, x, y)).result.Val? ==>
              v.Some? && w.Some? && Passes(v.value, k1) && Passes(w.value, k2)
  {
    hide MatcherThrows, Passes, Apply2;
    AnyPasses();
  }

  lemma {:induction false} AnyPasses()
    ensures forall v :: Passes(v, TAny)
  {
  }

  lemma {:induction false} EntryReads(m: Machine, p: Plan, t: JsVal, k: JsVal)
    requires p.Index? && JavaScriptEmitter.IndexOp(p).Some? && Passes(t, IndexedType(p)) && Passes(k, KeyType(p.key))
    ensures Apply2(m, JavaScriptEmitter.IndexOp(p).value, t, k).Val?
  {
  }

  lemma {:induction false} IdentReads(m: Machine, env: Temps, s: Temps, name: Text, expected: PlainType,
                                      scopes: seq<Emitter.Scope>, counter: nat, locals: seq<JsLocal>)
    requires Holds(scopes, counter, env, locals) && counter + 1 <= m.declared
    ensures Agrees(m, Ident(name), expected,
                   Eval(m, env, s, JavaScriptEmitter.Emit(Ident(name), expected, scopes, counter).value.x).result,
                   Reading(m, locals, Ident(name), expected))
  {
    ScopeHolds(scopes, counter, env, locals, name);
    var found := Emitter.FindScope(scopes, name);
    var read := if found.Some? then JLocal(found.value) else JBinding(name);
    var v := if found.Some? then env[found.value] else FieldOf(m.bindings, name);
    assert Eval(m, env, s, read).result == Val(v);
    GuardReads(m, env, s, Ident(name), read, expected, counter, Some(v));
  }

  lemma {:induction false} SelectReads(m: Machine, env: Temps, s: Temps, p: Plan, expected: PlainType,
      scopes: seq<Emitter.Scope>, counter: nat, locals: seq<JsLocal>)
    requires p.Select?
    requires Rounding(m.fl) && Planned(p) && Holds(scopes, counter, env, locals)
    requires JavaScriptEmitter.Emit(p, expected, scopes, counter).Some?
    requires JavaScriptEmitter.Emit(p, expected, scopes, counter).value.counter <= m.declared
    ensures Agrees(m, p, expected, Eval(m, env, s, JavaScriptEmitter.Emit(p, expected, scopes, counter).value.x).result,
                   Reading(m, locals, p, expected))
    decreases p, 0
  {
    hide Rounding, Holds;
    EmissionReads(m, env, s, p.target, TObject, scopes, counter, locals);
    var t := JavaScriptEmitter.Emit(p.target, TObject, scopes, counter).value;
    var r, v := Eval(m, env, s, t.x).result, Reading(m, locals, p.target, TObject);
    var read := JUnary(OpField(p.field), t.x);
    GuardReads(m, env, s, p, read, expected, t.counter,
               if v.Some? then ValueOf(Apply1(m, OpField(p.field), v.value)) else None);
  }

  lemma {:induction false} IndexParts(p: Plan)
    requires p.Index?
    ensures LazySemantics.Patterns(p.target) <= LazySemantics.Patterns(p)
    ensures LazySemantics.Patterns(p.key) <= LazySemantics.Patterns(p)
  {
  }

  lemma {:induction false} IndexReads(m: Machine, env: Temps, s: Temps, p: Plan, expected: PlainType,
      scopes: seq<Emitter.Scope>, counter: nat, locals: seq<JsLocal>)
    requires p.Index?
    requires Rounding(m.fl) && Planned(p) && Holds(scopes, counter, env, locals)
    requires JavaScriptEmitter.Emit(p, expected, scopes, counter).Some?
    requires JavaScriptEmitter.Emit(p, expected, scopes, counter).value.counter <= m.declared
    ensures Agrees(m, p, expected, Eval(m, env, s, JavaScriptEmitter.Emit(p, expected, scopes, counter).value.x).result,
                   Reading(m, locals, p, expected))
    decreases p, 0
  {
    hide Rounding, Holds, Eval, Apply2, Agrees, LazySemantics.Patterns, Passes, Infer;
    var kind, op := IndexedType(p), JavaScriptEmitter.IndexOp(p).value;
    var t := JavaScriptEmitter.Emit(p.target, kind, scopes, counter).value;
    var k := JavaScriptEmitter.Emit(p.key, KeyType(p.key), scopes, t.counter).value;
    CounterGrows(p.target, kind, scopes, counter);
    CounterGrows(p.key, KeyType(p.key), scopes, t.counter);
    HoldsLater(scopes, counter, env, locals, t.counter);
    EmissionReads(m, env, s, p.target, kind, scopes, counter, locals);
    EmissionReads(m, env, Eval(m, env, s, t.x).temps, p.key, KeyType(p.key), scopes, t.counter, locals);
    IndexParts(p);
    var v, w := Reading(m, locals, p.target, kind), Reading(m, locals, p.key, KeyType(p.key));
    PartAgrees(m, p.target, p, kind, Eval(m, env, s, t.x).result, v);
    PartAgrees(m, p.key, p, KeyType(p.key), Eval(m, env, Eval(m, env, s, t.x).temps, k.x).result, w);
    if v.Some? && w.Some? && Passes(v.value, kind) && Passes(w.value, KeyType(p.key)) {
      EntryReads(m, p, v.value, w.value);
    }
    PairReads(m, env, s, p, op, t.x, k.x, kind, KeyType(p.key), v, w);
    GuardReads(m, env, s, p, JBinary(op, t.x, k.x), expected, k.counter,
               if v.Some? && w.Some? then ValueOf(Apply2(m, op, v.value, w.value)) else None);
  }

  lemma {:induction false} CondReads(m: Machine, env: Temps, s: Temps, p: Plan, expected: PlainType,
      scopes: seq<Emitter.Scope>, counter: nat, locals: seq<JsLocal>)
    requires p.Cond?
    requires Rounding(m.fl) && Planned(p) && Holds(scopes, counter, env, locals)
    requires JavaScriptEmitter.Emit(p, expected, scopes, counter).Some?
    requires JavaScriptEmitter.Emit(p, expected, scopes, counter).value.counter <= m.declared
    ensures Agrees(m, p, expected, Eval(m, env, s, JavaScriptEmitter.Emit(p, expected, scopes, counter).value.x).result,
                   Reading(m, locals, p, expected))
    decreases p, 0
  {
    hide Rounding, Holds;
    var c := JavaScriptEmitter.Emit(p.condition, TBool, scopes, counter).value;
    var y := JavaScriptEmitter.Emit(p.yes, expected, scopes, c.counter).value;
    CounterGrows(p.condition, TBool, scopes, counter);
    CounterGrows(p.yes, expected, scopes, c.counter);
    CounterGrows(p.no, expected, scopes, y.counter);
    HoldsLater(scopes, counter, env, locals, c.counter);
    HoldsLater(scopes, counter, env, locals, y.counter);
    EmissionReads(m, env, s, p.condition, TBool, scopes, counter, locals);
    EmissionReads(m, env, Eval(m, env, s, c.x).temps, p.yes, expected, scopes, c.counter, locals);
    EmissionReads(m, env, Eval(m, env, s, c.x).temps, p.no, expected, scopes, y.counter, locals);
  }

  lemma {:induction false} LogicReads(m: Machine, env: Temps, s: Temps, p: Plan, expected: PlainType,
      scopes: seq<Emitter.Scope>, counter: nat, locals: seq<JsLocal>)
    requires p.Logic?
    requires Rounding(m.fl) && Planned(p) && Holds(scopes, counter, env, locals)
    requires JavaScriptEmitter.Emit(p, expected, scopes, counter).Some?
    requires JavaScriptEmitter.Emit(p, expected, scopes, counter).value.counter <= m.declared
    ensures Agrees(m, p, expected, Eval(m, env, s, JavaScriptEmitter.Emit(p, expected, scopes, counter).value.x).result,
                   Reading(m, locals, p, expected))
    decreases p, 0
  {
    hide Rounding, Holds;
    var l := JavaScriptEmitter.Emit(p.left, TBool, scopes, counter).value;
    CounterGrows(p.left, TBool, scopes, counter);
    CounterGrows(p.right, TBool, scopes, l.counter);
    HoldsLater(scopes, counter, env, locals, l.counter);
    EmissionReads(m, env, s, p.left, TBool, scopes, counter, locals);
    EmissionReads(m, env, Eval(m, env, s, l.x).temps, p.right, TBool, scopes, l.counter, locals);
  }

  lemma {:induction false} QuantifierReads(m: Machine, env: Temps, s: Temps, p: Plan, expected: PlainType,
      scopes: seq<Emitter.Scope>, counter: nat, locals: seq<JsLocal>)
    requires p.Quantifier?
    requires Rounding(m.fl) && Planned(p) && Holds(scopes, counter, env, locals)
    requires JavaScriptEmitter.Emit(p, expected, scopes, counter).Some?
    requires JavaScriptEmitter.Emit(p, expected, scopes, counter).value.counter <= m.declared
    ensures Agrees(m, p, expected, Eval(m, env, s, JavaScriptEmitter.Emit(p, expected, scopes, counter).value.x).result,
                   Reading(m, locals, p, expected))
    decreases p, 0
  {
    hide Rounding, Holds, Eval, EvalLoop, ReadingItems, MatcherThrows, LazySemantics.Patterns, Passes;
    var t := JavaScriptEmitter.Emit(p.target, TList, scopes, counter).value;
    CounterGrows(p.target, TList, scopes, counter);
    CounterGrows(p.body, TBool, scopes + [Emitter.Scope(p.variable, t.counter + 1)], t.counter + 1);
    HoldsLater(scopes, counter, env, locals, t.counter);
    EmissionReads(m, env, s, p.target, TList, scopes, counter, locals);
    var r, v := Eval(m, env, s, t.x), Reading(m, locals, p.target, TList);
    QuantifierParts(p);
    PartAgrees(m, p.target, p, TList, r.result, v);
    var b := JavaScriptEmitter.Emit(p.body, TBool, scopes + [Emitter.Scope(p.variable, t.counter + 1)],
                                    t.counter + 1).value;
    LoopRuns(m, env, s, p.universal, t.x, t.counter + 1, b.x);
    if r.result.Val? {
      ListPasses(r.result.value);
      LoopReads(m, env, r.temps, p, scopes, t.counter, locals, r.result.value.items);
    }
  }

  lemma {:induction false} ListPasses(v: JsVal)
    requires Passes(v, TList)
    ensures v.JList?
  {
  }

  lemma {:induction false} QuantifierParts(p: Plan)
    requires p.Quantifier?
    ensures LazySemantics.Patterns(p.target) <= LazySemantics.Patterns(p)
  {
  }

  lemma {:induction false} LoopRuns(m: Machine, env: Temps, s: Temps, universal: bool, list: Js, e: nat, body: Js)
    ensures var r := Eval(m, env, s, list);
            Eval(m, env, s, JLoop(universal, list, e, body)).result ==
            (if !r.result.Val? then r.result
             else if !r.result.value.JList? then Fault
             else EvalLoop(m, env, r.temps, universal, e, body, r.result.value.items).result)
  {
    hide EvalLoop;
  }

  lemma {:induction false} UnaryReads(m: Machine, env: Temps, s: Temps, p: Plan, expected: PlainType,
      scopes: seq<Emitter.Scope>, counter: nat, locals: seq<JsLocal>)
    requires IsUnary(p)
    requires Rounding(m.fl) && Planned(p) && Holds(scopes, counter, env, locals)
    requires JavaScriptEmitter.Emit(p, expected, scopes, counter).Some?
    requires JavaScriptEmitter.Emit(p, expected, scopes, counter).value.counter <= m.declared
    ensures Agrees(m, p, expected, Eval(m, env, s, JavaScriptEmitter.Emit(p, expected, scopes, counter).value.x).result,
                   Reading(m, locals, p, expected))
    decreases p, 0
  {
    var kind := OperandType(p).value;
    var o := JavaScriptEmitter.Emit(Operand(p), kind, scopes, counter).value;
    forall s ensures Agrees(m, Operand(p), kind, Eval(m, env, s, o.x).result, Reading(m, locals, Operand(p), kind)) {
      EmissionReads(m, env, s, Operand(p), kind, scopes, counter, locals);
    }
    EmissionReads(m, env, s, Operand(p), kind, scopes, counter, locals);
    UnaryApplies(m, env, s, p, o.x, Reading(m, locals, Operand(p), kind));
  }

  lemma {:induction false} BinaryReads(m: Machine, env: Temps, s: Temps, p: Plan, expected: PlainType,
      scopes: seq<Emitter.Scope>, counter: nat, locals: seq<JsLocal>)
    requires IsBinary(p)
    requires Rounding(m.fl) && Planned(p) && Holds(scopes, counter, env, locals)
    requires JavaScriptEmitter.Emit(p, expected, scopes, counter).Some?
    requires JavaScriptEmitter.Emit(p, expected, scopes, counter).value.counter <= m.declared
    ensures Agrees(m, p, expected, Eval(m, env, s, JavaScriptEmitter.Emit(p, expected, scopes, counter).value.x).result,
                   Reading(m, locals, p, expected))
    decreases p, 0
  {
    hide Rounding, Holds;
    var kind := OperandsType(p).value;
    var l := JavaScriptEmitter.Emit(LeftOperand(p), kind, scopes, counter).value;
    CounterGrows(LeftOperand(p), kind, scopes, counter);
    CounterGrows(RightOperand(p), kind, scopes, l.counter);
    HoldsLater(scopes, counter, env, locals, l.counter);
    EmissionReads(m, env, s, LeftOperand(p), kind, scopes, counter, locals);
    var r := Eval(m, env, s, l.x);
    EmissionReads(m, env, r.temps, RightOperand(p), kind, scopes, l.counter, locals);
    if Reading(m, locals, LeftOperand(p), kind).Some? && Reading(m, locals, RightOperand(p), kind).Some? {
      BinaryApplies(m, p, Reading(m, locals, LeftOperand(p), kind).value,
                    Reading(m, locals, RightOperand(p), kind).value);
    }
  }

  lemma {:induction false} LoopReads(m: Machine, env: Temps, s: Temps, p: Plan, scopes: seq<Emitter.Scope>,
      counter: nat, locals: seq<JsLocal>, items: seq<JsVal>)
    requires p.Quantifier? && Rounding(m.fl) && Planned(p) && Holds(scopes, counter, env, locals)
    requires var b := JavaScriptEmitter.Emit(p.body, TBool, scopes + [Emitter.Scope(p.variable, counter + 1)],
                                             counter + 1);
             b.Some? && b.value.counter <= m.declared
    ensures var b := JavaScriptEmitter.Emit(p.body, TBool, scopes + [Emitter.Scope(p.variable, counter + 1)],
                                            counter + 1).value;
            Agrees(m, p, TBool, EvalLoop(m, env, s, p.universal, counter + 1, b.x, items).result,
                   ReadingItems(m, locals, p.universal, p.variable, p.body, items))
    decreases p.body, 2, |items|
  {
    hide Rounding;
    var e := counter + 1;
    var inner := scopes + [Emitter.Scope(p.variable, e)];
    var b := JavaScriptEmitter.Emit(p.body, TBool, inner, e).value;
    if items != [] {
      var locals' := locals + [JsLocal(p.variable, items[0])];
      assert Holds(inner, e, env[e := items[0]], locals');
      EmissionReads(m, env[e := items[0]], s, p.body, TBool, inner, e, locals');
      LoopReads(m, env, Eval(m, env[e := items[0]], s, b.x).temps, p, scopes, counter, locals, items[1..]);
    }
  }

  lemma {:induction false} BinaryApplies(m: Machine, p: Plan, a: JsVal, b: JsVal)
    requires IsBinary(p) && OperandsType(p).Some? && Rounding(m.fl)
    requires Passes(a, OperandsType(p).value) && Passes(b, OperandsType(p).value)
    ensures var r := Apply2(m, JavaScriptEmitter.BinaryOp(p), a, b);
            (r.Val? && Passes(r.value, ResultType(p))) || (r.Bail? && p.Arith?)
  {
    if p.Arith? {
      ArithmeticIsExact(m.fl, p.aop, a.n, b.n);
      hide Rounding, ArithmeticInt;
    }
  }

  /** Any temporaries do for the needle, so its copies all give the same text. */
  lemma {:induction false} MembersReads(m: Machine, env: Temps, s: Temps, x: Js, units: seq<Unit>, members: seq<Text>)
    requires forall s :: Eval(m, env, s, x).result == Val(JText(units))
    ensures Eval(m, env, s, JavaScriptEmitter.Members(x, members)).result
         == Val(JBool(Among(units, members)))
    decreases |members|
  {
    if |members| > 0 {
      var literal := JLit(JText(Write(UTF_16, members[0])));
      var first := JBinary(OpSame, x, literal);
      var r := Eval(m, env, s, x);
      assert Eval(m, env, r.temps, literal).result == Val(JText(Write(UTF_16, members[0])));
      assert Eval(m, env, s, first).result == Val(JBool(units == Write(UTF_16, members[0])));
      AmongSplits(units, members);
      if |members| > 1 {
        MembersReads(m, env, Eval(m, env, s, first).temps, x, units, members[1..]);
      }
    } else {
      assert Eval(m, env, s, x).result.Val?;
    }
  }

  lemma {:induction false} AmongSplits(units: seq<Unit>, members: seq<Text>)
    requires members != []
    ensures Among(units, members) <==> units == Write(UTF_16, members[0]) || Among(units, members[1..])
    ensures |members| == 1 ==> !Among(units, members[1..])
  {
    assert forall t :: t in members <==> t == members[0] || t in members[1..];
  }

  lemma {:induction false} UnaryApplies(m: Machine, env: Temps, s: Temps, p: Plan, x: Js, reading: Option<JsVal>)
    requires IsUnary(p) && OperandType(p).Some?
    requires forall s :: Agrees(m, Operand(p), OperandType(p).value, Eval(m, env, s, x).result, reading)
    ensures Agrees(m, p, ResultType(p), Eval(m, env, s, JavaScriptEmitter.UnaryJs(p, x)).result,
                   match reading case Some(v) => UnaryAnswer(m, p, v) case None => None)
  {
    assert Agrees(m, Operand(p), OperandType(p).value, Eval(m, env, s, x).result, reading);
    assert forall e :: MatcherThrows(m, Operand(p), e) ==> MatcherThrows(m, p, e);
    hide MatcherThrows;
    if p.In? {
      MembersApplies(m, env, s, p, x, reading);
    } else if reading.Some? {
      OneApplies(m, p, reading.value);
    }
  }

  lemma {:induction false} MembersApplies(m: Machine, env: Temps, s: Temps, p: Plan, x: Js, reading: Option<JsVal>)
    requires p.In? && p.list.ListLit?
    requires forall s :: Agrees(m, p.needle, TText, Eval(m, env, s, x).result, reading)
    ensures reading.Some? ==>
              Eval(m, env, s, JavaScriptEmitter.Members(x, p.list.members)).result
                  == Val(UnaryAnswer(m, p, reading.value).value)
    ensures reading.None? ==>
              Eval(m, env, s, JavaScriptEmitter.Members(x, p.list.members)).result == Eval(m, env, s, x).result
  {
    assert Agrees(m, p.needle, TText, Eval(m, env, s, x).result, reading);
    hide MatcherThrows;
    if reading.Some? {
      forall s ensures Eval(m, env, s, x).result == Val(reading.value) {
        assert Agrees(m, p.needle, TText, Eval(m, env, s, x).result, reading);
      }
      MembersReads(m, env, s, x, reading.value.units, p.list.members);
    } else {
      MembersStop(m, env, s, x, p.list.members);
    }
  }

  lemma {:induction false} MembersStop(m: Machine, env: Temps, s: Temps, x: Js, members: seq<Text>)
    requires !Eval(m, env, s, x).result.Val?
    ensures Eval(m, env, s, JavaScriptEmitter.Members(x, members)).result == Eval(m, env, s, x).result
  {
    if |members| > 0 {
      var first := JBinary(OpSame, x, JLit(JText(Write(UTF_16, members[0]))));
      assert Eval(m, env, s, first).result == Eval(m, env, s, x).result;
    }
  }

  lemma {:induction false} OneApplies(m: Machine, p: Plan, v: JsVal)
    requires IsUnary(p) && !p.In? && OperandType(p).Some? && Passes(v, OperandType(p).value)
    ensures Agrees(m, p, ResultType(p), Apply1(m, JavaScriptEmitter.UnaryOp(p), v), UnaryAnswer(m, p, v))
  {
    if p.Neg? {
      NegationIsExact(v.n);
    } else if p.Size? && v.JText? {
      NotHighShorter(v.units);
    } else if p.Matches? {
      assert p.pattern in LazySemantics.Patterns(p);
    }
  }

  lemma {:induction false} NotHighShorter(s: seq<Unit>)
    ensures NotHigh(s) <= |s|
  {
    if s != [] {
      NotHighShorter(s[..|s| - 1]);
    }
  }
}
