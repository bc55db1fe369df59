/** With a scoped cache, emitted code never reads a variable that some path has not assigned. */
module ScopedFlow {
  import opened Values
  import opened Plans
  import opened PythonTarget
  import opened Emitter
  import opened EmitterShape
  import opened DefiniteAssignment

  function Through(f: Flow, code: seq<Stmt>): Flow {
    if f.Falls? then FlowOf(code, f.known) else f
  }

  lemma {:induction false} FlowConcat(a: seq<Stmt>, b: seq<Stmt>, d: set<Var>)
    ensures FlowOf(a + b, d) == Through(FlowOf(a, d), b)
    decreases a
  {
    if a == [] {
      assert a + b == b;
    } else {
      assert (a + b)[1..] == a[1..] + b;
      if FlowStep(a[0], d).Falls? {
        FlowConcat(a[1..], b, FlowStep(a[0], d).known);
      }
    }
  }

  lemma {:induction false} FlowOne(s: Stmt, d: set<Var>)
    ensures FlowOf([s], d) == FlowStep(s, d)
  {
    assert [s][1..] == [];
  }

  lemma {:induction false} FlowTwo(s: Stmt, t: Stmt, d: set<Var>)
    ensures FlowOf([s, t], d) == Through(FlowStep(s, d), [t])
  {
    assert [s, t][1..] == [t];
  }

  /** Code makes known what it writes, at most. */
  lemma {:induction false} FlowWrites(code: seq<Stmt>, d: set<Var>)
    ensures FlowOf(code, d).Falls? ==> FlowOf(code, d).known <= d + Writes(code)
    decreases code, 0
  {
    if code != [] {
      FlowWritesStep(code[0], d);
      if FlowStep(code[0], d).Falls? {
        FlowWrites(code[1..], FlowStep(code[0], d).known);
      }
    }
  }

  lemma {:induction false} FlowWritesStep(s: Stmt, d: set<Var>)
    ensures FlowStep(s, d).Falls? ==> FlowStep(s, d).known <= d + WritesOf(s)
    decreases s, 1
  {
    match s
    case If(_, block) => FlowWrites(block, d);
    case IfElse(_, yes, no) =>
      FlowWrites(yes, d);
      FlowWrites(no, d);
    case _ =>
  }

  /** Everything emission may mention from here on is assigned. */
  ghost predicate Known(st: State, d: set<Var>) {
    && Wf(st)
    && (forall x :: x in st.scopes ==> x.v in d)
    && (forall k :: k in st.objects ==> st.objects[k] in d && (k.ObjectKey? ==> k.target in d))
  }

  /** The hoisted reads of the whole function are done, those yet to be emitted included. */
  ghost predicate Hoisted(fin: State, st: State, d: set<Var>) {
    Extends(st, fin) && RootVars(fin.roots) <= d
  }

  ghost predicate FlowsWell(r: Emitted, d: set<Var>) {
    && FlowOf(r.code, d).Falls?
    && Known(r.st, FlowOf(r.code, d).known)
    && Vars(r.e) <= FlowOf(r.code, d).known
  }

  lemma {:induction false} ReadFlows(fin: State, st: State, source: Expr, expected: PlainType, ct: bool, d: set<Var>)
    requires Known(st, d) && Vars(source) <= d
    ensures FlowsWell(Read(st, source, expected, ct), d)
  {
    var v := st.counter + 1;
    ReadShape(st, source, expected, ct);
    FlowTwo(Assign(v, source), Guard(v, expected, ct), d);
    FlowOne(Assign(v, source), d);
    FlowOne(Guard(v, expected, ct), d + {v});
    assert [Assign(v, source)] + [Guard(v, expected, ct)] == [Assign(v, source), Guard(v, expected, ct)];
    assert [Assign(v, source)] + [] == [Assign(v, source)];
  }

  lemma {:induction false} RootFlows(fin: State, st: State, name: Text, d: set<Var>)
    requires Known(st, d) && Hoisted(fin, RootObject(st, name).st, d)
    ensures FlowsWell(RootObject(st, name), d)
  {
    RootObjectShape(st, name);
    var h := HoistedRead(st.counter + 1, name);
    if RootKey(name) !in st.objects {
      assert h in RootObject(st, name).st.roots;
      assert h in fin.roots;
    }
  }

  lemma {:induction false} CachedFlows(st: State, target: Var, field: Text, indent: nat, d: set<Var>)
    requires Known(st, d) && target in d && GoodResult(st, EVar(target), TObject)
    ensures FlowsWell(CachedObject(st, target, field, indent), d)
  {
    FindCachedHit(st.objects, indent, target, field);
    CachedObjectShape(st, target, field, indent);
    if FindCached(st.objects, indent, target, field).None? {
      ReadFlows(st, st, EGet(EVar(target), EText(field)), TObject, false, d);
    }
  }

  lemma {:induction false} EmitFlows(fin: State, p: Plan, expected: PlainType, indent: nat, ct: bool, st: State,
      d: set<Var>)
    requires Emit(Scoped, p, expected, indent, ct, st).Some?
    requires Known(st, d) && Hoisted(fin, Emit(Scoped, p, expected, indent, ct, st).value.st, d)
    ensures FlowsWell(Emit(Scoped, p, expected, indent, ct, st).value, d)
    decreases p, 1
  {
    hide Wf, Hoisted, CacheOk;
    match p
    case BoolLit(_) | IntLit(_) | TextLit(_) | ListLit(_) | Nonsense =>
    case Ident(name) => IdentFlows(fin, name, expected, ct, st, d);
    case Select(_, _, _) => SelectFlows(fin, p, expected, indent, ct, st, d);
    case Index(_, _) => IndexFlows(fin, p, expected, indent, ct, st, d);
    case Logic(_, _, _) => LogicFlows(fin, p, indent, st, d);
    case Quantifier(_, _, _, _) => QuantifierFlows(fin, p, indent, st, d);
    case Cond(_, _, _) => CondFlows(fin, p, expected, indent, st, d);
    case Neg(_) | Not(_) | Size(_) | In(_, _) | Matches(_, _) => UnaryFlows(fin, p, indent, st, d);
    case Compare(_, _, _) | Arith(_, _, _) | Test(_, _, _) => BinaryFlows(fin, p, indent, st, d);
  }

  lemma {:induction false} IdentFlows(fin: State, name: Text, expected: PlainType, ct: bool, st: State, d: set<Var>)
    requires Known(st, d) && Hoisted(fin, EmitIdent(name, expected, ct, st).st, d)
    ensures FlowsWell(EmitIdent(name, expected, ct, st), d)
  {
    hide Hoisted, FlowsWell, Wf;
    match FindScope(st.scopes, name)
    case Some(v) =>
      FindScopeIn(st.scopes, name);
      ReadFlows(fin, st, EVar(v), expected, ct, d);
    case None =>
      if expected == TObject {
        RootFlows(fin, st, name, d);
      } else {
        ReadFlows(fin, st, EBinding(name), expected, ct, d);
      }
  }

  lemma {:induction false} FindScopeIn(scopes: seq<Scope>, name: Text)
    requires FindScope(scopes, name).Some?
    ensures Scope(name, FindScope(scopes, name).value) in scopes
  {
    var n := |scopes| - 1;
    if scopes[n].name != name {
      FindScopeIn(scopes[..n], name);
    }
  }

  lemma {:induction false} SelectFlows(fin: State, p: Plan, expected: PlainType, indent: nat, ct: bool, st: State,
      d: set<Var>)
    requires p.Select? && EmitSelect(Scoped, p, expected, indent, ct, st).Some?
    requires Known(st, d) && Hoisted(fin, EmitSelect(Scoped, p, expected, indent, ct, st).value.st, d)
    ensures FlowsWell(EmitSelect(Scoped, p, expected, indent, ct, st).value, d)
    decreases p, 0
  {
    hide Emit, Wf, CachedObject, Read, Grows, CacheOk, Hoisted;
    var noted := NoteDotted(st, p);
    NotedShape(st, p);
    GrowsCounter(st, noted, []);
    EmitShape(Scoped, p.target, TObject, indent, true, noted);
    var t := Emit(Scoped, p.target, TObject, indent, true, noted).value;
    var r := if expected == TObject then CachedObject(t.st, t.e.v, p.field, indent)
             else Read(t.st, EGet(t.e, EText(p.field)), expected, ct);
    CachedObjectShape(t.st, t.e.v, p.field, indent);
    ReadShape(t.st, EGet(t.e, EText(p.field)), expected, ct);
    HoistedBefore(fin, t.st, r.st, r.code, d);
    EmitFlows(fin, p.target, TObject, indent, true, noted, d);
    var d1 := FlowOf(t.code, d).known;
    if expected == TObject {
      CachedFlows(t.st, t.e.v, p.field, indent, d1);
    } else {
      ReadFlows(fin, t.st, EGet(t.e, EText(p.field)), expected, ct, d1);
    }
    FlowConcat(t.code, r.code, d);
  }

  lemma {:induction false} HoistedBefore(fin: State, a: State, b: State, code: seq<Stmt>, d: set<Var>)
    requires Grows(a, b, code) && Hoisted(fin, b, d)
    ensures Hoisted(fin, a, d)
  {
  }

  lemma {:induction false} HoistedAfter(fin: State, b: State, code: seq<Stmt>, d: set<Var>)
    requires Hoisted(fin, b, d) && FlowOf(code, d).Falls?
    ensures Hoisted(fin, b, FlowOf(code, d).known)
  {
  }

  lemma {:induction false} IndexFlows(fin: State, p: Plan, expected: PlainType, indent: nat, ct: bool, st: State,
      d: set<Var>)
    requires p.Index? && EmitIndex(Scoped, p, expected, indent, ct, st).Some?
    requires Known(st, d) && Hoisted(fin, EmitIndex(Scoped, p, expected, indent, ct, st).value.st, d)
    ensures FlowsWell(EmitIndex(Scoped, p, expected, indent, ct, st).value, d)
    decreases p, 0
  {
    hide Emit, Wf, Read, Grows, CacheOk, Hoisted;
    var texts := KeyType(p.key) == TText;
    EmitShape(Scoped, p.target, IndexedType(p), indent, true, st);
    var t := Emit(Scoped, p.target, IndexedType(p), indent, true, st).value;
    EmitShape(Scoped, p.key, KeyType(p.key), indent, !texts, t.st);
    var k := Emit(Scoped, p.key, KeyType(p.key), indent, !texts, t.st).value;
    var source := IndexExpr(p, t.e, k.e);
    ReadShape(k.st, source, expected, ct);
    var r := Read(k.st, source, expected, ct);
    HoistedBefore(fin, k.st, r.st, r.code, d);
    HoistedBefore(fin, t.st, k.st, k.code, d);
    EmitFlows(fin, p.target, IndexedType(p), indent, true, st, d);
    var d1 := FlowOf(t.code, d).known;
    HoistedAfter(fin, k.st, t.code, d);
    EmitFlows(fin, p.key, KeyType(p.key), indent, !texts, t.st, d1);
    var d2 := FlowOf(k.code, d1).known;
    ReadFlows(fin, k.st, source, expected, ct, d2);
    FlowConcat(t.code, k.code, d);
    FlowConcat(t.code + k.code, r.code, d);
  }

  lemma {:induction false} UnaryFlows(fin: State, p: Plan, indent: nat, st: State, d: set<Var>)
    requires IsUnary(p) && EmitUnary(Scoped, p, indent, st).Some?
    requires Known(st, d) && Hoisted(fin, EmitUnary(Scoped, p, indent, st).value.st, d)
    ensures FlowsWell(EmitUnary(Scoped, p, indent, st).value, d)
    decreases p, 0
  {
    hide Emit, Known, Hoisted;
    EmitFlows(fin, Operand(p), OperandType(p).value, indent, OperandChecked(p), st, d);
    var r := Emit(Scoped, Operand(p), OperandType(p).value, indent, OperandChecked(p), st).value;
    assert Vars(UnaryExpr(p, r.e)) == Vars(r.e);
  }

  lemma {:induction false} BinaryFlows(fin: State, p: Plan, indent: nat, st: State, d: set<Var>)
    requires IsBinary(p) && EmitBinary(Scoped, p, indent, st).Some?
    requires Known(st, d) && Hoisted(fin, EmitBinary(Scoped, p, indent, st).value.st, d)
    ensures FlowsWell(EmitBinary(Scoped, p, indent, st).value, d)
    decreases p, 0
  {
    hide Emit, Wf, Grows, CacheOk, Hoisted, GoodResult;
    var kind, ct := OperandsType(p).value, OperandsChecked(p);
    EmitShape(Scoped, LeftOperand(p), kind, indent, ct, st);
    var l := Emit(Scoped, LeftOperand(p), kind, indent, ct, st).value;
    EmitShape(Scoped, RightOperand(p), kind, indent, ct, l.st);
    var r := Emit(Scoped, RightOperand(p), kind, indent, ct, l.st).value;
    HoistedBefore(fin, l.st, r.st, r.code, d);
    EmitFlows(fin, LeftOperand(p), kind, indent, ct, st, d);
    HoistedAfter(fin, r.st, l.code, d);
    EmitFlows(fin, RightOperand(p), kind, indent, ct, l.st, FlowOf(l.code, d).known);
    FlowConcat(l.code, r.code, d);
    assert Vars(BinaryExpr(p, l.e, r.e)) == Vars(l.e) + Vars(r.e);
  }

  // ----- blocks -----

  /** A branch: its code, then its value into the result variable. */
  lemma {:induction false} BranchFlow(code: seq<Stmt>, result: Var, e: Expr, d: set<Var>)
    requires FlowOf(code, d).Falls? && Vars(e) <= FlowOf(code, d).known
    ensures FlowOf(code + [Assign(result, e)], d) == Falls(FlowOf(code, d).known + {result})
  {
    FlowConcat(code, [Assign(result, e)], d);
    FlowOne(Assign(result, e), FlowOf(code, d).known);
  }

  lemma {:induction false} LogicFlow(l: Expr, test: Expr, r: Emitted, result: Var, d: set<Var>)
    requires Vars(l) <= d && Vars(test) == {result}
    requires FlowOf(r.code, d + {result}).Falls? && Vars(r.e) <= FlowOf(r.code, d + {result}).known
    ensures FlowOf([Assign(result, l), If(test, r.code + [Assign(result, r.e)])], d) == Falls(d + {result})
  {
    BranchFlow(r.code, result, r.e, d + {result});
    var branch := If(test, r.code + [Assign(result, r.e)]);
    FlowTwo(Assign(result, l), branch, d);
    FlowOne(branch, d + {result});
    var f := FlowOf(r.code, d + {result}).known + {result};
    assert f * (d + {result}) == d + {result};
  }

  lemma {:induction false} KnownMore(st: State, d: set<Var>, d': set<Var>)
    requires Known(st, d) && d <= d'
    ensures Known(st, d')
  {
  }

  /** After a block: the state it ended in, with the cache of before it. */
  lemma {:induction false} KnownAfter(outer: State, d: set<Var>, st: State, d': set<Var>, fin: State)
    requires Known(outer, d) && d <= d' && Wf(st) && st.scopes == outer.scopes
    requires forall k :: k in st.objects ==>
               (k in outer.objects && st.objects[k] == outer.objects[k]) || (k.RootKey? && st.objects[k] in d')
    ensures Known(st, d')
  {
  }

  lemma {:induction false} LogicFlows(fin: State, p: Plan, indent: nat, st: State, d: set<Var>)
    requires p.Logic? && EmitLogic(Scoped, p, indent, st).Some?
    requires Known(st, d) && Hoisted(fin, EmitLogic(Scoped, p, indent, st).value.st, d)
    ensures FlowsWell(EmitLogic(Scoped, p, indent, st).value, d)
    decreases p, 0
  {
    hide Emit, Wf, Grows, CacheOk, Hoisted, GoodResult;
    LogicShape(Scoped, p, indent, st);
    EmitShape(Scoped, p.left, TBool, indent, true, st);
    var l := Emit(Scoped, p.left, TBool, indent, true, st).value;
    var result := l.st.counter + 1;
    var inner := l.st.(counter := result);
    GrowsAllocate(l.st, result);
    GrowsCounter(l.st, inner, []);
    EmitShape(Scoped, p.right, TBool, indent + 1, true, inner);
    var r := Emit(Scoped, p.right, TBool, indent + 1, true, inner).value;
    var test := if p.conj then EVar(result) else ENot(EVar(result));
    var wrapped := [Assign(result, l.e), If(test, r.code + [Assign(result, r.e)])];
    HoistedSame(fin, r.st, Restore(r.st, l.st.objects), d);
    HoistedBefore(fin, inner, r.st, r.code, d);
    HoistedBefore(fin, l.st, inner, [], d);
    EmitFlows(fin, p.left, TBool, indent, true, st, d);
    var d1 := FlowOf(l.code, d).known;
    HoistedAfter(fin, r.st, l.code, d);
    HoistedMore(fin, r.st, d1, d1 + {result});
    KnownMore(l.st, d1, d1 + {result});
    EmitFlows(fin, p.right, TBool, indent + 1, true, inner, d1 + {result});
    LogicFlow(l.e, test, r, result, d1);
    FlowConcat(l.code, wrapped, d);
    KnownAfter(l.st, d1, Restore(r.st, l.st.objects), d1 + {result}, fin);
  }

  lemma {:induction false} HoistedSame(fin: State, st: State, st': State, d: set<Var>)
    requires st'.counter == st.counter && st'.roots == st.roots && st'.paths == st.paths
    ensures Hoisted(fin, st', d) <==> Hoisted(fin, st, d)
  {
  }

  lemma {:induction false} HoistedMore(fin: State, st: State, d: set<Var>, d': set<Var>)
    requires Hoisted(fin, st, d) && d <= d'
    ensures Hoisted(fin, st, d')
  {
  }

  lemma {:induction false} LoopFlow(p: bool, items: Expr, b: Emitted, result: Var, element: Var, test: Expr, x: Expr,
      y: Expr, d: set<Var>)
    requires Vars(items) <= d && Vars(test) == Vars(b.e) && Vars(x) == {} && Vars(y) == {}
    requires FlowOf(b.code, d + {result} + {element}).Falls?
    requires Vars(b.e) <= FlowOf(b.code, d + {result} + {element}).known
    ensures FlowOf([Assign(result, x), For(element, items, b.code + [If(test, [Assign(result, y), Break])])], d)
         == Falls(d + {result})
  {
    var exit := [Assign(result, y), Break];
    var d0 := d + {result} + {element};
    var d1 := FlowOf(b.code, d0).known;
    FlowTwo(Assign(result, y), Break, d1);
    FlowOne(Break, d1 + {result});
    FlowOne(If(test, exit), d1);
    FlowConcat(b.code, [If(test, exit)], d0);
    var loop := For(element, items, b.code + [If(test, exit)]);
    FlowTwo(Assign(result, x), loop, d);
    FlowOne(loop, d + {result});
  }

  /** The two emissions a loop is made of, for its list and for its body, both hoisting within what is hoisted. */
  ghost predicate LoopOf(mode: CacheMode, fin: State, p: Plan, indent: nat, st: State, d: set<Var>, t: Emitted,
      inner: State, b: Emitted)
    requires p.Quantifier?
  {
    && Emit(mode, p.target, TList, indent, true, st) == Some(t) && Shaped(st, t, TList)
    && inner == t.st.(counter := t.st.counter + 2, scopes := t.st.scopes + [Scope(p.variable, t.st.counter + 2)])
    && Emit(mode, p.body, TBool, indent + 1, true, inner) == Some(b) && Shaped(inner, b, TBool)
    && Wf(inner) && Grows(t.st, inner, [])
    && Hoisted(fin, t.st, d) && Hoisted(fin, b.st, d)
  }

  lemma {:induction false} LoopOfQuantifier(mode: CacheMode, fin: State, p: Plan, indent: nat, st: State, d: set<Var>)
    returns (t: Emitted, inner: State, b: Emitted)
    requires p.Quantifier? && EmitQuantifier(mode, p, indent, st).Some?
    requires Wf(st) && Hoisted(fin, EmitQuantifier(mode, p, indent, st).value.st, d)
    ensures LoopOf(mode, fin, p, indent, st, d, t, inner, b)
  {
    hide Emit, Wf, Grows, CacheOk, Hoisted, GoodResult, EntryKept;
    EmitShape(mode, p.target, TList, indent, true, st);
    t := Emit(mode, p.target, TList, indent, true, st).value;
    inner := t.st.(counter := t.st.counter + 2, scopes := t.st.scopes + [Scope(p.variable, t.st.counter + 2)]);
    PushShape(t.st, p.variable, t.st.counter + 2);
    GrowsCounter(t.st, inner, []);
    EmitShape(mode, p.body, TBool, indent + 1, true, inner);
    b := Emit(mode, p.body, TBool, indent + 1, true, inner).value;
    HoistedSame(fin, b.st, Restore(b.st, t.st.objects).(scopes := t.st.scopes), d);
    HoistedBefore(fin, inner, b.st, b.code, d);
    HoistedBefore(fin, t.st, inner, [], d);
  }

  lemma {:induction false} QuantifierFlows(fin: State, p: Plan, indent: nat, st: State, d: set<Var>)
    requires p.Quantifier? && EmitQuantifier(Scoped, p, indent, st).Some?
    requires Known(st, d) && Hoisted(fin, EmitQuantifier(Scoped, p, indent, st).value.st, d)
    ensures FlowsWell(EmitQuantifier(Scoped, p, indent, st).value, d)
    decreases p, 0
  {
    hide Emit, Wf, Grows, CacheOk, Hoisted, GoodResult, FlowOf;
    QuantifierShape(Scoped, p, indent, st);
    var t, inner, b := LoopOfQuantifier(Scoped, fin, p, indent, st, d);
    var result, element := t.st.counter + 1, t.st.counter + 2;
    var test := if p.universal then ENot(b.e) else b.e;
    EmitFlows(fin, p.target, TList, indent, true, st, d);
    var d1 := FlowOf(t.code, d).known;
    HoistedAfter(fin, b.st, t.code, d);
    var d2 := d1 + {result} + {element};
    HoistedMore(fin, b.st, d1, d2);
    KnownMore(t.st, d1, d2);
    EmitFlows(fin, p.body, TBool, indent + 1, true, inner, d2);
    LoopFlow(p.universal, t.e, b, result, element, test, EBool(p.universal), EBool(!p.universal), d1);
    FlowConcat(t.code, [Assign(result, EBool(p.universal)),
                        For(element, t.e, b.code + [If(test, [Assign(result, EBool(!p.universal)), Break])])], d);
    KnownAfter(t.st, d1, Restore(b.st, t.st.objects).(scopes := t.st.scopes), d1 + {result}, fin);
  }

  /** The three emissions a conditional is made of. */
  ghost predicate ChoiceOf(mode: CacheMode, fin: State, p: Plan, expected: PlainType, indent: nat, st: State,
      d: set<Var>, k: Emitted, inner: State, y: Emitted, start: State, n: Emitted)
    requires p.Cond?
  {
    && Emit(mode, p.condition, TBool, indent, true, st) == Some(k) && Shaped(st, k, TBool)
    && inner == k.st.(counter := k.st.counter + 1) && Wf(inner)
    && Emit(mode, p.yes, expected, indent + 1, true, inner) == Some(y) && Shaped(inner, y, expected)
    && start == ElseStart(y.st, k.st.objects) && Wf(start)
    && Emit(mode, p.no, expected, indent + 1, true, start) == Some(n) && Shaped(start, n, expected)
    && Hoisted(fin, k.st, d) && Hoisted(fin, y.st, d) && Hoisted(fin, n.st, d)
  }

  lemma {:induction false} ChoiceOfCond(mode: CacheMode, fin: State, p: Plan, expected: PlainType, indent: nat,
      st: State, d: set<Var>)
    returns (k: Emitted, inner: State, y: Emitted, start: State, n: Emitted)
    requires p.Cond? && EmitCond(mode, p, expected, indent, st).Some?
    requires Wf(st) && Hoisted(fin, EmitCond(mode, p, expected, indent, st).value.st, d)
    ensures ChoiceOf(mode, fin, p, expected, indent, st, d, k, inner, y, start, n)
  {
    hide Emit, Wf, Grows, CacheOk, Hoisted, GoodResult, EntryKept;
    EmitShape(mode, p.condition, TBool, indent, true, st);
    k := Emit(mode, p.condition, TBool, indent, true, st).value;
    inner := k.st.(counter := k.st.counter + 1);
    GrowsAllocate(k.st, inner.counter);
    GrowsCounter(k.st, inner, []);
    EmitShape(mode, p.yes, expected, indent + 1, true, inner);
    y := Emit(mode, p.yes, expected, indent + 1, true, inner).value;
    start := ElseStart(y.st, k.st.objects);
    ElseStartShape(inner, y);
    EmitShape(mode, p.no, expected, indent + 1, true, start);
    n := Emit(mode, p.no, expected, indent + 1, true, start).value;
    HoistedSame(fin, n.st, EmitCond(mode, p, expected, indent, st).value.st, d);
    HoistedBefore(fin, start, n.st, n.code, d);
    HoistedSame(fin, y.st, start, d);
    HoistedBefore(fin, inner, y.st, y.code, d);
    HoistedBefore(fin, k.st, inner, [], d);
  }

  lemma {:induction false} CondFlows(fin: State, p: Plan, expected: PlainType, indent: nat, st: State, d: set<Var>)
    requires p.Cond? && expected !in {TObject, TList, TAny} && EmitCond(Scoped, p, expected, indent, st).Some?
    requires Known(st, d) && Hoisted(fin, EmitCond(Scoped, p, expected, indent, st).value.st, d)
    ensures FlowsWell(EmitCond(Scoped, p, expected, indent, st).value, d)
    decreases p, 0
  {
    hide Emit, Wf, Grows, CacheOk, Hoisted, GoodResult, FlowOf;
    CondShape(Scoped, p, expected, indent, st);
    var k, inner, y, start, n := ChoiceOfCond(Scoped, fin, p, expected, indent, st, d);
    var result := k.st.counter + 1;
    var after := EmitCond(Scoped, p, expected, indent, st).value.st;
    EmitFlows(fin, p.condition, TBool, indent, true, st, d);
    var d1 := FlowOf(k.code, d).known;
    HoistedAfter(fin, y.st, k.code, d);
    HoistedAfter(fin, n.st, k.code, d);
    EmitFlows(fin, p.yes, expected, indent + 1, true, inner, d1);
    EmitFlows(fin, p.no, expected, indent + 1, true, start, d1);
    CondFlow(k, y, n, result, d1);
    FlowConcat(k.code, [IfElse(k.e, y.code + [Assign(result, y.e)], n.code + [Assign(result, n.e)])], d);
    KeptRootsKnown(fin, k.st.objects, n.st, d1);
    var d2 := FlowOf([IfElse(k.e, y.code + [Assign(result, y.e)], n.code + [Assign(result, n.e)])], d1).known;
    KnownAfter(k.st, d1, after, d2, fin);
  }

  lemma {:induction false} KeptRootsKnown(fin: State, before: Cache, n: State, d: set<Var>)
    requires Wf(n) && Hoisted(fin, n, d)
    ensures forall x :: x in AfterElse(Scoped, before, n.entry) ==>
              (x in before && AfterElse(Scoped, before, n.entry)[x] == before[x]) ||
              (x.RootKey? && AfterElse(Scoped, before, n.entry)[x] in d)
  {
    forall x | x in n.entry && x.RootKey?
      ensures n.entry[x] in d
    {
      assert HoistedRead(n.entry[x], x.name) in fin.roots;
    }
  }

  lemma {:induction false} CondFlow(k: Emitted, y: Emitted, n: Emitted, result: Var, d: set<Var>)
    requires Vars(k.e) <= d
    requires FlowOf(y.code, d).Falls? && Vars(y.e) <= FlowOf(y.code, d).known
    requires FlowOf(n.code, d).Falls? && Vars(n.e) <= FlowOf(n.code, d).known
    ensures FlowOf([IfElse(k.e, y.code + [Assign(result, y.e)], n.code + [Assign(result, n.e)])], d)
         == Falls((FlowOf(y.code, d).known + {result}) * (FlowOf(n.code, d).known + {result}))
  {
    BranchFlow(y.code, result, y.e, d);
    BranchFlow(n.code, result, n.e, d);
    FlowOne(IfElse(k.e, y.code + [Assign(result, y.e)], n.code + [Assign(result, n.e)]), d);
  }
}
