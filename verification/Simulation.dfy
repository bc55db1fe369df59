/** Running emitted code reads what the plain-data reading of the plan reads, hoisting and caching included. */
module Simulation {
  import opened Values
  import opened Plans
  import opened PythonTarget
  import Engine
  import opened LazySemantics
  import opened Emitter
  import opened EmitterShape

  type Local = Engine.Local

  /** One execution of one generated function: the machine, how its code was emitted, the state emission ended in,
      and the patterns of the plan. */
  datatype Context = Context(m: Machine, mode: CacheMode, fin: State, patterns: set<Text>)

  /** The context knows the patterns of the plan. */
  predicate Covers(c: Context, p: Plan) {
    Patterns(p) <= c.patterns
  }

  /** What a provenance denotes: a binding, or a field of what the shorter provenance denotes. Dictionaries only. */
  function PathValue(b: Bindings, path: Path): Option<Value>
    decreases |path.fields|
  {
    if path.fields == [] then
      var v := Get(b, path.root);
      if v.VMap? then Some(v) else None
    else
      var n := |path.fields| - 1;
      var target :- PathValue(b, Path(path.root, path.fields[..n]));
      if !target.VMap? then None else
      var v := Get(target.fields, path.fields[n]);
      if v.VMap? then Some(v) else None
  }

  /** Hoisted variables are loaded, and every variable of known provenance that is assigned holds what its provenance
      denotes, in whatever iteration of whatever loop it was assigned. */
  ghost predicate StoreOk(c: Context, s: Store) {
    && (forall h :: h in c.fin.roots ==>
          h.v in s && s[h.v] == Get(c.m.bindings, h.name) && s[h.v].VMap?)
    && (forall v :: v in c.fin.paths && v in s ==> PathValue(c.m.bindings, c.fin.paths[v]) == Some(s[v]))
  }

  /** Comprehension variables are held by the Python locals the compiler gave them. */
  ghost predicate ScopesOk(scopes: seq<Scope>, s: Store, locals: seq<Local>) {
    && |scopes| == |locals|
    && forall i :: 0 <= i < |scopes| ==>
         scopes[i].name == locals[i].name && scopes[i].v in s && s[scopes[i].v] == locals[i].value
  }

  ghost predicate Loaded(cache: Cache, s: Store) {
    forall k :: k in cache ==> cache[k] in s
  }

  ghost predicate Inv(c: Context, st: State, s: Store, locals: seq<Local>) {
    && Wf(st)
    && StoreOk(c, s)
    && ScopesOk(st.scopes, s, locals)
    && (c.mode.Scoped? ==> Loaded(st.objects, s))
  }

  /** The ways code may stop short: the matcher raised, or some read was not of its expected type, in which case the
      plain-data reading gives up too; or, with the cache as written, a variable was never assigned. */
  ghost predicate Excused(c: Context, f: Failure, lazy: Option<Value>) {
    match f
    case UnboundVariable => c.mode.AsWritten?
    case TypeFault => false
    case Bailed => lazy.None?
    case MatcherRaised(e) =>
      && lazy.None? && c.m.matcher.LiteralMatcher?
      && exists t, p :: p in c.patterns && c.m.matcher.run(t, p) == Engine.Err(e)
  }

  ghost predicate ResultOk(c: Context, r: ExprResult, lazy: Option<Value>) {
    match r
    case Val(v) => lazy == Some(v)
    case Fails(f) => Excused(c, f, lazy)
  }

  /** The store changed only where the code writes, and nothing became unassigned. */
  ghost predicate Frame(s: Store, s': Store, writes: set<Var>) {
    && (forall v :: v in s ==> v in s')
    && (forall v :: v in s' && v !in writes ==> v in s && s'[v] == s[v])
  }

  ghost predicate Simulates(c: Context, r: Emitted, s: Store, locals: seq<Local>, lazy: Option<Value>) {
    match Run(c.m, s, r.code)
    case Done(t) =>
      Inv(c, r.st, t, locals) && Frame(s, t, Writes(r.code)) && ResultOk(c, EvalExpr(c.m, t, r.e), lazy)
    case Broke(_) => false
    case Failed(f) => Excused(c, f, lazy)
  }

  // ----- running code in pieces -----

  function Continue(m: Machine, o: Outcome, code: seq<Stmt>): Outcome {
    if o.Done? then Run(m, o.store, code) else o
  }

  lemma {:induction false} RunConcat(m: Machine, s: Store, a: seq<Stmt>, b: seq<Stmt>)
    ensures Run(m, s, a + b) == Continue(m, Run(m, s, a), b)
    decreases a
  {
    if a == [] {
      assert a + b == b;
    } else {
      assert (a + b)[1..] == a[1..] + b;
      if Step(m, s, a[0]).Done? {
        RunConcat(m, Step(m, s, a[0]).store, a[1..], b);
      }
    }
  }

  lemma {:induction false} RunOne(m: Machine, s: Store, stmt: Stmt)
    ensures Run(m, s, [stmt]) == Step(m, s, stmt)
  {
    assert Run(m, s, [stmt]) == Continue(m, Step(m, s, stmt), [stmt][1..]);
  }

  lemma {:induction false} RunThen(m: Machine, s: Store, stmt: Stmt, rest: seq<Stmt>)
    ensures Run(m, s, [stmt] + rest) == Continue(m, Step(m, s, stmt), rest)
  {
    RunConcat(m, s, [stmt], rest);
    RunOne(m, s, stmt);
  }

  /** An expression depends on its variables only. */
  lemma {:induction false} EvalFrame(m: Machine, s: Store, s': Store, e: Expr)
    requires forall v :: v in Vars(e) ==> (v in s <==> v in s') && (v in s ==> s[v] == s'[v])
    ensures EvalExpr(m, s, e) == EvalExpr(m, s', e)
  {
    if |Operands(e)| == 2 {
      EvalFrame(m, s, s', Operands(e)[0]);
      EvalFrame(m, s, s', Operands(e)[1]);
      PairFrame(m, s, s', e);
    } else if |Operands(e)| == 1 {
      EvalFrame(m, s, s', Operands(e)[0]);
      OneFrame(m, s, s', e);
    }
  }

  function Operands(e: Expr): (es: seq<Expr>)
    ensures |es| <= 2
    ensures forall i :: 0 <= i < |es| ==> es[i] < e && Vars(es[i]) <= Vars(e)
  {
    match e
    case EGet(target, key) => [target, key]
    case EItem(target, key) => [target, key]
    case ECompare(_, left, right) => [left, right]
    case EArith(_, left, right) => [left, right]
    case ETest(_, text, argument) => [text, argument]
    case ENeg(operand) => [operand]
    case ENot(operand) => [operand]
    case ELen(operand) => [operand]
    case ESize(operand) => [operand]
    case EMember(needle, _) => [needle]
    case EMatches(text, _) => [text]
    case _ => []
  }

  lemma {:induction false} PairFrame(m: Machine, s: Store, s': Store, e: Expr)
    requires |Operands(e)| == 2
    requires forall i :: 0 <= i < 2 ==> EvalExpr(m, s, Operands(e)[i]) == EvalExpr(m, s', Operands(e)[i])
    ensures EvalExpr(m, s, e) == EvalExpr(m, s', e)
  {
    assert EvalExpr(m, s, Operands(e)[0]) == EvalExpr(m, s', Operands(e)[0]);
    assert EvalExpr(m, s, Operands(e)[1]) == EvalExpr(m, s', Operands(e)[1]);
    hide CompareHelper, ArithHelper, TextTested;
  }

  lemma {:induction false} OneFrame(m: Machine, s: Store, s': Store, e: Expr)
    requires |Operands(e)| == 1 && EvalExpr(m, s, Operands(e)[0]) == EvalExpr(m, s', Operands(e)[0])
    ensures EvalExpr(m, s, e) == EvalExpr(m, s', e)
  {
    hide SizeHelper, MatchHelper, CheckedInt;
  }

  /** Emitted expressions mean the same after later code, which writes newer variables only. */
  lemma {:induction false} LaterSame(m: Machine, st: State, st': State, s: Store, s': Store, e: Expr, code: seq<Stmt>)
    requires forall v :: v in Vars(e) ==> v <= st.counter
    requires Fresh(st, st', code) && Frame(s, s', Writes(code))
    ensures EvalExpr(m, s, e) == EvalExpr(m, s', e)
  {
    EvalFrame(m, s, s', e);
  }

  lemma {:induction false} FrameTrans(a: Store, b: Store, c: Store, ab: seq<Stmt>, bc: seq<Stmt>)
    requires Frame(a, b, Writes(ab)) && Frame(b, c, Writes(bc))
    ensures Frame(a, c, Writes(ab + bc))
  {
    WritesConcat(ab, bc);
  }

  /** A variable that is allocated with no provenance never gets one. */
  lemma {:induction false} StaysUnknown(st: State, fin: State, v: Var)
    requires Extends(st, fin) && v <= st.counter && v !in st.paths && v !in RootVars(st.roots)
    ensures v !in fin.paths && v !in RootVars(fin.roots)
  {
  }

  lemma {:induction false} AssignUnknown(c: Context, s: Store, v: Var, x: Value)
    requires StoreOk(c, s) && v !in c.fin.paths && v !in RootVars(c.fin.roots)
    ensures StoreOk(c, s[v := x])
  {
  }

  lemma {:induction false} FindScopeLocal(scopes: seq<Scope>, s: Store, locals: seq<Local>, name: Text)
    requires ScopesOk(scopes, s, locals)
    ensures FindScope(scopes, name).Some? <==> Engine.FindLocal(locals, name).Some?
    ensures FindScope(scopes, name).Some? ==>
              FindScope(scopes, name).value in s &&
              Engine.FindLocal(locals, name) == Some(s[FindScope(scopes, name).value])
  {
    if scopes != [] {
      var n := |scopes| - 1;
      if scopes[n].name != name {
        FindScopeLocal(scopes[..n], s, locals[..n], name);
      }
    }
  }

  // ----- dictionaries -----

  /** A dictionary variable of known provenance stands for exactly the plain-data reading of the plan it was emitted
      for: bindings do not change, so neither does what a path denotes. */
  lemma {:induction false} PathMeaning(m: Machine, mode: CacheMode, p: Plan, indent: nat, ct: bool, st: State, s: Store,
                                       locals: seq<Local>)
    requires Wf(st) && ScopesOk(st.scopes, s, locals)
    requires Emit(mode, p, TObject, indent, ct, st).Some?
    ensures var r := Emit(mode, p, TObject, indent, ct, st).value;
            r.e.EVar? && (r.e.v in r.st.paths ==>
              Lazy(m, locals, p, TObject, ct) == PathValue(m.bindings, r.st.paths[r.e.v]))
    decreases p, 1
  {
    EmitShape(mode, p, TObject, indent, ct, st);
    hide Wf, CacheOk, Extends, Fresh, CachedObject, EmitIndex;
    match p
    case Ident(name) =>
      FindScopeLocal(st.scopes, s, locals, name);
      IdentMeaning(m, st, name);
    case Select(target, field, _) => SelectMeaning(m, mode, p, indent, ct, st, s, locals);
    case Index(_, _) => IndexUnknown(mode, p, indent, ct, st);
    case _ =>
  }

  lemma {:induction false} SelectMeaning(m: Machine, mode: CacheMode, p: Plan, indent: nat, ct: bool, st: State,
      s: Store, locals: seq<Local>)
    requires Wf(st) && ScopesOk(st.scopes, s, locals)
    requires p.Select? && EmitSelect(mode, p, TObject, indent, ct, st).Some?
    ensures var r := EmitSelect(mode, p, TObject, indent, ct, st).value;
            r.e.EVar? && (r.e.v in r.st.paths ==>
              Lazy(m, locals, p, TObject, ct) == PathValue(m.bindings, r.st.paths[r.e.v]))
    decreases p, 0
  {
    hide Emit, Wf, CacheOk, Extends, Fresh;
    var noted := NoteDotted(st, p);
    NotedShape(st, p);
    GrowsCounter(st, noted, []);
    PathMeaning(m, mode, p.target, indent, true, noted, s, locals);
    EmitShape(mode, p.target, TObject, indent, true, noted);
    var t := Emit(mode, p.target, TObject, indent, true, noted).value;
    CachedProvenance(t.st, t.e.v, p.field, indent);
    if t.e.v in t.st.paths {
      var path := t.st.paths[t.e.v];
      assert Extend(path, p.field).fields[..|path.fields|] == path.fields;
      assert PathValue(m.bindings, path) == Lazy(m, locals, p.target, TObject, true);
    }
  }

  lemma {:induction false} IdentMeaning(m: Machine, st: State, name: Text)
    requires Wf(st)
    ensures var r := RootObject(st, name); r.e.v in r.st.paths && r.st.paths[r.e.v] == Path(name, [])
    ensures FindScope(st.scopes, name).Some? ==>
              forall source, expected, ct :: Read(st, source, expected, ct).e.v !in st.paths
  {
  }

  /** `cached_object` on a target of unknown provenance returns a variable of unknown provenance. */
  lemma {:induction false} CachedProvenance(st: State, target: Var, field: Text, indent: nat)
    requires Wf(st) && GoodResult(st, EVar(target), TObject)
    ensures var r := CachedObject(st, target, field, indent);
            && r.e.EVar? && (r.e.v in r.st.paths <==> target in st.paths)
            && (target in st.paths ==> r.st.paths[r.e.v] == Extend(st.paths[target], field))
  {
    FindCachedHit(st.objects, indent, target, field);
    assert target in Vars(EVar(target));
  }

  lemma {:induction false} IndexUnknown(mode: CacheMode, p: Plan, indent: nat, ct: bool, st: State)
    requires Wf(st) && p.Index? && EmitIndex(mode, p, TObject, indent, ct, st).Some?
    ensures var r := EmitIndex(mode, p, TObject, indent, ct, st).value; r.e.v !in r.st.paths
  {
    hide Emit;
    var texts := KeyType(p.key) == TText;
    var kind := IndexedType(p);
    EmitShape(mode, p.target, kind, indent, true, st);
    var t := Emit(mode, p.target, kind, indent, true, st).value;
    EmitShape(mode, p.key, KeyType(p.key), indent, !texts, t.st);
  }

  // ----- reads -----

  /** What a read does: the source is evaluated, stored in the newest variable, and checked. */
  lemma {:induction false} ReadRuns(m: Machine, s: Store, st: State, source: Expr, expected: PlainType, ct: bool)
    ensures Run(m, s, Read(st, source, expected, ct).code)
         == match EvalExpr(m, s, source)
            case Fails(f) => Failed(f)
            case Val(y) => if Fits(y, expected, ct) then Done(s[st.counter + 1 := y]) else Failed(Bailed)
  {
    hide EvalExpr;
    var x := st.counter + 1;
    if expected == TAny {
      assert Read(st, source, expected, ct).code == [Assign(x, source)];
      RunOne(m, s, Assign(x, source));
    } else {
      RunThen(m, s, Assign(x, source), [Guard(x, expected, ct)]);
      if EvalExpr(m, s, source).Val? {
        RunOne(m, s[x := EvalExpr(m, s, source).value], Guard(x, expected, ct));
        EvalVar(m, s[x := EvalExpr(m, s, source).value], x);
      }
    }
  }

  lemma {:induction false} EvalVar(m: Machine, s: Store, x: Var)
    requires x in s
    ensures EvalExpr(m, s, EVar(x)) == Val(s[x])
  {
  }

  lemma {:induction false} ReadKeeps(c: Context, st: State, s: Store, locals: seq<Local>, v: Var, y: Value)
    requires Inv(c, st, s, locals) && v == st.counter + 1 && Extends(st.(counter := v), c.fin)
    ensures Inv(c, st.(counter := v), s[v := y], locals) && Frame(s, s[v := y], {v})
  {
    RootsOld(st);
    StaysUnknown(st.(counter := v), c.fin, v);
    AssignUnknown(c, s, v, y);
    assert Loaded(st.objects, s) ==> Loaded(st.objects, s[v := y]);
  }

  lemma {:induction false} ReadSimulates(c: Context, st: State, s: Store, locals: seq<Local>, source: Expr,
      expected: PlainType, ct: bool, v: Option<Value>, lazy: Option<Value>)
    requires Inv(c, st, s, locals)
    requires Extends(Read(st, source, expected, ct).st, c.fin)
    requires ResultOk(c, EvalExpr(c.m, s, source), v)
    requires lazy == (if v.Some? && Fits(v.value, expected, ct) then v else None)
    ensures Simulates(c, Read(st, source, expected, ct), s, locals, lazy)
  {
    hide Inv, Wf, Extends, EvalExpr, Frame, Run, Fits, Writes;
    ReadRuns(c.m, s, st, source, expected, ct);
    WfOfInv(c, st, s, locals);
    ReadShape(st, source, expected, ct);
    if EvalExpr(c.m, s, source).Val? {
      var x, y := st.counter + 1, EvalExpr(c.m, s, source).value;
      ReadKeeps(c, st, s, locals, x, y);
      EvalVar(c.m, s[x := y], x);
    }
  }

  lemma {:induction false} WfOfInv(c: Context, st: State, s: Store, locals: seq<Local>)
    requires Inv(c, st, s, locals)
    ensures Wf(st)
  {
  }

  /** A dictionary field through the cache. When it is cached, nothing is read, and the variable found is assigned
      (always so when the cache is scoped) with what its provenance denotes. */
  lemma {:induction false} CachedSimulates(c: Context, st: State, s: Store, locals: seq<Local>, target: Var,
      field: Text, indent: nat, v: Option<Value>, lazy: Option<Value>)
    requires Inv(c, st, s, locals) && GoodResult(st, EVar(target), TObject)
    requires Extends(CachedObject(st, target, field, indent).st, c.fin)
    requires ResultOk(c, EvalExpr(c.m, s, EVar(target)), v) && (v.Some? ==> v.value.VMap?)
    requires lazy == (if v.Some? && Get(v.value.fields, field).VMap? then Some(Get(v.value.fields, field)) else None)
    requires target in st.paths ==> lazy == PathValue(c.m.bindings, Extend(st.paths[target], field))
    ensures Simulates(c, CachedObject(st, target, field, indent), s, locals, lazy)
  {
    if FindCached(st.objects, indent, target, field).Some? {
      CachedProvenance(st, target, field, indent);
      FindCachedHit(st.objects, indent, target, field);
    } else {
      hide FindCached, Inv;
      CachedMiss(c, st, s, locals, target, field, indent, v, lazy);
    }
  }

  lemma {:induction false} CachedMiss(c: Context, st: State, s: Store, locals: seq<Local>, target: Var, field: Text,
      indent: nat, v: Option<Value>, lazy: Option<Value>)
    requires Inv(c, st, s, locals) && GoodResult(st, EVar(target), TObject)
    requires FindCached(st.objects, indent, target, field).None?
    requires Extends(CachedObject(st, target, field, indent).st, c.fin)
    requires ResultOk(c, EvalExpr(c.m, s, EVar(target)), v) && (v.Some? ==> v.value.VMap?)
    requires lazy == (if v.Some? && Get(v.value.fields, field).VMap? then Some(Get(v.value.fields, field)) else None)
    requires target in st.paths ==> lazy == PathValue(c.m.bindings, Extend(st.paths[target], field))
    ensures Simulates(c, CachedObject(st, target, field, indent), s, locals, lazy)
  {
    hide EvalExpr, Extends, Run, Wf, StoreOk, CachedObject, GoodResult, Writes, FindCached, Get, PathValue, Inv;
    var r := CachedObject(st, target, field, indent);
    var source := EGet(EVar(target), EText(field));
    CacheMiss(st, target, field, indent);
    ReadRuns(c.m, s, st, source, TObject, false);
    FieldRead(c, s, target, EText(field), field, v) by { EvalText(c.m, s, field); }
    match EvalExpr(c.m, s, source)
    case Fails(f) =>
    case Val(y) =>
      if y.VMap? {
        var x := st.counter + 1;
        EvalVar(c.m, s[x := y], x);
        WfOfInv(c, st, s, locals);
        ReadShape(st, source, TObject, false);
        AddedExtends(st, r.st, ObjectKey(indent, target, field), x);
        CachedKeeps(c, st, s, locals, r.st, ObjectKey(indent, target, field), x, y);
      }
  }

  lemma {:induction false} EvalText(m: Machine, s: Store, t: Text)
    ensures EvalExpr(m, s, EText(t)) == Val(VText(t))
  {
  }

  lemma {:induction false} CachedKeeps(c: Context, st: State, s: Store, locals: seq<Local>, st': State, k: CacheKey,
      x: Var, y: Value)
    requires Inv(c, st, s, locals) && AddsObject(st, st', k, x) && k !in st.objects && Extends(st', c.fin)
    requires x in st'.paths ==> PathValue(c.m.bindings, st'.paths[x]) == Some(y)
    ensures Inv(c, st', s[x := y], locals) && Frame(s, s[x := y], {x})
  {
    AddedExtends(st, st', k, x);
    AddedShape(st, st', k, x);
    CachedStoreOk(c, st, s, st', x, y);
    assert forall i :: 0 <= i < |st.scopes| ==> st.scopes[i] in st.scopes;
    hide StoreOk, Extends, CacheOk;
  }

  /** `target.get(key, _MISSING)` on a dictionary. */
  lemma {:induction false} FieldRead(c: Context, s: Store, target: Var, key: Expr, field: Text, v: Option<Value>)
    requires ResultOk(c, EvalExpr(c.m, s, EVar(target)), v) && (v.Some? ==> v.value.VMap?)
    requires EvalExpr(c.m, s, key) == Val(VText(field))
    ensures ResultOk(c, EvalExpr(c.m, s, EGet(EVar(target), key)),
                     if v.Some? then Some(Get(v.value.fields, field)) else None)
  {
  }

  lemma {:induction false} CachedStoreOk(c: Context, st: State, s: Store, st': State, x: Var, y: Value)
    requires Wf(st) && StoreOk(c, s) && x == st.counter + 1 && Wf(st') && Extends(st', c.fin) && Extends(st, st')
    requires st'.counter == x && st'.roots == st.roots
    requires x in st'.paths ==> PathValue(c.m.bindings, st'.paths[x]) == Some(y)
    ensures StoreOk(c, s[x := y])
  {
    RootsOld(st);
    assert x !in RootVars(c.fin.roots);
  }

  // ----- plans -----

  lemma {:induction false} EmitSimulates(c: Context, p: Plan, expected: PlainType, indent: nat, ct: bool, st: State,
                                         s: Store, locals: seq<Local>)
    requires Emit(c.mode, p, expected, indent, ct, st).Some? && Covers(c, p)
    requires Inv(c, st, s, locals) && Extends(Emit(c.mode, p, expected, indent, ct, st).value.st, c.fin)
    ensures Simulates(c, Emit(c.mode, p, expected, indent, ct, st).value, s, locals, Lazy(c.m, locals, p, expected, ct))
    decreases p, 3, 0
  {
    hide Wf, Extends, CacheOk, StoreOk, ScopesOk, Loaded;
    match p
    case BoolLit(_) | IntLit(_) | TextLit(_) | ListLit(_) | Nonsense =>
    case Ident(name) => IdentSimulates(c, name, expected, ct, st, s, locals);
    case Select(_, _, _) => SelectSimulates(c, p, expected, indent, ct, st, s, locals);
    case Index(_, _) => IndexSimulates(c, p, expected, indent, ct, st, s, locals);
    case Logic(_, _, _) => LogicSimulates(c, p, indent, st, s, locals);
    case Quantifier(_, _, _, _) => QuantifierSimulates(c, p, indent, st, s, locals);
    case Cond(_, _, _) => CondSimulates(c, p, expected, indent, st, s, locals);
    case Neg(_) | Not(_) | Size(_) | In(_, _) | Matches(_, _) => UnarySimulates(c, p, indent, st, s, locals);
    case Compare(_, _, _) | Arith(_, _, _) | Test(_, _, _) => BinarySimulates(c, p, indent, st, s, locals);
  }

  lemma {:induction false} IdentSimulates(c: Context, name: Text, expected: PlainType, ct: bool, st: State, s: Store,
      locals: seq<Local>)
    requires Inv(c, st, s, locals) && Extends(EmitIdent(name, expected, ct, st).st, c.fin)
    ensures Simulates(c, EmitIdent(name, expected, ct, st), s, locals, Lazy(c.m, locals, Ident(name), expected, ct))
  {
    hide Simulates, Extends, Wf, StoreOk, Read, RootObject;
    FindScopeLocal(st.scopes, s, locals, name);
    var lazy := Lazy(c.m, locals, Ident(name), expected, ct);
    match FindScope(st.scopes, name)
    case Some(v) => ReadSimulates(c, st, s, locals, EVar(v), expected, ct, Some(s[v]), lazy);
    case None =>
      if expected == TObject {
        RootSimulates(c, st, s, locals, name);
      } else {
        ReadSimulates(c, st, s, locals, EBinding(name), expected, ct, Some(Get(c.m.bindings, name)), lazy);
      }
  }

  lemma {:induction false} RootSimulates(c: Context, st: State, s: Store, locals: seq<Local>, name: Text)
    requires Inv(c, st, s, locals) && Extends(RootObject(st, name).st, c.fin)
    ensures Simulates(c, RootObject(st, name), s, locals, Some(Get(c.m.bindings, name)))
    ensures Get(c.m.bindings, name).VMap?
  {
    RootObjectShape(st, name);
    var r := RootObject(st, name);
    var h := HoistedRead(r.e.v, name);
    assert h in r.st.roots;
    assert h in c.fin.roots;
    assert Run(c.m, s, []) == Done(s);
  }

  lemma {:induction false} SelectSimulates(c: Context, p: Plan, expected: PlainType, indent: nat, ct: bool, st: State,
                                           s: Store, locals: seq<Local>)
    requires p.Select? && EmitSelect(c.mode, p, expected, indent, ct, st).Some? && Covers(c, p)
    requires Inv(c, st, s, locals) && Extends(EmitSelect(c.mode, p, expected, indent, ct, st).value.st, c.fin)
    ensures Simulates(c, EmitSelect(c.mode, p, expected, indent, ct, st).value, s, locals,
                      Lazy(c.m, locals, p, expected, ct))
    decreases p, 2, 0
  {
    hide Emit, Wf, Extends, CacheOk, StoreOk, ScopesOk, Loaded, CachedObject, Fresh, Read, EvalExpr, Run, Writes, Frame,
         EntryKept;
    var noted := NoteDotted(st, p);
    NotedInv(c, st, s, locals, p);
    EmitShape(c.mode, p.target, TObject, indent, true, noted);
    var t := Emit(c.mode, p.target, TObject, indent, true, noted).value;
    var r := if expected == TObject then CachedObject(t.st, t.e.v, p.field, indent)
             else Read(t.st, EGet(t.e, EText(p.field)), expected, ct);
    CachedObjectShape(t.st, t.e.v, p.field, indent);
    ReadShape(t.st, EGet(t.e, EText(p.field)), expected, ct);
    ExtendsVia(t.st, r.st, c.fin, r.code);
    EmitSimulates(c, p.target, TObject, indent, true, noted, s, locals);
    RunConcat(c.m, s, t.code, r.code);
    var v := Lazy(c.m, locals, p.target, TObject, true);
    LazySelect(c.m, locals, p, expected, ct);
    if Run(c.m, s, t.code).Done? {
      var u := Run(c.m, s, t.code).store;
      if expected == TObject {
        PathMeaning(c.m, c.mode, p.target, indent, true, noted, s, locals);
        CachedProvenance(t.st, t.e.v, p.field, indent);
        SelectPath(c, t.st, t.e.v, p.field, v);
        CachedSimulates(c, t.st, u, locals, t.e.v, p.field, indent, v, Lazy(c.m, locals, p, expected, ct));
      } else {
        EvalText(c.m, u, p.field);
        FieldRead(c, u, t.e.v, EText(p.field), p.field, v);
        ReadSimulates(c, t.st, u, locals, EGet(t.e, EText(p.field)), expected, ct,
                      if v.Some? then Some(Get(v.value.fields, p.field)) else None,
                      Lazy(c.m, locals, p, expected, ct));
      }
      Chain(c, s, u, locals, t, r, r.e, Lazy(c.m, locals, p, expected, ct));
    }
  }

  lemma {:induction false} LazySelect(m: Machine, locals: seq<Local>, p: Plan, expected: PlainType, ct: bool)
    requires p.Select?
    ensures var v := Lazy(m, locals, p.target, TObject, true);
            && (v.None? ==> Lazy(m, locals, p, expected, ct).None?)
            && (v.Some? ==> Lazy(m, locals, p, expected, ct) == Checked_(Get(v.value.fields, p.field), expected, ct))
  {
    assert LazyObject(m, locals, p.target).Some? <==> Lazy(m, locals, p.target, TObject, true).Some?;
  }

  lemma {:induction false} SelectPath(c: Context, st: State, target: Var, field: Text, v: Option<Value>)
    requires target in st.paths ==> v == PathValue(c.m.bindings, st.paths[target])
    requires v.Some? ==> v.value.VMap?
    ensures target in st.paths ==>
              (PathValue(c.m.bindings, Extend(st.paths[target], field))
            == (if v.Some? && Get(v.value.fields, field).VMap? then Some(Get(v.value.fields, field)) else None))
  {
    if target in st.paths {
      var path := st.paths[target];
      assert Extend(path, field).fields[..|path.fields|] == path.fields;
    }
  }

  lemma {:induction false} NotedInv(c: Context, st: State, s: Store, locals: seq<Local>, p: Plan)
    requires Inv(c, st, s, locals)
    ensures Inv(c, NoteDotted(st, p), s, locals) && Wf(NoteDotted(st, p))
    ensures Wf(st) && ScopesOk(NoteDotted(st, p).scopes, s, locals)
  {
  }

  lemma {:induction false} ExtendsVia(a: State, b: State, fin: State, code: seq<Stmt>)
    requires Grows(a, b, code) && Extends(b, fin)
    ensures Extends(a, fin)
  {
  }

  /** Two stretches of code, one after the other. */
  lemma {:induction false} Chain(c: Context, s: Store, u: Store, locals: seq<Local>, a: Emitted, b: Emitted, e: Expr,
      lazy: Option<Value>)
    requires Run(c.m, s, a.code) == Done(u) && Frame(s, u, Writes(a.code))
    requires Simulates(c, b.(e := e), u, locals, lazy)
    ensures Simulates(c, Emitted(a.code + b.code, e, b.st), s, locals, lazy)
  {
    RunConcat(c.m, s, a.code, b.code);
    if Run(c.m, u, b.code).Done? {
      FrameTrans(s, u, Run(c.m, u, b.code).store, a.code, b.code);
    }
  }

  /** An operator applied to an operand of its type is never a type fault. */
  lemma {:induction false} UnaryValue(c: Context, s: Store, p: Plan, e: Expr, v: Option<Value>)
    requires IsUnary(p) && OperandType(p).Some? && Covers(c, p)
    requires ResultOk(c, EvalExpr(c.m, s, e), v) && (v.Some? ==> HasType(v.value, OperandType(p).value))
    ensures ResultOk(c, EvalExpr(c.m, s, UnaryExpr(p, e)),
                     if v.Some? then Answers(UnaryResult(c.m, p, v.value)) else None)
  {
  }

  lemma {:induction false} BinaryValue(c: Context, s: Store, p: Plan, l: Expr, r: Expr, v: Option<Value>,
      w: Option<Value>)
    requires IsBinary(p) && OperandsType(p).Some?
    requires ResultOk(c, EvalExpr(c.m, s, l), v) && (v.Some? ==> HasType(v.value, OperandsType(p).value))
    requires ResultOk(c, EvalExpr(c.m, s, r), w) && (w.Some? ==> HasType(w.value, OperandsType(p).value))
    ensures ResultOk(c, EvalExpr(c.m, s, BinaryExpr(p, l, r)),
                     if v.Some? && w.Some? then Answers(BinaryResult(p, v.value, w.value)) else None)
  {
  }

  lemma {:induction false} UnarySimulates(c: Context, p: Plan, indent: nat, st: State, s: Store, locals: seq<Local>)
    requires IsUnary(p) && EmitUnary(c.mode, p, indent, st).Some? && Covers(c, p)
    requires Inv(c, st, s, locals) && Extends(EmitUnary(c.mode, p, indent, st).value.st, c.fin)
    ensures Simulates(c, EmitUnary(c.mode, p, indent, st).value, s, locals, LazyUnary(c.m, locals, p))
    decreases p, 2, 0
  {
    hide Emit, Inv, Extends, Frame;
    var kind := OperandType(p).value;
    var o := Emit(c.mode, Operand(p), kind, indent, OperandChecked(p), st).value;
    EmitSimulates(c, Operand(p), kind, indent, OperandChecked(p), st, s, locals);
    if Run(c.m, s, o.code).Done? {
      UnaryValue(c, Run(c.m, s, o.code).store, p, o.e, Lazy(c.m, locals, Operand(p), kind, OperandChecked(p)));
    }
  }

  lemma {:induction false} BinarySimulates(c: Context, p: Plan, indent: nat, st: State, s: Store, locals: seq<Local>)
    requires IsBinary(p) && EmitBinary(c.mode, p, indent, st).Some? && Covers(c, p)
    requires Inv(c, st, s, locals) && Extends(EmitBinary(c.mode, p, indent, st).value.st, c.fin)
    ensures Simulates(c, EmitBinary(c.mode, p, indent, st).value, s, locals, LazyBinary(c.m, locals, p))
    decreases p, 2, 0
  {
    hide Emit, Extends, Frame, Inv;
    var kind, ct := OperandsType(p).value, OperandsChecked(p);
    var l := Emit(c.mode, LeftOperand(p), kind, indent, ct, st).value;
    var r := Emit(c.mode, RightOperand(p), kind, indent, ct, l.st).value;
    OperandsSimulate(c, p, LeftOperand(p), kind, ct, RightOperand(p), kind, ct, indent, st, s, locals);
    if Run(c.m, s, l.code + r.code).Done? {
      BinaryValue(c, Run(c.m, s, l.code + r.code).store, p, l.e, r.e, Lazy(c.m, locals, LeftOperand(p), kind, ct),
                  Lazy(c.m, locals, RightOperand(p), kind, ct));
    }
  }

  /** Both operands are read before either is used. */
  lemma {:induction false} OperandsSimulate(c: Context, p: Plan, a: Plan, ka: PlainType, ca: bool, b: Plan,
      kb: PlainType, cb: bool, indent: nat, st: State, s: Store, locals: seq<Local>)
    requires a < p && b < p && Inv(c, st, s, locals) && Covers(c, a) && Covers(c, b)
    requires Emit(c.mode, a, ka, indent, ca, st).Some?
    requires var l := Emit(c.mode, a, ka, indent, ca, st).value;
             Emit(c.mode, b, kb, indent, cb, l.st).Some? &&
                 Extends(Emit(c.mode, b, kb, indent, cb, l.st).value.st, c.fin)
    ensures var l := Emit(c.mode, a, ka, indent, ca, st).value;
            var r := Emit(c.mode, b, kb, indent, cb, l.st).value;
            match Run(c.m, s, l.code + r.code)
            case Done(u) =>
              && Inv(c, r.st, u, locals) && Frame(s, u, Writes(l.code + r.code))
              && ResultOk(c, EvalExpr(c.m, u, l.e), Lazy(c.m, locals, a, ka, ca))
              && ResultOk(c, EvalExpr(c.m, u, r.e), Lazy(c.m, locals, b, kb, cb))
            case Broke(_) => false
            case Failed(f) =>
              Excused(c, f, Lazy(c.m, locals, a, ka, ca)) || Excused(c, f, Lazy(c.m, locals, b, kb, cb))
    decreases p, 1, 0
  {
    hide Emit, Extends, Frame, Wf, StoreOk, ScopesOk, Loaded, CacheOk;
    EmitShape(c.mode, a, ka, indent, ca, st);
    var l := Emit(c.mode, a, ka, indent, ca, st).value;
    EmitShape(c.mode, b, kb, indent, cb, l.st);
    var r := Emit(c.mode, b, kb, indent, cb, l.st).value;
    ExtendsVia(l.st, r.st, c.fin, r.code);
    EmitSimulates(c, a, ka, indent, ca, st, s, locals);
    RunConcat(c.m, s, l.code, r.code);
    if Run(c.m, s, l.code).Done? {
      var t := Run(c.m, s, l.code).store;
      EmitSimulates(c, b, kb, indent, cb, l.st, t, locals);
      if Run(c.m, t, r.code).Done? {
        var u := Run(c.m, t, r.code).store;
        LaterSame(c.m, l.st, r.st, t, u, l.e, r.code);
        FrameTrans(s, t, u, l.code, r.code);
      }
    }
  }

  lemma {:induction false} IndexSimulates(c: Context, p: Plan, expected: PlainType, indent: nat, ct: bool, st: State,
                                          s: Store, locals: seq<Local>)
    requires p.Index? && EmitIndex(c.mode, p, expected, indent, ct, st).Some? && Covers(c, p)
    requires Inv(c, st, s, locals) && Extends(EmitIndex(c.mode, p, expected, indent, ct, st).value.st, c.fin)
    ensures Simulates(c, EmitIndex(c.mode, p, expected, indent, ct, st).value, s, locals,
                      Lazy(c.m, locals, p, expected, ct))
    decreases p, 2, 0
  {
    hide Emit, Extends, Frame, Inv, Wf, Lazy, Writes, EvalExpr, Read, Run;
    var texts := KeyType(p.key) == TText;
    var kind := IndexedType(p);
    var t := Emit(c.mode, p.target, kind, indent, true, st).value;
    var k := Emit(c.mode, p.key, KeyType(p.key), indent, !texts, t.st).value;
    var source := IndexExpr(p, t.e, k.e);
    var r := Read(k.st, source, expected, ct);
    IndexExtends(c, p, expected, indent, ct, st, s, locals);
    var lazy := Lazy(c.m, locals, p, expected, ct);
    var v := Lazy(c.m, locals, p.target, kind, true);
    var w := Lazy(c.m, locals, p.key, KeyType(p.key), !texts);
    LazyIndex(c.m, locals, p, expected, ct);
    OperandsSimulate(c, p, p.target, kind, true, p.key, KeyType(p.key), !texts, indent, st, s, locals);
    RunConcat(c.m, s, t.code + k.code, r.code);
    if Run(c.m, s, t.code + k.code).Done? {
      var u := Run(c.m, s, t.code + k.code).store;
      IndexRead(c, u, p, t.e, k.e, v, w);
      ReadSimulates(c, k.st, u, locals, source, expected, ct, IndexValue(p, v, w), lazy);
      Chain(c, s, u, locals, Emitted(t.code + k.code, k.e, k.st), r, r.e, lazy);
    }
  }

  lemma {:induction false} IndexExtends(c: Context, p: Plan, expected: PlainType, indent: nat, ct: bool, st: State,
      s: Store, locals: seq<Local>)
    requires p.Index? && EmitIndex(c.mode, p, expected, indent, ct, st).Some?
    requires Inv(c, st, s, locals) && Extends(EmitIndex(c.mode, p, expected, indent, ct, st).value.st, c.fin)
    ensures var texts := KeyType(p.key) == TText;
            var t := Emit(c.mode, p.target, IndexedType(p), indent, true, st).value;
            var k := Emit(c.mode, p.key, KeyType(p.key), indent, !texts, t.st).value;
            Extends(k.st, c.fin)
  {
    hide Emit, Extends, CacheOk, StoreOk, ScopesOk;
    var texts := KeyType(p.key) == TText;
    var kind := IndexedType(p);
    EmitShape(c.mode, p.target, kind, indent, true, st);
    var t := Emit(c.mode, p.target, kind, indent, true, st).value;
    EmitShape(c.mode, p.key, KeyType(p.key), indent, !texts, t.st);
    var k := Emit(c.mode, p.key, KeyType(p.key), indent, !texts, t.st).value;
    var source := IndexExpr(p, t.e, k.e);
    ReadShape(k.st, source, expected, ct);
    ExtendsVia(k.st, Read(k.st, source, expected, ct).st, c.fin, Read(k.st, source, expected, ct).code);
  }

  /** The entry an index expression looks up, absent entries included. */
  function IndexValue(p: Plan, v: Option<Value>, w: Option<Value>): Option<Value>
    requires p.Index? && (v.Some? && w.Some? ==>
      if KeyType(p.key) == TText then v.value.VMap? && w.value.VText? else v.value.VList? && w.value.VInt?)
  {
    if v.None? || w.None? then None
    else if KeyType(p.key) == TText then Some(Get(v.value.fields, w.value.t))
    else Some(if 0 <= w.value.n < |v.value.items| then v.value.items[w.value.n] else MISSING)
  }

  lemma {:induction false} LazyIndex(m: Machine, locals: seq<Local>, p: Plan, expected: PlainType, ct: bool)
    requires p.Index? && (KeyType(p.key) == TText || KeyType(p.key) == TInt)
    ensures var texts := KeyType(p.key) == TText;
            var x := IndexValue(p, Lazy(m, locals, p.target, IndexedType(p), true),
                                Lazy(m, locals, p.key, KeyType(p.key), !texts));
            Lazy(m, locals, p, expected, ct) == if x.Some? then Checked_(x.value, expected, ct) else None
  {
    if KeyType(p.key) == TText {
      assert LazyObject(m, locals, p.target).Some? <==> Lazy(m, locals, p.target, TObject, true).Some?;
      assert LazyText(m, locals, p.key, false).Some? <==> Lazy(m, locals, p.key, TText, false).Some?;
    } else {
      assert LazyList(m, locals, p.target).Some? <==> Lazy(m, locals, p.target, TList, true).Some?;
      assert LazyInt(m, locals, p.key).Some? <==> Lazy(m, locals, p.key, TInt, true).Some?;
    }
  }

  lemma {:induction false} IndexRead(c: Context, s: Store, p: Plan, t: Expr, k: Expr, v: Option<Value>,
      w: Option<Value>)
    requires p.Index? && (v.Some? && w.Some? ==>
      if KeyType(p.key) == TText then v.value.VMap? && w.value.VText? else v.value.VList? && w.value.VInt?)
    requires ResultOk(c, EvalExpr(c.m, s, t), v) && ResultOk(c, EvalExpr(c.m, s, k), w)
    ensures ResultOk(c, EvalExpr(c.m, s, IndexExpr(p, t, k)), IndexValue(p, v, w))
  {
    if KeyType(p.key) == TText {
      GetRead(c, s, t, k, v, w);
    } else {
      ItemRead(c, s, t, k, v, w);
    }
  }

  lemma {:induction false} GetRead(c: Context, s: Store, t: Expr, k: Expr, v: Option<Value>, w: Option<Value>)
    requires v.Some? && w.Some? ==> v.value.VMap? && w.value.VText?
    requires ResultOk(c, EvalExpr(c.m, s, t), v) && ResultOk(c, EvalExpr(c.m, s, k), w)
    ensures ResultOk(c, EvalExpr(c.m, s, EGet(t, k)),
                     if v.Some? && w.Some? then Some(Get(v.value.fields, w.value.t)) else None)
  {
  }

  lemma {:induction false} ItemRead(c: Context, s: Store, t: Expr, k: Expr, v: Option<Value>, w: Option<Value>)
    requires v.Some? && w.Some? ==> v.value.VList? && w.value.VInt?
    requires ResultOk(c, EvalExpr(c.m, s, t), v) && ResultOk(c, EvalExpr(c.m, s, k), w)
    ensures ResultOk(c, EvalExpr(c.m, s, EItem(t, k)),
                     if v.None? || w.None? then None
                     else Some(if 0 <= w.value.n < |v.value.items| then v.value.items[w.value.n] else MISSING))
  {
  }

  // ----- blocks -----

  /** What holds of the store at the end of a nested block, whose value is in the result variable. */
  ghost predicate BlockEnd(c: Context, scopes: seq<Scope>, s: Store, t: Store, locals: seq<Local>, writes: set<Var>,
                           result: Var, lazy: Option<Value>) {
    StoreOk(c, t) && ScopesOk(scopes, t, locals) && Frame(s, t, writes) && result in t && lazy == Some(t[result])
  }

  ghost predicate BlockOutcome(c: Context, scopes: seq<Scope>, s: Store, o: Outcome, locals: seq<Local>,
                               writes: set<Var>, result: Var, lazy: Option<Value>) {
    match o
    case Done(t) => BlockEnd(c, scopes, s, t, locals, writes, result, lazy)
    case Broke(_) => false
    case Failed(f) => Excused(c, f, lazy)
  }

  /** A variable that only holds results. */
  ghost predicate ResultVar(c: Context, scopes: seq<Scope>, v: Var) {
    v !in c.fin.paths && v !in RootVars(c.fin.roots) && forall x :: x in scopes ==> x.v != v
  }

  /** A variable just allocated, not hoisted and not cached, is a result variable for good. */
  lemma {:induction false} ResultVarOk(c: Context, st: State, inner: State, v: Var)
    requires Wf(st) && st.counter < v <= inner.counter && inner.roots == st.roots && inner.paths == st.paths
    requires Extends(inner, c.fin)
    ensures ResultVar(c, st.scopes, v)
  {
    RootsOld(st);
  }

  lemma {:induction false} AssignResult(c: Context, s: Store, scopes: seq<Scope>, locals: seq<Local>, v: Var, x: Value)
    requires StoreOk(c, s) && ScopesOk(scopes, s, locals) && ResultVar(c, scopes, v)
    ensures StoreOk(c, s[v := x]) && ScopesOk(scopes, s[v := x], locals)
  {
  }

  /** A branch: its code, then its value into the result variable. */
  lemma {:induction false} BranchSimulates(c: Context, r: Emitted, s: Store, locals: seq<Local>, result: Var,
      lazy: Option<Value>)
    requires Simulates(c, r, s, locals, lazy) && ResultVar(c, r.st.scopes, result)
    ensures BlockOutcome(c, r.st.scopes, s, Run(c.m, s, r.code + [Assign(result, r.e)]), locals,
                         Writes(r.code) + {result}, result, lazy)
  {
    hide StoreOk, ScopesOk, ResultVar, Wf;
    RunConcat(c.m, s, r.code, [Assign(result, r.e)]);
    if Run(c.m, s, r.code).Done? {
      var t := Run(c.m, s, r.code).store;
      RunOne(c.m, t, Assign(result, r.e));
      if EvalExpr(c.m, t, r.e).Val? {
        AssignResult(c, t, r.st.scopes, locals, result, EvalExpr(c.m, t, r.e).value);
      }
    }
  }

  /** A later cache that remembers nothing new but hoisted reads. */
  ghost predicate NoNewer(c: Context, before: Cache, after: Cache) {
    forall k :: k in after ==> (k in before && after[k] == before[k]) || after[k] in RootVars(c.fin.roots)
  }

  /** Code, then a block that leaves its value in the result variable; the cache is what it was before the block, or,
      as written, any other. */
  lemma {:induction false} AfterBlock(c: Context, a: Emitted, wrapped: seq<Stmt>, result: Var, st: State, s: Store,
      locals: seq<Local>, lazyA: Option<Value>, lazy: Option<Value>)
    requires Simulates(c, a, s, locals, lazyA) && (lazyA.None? ==> lazy.None?)
    requires Run(c.m, s, a.code).Done? ==>
               var u := Run(c.m, s, a.code).store;
               BlockOutcome(c, a.st.scopes, u, Run(c.m, u, wrapped), locals, Writes(wrapped), result, lazy)
    requires Wf(st) && st.scopes == a.st.scopes && (c.mode.Scoped? ==> NoNewer(c, a.st.objects, st.objects))
    ensures Simulates(c, Emitted(a.code + wrapped, EVar(result), st), s, locals, lazy)
  {
    hide ScopesOk, Wf;
    RunConcat(c.m, s, a.code, wrapped);
    if Run(c.m, s, a.code).Done? && Run(c.m, Run(c.m, s, a.code).store, wrapped).Done? {
      var u := Run(c.m, s, a.code).store;
      FrameTrans(s, u, Run(c.m, u, wrapped).store, a.code, wrapped);
    }
  }

  lemma {:induction false} LogicSimulates(c: Context, p: Plan, indent: nat, st: State, s: Store, locals: seq<Local>)
    requires p.Logic? && EmitLogic(c.mode, p, indent, st).Some? && Covers(c, p)
    requires Inv(c, st, s, locals) && Extends(EmitLogic(c.mode, p, indent, st).value.st, c.fin)
    ensures Simulates(c, EmitLogic(c.mode, p, indent, st).value, s, locals, Lazy(c.m, locals, p, TBool, true))
    decreases p, 2, 0
  {
    hide Emit, Extends, Wf, StoreOk, ScopesOk, Loaded, ResultVar, Writes, Frame, EvalExpr;
    var l := Emit(c.mode, p.left, TBool, indent, true, st).value;
    var result := l.st.counter + 1;
    var inner := l.st.(counter := result);
    var r := Emit(c.mode, p.right, TBool, indent + 1, true, inner).value;
    var test := if p.conj then EVar(result) else ENot(EVar(result));
    var wrapped := [Assign(result, l.e), If(test, r.code + [Assign(result, r.e)])];
    LogicShape(c.mode, p, indent, st);
    LogicExtends(c, p, indent, st);
    EmitSimulates(c, p.left, TBool, indent, true, st, s, locals);
    var lazyL := Lazy(c.m, locals, p.left, TBool, true);
    if Run(c.m, s, l.code).Done? {
      var u := Run(c.m, s, l.code).store;
      if lazyL == Some(VBool(p.conj)) {
        InnerInv(c, l.st, u, locals, inner, result, VBool(p.conj));
        EmitSimulates(c, p.right, TBool, indent + 1, true, inner, u[result := VBool(p.conj)], locals);
      }
      LogicBlock(c, p, l, r, inner, result, u, locals);
    }
    LazyLogic(c.m, locals, p);
    AfterBlock(c, l, wrapped, result, Restore(r.st, l.st.objects), s, locals, lazyL, Lazy(c.m, locals, p, TBool, true));
  }

  lemma {:induction false} LazyLogic(m: Machine, locals: seq<Local>, p: Plan)
    requires p.Logic?
    ensures var l := Lazy(m, locals, p.left, TBool, true);
            Lazy(m, locals, p, TBool, true)
                == (if l == Some(VBool(p.conj)) then Lazy(m, locals, p.right, TBool, true) else l)
  {
    assert LazyBool(m, locals, p.left).Some? <==> Lazy(m, locals, p.left, TBool, true).Some?;
    assert LazyBool(m, locals, p.right).Some? <==> Lazy(m, locals, p.right, TBool, true).Some?;
  }

  lemma {:induction false} LogicExtends(c: Context, p: Plan, indent: nat, st: State)
    requires p.Logic? && Wf(st) && EmitLogic(c.mode, p, indent, st).Some?
    requires Extends(EmitLogic(c.mode, p, indent, st).value.st, c.fin)
    ensures var l := Emit(c.mode, p.left, TBool, indent, true, st).value;
            var inner := l.st.(counter := l.st.counter + 1);
            var r := Emit(c.mode, p.right, TBool, indent + 1, true, inner).value;
            && Wf(l.st) && Wf(inner) && Extends(l.st, c.fin) && Extends(inner, c.fin) && Extends(r.st, c.fin)
            && r.st.scopes == l.st.scopes && ResultVar(c, l.st.scopes, l.st.counter + 1)
  {
    hide Emit, CacheOk, Fresh;
    EmitShape(c.mode, p.left, TBool, indent, true, st);
    var l := Emit(c.mode, p.left, TBool, indent, true, st).value;
    var inner := l.st.(counter := l.st.counter + 1);
    GrowsAllocate(l.st, inner.counter);
    EmitShape(c.mode, p.right, TBool, indent + 1, true, inner);
    var r := Emit(c.mode, p.right, TBool, indent + 1, true, inner).value;
    ExtendsVia(inner, r.st, c.fin, r.code);
    ExtendsVia(l.st, inner, c.fin, []);
    ResultVarOk(c, l.st, inner, inner.counter);
  }

  /** Entering a block in which the result variable already has a value. */
  lemma {:induction false} InnerInv(c: Context, st: State, s: Store, locals: seq<Local>, inner: State, v: Var, x: Value)
    requires Inv(c, st, s, locals) && Wf(inner) && inner.scopes == st.scopes && inner.objects == st.objects
    requires ResultVar(c, st.scopes, v)
    ensures Inv(c, inner, s[v := x], locals)
  {
  }

  lemma {:induction false} LogicBlock(c: Context, p: Plan, l: Emitted, r: Emitted, inner: State, result: Var, u: Store,
      locals: seq<Local>)
    requires p.Logic? && Inv(c, l.st, u, locals) && ResultVar(c, l.st.scopes, result) && r.st.scopes == l.st.scopes
    requires ResultOk(c, EvalExpr(c.m, u, l.e), Lazy(c.m, locals, p.left, TBool, true))
    requires Lazy(c.m, locals, p.left, TBool, true) == Some(VBool(p.conj)) ==>
               Simulates(c, r, u[result := VBool(p.conj)], locals, Lazy(c.m, locals, p.right, TBool, true))
    ensures var test := if p.conj then EVar(result) else ENot(EVar(result));
            var wrapped := [Assign(result, l.e), If(test, r.code + [Assign(result, r.e)])];
            BlockOutcome(c, l.st.scopes, u, Run(c.m, u, wrapped), locals, Writes(wrapped), result,
                         Lazy(c.m, locals, p, TBool, true))
  {
    hide Wf, StoreOk, ScopesOk, ResultVar, Lazy, Simulates;
    var test := if p.conj then EVar(result) else ENot(EVar(result));
    var branch := r.code + [Assign(result, r.e)];
    LazyLogic(c.m, locals, p);
    LogicWrites(test, l.e, r, result);
    assert [Assign(result, l.e), If(test, branch)] == [Assign(result, l.e)] + [If(test, branch)];
    RunThen(c.m, u, Assign(result, l.e), [If(test, branch)]);
    if EvalExpr(c.m, u, l.e).Val? {
      var x := EvalExpr(c.m, u, l.e).value;
      var t := u[result := x];
      AssignResult(c, u, l.st.scopes, locals, result, x);
      RunOne(c.m, t, If(test, branch));
      assert EvalExpr(c.m, t, EVar(result)) == Val(x);
      if x.b == p.conj {
        BranchSimulates(c, r, t, locals, result, Lazy(c.m, locals, p.right, TBool, true));
      }
    }
  }

  lemma {:induction false} CondSimulates(c: Context, p: Plan, expected: PlainType, indent: nat, st: State, s: Store,
                                         locals: seq<Local>)
    requires p.Cond? && expected !in {TObject, TList, TAny} && EmitCond(c.mode, p, expected, indent, st).Some?
    requires Covers(c, p)
    requires Inv(c, st, s, locals) && Extends(EmitCond(c.mode, p, expected, indent, st).value.st, c.fin)
    ensures Simulates(c, EmitCond(c.mode, p, expected, indent, st).value, s, locals,
                      Lazy(c.m, locals, p, expected, true))
    decreases p, 2, 0
  {
    hide Emit, Extends, Wf, StoreOk, ScopesOk, Loaded, ResultVar, Writes, Frame, EvalExpr;
    var k := Emit(c.mode, p.condition, TBool, indent, true, st).value;
    var result := k.st.counter + 1;
    var inner := k.st.(counter := result);
    var y := Emit(c.mode, p.yes, expected, indent + 1, true, inner).value;
    var start := ElseStart(y.st, k.st.objects);
    var n := Emit(c.mode, p.no, expected, indent + 1, true, start).value;
    var wrapped := [IfElse(k.e, y.code + [Assign(result, y.e)], n.code + [Assign(result, n.e)])];
    CondShape(c.mode, p, expected, indent, st);
    CondExtends(c, p, expected, indent, st);
    EmitSimulates(c, p.condition, TBool, indent, true, st, s, locals);
    var lazyC := Lazy(c.m, locals, p.condition, TBool, true);
    LazyCond(c.m, locals, p, expected);
    if Run(c.m, s, k.code).Done? {
      var u := Run(c.m, s, k.code).store;
      if lazyC == Some(VBool(true)) {
        SameInv(c, k.st, u, locals, inner);
        EmitSimulates(c, p.yes, expected, indent + 1, true, inner, u, locals);
      } else if lazyC == Some(VBool(false)) {
        SameInv(c, k.st, u, locals, start);
        EmitSimulates(c, p.no, expected, indent + 1, true, start, u, locals);
      }
      CondBlock(c, p, expected, k, y, n, result, u, locals);
    }
    AfterBlock(c, k, wrapped, result, EmitCond(c.mode, p, expected, indent, st).value.st, s, locals, lazyC,
               Lazy(c.m, locals, p, expected, true));
  }

  lemma {:induction false} SameInv(c: Context, st: State, s: Store, locals: seq<Local>, inner: State)
    requires Inv(c, st, s, locals) && Wf(inner) && inner.scopes == st.scopes && inner.objects == st.objects
    ensures Inv(c, inner, s, locals)
  {
  }

  lemma {:induction false} LazyCond(m: Machine, locals: seq<Local>, p: Plan, expected: PlainType)
    requires p.Cond? && expected !in {TObject, TList, TAny}
    ensures var k := Lazy(m, locals, p.condition, TBool, true);
            && (k.None? ==> Lazy(m, locals, p, expected, true).None?)
            && (k == Some(VBool(true)) ==> Lazy(m, locals, p, expected, true) == Lazy(m, locals, p.yes, expected, true))
            && (k == Some(VBool(false)) ==> Lazy(m, locals, p, expected, true) == Lazy(m, locals, p.no, expected, true))
  {
    assert LazyBool(m, locals, p.condition).Some? <==> Lazy(m, locals, p.condition, TBool, true).Some?;
  }

  lemma {:induction false} CondExtends(c: Context, p: Plan, expected: PlainType, indent: nat, st: State)
    requires p.Cond? && expected !in {TObject, TList, TAny} && Wf(st)
    requires EmitCond(c.mode, p, expected, indent, st).Some?
    requires Extends(EmitCond(c.mode, p, expected, indent, st).value.st, c.fin)
    ensures var k := Emit(c.mode, p.condition, TBool, indent, true, st).value;
            var inner := k.st.(counter := k.st.counter + 1);
            var y := Emit(c.mode, p.yes, expected, indent + 1, true, inner).value;
            var start := ElseStart(y.st, k.st.objects);
            var n := Emit(c.mode, p.no, expected, indent + 1, true, start).value;
            && Wf(inner) && Wf(start)
            && Extends(k.st, c.fin) && Extends(inner, c.fin) && Extends(y.st, c.fin) && Extends(n.st, c.fin)
            && y.st.scopes == k.st.scopes == n.st.scopes && ResultVar(c, k.st.scopes, k.st.counter + 1)
            && NoNewer(c, k.st.objects, AfterElse(Scoped, k.st.objects, n.st.entry))
  {
    hide Emit, Wf, Grows, CacheOk;
    EmitShape(c.mode, p.condition, TBool, indent, true, st);
    var k := Emit(c.mode, p.condition, TBool, indent, true, st).value;
    var inner := k.st.(counter := k.st.counter + 1);
    GrowsAllocate(k.st, inner.counter);
    GrowsCounter(k.st, inner, []);
    EmitShape(c.mode, p.yes, expected, indent + 1, true, inner);
    var y := Emit(c.mode, p.yes, expected, indent + 1, true, inner).value;
    var start := ElseStart(y.st, k.st.objects);
    ElseStartShape(inner, y);
    EmitShape(c.mode, p.no, expected, indent + 1, true, start);
    var n := Emit(c.mode, p.no, expected, indent + 1, true, start).value;
    KeptRoots(c, k.st.objects, n.st);
    ExtendsVia(start, n.st, c.fin, n.code);
    ExtendsVia(inner, start, c.fin, y.code);
    ExtendsVia(k.st, inner, c.fin, []);
    ResultVarOk(c, k.st, inner, inner.counter);
  }

  lemma {:induction false} KeptRoots(c: Context, before: Cache, n: State)
    requires Wf(n) && Extends(n, c.fin)
    ensures NoNewer(c, before, AfterElse(Scoped, before, n.entry))
  {
    forall k | k in n.entry && k.RootKey?
      ensures n.entry[k] in RootVars(c.fin.roots)
    {
      assert HoistedRead(n.entry[k], k.name) in c.fin.roots;
    }
  }

  lemma {:induction false} CondBlock(c: Context, p: Plan, expected: PlainType, k: Emitted, y: Emitted, n: Emitted,
      result: Var, u: Store, locals: seq<Local>)
    requires p.Cond? && ResultVar(c, k.st.scopes, result)
    requires y.st.scopes == k.st.scopes == n.st.scopes && expected !in {TObject, TList, TAny}
    requires ResultOk(c, EvalExpr(c.m, u, k.e), Lazy(c.m, locals, p.condition, TBool, true))
    requires Lazy(c.m, locals, p.condition, TBool, true) == Some(VBool(true)) ==>
               Simulates(c, y, u, locals, Lazy(c.m, locals, p.yes, expected, true))
    requires Lazy(c.m, locals, p.condition, TBool, true) == Some(VBool(false)) ==>
               Simulates(c, n, u, locals, Lazy(c.m, locals, p.no, expected, true))
    ensures var wrapped := [IfElse(k.e, y.code + [Assign(result, y.e)], n.code + [Assign(result, n.e)])];
            BlockOutcome(c, k.st.scopes, u, Run(c.m, u, wrapped), locals, Writes(wrapped), result,
                         Lazy(c.m, locals, p, expected, true))
  {
    hide StoreOk, ScopesOk, ResultVar, Lazy, Simulates;
    var choice := IfElse(k.e, y.code + [Assign(result, y.e)], n.code + [Assign(result, n.e)]);
    LazyCond(c.m, locals, p, expected);
    CondWrites(k.e, y, n, result);
    RunOne(c.m, u, choice);
    if EvalExpr(c.m, u, k.e) == Val(VBool(true)) {
      BranchSimulates(c, y, u, locals, result, Lazy(c.m, locals, p.yes, expected, true));
    } else if EvalExpr(c.m, u, k.e) == Val(VBool(false)) {
      BranchSimulates(c, n, u, locals, result, Lazy(c.m, locals, p.no, expected, true));
    }
  }

  // ----- loops -----

  lemma {:induction false} QuantifierSimulates(c: Context, p: Plan, indent: nat, st: State, s: Store,
      locals: seq<Local>)
    requires p.Quantifier? && EmitQuantifier(c.mode, p, indent, st).Some? && Covers(c, p)
    requires Inv(c, st, s, locals) && Extends(EmitQuantifier(c.mode, p, indent, st).value.st, c.fin)
    ensures Simulates(c, EmitQuantifier(c.mode, p, indent, st).value, s, locals, Lazy(c.m, locals, p, TBool, true))
    decreases p, 2, 0
  {
    hide Emit, Extends, Wf, StoreOk, ScopesOk, Loaded, ResultVar, Writes, Frame, EvalExpr;
    var t := Emit(c.mode, p.target, TList, indent, true, st).value;
    var result, element := t.st.counter + 1, t.st.counter + 2;
    var inner := t.st.(counter := element, scopes := t.st.scopes + [Scope(p.variable, element)]);
    var b := Emit(c.mode, p.body, TBool, indent + 1, true, inner).value;
    var wrapped := [Assign(result, EBool(p.universal)), For(element, t.e, LoopBlock(p, b, result))];
    QuantifierShape(c.mode, p, indent, st);
    QuantifierExtends(c, p, indent, st);
    EmitSimulates(c, p.target, TList, indent, true, st, s, locals);
    var lazyT := Lazy(c.m, locals, p.target, TList, true);
    var lazy := Lazy(c.m, locals, p, TBool, true);
    LazyQuantifier(c.m, locals, p);
    if Run(c.m, s, t.code).Done? {
      var u := Run(c.m, s, t.code).store;
      LoopHead(c, p, t, b, u, locals, lazyT);
      if EvalExpr(c.m, u, t.e).Val? {
        var v := u[result := VBool(p.universal)];
        InnerInv(c, t.st, u, locals, t.st, result, VBool(p.universal));
        LoopSimulates(c, p, indent, t.st, v, locals, lazyT.value.items);
        BlockFromAssigned(c, t.st.scopes, u, VBool(p.universal), Run(c.m, u, wrapped), locals, Writes(wrapped), result,
                          lazy);
      }
    }
    AfterBlock(c, t, wrapped, result, Restore(b.st, t.st.objects).(scopes := t.st.scopes), s, locals, lazyT, lazy);
  }

  /** The body of the emitted loop: the code of the predicate, then the test that leaves the loop. */
  function LoopBlock(p: Plan, b: Emitted, result: Var): seq<Stmt>
    requires p.Quantifier?
  {
    b.code + [If(if p.universal then ENot(b.e) else b.e, [Assign(result, EBool(!p.universal)), Break])]
  }

  /** The assignment that precedes a block is part of what the block may write. */
  lemma {:induction false} BlockFromAssigned(c: Context, scopes: seq<Scope>, u: Store, x: Value, o: Outcome,
      locals: seq<Local>, writes: set<Var>, result: Var, lazy: Option<Value>)
    requires BlockOutcome(c, scopes, u[result := x], o, locals, writes, result, lazy) && result in writes
    ensures BlockOutcome(c, scopes, u, o, locals, writes, result, lazy)
  {
  }

  lemma {:induction false} LazyQuantifier(m: Machine, locals: seq<Local>, p: Plan)
    requires p.Quantifier?
    ensures var t := Lazy(m, locals, p.target, TList, true);
            Lazy(m, locals, p, TBool, true) ==
            (if t.Some? then LazyItems(m, locals, p.universal, p.variable, p.body, t.value.items) else None)
  {
    assert LazyList(m, locals, p.target).Some? <==> Lazy(m, locals, p.target, TList, true).Some?;
  }

  lemma {:induction false} QuantifierExtends(c: Context, p: Plan, indent: nat, st: State)
    requires p.Quantifier? && Wf(st) && EmitQuantifier(c.mode, p, indent, st).Some?
    requires Extends(EmitQuantifier(c.mode, p, indent, st).value.st, c.fin)
    ensures var t := Emit(c.mode, p.target, TList, indent, true, st).value;
            var element := t.st.counter + 2;
            var inner := t.st.(counter := element, scopes := t.st.scopes + [Scope(p.variable, element)]);
            var b := Emit(c.mode, p.body, TBool, indent + 1, true, inner).value;
            && Wf(t.st) && Wf(inner) && Extends(t.st, c.fin) && Extends(inner, c.fin) && Extends(b.st, c.fin)
            && b.st.scopes == inner.scopes && Fresh(inner, b.st, b.code)
            && ResultVar(c, t.st.scopes, t.st.counter + 1) && ResultVar(c, t.st.scopes, element)
            && (forall v :: v in Vars(t.e) ==> v <= t.st.counter)
  {
    hide Emit, CacheOk, Fresh;
    EmitShape(c.mode, p.target, TList, indent, true, st);
    var t := Emit(c.mode, p.target, TList, indent, true, st).value;
    var element := t.st.counter + 2;
    var inner := t.st.(counter := element, scopes := t.st.scopes + [Scope(p.variable, element)]);
    PushShape(t.st, p.variable, element);
    EmitShape(c.mode, p.body, TBool, indent + 1, true, inner);
    var b := Emit(c.mode, p.body, TBool, indent + 1, true, inner).value;
    ExtendsVia(inner, b.st, c.fin, b.code);
    ExtendsVia(t.st, inner, c.fin, []);
    ResultVarOk(c, t.st, inner, element);
    ResultVarOk(c, t.st, inner, t.st.counter + 1);
  }

  /** From the initial assignment of the result to the loop. */
  lemma {:induction false} LoopHead(c: Context, p: Plan, t: Emitted, b: Emitted, u: Store, locals: seq<Local>,
      lazyT: Option<Value>)
    requires p.Quantifier? && ResultOk(c, EvalExpr(c.m, u, t.e), lazyT) && (lazyT.Some? ==> lazyT.value.VList?)
    requires forall v :: v in Vars(t.e) ==> v <= t.st.counter
    ensures var result, element := t.st.counter + 1, t.st.counter + 2;
            var wrapped := [Assign(result, EBool(p.universal)), For(element, t.e, LoopBlock(p, b, result))];
            && Writes(wrapped) == Writes(b.code) + {result, element}
            && (match EvalExpr(c.m, u, t.e)
                case Val(xs) => Run(c.m, u, wrapped)
                             == Loop(c.m, u[result := VBool(p.universal)], element, LoopBlock(p, b, result), xs.items)
                case Fails(f) => Run(c.m, u, wrapped) == Failed(f))
  {
    var result, element := t.st.counter + 1, t.st.counter + 2;
    var head, loop := Assign(result, EBool(p.universal)), For(element, t.e, LoopBlock(p, b, result));
    LoopWrites(t.e, b, if p.universal then ENot(b.e) else b.e, result, element, EBool(p.universal),
               EBool(!p.universal));
    assert [head, loop] == [head] + [loop];
    RunThen(c.m, u, head, [loop]);
    var v := u[result := VBool(p.universal)];
    RunOne(c.m, v, loop);
    EvalFrame(c.m, u, v, t.e);
  }

  lemma {:induction false} LoopSimulates(c: Context, p: Plan, indent: nat, st: State, s: Store, locals: seq<Local>,
                                         items: seq<Value>)
    requires p.Quantifier? && Covers(c, p)
    requires var element := st.counter + 2;
             var inner := st.(counter := element, scopes := st.scopes + [Scope(p.variable, element)]);
             Emit(c.mode, p.body, TBool, indent + 1, true, inner).Some? &&
             var b := Emit(c.mode, p.body, TBool, indent + 1, true, inner).value;
             && Wf(inner) && Extends(b.st, c.fin) && b.st.scopes == inner.scopes && Fresh(inner, b.st, b.code)
    requires Inv(c, st, s, locals)
    requires ResultVar(c, st.scopes, st.counter + 1) && ResultVar(c, st.scopes, st.counter + 2)
    requires st.counter + 1 in s && s[st.counter + 1] == VBool(p.universal)
    ensures var result, element := st.counter + 1, st.counter + 2;
            var inner := st.(counter := element, scopes := st.scopes + [Scope(p.variable, element)]);
            var b := Emit(c.mode, p.body, TBool, indent + 1, true, inner).value;
            BlockOutcome(c, st.scopes, s, Loop(c.m, s, element, LoopBlock(p, b, result), items), locals,
                         Writes(b.code) + {result, element}, result,
                         LazyItems(c.m, locals, p.universal, p.variable, p.body, items))
    decreases p, 1, |items|
  {
    hide Emit, Extends, Wf, StoreOk, ScopesOk, Loaded, ResultVar, Writes, EvalExpr, LoopBlock;
    var result, element := st.counter + 1, st.counter + 2;
    var inner := st.(counter := element, scopes := st.scopes + [Scope(p.variable, element)]);
    var b := Emit(c.mode, p.body, TBool, indent + 1, true, inner).value;
    if items != [] {
      var locals' := locals + [Local.Local(p.variable, items[0])];
      var s1 := s[element := items[0]];
      PushInv(c, st, s, locals, inner, p.variable, element, items[0]);
      EmitSimulates(c, p.body, TBool, indent + 1, true, inner, s1, locals');
      var lazy := Lazy(c.m, locals', p.body, TBool, true);
      assert LazyBool(c.m, locals', p.body).Some? <==> lazy.Some?;
      LoopBody(c, p, st, inner, b, s, s1, locals, items[0], lazy);
      var o := Run(c.m, s1, LoopBlock(p, b, result));
      if o.Done? {
        LoopSimulates(c, p, indent, st, o.store, locals, items[1..]);
      }
    }
  }

  lemma {:induction false} PushInv(c: Context, st: State, s: Store, locals: seq<Local>, inner: State, name: Text,
      v: Var, x: Value)
    requires Inv(c, st, s, locals) && ResultVar(c, st.scopes, v) && Wf(inner)
    requires inner == st.(counter := inner.counter, scopes := st.scopes + [Scope(name, v)])
    ensures Inv(c, inner, s[v := x], locals + [Local.Local(name, x)])
  {
  }

  /** One iteration: the element is bound, the predicate is run, and the loop is left as soon as it decides. */
  lemma {:induction false} LoopBody(c: Context, p: Plan, st: State, inner: State, b: Emitted, s: Store, s1: Store,
      locals: seq<Local>, x: Value, lazy: Option<Value>)
    requires p.Quantifier? && Wf(st) && Inv(c, st, s, locals) && s1 == s[st.counter + 2 := x]
    requires inner == st.(counter := st.counter + 2, scopes := st.scopes + [Scope(p.variable, st.counter + 2)])
    requires Simulates(c, b, s1, locals + [Local.Local(p.variable, x)], lazy) && (lazy.Some? ==> lazy.value.VBool?)
    requires b.st.scopes == inner.scopes && Fresh(inner, b.st, b.code)
    requires ResultVar(c, st.scopes, st.counter + 1)
    requires st.counter + 1 in s && s[st.counter + 1] == VBool(p.universal)
    ensures var result, element := st.counter + 1, st.counter + 2;
            match Run(c.m, s1, LoopBlock(p, b, result))
            case Done(t) =>
              && lazy == Some(VBool(p.universal)) && Inv(c, st, t, locals)
              && Frame(s, t, Writes(b.code) + {result, element})
              && result in t && t[result] == VBool(p.universal)
            case Broke(t) =>
              && lazy == Some(VBool(!p.universal))
              && BlockEnd(c, st.scopes, s, t, locals, Writes(b.code) + {result, element}, result, lazy)
            case Failed(f) => Excused(c, f, lazy)
  {
    hide StoreOk, Wf;
    var result := st.counter + 1;
    var test := if p.universal then ENot(b.e) else b.e;
    var exit := [Assign(result, EBool(!p.universal)), Break];
    RunConcat(c.m, s1, b.code, [If(test, exit)]);
    if Run(c.m, s1, b.code).Done? {
      var t := Run(c.m, s1, b.code).store;
      PoppedScopes(st.scopes, p.variable, inner.counter, t, locals, x);
      RunOne(c.m, t, If(test, exit));
      if EvalExpr(c.m, t, b.e) == Val(VBool(!p.universal)) {
        AssignResult(c, t, st.scopes, locals, result, VBool(!p.universal));
        assert exit == [Assign(result, EBool(!p.universal))] + [Break];
        RunThen(c.m, t, Assign(result, EBool(!p.universal)), [Break]);
        RunOne(c.m, t[result := VBool(!p.universal)], Break);
      }
    }
  }

  lemma {:induction false} PoppedScopes(scopes: seq<Scope>, name: Text, v: Var, s: Store, locals: seq<Local>, x: Value)
    requires ScopesOk(scopes + [Scope(name, v)], s, locals + [Local.Local(name, x)])
    ensures ScopesOk(scopes, s, locals)
  {
    forall i | 0 <= i < |scopes|
      ensures scopes[i].name == locals[i].name && scopes[i].v in s && s[scopes[i].v] == locals[i].value
    {
      assert (scopes + [Scope(name, v)])[i] == scopes[i] && (locals + [Local.Local(name, x)])[i] == locals[i];
    }
  }
}
