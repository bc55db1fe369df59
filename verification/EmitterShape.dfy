/** Compile-time facts about emission: variables are allocated once and in order, the cache only names variables of
    known provenance, and blocks write nothing but the variables allocated for them. */
module EmitterShape {
  import opened Values
  import opened Plans
  import opened PythonTarget
  import opened Emitter

  /** The variables a block can assign. */
  function Writes(code: seq<Stmt>): set<Var>
    decreases code, 0
  {
    if code == [] then {} else WritesOf(code[0]) + Writes(code[1..])
  }

  function WritesOf(s: Stmt): set<Var>
    decreases s, 1
  {
    match s
    case Assign(v, _) => {v}
    case Guard(_, _, _) | Break => {}
    case If(_, block) => Writes(block)
    case IfElse(_, yes, no) => Writes(yes) + Writes(no)
    case For(v, _, block) => {v} + Writes(block)
  }

  /** The variables an expression mentions. */
  function Vars(e: Expr): set<Var> {
    match e
    case EVar(v) => {v}
    case EBool(_) | EInt(_) | EText(_) | EBinding(_) => {}
    case EGet(a, b) => Vars(a) + Vars(b)
    case EItem(a, b) => Vars(a) + Vars(b)
    case ECompare(_, a, b) => Vars(a) + Vars(b)
    case EArith(_, a, b) => Vars(a) + Vars(b)
    case ETest(_, a, b) => Vars(a) + Vars(b)
    case ENeg(a) => Vars(a)
    case ENot(a) => Vars(a)
    case ELen(a) => Vars(a)
    case ESize(a) => Vars(a)
    case EMember(a, _) => Vars(a)
    case EMatches(a, _) => Vars(a)
  }

  function RootVars(roots: seq<HoistedRead>): set<Var> {
    set h | h in roots :: h.v
  }

  function Extend(path: Path, field: Text): Path {
    Path(path.root, path.fields + [field])
  }

  /** Every cached variable is allocated; a root entry is a hoisted read; an object entry is newer than its target, and
      its provenance is known exactly when that of the target is. */
  ghost predicate CacheOk(cache: Cache, st: State) {
    forall k :: k in cache ==>
      && cache[k] <= st.counter
      && (k.RootKey? ==> HoistedRead(cache[k], k.name) in st.roots)
      && (k.ObjectKey? ==>
            && k.target < cache[k]
            && (k.target in st.paths <==> cache[k] in st.paths)
            && (k.target in st.paths ==> st.paths[cache[k]] == Extend(st.paths[k.target], k.field)))
  }

  ghost predicate Wf(st: State) {
    && (forall s :: s in st.scopes ==> s.v <= st.counter)
    && (forall v :: v in st.paths ==> v <= st.counter)
    && (forall h :: h in st.roots ==> h.v in st.paths && st.paths[h.v] == Path(h.name, []))
    && CacheOk(st.objects, st)
    && CacheOk(st.entry, st)
    && (st.aliased ==> st.entry == st.objects)
  }

  /** What any stretch of emission preserves. Hoisted variables and variables of known provenance are new when added. */
  ghost predicate Extends(st: State, st': State) {
    && st.counter <= st'.counter
    && st.roots <= st'.roots
    && (forall i :: |st.roots| <= i < |st'.roots| ==> st.counter < st'.roots[i].v)
    && (forall v :: v in st.paths ==> v in st'.paths && st'.paths[v] == st.paths[v])
    && (forall v :: v in st'.paths && v !in st.paths ==> st.counter < v)
  }

  /** Code emitted between two states assigns new variables only, and no hoisted one. */
  ghost predicate Fresh(st: State, st': State, code: seq<Stmt>) {
    forall v :: v in Writes(code) ==> st.counter < v <= st'.counter && v !in RootVars(st'.roots)
  }

  /** The tracked dictionary only gains entries, and only for new variables. */
  ghost predicate EntryKept(st: State, st': State) {
    && (forall k :: k in st.entry ==> k in st'.entry && st'.entry[k] == st.entry[k])
    && (forall k :: k in st'.entry && k !in st.entry ==> st.counter < st'.entry[k])
  }

  /** Emission between two states, with its code. */
  ghost predicate Grows(st: State, st': State, code: seq<Stmt>) {
    Wf(st') && Extends(st, st') && Fresh(st, st', code)
  }

  /** The expression of an emission: allocated variables only; a dictionary or list is a plain variable; a dictionary
      variable of unknown provenance is the newest one, so nothing can be cached under it. */
  ghost predicate GoodResult(st: State, e: Expr, expected: PlainType) {
    && (forall v :: v in Vars(e) ==> v <= st.counter)
    && (expected in {TObject, TList, TAny} ==> e.EVar?)
    && (expected == TObject ==> e.v in st.paths || e.v == st.counter)
  }

  lemma {:induction false} WritesConcat(a: seq<Stmt>, b: seq<Stmt>)
    ensures Writes(a + b) == Writes(a) + Writes(b)
  {
    if a == [] {
      assert a + b == b;
    } else {
      assert (a + b)[1..] == a[1..] + b;
      WritesConcat(a[1..], b);
    }
  }

  lemma {:induction false} CacheStaysOk(cache: Cache, st: State, st': State)
    requires CacheOk(cache, st) && Extends(st, st')
    ensures CacheOk(cache, st')
  {
  }

  lemma {:induction false} RootsOld(st: State)
    requires Wf(st)
    ensures forall v :: v in RootVars(st.roots) ==> v <= st.counter && v in st.paths
  {
  }

  lemma {:induction false} GrowsTrans(a: State, b: State, c: State, ab: seq<Stmt>, bc: seq<Stmt>)
    requires Grows(a, b, ab) && Grows(b, c, bc)
    ensures Grows(a, c, ab + bc)
  {
    WritesConcat(ab, bc);
  }

  /** Only the tracked dictionary matters. */
  lemma {:induction false} EntrySame(a: State, b: State, b': State)
    requires EntryKept(a, b) && b'.entry == b.entry
    ensures EntryKept(a, b')
  {
  }

  lemma {:induction false} EntryTrans(a: State, b: State, c: State)
    requires EntryKept(a, b) && EntryKept(b, c) && a.counter <= b.counter
    ensures EntryKept(a, c)
  {
  }

  /** Allocating a variable, or several, emits nothing. */
  lemma {:induction false} GrowsAllocate(st: State, n: nat)
    requires Wf(st) && st.counter <= n
    ensures Grows(st, st.(counter := n), [])
  {
  }

  lemma {:induction false} NotedShape(st: State, p: Plan)
    requires Wf(st)
    ensures Grows(st, NoteDotted(st, p), []) && NoteDotted(st, p).scopes == st.scopes
  {
  }

  /** Allocating the element variable of a loop and bringing it in scope. */
  lemma {:induction false} PushShape(st: State, name: Text, v: Var)
    requires Wf(st) && st.counter <= v
    ensures Grows(st, st.(counter := v, scopes := st.scopes + [Scope(name, v)]), [])
  {
  }

  /** A cache of before is still in order after. */
  lemma {:induction false} OldCacheOk(outer: State, st: State, code: seq<Stmt>)
    requires Wf(outer) && Grows(outer, st, code)
    ensures CacheOk(outer.objects, st) && CacheOk(outer.entry, st) && CacheOk(st.entry, st) && Wf(st)
    ensures forall s :: s in outer.scopes ==> s.v <= st.counter
  {
  }

  lemma {:induction false} ReadShape(st: State, source: Expr, expected: PlainType, checkedText: bool)
    requires Wf(st)
    ensures var r := Read(st, source, expected, checkedText);
            Grows(st, r.st, r.code) && GoodResult(r.st, r.e, expected) && Writes(r.code) == {st.counter + 1} &&
            EntryKept(st, r.st)
  {
    var v := st.counter + 1;
    WritesConcat([Assign(v, source)], [Guard(v, expected, checkedText)]);
    assert Writes([Assign(v, source)]) == {v};
    assert Writes([Guard(v, expected, checkedText)]) == {};
    assert [Assign(v, source)] + [] == [Assign(v, source)];
  }

  lemma {:induction false} RootObjectShape(st: State, name: Text)
    requires Wf(st)
    ensures var r := RootObject(st, name);
            && Grows(st, r.st, []) && r.code == [] && GoodResult(r.st, r.e, TObject)
            && EntryKept(st, r.st)
  {
    var r := RootObject(st, name);
    if RootKey(name) !in st.objects {
      assert HoistedRead(st.counter + 1, name) in r.st.roots;
      forall h | h in r.st.roots
        ensures h.v in r.st.paths && r.st.paths[h.v] == Path(h.name, [])
      {
      }
    }
  }

  lemma {:induction false} FindCachedHit(objects: Cache, indent: nat, target: Var, field: Text)
    ensures FindCached(objects, indent, target, field).Some? ==>
              exists i: nat :: ObjectKey(i, target, field) in objects &&
                               objects[ObjectKey(i, target, field)] == FindCached(objects, indent, target, field).value
  {
    if ObjectKey(indent, target, field) !in objects && indent > 0 {
      FindCachedHit(objects, indent - 1, target, field);
    }
  }

  /** The hit: an entry of the cache in order. */
  lemma {:induction false} CacheHit(st: State, target: Var, field: Text, indent: nat, v: Var)
    requires Wf(st) && FindCached(st.objects, indent, target, field) == Some(v)
    ensures v <= st.counter && (target in st.paths <==> v in st.paths)
    ensures target in st.paths ==> st.paths[v] == Extend(st.paths[target], field)
    ensures target < v
  {
    hide FindCached;
    FindCachedHit(st.objects, indent, target, field);
  }

  /** Recording a new object variable keeps a cache in order. */
  lemma {:induction false} RememberOk(cache: Cache, st: State, st': State, k: CacheKey, v: Var)
    requires CacheOk(cache, st) && Extends(st, st') && k.ObjectKey? && k.target < v <= st'.counter
    requires k.target in st'.paths <==> v in st'.paths
    requires k.target in st'.paths ==> st'.paths[v] == Extend(st'.paths[k.target], k.field)
    ensures CacheOk(cache, st') && CacheOk(cache[k := v], st')
  {
    CacheStaysOk(cache, st, st');
  }

  /** The state after an object read: one more variable, of the provenance of its target with one more field. */
  ghost predicate AddsObject(st: State, st': State, k: CacheKey, v: Var) {
    && k.ObjectKey? && k.target <= st.counter && v == st.counter + 1
    && st'.counter == v && st'.roots == st.roots && st'.scopes == st.scopes && st'.aliased == st.aliased
    && st'.objects == st.objects[k := v] && st'.entry == (if st.aliased then st.entry[k := v] else st.entry)
    && st'.paths == if k.target in st.paths then st.paths[v := Extend(st.paths[k.target], k.field)] else st.paths
  }

  lemma {:induction false} AddedExtends(st: State, st': State, k: CacheKey, v: Var)
    requires Wf(st) && AddsObject(st, st', k, v)
    ensures Extends(st, st') && v !in st.paths
  {
    hide CacheOk;
  }

  lemma {:induction false} AddedShape(st: State, st': State, k: CacheKey, v: Var)
    requires Wf(st) && AddsObject(st, st', k, v) && k !in st.objects
    ensures Wf(st') && EntryKept(st, st')
  {
    AddedExtends(st, st', k, v);
    RememberOk(st.objects, st, st', k, v);
    RememberOk(st.entry, st, st', k, v);
    hide CacheOk;
  }

  /** The miss. */
  lemma {:induction false} CacheMiss(st: State, target: Var, field: Text, indent: nat)
    requires GoodResult(st, EVar(target), TObject) && FindCached(st.objects, indent, target, field).None?
    ensures var r := CachedObject(st, target, field, indent);
            && AddsObject(st, r.st, ObjectKey(indent, target, field), st.counter + 1) && r.e == EVar(st.counter + 1)
            && r.code == Read(st, EGet(EVar(target), EText(field)), TObject, false).code
            && ObjectKey(indent, target, field) !in st.objects
  {
    assert target in Vars(EVar(target));
  }

  lemma {:induction false} CachedObjectShape(st: State, target: Var, field: Text, indent: nat)
    requires Wf(st) && GoodResult(st, EVar(target), TObject)
    ensures var r := CachedObject(st, target, field, indent);
            && Grows(st, r.st, r.code) && GoodResult(r.st, r.e, TObject) && EntryKept(st, r.st)
            && (r.code == [] || target in st.paths ==>
                  r.e.v in r.st.paths && target in st.paths && r.st.paths[r.e.v] == Extend(st.paths[target], field))
  {
    if FindCached(st.objects, indent, target, field).None? {
      hide FindCached, Extends, CacheOk, Wf, EntryKept, CachedObject;
      ReadShape(st, EGet(EVar(target), EText(field)), TObject, false);
      CacheMiss(st, target, field, indent);
      var r := CachedObject(st, target, field, indent);
      AddedExtends(st, r.st, ObjectKey(indent, target, field), st.counter + 1);
      AddedShape(st, r.st, ObjectKey(indent, target, field), st.counter + 1);
      assert Fresh(st, r.st, r.code) by { RootsOld(st); }
    } else {
      CacheHit(st, target, field, indent, FindCached(st.objects, indent, target, field).value);
    }
  }

  ghost predicate Shaped(st: State, r: Emitted, expected: PlainType) {
    && Grows(st, r.st, r.code) && GoodResult(r.st, r.e, expected)
    && Wf(r.st) && st.counter <= r.st.counter && r.st.scopes == st.scopes && EntryKept(st, r.st)
  }

  lemma {:induction false} EmitShape(mode: CacheMode, p: Plan, expected: PlainType, indent: nat, ct: bool, st: State)
    requires Wf(st)
    requires Emit(mode, p, expected, indent, ct, st).Some?
    ensures Shaped(st, Emit(mode, p, expected, indent, ct, st).value, expected)
    decreases p, 1
  {
    hide Wf, Extends, CacheOk, Fresh, Grows, EmitSelect, EmitIndex, EmitLogic, EmitQuantifier, EmitCond, EmitUnary,
         EmitBinary;
    match p
    case BoolLit(_) | IntLit(_) | TextLit(_) | ListLit(_) | Nonsense => GrowsAllocate(st, st.counter);
    case Ident(name) =>
      match FindScope(st.scopes, name) {
        case Some(v) => ReadShape(st, EVar(v), expected, ct);
        case None =>
          RootObjectShape(st, name);
          ReadShape(st, EBinding(name), expected, ct);
      }
    case Select(_, _, _) => SelectShape(mode, p, expected, indent, ct, st);
    case Index(_, _) => IndexShape(mode, p, expected, indent, ct, st);
    case Logic(_, _, _) => LogicShape(mode, p, indent, st);
    case Quantifier(_, _, _, _) => QuantifierShape(mode, p, indent, st);
    case Cond(_, _, _) => CondShape(mode, p, expected, indent, st);
    case Neg(_) | Not(_) | Size(_) | In(_, _) | Matches(_, _) => UnaryShape(mode, p, indent, st);
    case Compare(_, _, _) | Arith(_, _, _) | Test(_, _, _) => BinaryShape(mode, p, indent, st);
  }

  lemma {:induction false} SelectShape(mode: CacheMode, p: Plan, expected: PlainType, indent: nat, ct: bool, st: State)
    requires Wf(st) && p.Select?
    requires EmitSelect(mode, p, expected, indent, ct, st).Some?
    ensures Shaped(st, EmitSelect(mode, p, expected, indent, ct, st).value, expected)
    decreases p, 0
  {
    hide Emit, Wf, Grows;
    var noted := NoteDotted(st, p);
    NotedShape(st, p);
    EmitShape(mode, p.target, TObject, indent, true, noted);
    var t := Emit(mode, p.target, TObject, indent, true, noted).value;
    GrowsTrans(st, noted, t.st, [], t.code);
    assert [] + t.code == t.code;
    if expected == TObject {
      CachedObjectShape(t.st, t.e.v, p.field, indent);
      var r := CachedObject(t.st, t.e.v, p.field, indent);
      GrowsTrans(st, t.st, r.st, t.code, r.code);
      EntryTrans(st, t.st, r.st);
    } else {
      ReadShape(t.st, EGet(t.e, EText(p.field)), expected, ct);
      var r := Read(t.st, EGet(t.e, EText(p.field)), expected, ct);
      GrowsTrans(st, t.st, r.st, t.code, r.code);
      EntryTrans(st, t.st, r.st);
    }
  }

  lemma {:induction false} IndexShape(mode: CacheMode, p: Plan, expected: PlainType, indent: nat, ct: bool, st: State)
    requires Wf(st) && p.Index?
    requires EmitIndex(mode, p, expected, indent, ct, st).Some?
    ensures Shaped(st, EmitIndex(mode, p, expected, indent, ct, st).value, expected)
    decreases p, 0
  {
    hide Emit, Wf, Grows;
    var texts := KeyType(p.key) == TText;
    var kind := IndexedType(p);
    EmitShape(mode, p.target, kind, indent, true, st);
    var t := Emit(mode, p.target, kind, indent, true, st).value;
    EmitShape(mode, p.key, KeyType(p.key), indent, !texts, t.st);
    var k := Emit(mode, p.key, KeyType(p.key), indent, !texts, t.st).value;
    GrowsTrans(st, t.st, k.st, t.code, k.code);
    EntryTrans(st, t.st, k.st);
    var source := IndexExpr(p, t.e, k.e);
    ReadShape(k.st, source, expected, ct);
    var r := Read(k.st, source, expected, ct);
    GrowsTrans(st, k.st, r.st, t.code + k.code, r.code);
    EntryTrans(st, k.st, r.st);
  }

  lemma {:induction false} UnaryShape(mode: CacheMode, p: Plan, indent: nat, st: State)
    requires Wf(st) && IsUnary(p) && EmitUnary(mode, p, indent, st).Some?
    ensures Shaped(st, EmitUnary(mode, p, indent, st).value, ResultType(p))
    decreases p, 0
  {
    hide Emit, Wf, Grows;
    var kind := OperandType(p).value;
    EmitShape(mode, Operand(p), kind, indent, OperandChecked(p), st);
    var r := Emit(mode, Operand(p), kind, indent, OperandChecked(p), st).value;
    assert Vars(UnaryExpr(p, r.e)) == Vars(r.e);
  }

  lemma {:induction false} BinaryShape(mode: CacheMode, p: Plan, indent: nat, st: State)
    requires Wf(st) && IsBinary(p) && EmitBinary(mode, p, indent, st).Some?
    ensures Shaped(st, EmitBinary(mode, p, indent, st).value, ResultType(p))
    decreases p, 0
  {
    hide Emit, Wf, Grows;
    var kind := OperandsType(p).value;
    EmitShape(mode, LeftOperand(p), kind, indent, OperandsChecked(p), st);
    var l := Emit(mode, LeftOperand(p), kind, indent, OperandsChecked(p), st).value;
    EmitShape(mode, RightOperand(p), kind, indent, OperandsChecked(p), l.st);
    var r := Emit(mode, RightOperand(p), kind, indent, OperandsChecked(p), l.st).value;
    GrowsTrans(st, l.st, r.st, l.code, r.code);
    EntryTrans(st, l.st, r.st);
    assert Vars(BinaryExpr(p, l.e, r.e)) == Vars(l.e) + Vars(r.e);
  }

  /** Leaving a nested block: its code is wrapped, a result variable allocated before it is assigned, and the cache is
      what it was, or any other cache that is in order. */
  lemma {:induction false} LeaveBlock(outer: State, st: State, after: Cache, entry: Cache, code: seq<Stmt>,
      wrapped: seq<Stmt>, scopes: seq<Scope>, result: Var)
    requires Wf(outer) && Grows(outer, st, code)
    requires CacheOk(after, st) && CacheOk(entry, st)
    requires forall s :: s in scopes ==> s.v <= st.counter
    requires forall v :: v in Writes(wrapped) ==>
               v in Writes(code) || (outer.counter < v <= st.counter && v !in RootVars(st.roots))
    requires outer.counter < result <= st.counter
    ensures var st' := st.(objects := after, entry := entry, aliased := false, scopes := scopes);
            Grows(outer, st', wrapped) && GoodResult(st', EVar(result), TBool)
  {
  }

  /** A variable allocated without being hoisted is never hoisted. */
  lemma {:induction false} NotHoisted(st: State, inner: State, st': State, code: seq<Stmt>, v: Var)
    requires Wf(st) && inner.roots == st.roots && st.counter < v <= inner.counter
    requires Grows(inner, st', code)
    ensures v !in RootVars(st'.roots)
  {
    RootsOld(st);
  }

  lemma {:induction false} LogicShape(mode: CacheMode, p: Plan, indent: nat, st: State)
    requires Wf(st) && p.Logic? && EmitLogic(mode, p, indent, st).Some?
    ensures Shaped(st, EmitLogic(mode, p, indent, st).value, TBool)
    decreases p, 0
  {
    hide Emit, Wf, Grows, CacheOk;
    EmitShape(mode, p.left, TBool, indent, true, st);
    var l := Emit(mode, p.left, TBool, indent, true, st).value;
    var result := l.st.counter + 1;
    var inner := l.st.(counter := result);
    GrowsAllocate(l.st, result);
    EmitShape(mode, p.right, TBool, indent + 1, true, inner);
    var r := Emit(mode, p.right, TBool, indent + 1, true, inner).value;
    var test := if p.conj then EVar(result) else ENot(EVar(result));
    var wrapped := [Assign(result, l.e), If(test, r.code + [Assign(result, r.e)])];
    GrowsTrans(l.st, inner, r.st, [], r.code);
    assert [] + r.code == r.code;
    LogicWrites(test, l.e, r, result);
    NotHoisted(l.st, inner, r.st, r.code, result);
    OldCacheOk(l.st, r.st, r.code);
    GrowsCounter(inner, r.st, r.code);
    LeaveBlock(l.st, r.st, l.st.objects, r.st.entry, r.code, wrapped, l.st.scopes, result);
    GrowsTrans(st, l.st, Restore(r.st, l.st.objects), l.code, wrapped);
    EntryTrans(st, inner, r.st);
  }

  lemma {:induction false} GrowsCounter(st: State, st': State, code: seq<Stmt>)
    requires Grows(st, st', code)
    ensures st.counter <= st'.counter && Wf(st')
  {
  }

  lemma {:induction false} LogicWrites(test: Expr, l: Expr, r: Emitted, result: Var)
    ensures Writes([Assign(result, l), If(test, r.code + [Assign(result, r.e)])]) == Writes(r.code) + {result}
  {
    WrappedWrites(Assign(result, l), If(test, r.code + [Assign(result, r.e)]));
    WritesConcat(r.code, [Assign(result, r.e)]);
    assert Writes([Assign(result, r.e)]) == {result};
  }

  lemma {:induction false} WrappedWrites(a: Stmt, b: Stmt)
    ensures Writes([a, b]) == WritesOf(a) + WritesOf(b)
  {
    assert [a, b][1..] == [b];
    assert Writes([b]) == WritesOf(b);
  }

  lemma {:induction false} LoopWrites(items: Expr, b: Emitted, test: Expr, result: Var, element: Var, x: Expr, y: Expr)
    ensures Writes([Assign(result, x), For(element, items, b.code + [If(test, [Assign(result, y), Break])])])
         == Writes(b.code) + {result, element}
  {
    var stop := If(test, [Assign(result, y), Break]);
    WrappedWrites(Assign(result, x), For(element, items, b.code + [stop]));
    WritesConcat(b.code, [stop]);
    WrappedWrites(Assign(result, y), Break);
    assert Writes([stop]) == WritesOf(stop);
  }

  lemma {:induction false} QuantifierShape(mode: CacheMode, p: Plan, indent: nat, st: State)
    requires Wf(st) && p.Quantifier? && EmitQuantifier(mode, p, indent, st).Some?
    ensures Shaped(st, EmitQuantifier(mode, p, indent, st).value, TBool)
    decreases p, 0
  {
    hide Emit, Wf, Grows, CacheOk, EntryKept, Extends, Fresh, Writes, GoodResult;
    EmitShape(mode, p.target, TList, indent, true, st);
    var t := Emit(mode, p.target, TList, indent, true, st).value;
    GrowsCounter(st, t.st, t.code);
    var result, element := t.st.counter + 1, t.st.counter + 2;
    var inner := t.st.(counter := element, scopes := t.st.scopes + [Scope(p.variable, element)]);
    PushShape(t.st, p.variable, element);
    GrowsCounter(t.st, inner, []);
    EmitShape(mode, p.body, TBool, indent + 1, true, inner);
    var b := Emit(mode, p.body, TBool, indent + 1, true, inner).value;
    var test := if p.universal then ENot(b.e) else b.e;
    var stop := If(test, [Assign(result, EBool(!p.universal)), Break]);
    var wrapped := [Assign(result, EBool(p.universal)), For(element, t.e, b.code + [stop])];
    GrowsTrans(t.st, inner, b.st, [], b.code);
    assert [] + b.code == b.code;
    LoopWrites(t.e, b, test, result, element, EBool(p.universal), EBool(!p.universal));
    NotHoisted(t.st, inner, b.st, b.code, result);
    NotHoisted(t.st, inner, b.st, b.code, element);
    OldCacheOk(t.st, b.st, b.code);
    GrowsCounter(inner, b.st, b.code);
    LeaveBlock(t.st, b.st, t.st.objects, b.st.entry, b.code, wrapped, t.st.scopes, result);
    GrowsTrans(st, t.st, Restore(b.st, t.st.objects).(scopes := t.st.scopes), t.code, wrapped);
    EntrySame(st, t.st, inner);
    EntryTrans(st, inner, b.st);
    EntrySame(st, b.st, Restore(b.st, t.st.objects).(scopes := t.st.scopes));
  }

  lemma {:induction false} CondShape(mode: CacheMode, p: Plan, expected: PlainType, indent: nat, st: State)
    requires expected !in {TObject, TList, TAny}
    requires Wf(st) && p.Cond? && EmitCond(mode, p, expected, indent, st).Some?
    ensures Shaped(st, EmitCond(mode, p, expected, indent, st).value, expected)
    decreases p, 0
  {
    hide Emit, Wf, Grows, CacheOk, EntryKept, Extends, Fresh, Writes, AfterElse;
    EmitShape(mode, p.condition, TBool, indent, true, st);
    var c := Emit(mode, p.condition, TBool, indent, true, st).value;
    var result := c.st.counter + 1;
    var inner := c.st.(counter := result);
    GrowsAllocate(c.st, result);
    GrowsCounter(c.st, inner, []);
    EmitShape(mode, p.yes, expected, indent + 1, true, inner);
    var y := Emit(mode, p.yes, expected, indent + 1, true, inner).value;
    var start := ElseStart(y.st, c.st.objects);
    ElseStartShape(inner, y);
    EmitShape(mode, p.no, expected, indent + 1, true, start);
    var n := Emit(mode, p.no, expected, indent + 1, true, start).value;
    GrowsCounter(start, n.st, n.code);
    GrowsTrans(inner, start, n.st, y.code, n.code);
    GrowsTrans(c.st, inner, n.st, [], y.code + n.code);
    assert [] + (y.code + n.code) == y.code + n.code;
    OldCacheOk(c.st, n.st, y.code + n.code);
    ElseEntryOk(mode, c.st.objects, y.st, n.st, n.code);
    var choice := IfElse(c.e, y.code + [Assign(result, y.e)], n.code + [Assign(result, n.e)]);
    CondWrites(c.e, y, n, result);
    WritesConcat(y.code, n.code);
    NotHoisted(c.st, inner, n.st, y.code + n.code, result);
    var after := AfterElse(mode, c.st.objects, n.st.entry);
    LeaveBlock(c.st, n.st, after, y.st.entry, y.code + n.code, [choice], c.st.scopes, result);
    GrowsTrans(st, c.st, n.st.(objects := after, entry := y.st.entry, aliased := false), c.code, [choice]);
    EntrySame(st, c.st, inner);
    EntryTrans(st, inner, y.st);
    EntrySame(st, y.st, n.st.(objects := after, entry := y.st.entry, aliased := false));
  }

  /** The `else` part begins in order: with the cache of before the conditional. */
  lemma {:induction false} ElseStartShape(inner: State, y: Emitted)
    requires Wf(inner) && Grows(inner, y.st, y.code)
    ensures var start := ElseStart(y.st, inner.objects);
            Wf(start) && Grows(inner, start, y.code) && start.counter == y.st.counter
  {
    OldCacheOk(inner, y.st, y.code);
    SwitchCache(inner, y.st, y.code, ElseStart(y.st, inner.objects));
  }

  lemma {:induction false} ElseEntryOk(mode: CacheMode, before: Cache, y: State, n: State, code: seq<Stmt>)
    requires Wf(y) && Grows(ElseStart(y, before), n, code)
    requires CacheOk(before, n)
    ensures CacheOk(y.entry, n) && CacheOk(AfterElse(mode, before, n.entry), n)
  {
    CacheStaysOk(y.entry, y, n);
  }

  /** Putting another cache in use, one that is in order, loses nothing. */
  lemma {:induction false} SwitchCache(a: State, b: State, code: seq<Stmt>, b': State)
    requires Grows(a, b, code)
    requires b' == b.(objects := b'.objects, entry := b'.entry, aliased := b'.aliased)
    requires CacheOk(b'.objects, b) && CacheOk(b'.entry, b) && (b'.aliased ==> b'.entry == b'.objects)
    ensures Grows(a, b', code)
  {
  }

  lemma {:induction false} CondWrites(c: Expr, y: Emitted, n: Emitted, result: Var)
    ensures Writes([IfElse(c, y.code + [Assign(result, y.e)], n.code + [Assign(result, n.e)])])
         == Writes(y.code) + Writes(n.code) + {result}
  {
    var choice := IfElse(c, y.code + [Assign(result, y.e)], n.code + [Assign(result, n.e)]);
    assert Writes([choice]) == WritesOf(choice);
    WritesConcat(y.code, [Assign(result, y.e)]);
    WritesConcat(n.code, [Assign(result, n.e)]);
    assert Writes([Assign(result, y.e)]) == {result} == Writes([Assign(result, n.e)]);
  }
}
