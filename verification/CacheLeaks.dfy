/** When the cache as the source has it is harmless: compared with a scoped cache, it differs in the object entries left
    behind by `else` parts, and as soon as one of those is used, some path reads a variable it has not assigned. */
module CacheLeaks {
  import opened Values
  import opened Plans
  import opened PythonTarget
  import opened LazySemantics
  import opened Emitter
  import opened EmitterShape
  import opened EmitterFacts
  import opened DefiniteAssignment
  import opened ScopedFlow

  /** One cache has the entries of the other and, beyond them, only object entries not assigned on every path. */
  ghost predicate Leaky(w: Cache, s: Cache, d: set<Var>) {
    && (forall k :: k in s ==> k in w && w[k] == s[k])
    && (forall k :: k in w && k !in s ==> k.ObjectKey? && w[k] !in d)
  }

  /** Two emissions that agree so far: only their caches may differ, and only by leaks. */
  ghost predicate Twins(fin: Ends, w: State, s: State, d: set<Var>) {
    && s == w.(objects := s.objects, entry := s.entry)
    && Wf(w) && Known(s, d)
    && Leaky(w.objects, s.objects, d) && Leaky(w.entry, s.entry, d)
    && (forall v :: v in d ==> v <= w.counter || v in AllHoisted(fin))
  }

  /** The states in which the two emissions end. */
  datatype Ends = Ends(w: State, s: State)

  function AllHoisted(fin: Ends): set<Var> {
    RootVars(fin.w.roots) + RootVars(fin.s.roots)
  }

  /** The outcome of emitting the same plan twice: the code as written misses an assignment, or it is the same code, or
      its expression is a dictionary variable that is not assigned on every path. */
  ghost predicate InStep(fin: Ends, w: Emitted, s: Emitted, expected: PlainType, d: set<Var>) {
    match FlowOf(w.code, d)
    case Misses => true
    case Leaves => false
    case Falls(d') =>
      || (w.code == s.code && w.e == s.e && Twins(fin, w.st, s.st, d'))
      || (expected == TObject && w.e.EVar? && w.e.v !in d' && Keyed(w.st.objects, d'))
  }

  lemma {:induction false} FindTwice(w: Cache, s: Cache, d: set<Var>, indent: nat, target: Var, field: Text)
    requires Leaky(w, s, d)
    ensures var a, b := FindCached(w, indent, target, field), FindCached(s, indent, target, field);
            a == b || (a.Some? && a.value !in d)
  {
    if ObjectKey(indent, target, field) !in w && indent > 0 {
      FindTwice(w, s, d, indent - 1, target, field);
    }
  }

  /** Leaks stay leaks: what is assigned later is new. */
  lemma {:induction false} LeakyMore(w: Cache, s: Cache, d: set<Var>, d': set<Var>, st: State, st': State,
      code: seq<Stmt>)
    requires Leaky(w, s, d) && CacheOk(w, st) && Fresh(st, st', code) && d' <= d + Writes(code)
    ensures Leaky(w, s, d')
  {
  }

  lemma {:induction false} LeakyPut(w: Cache, s: Cache, d: set<Var>, key: CacheKey, x: Var)
    requires Leaky(w, s, d)
    ensures Leaky(w[key := x], s[key := x], d)
  {
  }

  lemma {:induction false} TwinsParts(fin: Ends, w: State, s: State, d: set<Var>)
    requires Twins(fin, w, s, d)
    ensures Wf(w) && Wf(s) && Known(s, d) && CacheOk(w.objects, w) && CacheOk(w.entry, w)
    ensures Leaky(w.objects, s.objects, d) && Leaky(w.entry, s.entry, d)
    ensures s == w.(objects := s.objects, entry := s.entry)
  {
  }

  lemma {:induction false} TwinsOn(fin: Ends, w: State, s: State, d: set<Var>, w': State, s': State, d': set<Var>,
      code: seq<Stmt>)
    requires Twins(fin, w, s, d) && Grows(w, w', code) && Known(s', d') && d' <= d + Writes(code)
    requires s' == w'.(objects := s'.objects, entry := s'.entry)
    requires Leaky(w'.objects, s'.objects, d') && Leaky(w'.entry, s'.entry, d')
    ensures Twins(fin, w', s', d')
  {
  }

  lemma {:induction false} ReadTwins(fin: Ends, w: State, s: State, source: Expr, expected: PlainType, ct: bool,
      d: set<Var>)
    requires Twins(fin, w, s, d)
    ensures InStep(fin, Read(w, source, expected, ct), Read(s, source, expected, ct), expected, d)
    ensures !(Vars(source) <= d) ==> FlowOf(Read(w, source, expected, ct).code, d).Misses?
  {
    hide Twins, Wf, Known, CacheOk, Leaky;
    TwinsParts(fin, w, s, d);
    var r := Read(w, source, expected, ct);
    assert r.code[0] == Assign(w.counter + 1, source);
    if Vars(source) <= d {
      ReadFlows(fin.s, s, source, expected, ct, d);
      ReadShape(w, source, expected, ct);
      FlowWrites(r.code, d);
      var d' := FlowOf(r.code, d).known;
      LeakyMore(w.objects, s.objects, d, d', w, r.st, r.code);
      LeakyMore(w.entry, s.entry, d, d', w, r.st, r.code);
      TwinsOn(fin, w, s, d, r.st, Read(s, source, expected, ct).st, d', r.code);
    } else {
      assert FlowStep(r.code[0], d).Misses?;
    }
  }

  lemma {:induction false} RememberTwins(w: State, s: State, d: set<Var>, key: CacheKey, x: Var)
    requires Leaky(w.objects, s.objects, d) && Leaky(w.entry, s.entry, d)
    requires s == w.(objects := s.objects, entry := s.entry)
    ensures var w', s' := Remember(w, key, x), Remember(s, key, x);
            && Leaky(w'.objects, s'.objects, d) && Leaky(w'.entry, s'.entry, d)
            && s' == w'.(objects := s'.objects, entry := s'.entry)
  {
    LeakyPut(w.objects, s.objects, d, key, x);
    LeakyPut(w.entry, s.entry, d, key, x);
  }

  lemma {:induction false} RootTwins(fin: Ends, w: State, s: State, name: Text, d: set<Var>)
    requires Twins(fin, w, s, d) && Hoisted(fin.s, RootObject(s, name).st, d)
    ensures InStep(fin, RootObject(w, name), RootObject(s, name), TObject, d)
  {
    RootKeysAgree(w.objects, s.objects, d, name);
    hide Twins, Leaky, Keyed, Hoisted;
    assert FlowOf([], d) == Falls(d);
    if RootKey(name) !in w.objects {
      HoistTwins(fin, w, s, name, d);
    }
  }

  lemma {:induction false} HoistTwins(fin: Ends, w: State, s: State, name: Text, d: set<Var>)
    requires Twins(fin, w, s, d) && Hoisted(fin.s, RootObject(s, name).st, d)
    requires RootKey(name) !in w.objects && RootKey(name) !in s.objects
    ensures Twins(fin, RootObject(w, name).st, RootObject(s, name).st, d)
  {
    hide Twins, Wf, CacheOk, Leaky, Keyed, Hoisted, Grows, EntryKept, GoodResult, Known;
    TwinsParts(fin, w, s, d);
    RootFlows(fin.s, s, name, d);
    RootObjectShape(w, name);
    assert FlowOf([], d) == Falls(d) && Writes([]) == {};
    RememberTwins(Hoist(w, name), Hoist(s, name), d, RootKey(name), w.counter + 1);
    TwinsOn(fin, w, s, d, RootObject(w, name).st, RootObject(s, name).st, d, []);
  }

  lemma {:induction false} RootKeysAgree(w: Cache, s: Cache, d: set<Var>, name: Text)
    requires Leaky(w, s, d)
    ensures RootKey(name) in w <==> RootKey(name) in s
    ensures RootKey(name) in w ==> w[RootKey(name)] == s[RootKey(name)]
  {
  }

  lemma {:induction false} CachedTwins(fin: Ends, w: State, s: State, target: Var, field: Text, indent: nat,
      d: set<Var>)
    requires Twins(fin, w, s, d) && GoodResult(s, EVar(target), TObject) && target in d
    ensures InStep(fin, CachedObject(w, target, field, indent), CachedObject(s, target, field, indent), TObject, d)
  {
    hide Twins, Wf, Known, CacheOk, Leaky, Extends, EntryKept, Keyed, FindCached;
    TwinsParts(fin, w, s, d);
    TwinsKeyed(fin, w, s, d);
    FindTwice(w.objects, s.objects, d, indent, target, field);
    assert FlowOf([], d) == Falls(d);
    var x := FindCached(w.objects, indent, target, field);
    if x == FindCached(s.objects, indent, target, field) {
      var a, b := CachedObject(w, target, field, indent), CachedObject(s, target, field, indent);
      CachedFlows(s, target, field, indent, d);
      CachedObjectShape(w, target, field, indent);
      FlowWrites(a.code, d);
      var d' := FlowOf(a.code, d).known;
      LeakyMore(w.objects, s.objects, d, d', w, a.st, a.code);
      LeakyMore(w.entry, s.entry, d, d', w, a.st, a.code);
      if x.None? {
        CachedRemembers(w, s, target, field, indent, d');
      }
      TwinsOn(fin, w, s, d, a.st, b.st, d', a.code);
    }
  }

  lemma {:induction false} CachedRemembers(w: State, s: State, target: Var, field: Text, indent: nat, d: set<Var>)
    requires Leaky(w.objects, s.objects, d) && Leaky(w.entry, s.entry, d)
    requires s == w.(objects := s.objects, entry := s.entry)
    requires FindCached(w.objects, indent, target, field).None? && FindCached(s.objects, indent, target, field).None?
    ensures var a, b := CachedObject(w, target, field, indent), CachedObject(s, target, field, indent);
            && Leaky(a.st.objects, b.st.objects, d) && Leaky(a.st.entry, b.st.entry, d)
            && b.st == a.st.(objects := b.st.objects, entry := b.st.entry) && a.code == b.code && a.e == b.e
  {
    hide Leaky, FindCached;
    LeakyPut(w.objects, s.objects, d, ObjectKey(indent, target, field), w.counter + 1);
    LeakyPut(w.entry, s.entry, d, ObjectKey(indent, target, field), w.counter + 1);
  }

  /** What is assigned on every path was read from a target that is. */
  ghost predicate Keyed(w: Cache, d: set<Var>) {
    forall k :: k in w && k.ObjectKey? && w[k] in d ==> k.target in d
  }

  lemma {:induction false} TwinsKeyed(fin: Ends, w: State, s: State, d: set<Var>)
    requires Twins(fin, w, s, d)
    ensures Keyed(w.objects, d)
  {
  }

  lemma {:induction false} FindUnderUnknown(w: Cache, d: set<Var>, indent: nat, target: Var, field: Text)
    requires Keyed(w, d) && target !in d
    ensures FindCached(w, indent, target, field).Some? ==> FindCached(w, indent, target, field).value !in d
  {
    if ObjectKey(indent, target, field) !in w && indent > 0 {
      FindUnderUnknown(w, d, indent - 1, target, field);
    }
  }

  /** A read from a dictionary that is not assigned on every path is missed; from the cache, its result is no better. */
  lemma {:induction false} CachedUnknown(w: State, target: Var, field: Text, indent: nat, d: set<Var>)
    requires Keyed(w.objects, d) && target !in d
    ensures var r := CachedObject(w, target, field, indent);
            FlowOf(r.code, d).Misses? ||
            (FlowOf(r.code, d) == Falls(d) && r.e.EVar? && r.e.v !in d && Keyed(r.st.objects, d))
  {
    FindUnderUnknown(w.objects, d, indent, target, field);
    var r := CachedObject(w, target, field, indent);
    if FindCached(w.objects, indent, target, field).None? {
      assert r.code[0] == Assign(w.counter + 1, EGet(EVar(target), EText(field)));
      assert target in Vars(EGet(EVar(target), EText(field)));
      assert FlowStep(r.code[0], d).Misses?;
    }
  }

  lemma {:induction false} ReadUnknown(w: State, source: Expr, expected: PlainType, ct: bool, d: set<Var>)
    requires !(Vars(source) <= d)
    ensures FlowOf(Read(w, source, expected, ct).code, d).Misses?
  {
    var r := Read(w, source, expected, ct);
    assert r.code[0] == Assign(w.counter + 1, source);
    assert FlowStep(r.code[0], d).Misses?;
  }

  // ----- emitted code has no loose `break` -----

  lemma {:induction false} EmitCloses(mode: CacheMode, p: Plan, expected: PlainType, indent: nat, ct: bool, st: State)
    requires Emit(mode, p, expected, indent, ct, st).Some?
    ensures Closed(Emit(mode, p, expected, indent, ct, st).value.code)
    decreases p, 1
  {
    match p
    case BoolLit(_) | IntLit(_) | TextLit(_) | ListLit(_) | Nonsense | Ident(_) =>
      ClosedReads();
    case Select(_, _, _) | Index(_, _) => ReadCloses(mode, p, expected, indent, ct, st);
    case Logic(_, _, _) | Quantifier(_, _, _, _) | Cond(_, _, _) => BlockCloses(mode, p, expected, indent, st);
    case Neg(_) | Not(_) | Size(_) | In(_, _) | Matches(_, _) | Compare(_, _, _) | Arith(_, _, _) | Test(_, _, _) =>
      OperatorCloses(mode, p, indent, st);
  }

  lemma {:induction false} ReadCloses(mode: CacheMode, p: Plan, expected: PlainType, indent: nat, ct: bool, st: State)
    requires p.Select? || p.Index?
    requires (p.Select? && EmitSelect(mode, p, expected, indent, ct, st).Some?) ||
             (p.Index? && EmitIndex(mode, p, expected, indent, ct, st).Some?)
    ensures p.Select? ==> Closed(EmitSelect(mode, p, expected, indent, ct, st).value.code)
    ensures p.Index? ==> Closed(EmitIndex(mode, p, expected, indent, ct, st).value.code)
    decreases p, 0
  {
    hide Emit;
    ClosedReads();
    if p.Select? {
      var noted := NoteDotted(st, p);
      EmitCloses(mode, p.target, TObject, indent, true, noted);
      var t := Emit(mode, p.target, TObject, indent, true, noted).value;
      var r := if expected == TObject then CachedObject(t.st, t.e.v, p.field, indent)
               else Read(t.st, EGet(t.e, EText(p.field)), expected, ct);
      ClosedConcat(t.code, r.code);
    } else {
      EmitCloses(mode, p.target, IndexedType(p), indent, true, st);
      var t := Emit(mode, p.target, IndexedType(p), indent, true, st).value;
      EmitCloses(mode, p.key, KeyType(p.key), indent, KeyType(p.key) != TText, t.st);
      var k := Emit(mode, p.key, KeyType(p.key), indent, KeyType(p.key) != TText, t.st).value;
      ClosedConcat(t.code, k.code);
      ClosedConcat(t.code + k.code, Read(k.st, IndexExpr(p, t.e, k.e), expected, ct).code);
    }
  }

  lemma {:induction false} ClosedReads()
    ensures forall st: State, source, expected, ct :: Closed(Read(st, source, expected, ct).code)
    ensures forall st: State, target, field, indent :: Closed(CachedObject(st, target, field, indent).code)
  {
    forall st: State, source, expected, ct
      ensures Closed(Read(st, source, expected, ct).code)
    {
      ClosedConcat([Assign(st.counter + 1, source)], [Guard(st.counter + 1, expected, ct)]);
      assert [Assign(st.counter + 1, source)] + [] == [Assign(st.counter + 1, source)];
      assert Closed([Guard(st.counter + 1, expected, ct)]) && Closed([Assign(st.counter + 1, source)]);
    }
  }

  lemma {:induction false} OperatorCloses(mode: CacheMode, p: Plan, indent: nat, st: State)
    requires IsUnary(p) || IsBinary(p)
    requires (IsUnary(p) && EmitUnary(mode, p, indent, st).Some?) ||
               (IsBinary(p) && EmitBinary(mode, p, indent, st).Some?)
    ensures IsUnary(p) ==> Closed(EmitUnary(mode, p, indent, st).value.code)
    ensures IsBinary(p) ==> Closed(EmitBinary(mode, p, indent, st).value.code)
    decreases p, 0
  {
    hide Emit;
    if IsUnary(p) {
      EmitCloses(mode, Operand(p), OperandType(p).value, indent, OperandChecked(p), st);
    } else {
      var kind, ct := OperandsType(p).value, OperandsChecked(p);
      EmitCloses(mode, LeftOperand(p), kind, indent, ct, st);
      var l := Emit(mode, LeftOperand(p), kind, indent, ct, st).value;
      EmitCloses(mode, RightOperand(p), kind, indent, ct, l.st);
      ClosedConcat(l.code, Emit(mode, RightOperand(p), kind, indent, ct, l.st).value.code);
    }
  }

  lemma {:induction false} ClosedBranch(code: seq<Stmt>, v: Var, e: Expr)
    requires Closed(code)
    ensures Closed(code + [Assign(v, e)])
  {
    ClosedConcat(code, [Assign(v, e)]);
    assert Closed([Assign(v, e)]);
  }

  lemma {:induction false} BlockCloses(mode: CacheMode, p: Plan, expected: PlainType, indent: nat, st: State)
    requires (p.Logic? && EmitLogic(mode, p, indent, st).Some?) ||
             (p.Quantifier? && EmitQuantifier(mode, p, indent, st).Some?) ||
             (p.Cond? && EmitCond(mode, p, expected, indent, st).Some?)
    ensures p.Logic? ==> Closed(EmitLogic(mode, p, indent, st).value.code)
    ensures p.Quantifier? ==> Closed(EmitQuantifier(mode, p, indent, st).value.code)
    ensures p.Cond? ==> Closed(EmitCond(mode, p, expected, indent, st).value.code)
    decreases p, 0
  {
    hide Emit;
    if p.Logic? {
      EmitCloses(mode, p.left, TBool, indent, true, st);
      var l := Emit(mode, p.left, TBool, indent, true, st).value;
      var result := l.st.counter + 1;
      EmitCloses(mode, p.right, TBool, indent + 1, true, l.st.(counter := result));
      var r := Emit(mode, p.right, TBool, indent + 1, true, l.st.(counter := result)).value;
      ClosedBranch(r.code, result, r.e);
      var branch := If(if p.conj then EVar(result) else ENot(EVar(result)), r.code + [Assign(result, r.e)]);
      assert [Assign(result, l.e), branch] == [Assign(result, l.e)] + [branch];
      ClosedConcat([Assign(result, l.e)], [branch]);
      assert Closed([branch]) && Closed([Assign(result, l.e)]);
      ClosedConcat(l.code, [Assign(result, l.e), branch]);
    } else if p.Quantifier? {
      EmitCloses(mode, p.target, TList, indent, true, st);
      var t := Emit(mode, p.target, TList, indent, true, st).value;
      var code := EmitQuantifier(mode, p, indent, st).value.code;
      var head, loop := code[|t.code|], code[|t.code| + 1];
      assert code == t.code + ([head] + [loop]);
      ClosedConcat([head], [loop]);
      assert Closed([head]) && Closed([loop]);
      ClosedConcat(t.code, [head] + [loop]);
    } else {
      EmitCloses(mode, p.condition, TBool, indent, true, st);
      var k := Emit(mode, p.condition, TBool, indent, true, st).value;
      var result := k.st.counter + 1;
      EmitCloses(mode, p.yes, expected, indent + 1, true, k.st.(counter := result));
      var y := Emit(mode, p.yes, expected, indent + 1, true, k.st.(counter := result)).value;
      EmitCloses(mode, p.no, expected, indent + 1, true, ElseStart(y.st, k.st.objects));
      var n := Emit(mode, p.no, expected, indent + 1, true, ElseStart(y.st, k.st.objects)).value;
      ClosedBranch(y.code, result, y.e);
      ClosedBranch(n.code, result, n.e);
      var choice := IfElse(k.e, y.code + [Assign(result, y.e)], n.code + [Assign(result, n.e)]);
      assert Closed([choice]);
      ClosedConcat(k.code, [choice]);
    }
  }

  // ----- emitting the same plan twice -----

  ghost predicate Ready(fin: Ends, w: State, s: State, d: set<Var>, rw: Option<Emitted>, rs: Option<Emitted>) {
    && Twins(fin, w, s, d) && Wf(fin.w) && Wf(fin.s)
    && rw.Some? && Hoisted(fin.w, rw.value.st, d)
    && rs.Some? && Hoisted(fin.s, rs.value.st, d)
  }

  lemma {:induction false} EmitTwins(fin: Ends, p: Plan, expected: PlainType, indent: nat, ct: bool, w: State, s: State,
                                     d: set<Var>)
    requires Ready(fin, w, s, d, Emit(AsWritten, p, expected, indent, ct, w), Emit(Scoped, p, expected, indent, ct, s))
    ensures InStep(fin, Emit(AsWritten, p, expected, indent, ct, w).value,
                   Emit(Scoped, p, expected, indent, ct, s).value,
                   expected, d)
    decreases p, 1
  {
    hide Twins, Hoisted, Keyed;
    assert FlowOf([], d) == Falls(d);
    match p
    case BoolLit(_) | IntLit(_) | TextLit(_) | ListLit(_) | Nonsense =>
    case Ident(name) => IdentTwins(fin, name, expected, ct, w, s, d);
    case Select(_, _, _) => SelectTwins(fin, p, expected, indent, ct, w, s, d);
    case Index(_, _) => IndexTwins(fin, p, expected, indent, ct, w, s, d);
    case Logic(_, _, _) => LogicTwins(fin, p, indent, w, s, d);
    case Quantifier(_, _, _, _) => QuantifierTwins(fin, p, indent, w, s, d);
    case Cond(_, _, _) => CondTwins(fin, p, expected, indent, w, s, d);
    case Neg(_) | Not(_) | Size(_) | In(_, _) | Matches(_, _) => UnaryTwins(fin, p, indent, w, s, d);
    case Compare(_, _, _) | Arith(_, _, _) | Test(_, _, _) => BinaryTwins(fin, p, indent, w, s, d);
  }

  lemma {:induction false} IdentTwins(fin: Ends, name: Text, expected: PlainType, ct: bool, w: State, s: State,
      d: set<Var>)
    requires Twins(fin, w, s, d) && Hoisted(fin.s, EmitIdent(name, expected, ct, s).st, d)
    ensures InStep(fin, EmitIdent(name, expected, ct, w), EmitIdent(name, expected, ct, s), expected, d)
  {
    TwinsParts(fin, w, s, d);
    hide Twins, Hoisted, Keyed, InStep, Wf, Known, Leaky;
    match FindScope(w.scopes, name)
    case Some(v) => ReadTwins(fin, w, s, EVar(v), expected, ct, d);
    case None =>
      if expected == TObject {
        RootTwins(fin, w, s, name, d);
      } else {
        ReadTwins(fin, w, s, EBinding(name), expected, ct, d);
      }
  }

  lemma {:induction false} NotedTwins(fin: Ends, w: State, s: State, p: Plan, d: set<Var>)
    requires Twins(fin, w, s, d)
    ensures Twins(fin, NoteDotted(w, p), NoteDotted(s, p), d) && Wf(NoteDotted(w, p)) && Wf(NoteDotted(s, p))
    ensures Wf(w) && Wf(s)
  {
    TwinsParts(fin, w, s, d);
    NotedShape(w, p);
    NotedShape(s, p);
    GrowsCounter(w, NoteDotted(w, p), []);
    GrowsCounter(s, NoteDotted(s, p), []);
    hide Twins, Wf, Grows, Leaky;
    TwinsOn(fin, w, s, d, NoteDotted(w, p), NoteDotted(s, p), d, []);
  }

  lemma {:induction false} SelectTwins(fin: Ends, p: Plan, expected: PlainType, indent: nat, ct: bool, w: State,
      s: State, d: set<Var>)
    requires p.Select?
    requires Ready(fin, w, s, d, EmitSelect(AsWritten, p, expected, indent, ct, w),
                   EmitSelect(Scoped, p, expected, indent, ct, s))
    ensures InStep(fin, EmitSelect(AsWritten, p, expected, indent, ct, w).value,
                   EmitSelect(Scoped, p, expected, indent, ct, s).value, expected, d)
    decreases p, 0
  {
    hide Emit, Twins, Hoisted, Keyed, Wf, CachedObject, Read, Grows, NoteDotted, EntryKept;
    var w0, s0 := NoteDotted(w, p), NoteDotted(s, p);
    NotedTwins(fin, w, s, p, d);
    EmitShape(Scoped, p.target, TObject, indent, true, s0);
    EmitShape(AsWritten, p.target, TObject, indent, true, w0);
    var tw := Emit(AsWritten, p.target, TObject, indent, true, w0).value;
    var ts := Emit(Scoped, p.target, TObject, indent, true, s0).value;
    var source := EGet(tw.e, EText(p.field));
    var rw := if expected == TObject then CachedObject(tw.st, tw.e.v, p.field, indent)
              else Read(tw.st, source, expected, ct);
    var rs := if expected == TObject then CachedObject(ts.st, ts.e.v, p.field, indent)
              else Read(ts.st, EGet(ts.e, EText(p.field)), expected, ct);
    CachedObjectShape(ts.st, ts.e.v, p.field, indent);
    ReadShape(ts.st, EGet(ts.e, EText(p.field)), expected, ct);
    CachedObjectShape(tw.st, tw.e.v, p.field, indent);
    ReadShape(tw.st, EGet(tw.e, EText(p.field)), expected, ct);
    HoistedBefore(fin.s, ts.st, rs.st, rs.code, d);
    HoistedBefore(fin.w, tw.st, rw.st, rw.code, d);
    EmitTwins(fin, p.target, TObject, indent, true, w0, s0, d);
    FlowConcat(tw.code, rw.code, d);
    if FlowOf(tw.code, d).Falls? {
      var d1 := FlowOf(tw.code, d).known;
      if tw.e.v !in d1 {
        if expected == TObject {
          CachedUnknownAny(fin, tw.st, ts.st, tw.e.v, p.field, indent, d1);
        } else {
          assert tw.e.v in Vars(source);
          ReadUnknown(tw.st, source, expected, ct, d1);
        }
      } else if expected == TObject {
        CachedTwins(fin, tw.st, ts.st, tw.e.v, p.field, indent, d1);
      } else {
        ReadTwins(fin, tw.st, ts.st, source, expected, ct, d1);
      }
    }
  }

  lemma {:induction false} CachedUnknownAny(fin: Ends, w: State, s: State, target: Var, field: Text, indent: nat,
      d: set<Var>)
    requires Twins(fin, w, s, d) || Keyed(w.objects, d)
    requires target !in d
    ensures var r := CachedObject(w, target, field, indent);
            FlowOf(r.code, d).Misses? ||
            (FlowOf(r.code, d) == Falls(d) && r.e.EVar? && r.e.v !in d && Keyed(r.st.objects, d))
  {
    if Twins(fin, w, s, d) {
      TwinsKeyed(fin, w, s, d);
    }
    CachedUnknown(w, target, field, indent, d);
  }

  lemma {:induction false} IndexTwins(fin: Ends, p: Plan, expected: PlainType, indent: nat, ct: bool, w: State,
      s: State, d: set<Var>)
    requires p.Index?
    requires Ready(fin, w, s, d, EmitIndex(AsWritten, p, expected, indent, ct, w),
                   EmitIndex(Scoped, p, expected, indent, ct, s))
    ensures InStep(fin, EmitIndex(AsWritten, p, expected, indent, ct, w).value,
                   EmitIndex(Scoped, p, expected, indent, ct, s).value, expected, d)
    decreases p, 0
  {
    hide Emit, Twins, Hoisted, Keyed, Wf, Read, Grows, EntryKept, CacheOk, Leaky, Extends, Known, FlowOf;
    var keyChecked := KeyType(p.key) != TText;
    TwinsParts(fin, w, s, d);
    EmitShape(Scoped, p.target, IndexedType(p), indent, true, s);
    EmitShape(AsWritten, p.target, IndexedType(p), indent, true, w);
    var tw := Emit(AsWritten, p.target, IndexedType(p), indent, true, w).value;
    var ts := Emit(Scoped, p.target, IndexedType(p), indent, true, s).value;
    EmitShape(Scoped, p.key, KeyType(p.key), indent, keyChecked, ts.st);
    EmitShape(AsWritten, p.key, KeyType(p.key), indent, keyChecked, tw.st);
    var kw := Emit(AsWritten, p.key, KeyType(p.key), indent, keyChecked, tw.st).value;
    var ks := Emit(Scoped, p.key, KeyType(p.key), indent, keyChecked, ts.st).value;
    var source := IndexExpr(p, tw.e, kw.e);
    var rw := Read(kw.st, source, expected, ct);
    var rs := Read(ks.st, IndexExpr(p, ts.e, ks.e), expected, ct);
    ReadShape(ks.st, IndexExpr(p, ts.e, ks.e), expected, ct);
    ReadShape(kw.st, source, expected, ct);
    HoistedBefore(fin.s, ks.st, rs.st, rs.code, d);
    HoistedBefore(fin.w, kw.st, rw.st, rw.code, d);
    HoistedBefore(fin.s, ts.st, ks.st, ks.code, d);
    HoistedBefore(fin.w, tw.st, kw.st, kw.code, d);
    EmitTwins(fin, p.target, IndexedType(p), indent, true, w, s, d);
    FlowConcat(tw.code, kw.code, d);
    FlowConcat(tw.code + kw.code, rw.code, d);
    if FlowOf(tw.code, d).Falls? {
      var d1 := FlowOf(tw.code, d).known;
      EmitCloses(AsWritten, p.key, KeyType(p.key), indent, keyChecked, tw.st);
      ClosedFlow(kw.code, d1);
      if FlowOf(kw.code, d1).Falls? {
        var d2 := FlowOf(kw.code, d1).known;
        if !(Vars(source) <= d2) {
          ReadUnknown(kw.st, source, expected, ct, d2);
        } else {
          if tw.e.EVar? {
            assert tw.e.v in Vars(source) && tw.e.v in Vars(tw.e);
            OldStaysUnknown(tw.st, kw.st, kw.code, tw.e.v, d1);
          }
          HoistedAfter(fin.s, ks.st, tw.code, d);
          HoistedAfter(fin.w, kw.st, tw.code, d);
          EmitTwins(fin, p.key, KeyType(p.key), indent, keyChecked, tw.st, ts.st, d1);
          ReadTwins(fin, kw.st, ks.st, source, expected, ct, d2);
        }
      }
    }
  }

  /** A variable that is not assigned on every path stays so: later code assigns newer ones. */
  lemma {:induction false} OldStaysUnknown(st: State, st': State, code: seq<Stmt>, v: Var, d: set<Var>)
    requires Grows(st, st', code) && v <= st.counter && FlowOf(code, d).Falls? && v in FlowOf(code, d).known
    ensures v in d
  {
    FlowWrites(code, d);
  }

  lemma {:induction false} UnaryTwins(fin: Ends, p: Plan, indent: nat, w: State, s: State, d: set<Var>)
    requires IsUnary(p) && Ready(fin, w, s, d, EmitUnary(AsWritten, p, indent, w), EmitUnary(Scoped, p, indent, s))
    ensures InStep(fin, EmitUnary(AsWritten, p, indent, w).value, EmitUnary(Scoped, p, indent, s).value,
                   ResultType(p), d)
    decreases p, 0
  {
    hide Emit, Twins, Hoisted, Keyed;
    EmitTwins(fin, Operand(p), OperandType(p).value, indent, OperandChecked(p), w, s, d);
  }

  lemma {:induction false} BinaryTwins(fin: Ends, p: Plan, indent: nat, w: State, s: State, d: set<Var>)
    requires IsBinary(p) && Ready(fin, w, s, d, EmitBinary(AsWritten, p, indent, w), EmitBinary(Scoped, p, indent, s))
    ensures InStep(fin, EmitBinary(AsWritten, p, indent, w).value, EmitBinary(Scoped, p, indent, s).value,
                   ResultType(p), d)
    decreases p, 0
  {
    hide Emit, Twins, Hoisted, Keyed, Wf, Grows, EntryKept, GoodResult;
    var kind, ct := OperandsType(p).value, OperandsChecked(p);
    TwinsParts(fin, w, s, d);
    EmitShape(Scoped, LeftOperand(p), kind, indent, ct, s);
    EmitShape(AsWritten, LeftOperand(p), kind, indent, ct, w);
    var lw := Emit(AsWritten, LeftOperand(p), kind, indent, ct, w).value;
    var ls := Emit(Scoped, LeftOperand(p), kind, indent, ct, s).value;
    EmitShape(Scoped, RightOperand(p), kind, indent, ct, ls.st);
    EmitShape(AsWritten, RightOperand(p), kind, indent, ct, lw.st);
    var rw := Emit(AsWritten, RightOperand(p), kind, indent, ct, lw.st).value;
    var rs := Emit(Scoped, RightOperand(p), kind, indent, ct, ls.st).value;
    HoistedBefore(fin.s, ls.st, rs.st, rs.code, d);
    HoistedBefore(fin.w, lw.st, rw.st, rw.code, d);
    EmitTwins(fin, LeftOperand(p), kind, indent, ct, w, s, d);
    FlowConcat(lw.code, rw.code, d);
    if FlowOf(lw.code, d).Falls? {
      HoistedAfter(fin.s, rs.st, lw.code, d);
      HoistedAfter(fin.w, rw.st, lw.code, d);
      EmitTwins(fin, RightOperand(p), kind, indent, ct, lw.st, ls.st, FlowOf(lw.code, d).known);
    }
  }

  // ----- blocks -----

  lemma {:induction false} LeakyLess(w: Cache, s: Cache, d: set<Var>, d': set<Var>)
    requires Leaky(w, s, d) && d' <= d
    ensures Leaky(w, s, d')
  {
  }

  lemma {:induction false} LeakyPlus(w: Cache, s: Cache, d: set<Var>, st: State, v: Var)
    requires Leaky(w, s, d) && CacheOk(w, st) && st.counter < v
    ensures Leaky(w, s, d + {v})
  {
  }

  /** Back from a block to the caches of before it. */
  lemma {:induction false} AfterTwins(fin: Ends, w0: State, s0: State, d: set<Var>, w1: State, s1: State, d1: set<Var>,
      w': State, s': State, result: Var)
    requires Twins(fin, w0, s0, d) && Twins(fin, w1, s1, d1) && d + {result} <= d1
    requires w0.counter < result <= w1.counter
    requires w' == w1.(objects := w0.objects, aliased := false, scopes := w0.scopes)
    requires s' == s1.(objects := s0.objects, aliased := false, scopes := s0.scopes)
    requires Wf(w') && Known(s', d + {result})
    ensures Twins(fin, w', s', d + {result})
  {
    LeakyPlus(w0.objects, s0.objects, d, w0, result);
    LeakyLess(w1.entry, s1.entry, d1, d + {result});
  }

  /** Entering a block: a new variable is assigned and the emission moves past it. */
  lemma {:induction false} InnerTwins(fin: Ends, w: State, s: State, d: set<Var>, w': State, s': State, d': set<Var>)
    requires Twins(fin, w, s, d) && Wf(w') && Known(s', d') && d <= d'
    requires w' == w.(counter := w'.counter, scopes := w'.scopes) && s' == w'.(objects := s.objects, entry := s.entry)
    requires forall v :: v in d' && v !in d ==> w.counter < v <= w'.counter
    requires w.counter <= w'.counter
    ensures Twins(fin, w', s', d')
  {
  }

  lemma {:induction false} LogicMisses(l: Expr, test: Expr, r: Emitted, result: Var, d: set<Var>)
    requires Vars(l) <= d && Vars(test) == {result} && FlowOf(r.code, d + {result}).Misses?
    ensures FlowOf([Assign(result, l), If(test, r.code + [Assign(result, r.e)])], d).Misses?
  {
    var branch := If(test, r.code + [Assign(result, r.e)]);
    FlowConcat(r.code, [Assign(result, r.e)], d + {result});
    FlowTwo(Assign(result, l), branch, d);
    FlowOne(branch, d + {result});
  }

  lemma {:induction false} LogicTwins(fin: Ends, p: Plan, indent: nat, w: State, s: State, d: set<Var>)
    requires p.Logic? && Ready(fin, w, s, d, EmitLogic(AsWritten, p, indent, w), EmitLogic(Scoped, p, indent, s))
    ensures InStep(fin, EmitLogic(AsWritten, p, indent, w).value, EmitLogic(Scoped, p, indent, s).value, TBool, d)
    decreases p, 0
  {
    hide Emit, Twins, Hoisted, Keyed, Wf, Grows, EntryKept, GoodResult, Known, CacheOk;
    TwinsParts(fin, w, s, d);
    LogicShape(AsWritten, p, indent, w);
    EmitShape(AsWritten, p.left, TBool, indent, true, w);
    EmitShape(Scoped, p.left, TBool, indent, true, s);
    var lw := Emit(AsWritten, p.left, TBool, indent, true, w).value;
    var ls := Emit(Scoped, p.left, TBool, indent, true, s).value;
    var result := lw.st.counter + 1;
    var iw, is_ := lw.st.(counter := result), ls.st.(counter := ls.st.counter + 1);
    GrowsAllocate(lw.st, result);
    GrowsAllocate(ls.st, ls.st.counter + 1);
    GrowsCounter(lw.st, iw, []);
    GrowsCounter(ls.st, is_, []);
    EmitShape(AsWritten, p.right, TBool, indent + 1, true, iw);
    EmitShape(Scoped, p.right, TBool, indent + 1, true, is_);
    var rw := Emit(AsWritten, p.right, TBool, indent + 1, true, iw).value;
    var rs := Emit(Scoped, p.right, TBool, indent + 1, true, is_).value;
    HoistedSame(fin.s, rs.st, Restore(rs.st, ls.st.objects), d);
    HoistedSame(fin.w, rw.st, Restore(rw.st, lw.st.objects), d);
    HoistedBefore(fin.s, is_, rs.st, rs.code, d);
    HoistedBefore(fin.w, iw, rw.st, rw.code, d);
    HoistedBefore(fin.s, ls.st, is_, [], d);
    HoistedBefore(fin.w, lw.st, iw, [], d);
    EmitTwins(fin, p.left, TBool, indent, true, w, s, d);
    var test := if p.conj then EVar(result) else ENot(EVar(result));
    var wrapped := [Assign(result, lw.e), If(test, rw.code + [Assign(result, rw.e)])];
    FlowConcat(lw.code, wrapped, d);
    if FlowOf(lw.code, d).Falls? {
      var d1 := FlowOf(lw.code, d).known;
      EmitFlows(fin.s, p.left, TBool, indent, true, s, d);
      TwinsParts(fin, lw.st, ls.st, d1);
      HoistedAfter(fin.s, rs.st, lw.code, d);
      HoistedAfter(fin.w, rw.st, lw.code, d);
      HoistedMore(fin.s, rs.st, d1, d1 + {result});
      HoistedMore(fin.w, rw.st, d1, d1 + {result});
      KnownAllocated(ls.st, d1, is_, d1 + {result});
      InnerTwins(fin, lw.st, ls.st, d1, iw, is_, d1 + {result});
      EmitTwins(fin, p.right, TBool, indent + 1, true, iw, is_, d1 + {result});
      if FlowOf(rw.code, d1 + {result}).Misses? {
        LogicMisses(lw.e, test, rw, result, d1);
      } else {
        EmitFlows(fin.s, p.right, TBool, indent + 1, true, is_, d1 + {result});
        LogicFlow(lw.e, test, rw, result, d1);
        LogicFlows(fin.s, p, indent, s, d);
        AfterTwins(fin, lw.st, ls.st, d1, rw.st, rs.st, FlowOf(rw.code, d1 + {result}).known,
                   Restore(rw.st, lw.st.objects), Restore(rs.st, ls.st.objects), result);
      }
    }
  }

  lemma {:induction false} KnownAllocated(st: State, d: set<Var>, st': State, d': set<Var>)
    requires Known(st, d) && Wf(st') && st' == st.(counter := st'.counter) && d <= d'
    ensures Known(st', d')
  {
  }

  lemma {:induction false} KnownPushed(st: State, d: set<Var>, st': State, d': set<Var>, name: Text, v: Var)
    requires Known(st, d) && Wf(st') && st' == st.(counter := st'.counter, scopes := st.scopes + [Scope(name, v)])
    requires d <= d' && v in d'
    ensures Known(st', d')
  {
  }

  lemma {:induction false} LoopMisses(items: Expr, b: Emitted, result: Var, element: Var, test: Expr, x: Expr, y: Expr,
      d: set<Var>)
    requires Vars(x) == {} && FlowOf(b.code, d + {result} + {element}).Misses?
    ensures FlowOf([Assign(result, x), For(element, items, b.code + [If(test, [Assign(result, y), Break])])], d).Misses?
  {
    var exit := If(test, [Assign(result, y), Break]);
    FlowConcat(b.code, [exit], d + {result} + {element});
    var loop := For(element, items, b.code + [exit]);
    FlowTwo(Assign(result, x), loop, d);
    FlowOne(loop, d + {result});
  }

  lemma {:induction false} QuantifierTwins(fin: Ends, p: Plan, indent: nat, w: State, s: State, d: set<Var>)
    requires p.Quantifier?
    requires Ready(fin, w, s, d, EmitQuantifier(AsWritten, p, indent, w), EmitQuantifier(Scoped, p, indent, s))
    ensures InStep(fin, EmitQuantifier(AsWritten, p, indent, w).value, EmitQuantifier(Scoped, p, indent, s).value,
                   TBool, d)
    decreases p, 0
  {
    hide Emit, Twins, Hoisted, Keyed, Wf, Grows, EntryKept, GoodResult, Known, CacheOk, Shaped, FlowOf;
    TwinsParts(fin, w, s, d);
    var tw, iw, bw := LoopOfQuantifier(AsWritten, fin.w, p, indent, w, d);
    var ts, is_, bs := LoopOfQuantifier(Scoped, fin.s, p, indent, s, d);
    EmitTwins(fin, p.target, TList, indent, true, w, s, d);
    var stop := If(if p.universal then ENot(bw.e) else bw.e, [Assign(iw.counter - 1, EBool(!p.universal)), Break]);
    FlowConcat(tw.code, [Assign(iw.counter - 1, EBool(p.universal)), For(iw.counter, tw.e, bw.code + [stop])], d);
    if FlowOf(tw.code, d).Falls? {
      LoopTwins(fin, p, indent, w, s, d, tw, iw, bw, ts, is_, bs);
    }
  }

  /** The body of the loop, with the loop's variables assigned. */
  lemma {:induction false} BodyTwins(fin: Ends, p: Plan, indent: nat, w: State, s: State, d: set<Var>, tw: Emitted,
      iw: State, bw: Emitted, ts: Emitted, is_: State, bs: Emitted, d1: set<Var>, d2: set<Var>)
    requires p.Quantifier? && Twins(fin, w, s, d) && Wf(fin.w) && Wf(fin.s)
    requires LoopOf(AsWritten, fin.w, p, indent, w, d, tw, iw, bw)
    requires LoopOf(Scoped, fin.s, p, indent, s, d, ts, is_, bs)
    requires FlowOf(tw.code, d) == Falls(d1) && InStep(fin, tw, ts, TList, d)
    requires d2 == d1 + {tw.st.counter + 1} + {tw.st.counter + 2}
    ensures InStep(fin, bw, bs, TBool, d2) && Hoisted(fin.s, bs.st, d2) && Known(is_, d2) && FlowsWell(ts, d)
    decreases p, 0, 0, 0
  {
    hide Emit, Twins, Hoisted, Keyed, Wf, Grows, EntryKept, GoodResult, Known, CacheOk, FlowOf, Leaky, Extends, Writes,
         RootVars;
    TwinsParts(fin, w, s, d);
    EmitFlows(fin.s, p.target, TList, indent, true, s, d);
    TwinsParts(fin, tw.st, ts.st, d1);
    HoistedAfter(fin.s, bs.st, tw.code, d);
    HoistedAfter(fin.w, bw.st, tw.code, d);
    HoistedMore(fin.s, bs.st, d1, d2);
    HoistedMore(fin.w, bw.st, d1, d2);
    KnownPushed(ts.st, d1, is_, d2, p.variable, iw.counter);
    InnerTwins(fin, tw.st, ts.st, d1, iw, is_, d2);
    EmitTwins(fin, p.body, TBool, indent + 1, true, iw, is_, d2);
  }

  /** The loop itself, after its list. */
  lemma {:induction false} LoopTwins(fin: Ends, p: Plan, indent: nat, w: State, s: State, d: set<Var>, tw: Emitted,
      iw: State, bw: Emitted, ts: Emitted, is_: State, bs: Emitted)
    requires p.Quantifier?
    requires Ready(fin, w, s, d, EmitQuantifier(AsWritten, p, indent, w), EmitQuantifier(Scoped, p, indent, s))
    requires LoopOf(AsWritten, fin.w, p, indent, w, d, tw, iw, bw)
    requires LoopOf(Scoped, fin.s, p, indent, s, d, ts, is_, bs)
    requires FlowOf(tw.code, d).Falls? && InStep(fin, tw, ts, TList, d)
    ensures InStep(fin, EmitQuantifier(AsWritten, p, indent, w).value, EmitQuantifier(Scoped, p, indent, s).value,
                   TBool, d)
    decreases p, 0, 0
  {
    hide Emit, Twins, Hoisted, Keyed, Wf, Grows, EntryKept, GoodResult, Known, CacheOk, FlowOf, Leaky, Extends, Writes,
         RootVars;
    TwinsParts(fin, w, s, d);
    var result, element := iw.counter - 1, iw.counter;
    var test := if p.universal then ENot(bw.e) else bw.e;
    var x, y := EBool(p.universal), EBool(!p.universal);
    var d1 := FlowOf(tw.code, d).known;
    var d2 := d1 + {result} + {element};
    BodyTwins(fin, p, indent, w, s, d, tw, iw, bw, ts, is_, bs, d1, d2);
    TwinsParts(fin, tw.st, ts.st, d1);
    FlowConcat(tw.code, [Assign(result, x), For(element, tw.e, bw.code + [If(test, [Assign(result, y), Break])])], d);
    if FlowOf(bw.code, d2).Misses? {
      LoopMisses(tw.e, bw, result, element, test, x, y, d1);
    } else {
      QuantifierShape(AsWritten, p, indent, w);
      EmitFlows(fin.s, p.body, TBool, indent + 1, true, is_, d2);
      LoopFlow(p.universal, tw.e, bw, result, element, test, x, y, d1);
      QuantifierFlows(fin.s, p, indent, s, d);
      AfterTwins(fin, tw.st, ts.st, d1, bw.st, bs.st, FlowOf(bw.code, d2).known,
                 Restore(bw.st, tw.st.objects).(scopes := tw.st.scopes),
                 Restore(bs.st, ts.st.objects).(scopes := ts.st.scopes), result);
    }
  }

  lemma {:induction false} CondMisses(k: Expr, y: Emitted, n: Emitted, result: Var, d: set<Var>)
    requires FlowOf(y.code, d).Misses? || FlowOf(n.code, d).Misses?
    ensures FlowOf([IfElse(k, y.code + [Assign(result, y.e)], n.code + [Assign(result, n.e)])], d).Misses?
  {
    FlowConcat(y.code, [Assign(result, y.e)], d);
    FlowConcat(n.code, [Assign(result, n.e)], d);
    FlowOne(IfElse(k, y.code + [Assign(result, y.e)], n.code + [Assign(result, n.e)]), d);
  }

  /** The `else` part starts like the conditional, whatever the other part did. */
  lemma {:induction false} ElseTwins(fin: Ends, w0: State, s0: State, d: set<Var>, yw: State, ys: State, d1: set<Var>)
    requires Twins(fin, w0, s0, d) && Twins(fin, yw, ys, d1)
    requires w0.counter <= yw.counter && yw.scopes == w0.scopes
    requires Wf(ElseStart(yw, w0.objects)) && Wf(ElseStart(ys, s0.objects))
    ensures Twins(fin, ElseStart(yw, w0.objects), ElseStart(ys, s0.objects), d)
  {
  }

  ghost predicate Ending(fin: Ends, w: State, s: State) {
    Wf(w) && Wf(s) && Wf(fin.w) && Wf(fin.s) && Extends(w, fin.w) && Extends(s, fin.s)
  }

  /** Where an object variable cannot be: among the hoisted ones. */
  lemma {:induction false} ObjectNotHoisted(fin: State, st: State, cache: Cache, k: CacheKey)
    requires Wf(st) && Extends(st, fin) && Wf(fin) && CacheOk(cache, st) && k in cache && k.ObjectKey?
    ensures cache[k] !in RootVars(fin.roots)
  {
  }

  /** What the `else` part leaves in the cache is not assigned by the other part. */
  lemma {:induction false} ElseLeaks(fin: Ends, w0: State, s0: State, d: set<Var>, yw: State, nw: State, ns: State,
      dy: set<Var>, dn: set<Var>, result: Var)
    requires Twins(fin, w0, s0, d) && Twins(fin, nw, ns, dn) && Ending(fin, nw, ns)
    requires result == w0.counter + 1 && result <= yw.counter
    requires forall v :: v in dy ==> v <= yw.counter || v in AllHoisted(fin)
    requires EntryKept(ElseStart(yw, w0.objects), nw) && EntryKept(ElseStart(yw, s0.objects), ns)
    ensures Leaky(AfterElse(AsWritten, w0.objects, nw.entry), AfterElse(Scoped, s0.objects, ns.entry),
                  (dy + {result}) * (dn + {result}))
  {
    var a, b := nw.entry, AfterElse(Scoped, s0.objects, ns.entry);
    var d2 := (dy + {result}) * (dn + {result});
    forall k | k in a && k !in b
      ensures k.ObjectKey? && a[k] !in d2
    {
      assert CacheOk(w0.objects, w0);
      assert k in w0.objects || yw.counter < a[k];
      if k in ns.entry {
        assert k !in s0.objects && yw.counter < ns.entry[k];
        ObjectNotHoisted(fin.s, ns, ns.entry, k);
      }
    }
  }

  lemma {:induction false} CondTwins(fin: Ends, p: Plan, expected: PlainType, indent: nat, w: State, s: State,
      d: set<Var>)
    requires p.Cond? && expected !in {TObject, TList, TAny}
    requires Ready(fin, w, s, d, EmitCond(AsWritten, p, expected, indent, w), EmitCond(Scoped, p, expected, indent, s))
    ensures InStep(fin, EmitCond(AsWritten, p, expected, indent, w).value,
                   EmitCond(Scoped, p, expected, indent, s).value,
                   expected, d)
    decreases p, 0
  {
    hide Emit, Twins, Hoisted, Keyed, Wf, Grows, EntryKept, GoodResult, Known, CacheOk, AfterElse, ElseStart, Shaped,
         FlowOf;
    TwinsParts(fin, w, s, d);
    var kw, iw, yw, ew, nw := ChoiceOfCond(AsWritten, fin.w, p, expected, indent, w, d);
    var ks, is_, ys, es, ns := ChoiceOfCond(Scoped, fin.s, p, expected, indent, s, d);
    EmitTwins(fin, p.condition, TBool, indent, true, w, s, d);
    FlowConcat(kw.code, [IfElse(kw.e, yw.code + [Assign(iw.counter, yw.e)], nw.code + [Assign(iw.counter, nw.e)])], d);
    if FlowOf(kw.code, d).Falls? {
      ChoiceTwins(fin, p, expected, indent, w, s, d, kw, iw, yw, ew, nw, ks, is_, ys, es, ns, FlowOf(kw.code, d).known);
    }
  }

  /** The two parts, after the condition. */
  lemma {:induction false} PartsTwins(fin: Ends, p: Plan, expected: PlainType, indent: nat, w: State, s: State,
      d: set<Var>, kw: Emitted, iw: State, yw: Emitted, ew: State, nw: Emitted, ks: Emitted, is_: State, ys: Emitted,
      es: State, ns: Emitted, d1: set<Var>)
    requires p.Cond? && expected !in {TObject, TList, TAny} && Twins(fin, w, s, d) && Wf(fin.w) && Wf(fin.s)
    requires ChoiceOf(AsWritten, fin.w, p, expected, indent, w, d, kw, iw, yw, ew, nw)
    requires ChoiceOf(Scoped, fin.s, p, expected, indent, s, d, ks, is_, ys, es, ns)
    requires FlowOf(kw.code, d) == Falls(d1) && InStep(fin, kw, ks, TBool, d)
    ensures InStep(fin, yw, ys, expected, d1) && FlowsWell(ks, d) && Known(is_, d1) && Hoisted(fin.s, ys.st, d1)
    ensures !FlowOf(yw.code, d1).Misses? ==>
              InStep(fin, nw, ns, expected, d1) && Known(es, d1) && Hoisted(fin.s, ns.st, d1)
    decreases p, 0, 0, 0
  {
    hide Emit, Twins, Hoisted, Keyed, Wf, Grows, EntryKept, GoodResult, Known, CacheOk, AfterElse, ElseStart, FlowOf,
         Leaky, Writes, RootVars, Extends;
    TwinsParts(fin, w, s, d);
    EmitFlows(fin.s, p.condition, TBool, indent, true, s, d);
    TwinsParts(fin, kw.st, ks.st, d1);
    HoistedAfter(fin.s, ys.st, kw.code, d);
    HoistedAfter(fin.w, yw.st, kw.code, d);
    HoistedAfter(fin.s, ns.st, kw.code, d);
    HoistedAfter(fin.w, nw.st, kw.code, d);
    KnownAllocated(ks.st, d1, is_, d1);
    InnerTwins(fin, kw.st, ks.st, d1, iw, is_, d1);
    EmitTwins(fin, p.yes, expected, indent + 1, true, iw, is_, d1);
    if !FlowOf(yw.code, d1).Misses? {
      ElseTwins(fin, kw.st, ks.st, d1, yw.st, ys.st, FlowOf(yw.code, d1).known);
      EmitTwins(fin, p.no, expected, indent + 1, true, ew, es, d1);
      TwinsParts(fin, ew, es, d1);
    }
  }

  /** The conditional itself, after its condition. */
  lemma {:induction false} ChoiceTwins(fin: Ends, p: Plan, expected: PlainType, indent: nat, w: State, s: State,
      d: set<Var>, kw: Emitted, iw: State, yw: Emitted, ew: State, nw: Emitted, ks: Emitted, is_: State, ys: Emitted,
      es: State, ns: Emitted, d1: set<Var>)
    requires p.Cond? && expected !in {TObject, TList, TAny}
    requires Ready(fin, w, s, d, EmitCond(AsWritten, p, expected, indent, w), EmitCond(Scoped, p, expected, indent, s))
    requires ChoiceOf(AsWritten, fin.w, p, expected, indent, w, d, kw, iw, yw, ew, nw)
    requires ChoiceOf(Scoped, fin.s, p, expected, indent, s, d, ks, is_, ys, es, ns)
    requires FlowOf(kw.code, d) == Falls(d1) && InStep(fin, kw, ks, TBool, d)
    ensures InStep(fin, EmitCond(AsWritten, p, expected, indent, w).value,
                   EmitCond(Scoped, p, expected, indent, s).value,
                   expected, d)
    decreases p, 0, 0
  {
    hide Emit, Twins, Hoisted, Keyed, Wf, Grows, EntryKept, GoodResult, Known, CacheOk, AfterElse, ElseStart, FlowOf,
         Leaky, Writes, RootVars, Extends;
    var result := iw.counter;
    TwinsParts(fin, w, s, d);
    PartsTwins(fin, p, expected, indent, w, s, d, kw, iw, yw, ew, nw, ks, is_, ys, es, ns, d1);
    TwinsParts(fin, kw.st, ks.st, d1);
    FlowConcat(kw.code, [IfElse(kw.e, yw.code + [Assign(result, yw.e)], nw.code + [Assign(result, nw.e)])], d);
    if FlowOf(yw.code, d1).Misses? || FlowOf(nw.code, d1).Misses? {
      CondMisses(kw.e, yw, nw, result, d1);
    } else {
      var dy, dn := FlowOf(yw.code, d1).known, FlowOf(nw.code, d1).known;
      CondShape(AsWritten, p, expected, indent, w);
      ElseFields(yw.st, kw.st.objects);
      ElseFields(ys.st, ks.st.objects);
      EmitFlows(fin.s, p.yes, expected, indent + 1, true, is_, d1);
      EmitFlows(fin.s, p.no, expected, indent + 1, true, es, d1);
      CondFlow(kw, yw, nw, result, d1);
      CondFlows(fin.s, p, expected, indent, s, d);
      TwinsParts(fin, yw.st, ys.st, dy);
      HoistedExtends(fin.w, nw.st, d);
      HoistedExtends(fin.s, ns.st, d);
      CondAfter(fin, kw.st, ks.st, d1, yw.st, ys.st, dy, nw.st, ns.st, dn, result);
    }
  }

  lemma {:induction false} HoistedExtends(fin: State, st: State, d: set<Var>)
    requires Hoisted(fin, st, d)
    ensures Extends(st, fin)
  {
  }

  lemma {:induction false} ElseFields(st: State, before: Cache)
    ensures var e := ElseStart(st, before);
            e.counter == st.counter && e.roots == st.roots && e.paths == st.paths && e.scopes == st.scopes
            && e.dotted == st.dotted && e.objects == before && e.entry == before
  {
  }

  lemma {:induction false} CondAfter(fin: Ends, w0: State, s0: State, d: set<Var>, yw: State, ys: State, dy: set<Var>,
      nw: State, ns: State, dn: set<Var>, result: Var)
    requires Twins(fin, w0, s0, d) && Twins(fin, yw, ys, dy) && Twins(fin, nw, ns, dn) && Ending(fin, nw, ns)
    requires result == w0.counter + 1 && result <= yw.counter <= nw.counter
    requires EntryKept(ElseStart(yw, w0.objects), nw) && EntryKept(ElseStart(ys, s0.objects), ns)
    requires EntryKept(w0.(counter := result), yw) && w0.scopes == nw.scopes
    requires var a := nw.(objects := AfterElse(AsWritten, w0.objects, nw.entry), entry := yw.entry, aliased := false);
             var b := ns.(objects := AfterElse(Scoped, s0.objects, ns.entry), entry := ys.entry, aliased := false);
             Wf(a) && Known(b, (dy + {result}) * (dn + {result}))
    ensures var a := nw.(objects := AfterElse(AsWritten, w0.objects, nw.entry), entry := yw.entry, aliased := false);
            var b := ns.(objects := AfterElse(Scoped, s0.objects, ns.entry), entry := ys.entry, aliased := false);
            Twins(fin, a, b, (dy + {result}) * (dn + {result}))
  {
    ElseLeaks(fin, w0, s0, d, yw, nw, ns, dy, dn, result);
    var d2 := (dy + {result}) * (dn + {result});
    forall k | k in yw.entry && k !in ys.entry
      ensures k.ObjectKey? && yw.entry[k] !in d2
    {
      assert CacheOk(w0.entry, w0);
    }
  }

  // ----- whole functions -----

  lemma {:induction false} ScopedCompilesToo(p: Plan)
    ensures CompilePlain(AsWritten, p).Some? <==> CompilePlain(Scoped, p).Some?
  {
    if Infer(p).Some? {
      EmitFacts(AsWritten, p, Infer(p).value, BODY_INDENT, true, START);
      EmitFacts(Scoped, p, Infer(p).value, BODY_INDENT, true, START);
    }
  }

  lemma {:induction false} ReturnFlow(f: Function)
    ensures FlowOf(f.body + [Assign(0, f.result)], RootVars(f.roots)).Misses? <==>
              match FlowOf(f.body, RootVars(f.roots))
              case Misses => true
              case Leaves => false
              case Falls(d) => !(Vars(f.result) <= d)
  {
    FlowConcat(f.body, [Assign(0, f.result)], RootVars(f.roots));
    if FlowOf(f.body, RootVars(f.roots)).Falls? {
      FlowOne(Assign(0, f.result), FlowOf(f.body, RootVars(f.roots)).known);
    }
  }

  /** With a scoped cache, every variable is assigned on every path before it is read, in the code of every plan. */
  lemma {:induction false} ScopedIsDefinitelyAssigned(p: Plan)
    requires CompilePlain(Scoped, p).Some?
    ensures DefinitelyAssigned(CompilePlain(Scoped, p).value)
  {
    hide Emit, FlowOf;
    var r := Emit(Scoped, p, Infer(p).value, BODY_INDENT, true, START).value;
    var f := CompilePlain(Scoped, p).value;
    EmitShape(Scoped, p, Infer(p).value, BODY_INDENT, true, START);
    EmitFlows(r.st, p, Infer(p).value, BODY_INDENT, true, START, RootVars(r.st.roots));
    ReturnFlow(f);
    FlowDecides(f);
  }

  lemma {:induction false} FlowGrows(code: seq<Stmt>, a: set<Var>, d: set<Var>)
    requires a <= d && FlowOf(code, d).Misses?
    ensures FlowOf(code, a).Misses?
  {
    if !FlowOf(code, a).Misses? {
      var choices := MissingWalk(code, d, d);
      WalksFollowFlow(code, a, d, choices);
    }
  }

  /** The cache as the source has it is safe exactly where it makes no difference. For every plan the compiler accepts:
      every path through the generated function reads assigned variables only, if and only if forgetting what `else`
      parts read would generate the same function. */
  lemma {:induction false} SafeIffScoped(p: Plan)
    requires CompilePlain(AsWritten, p).Some?
    ensures DefinitelyAssigned(CompilePlain(AsWritten, p).value) <==>
              CompilePlain(AsWritten, p) == CompilePlain(Scoped, p)
  {
    hide Emit, FlowOf, Twins, DefinitelyAssigned;
    ScopedCompilesToo(p);
    var kind := Infer(p).value;
    var rw := Emit(AsWritten, p, kind, BODY_INDENT, true, START).value;
    var rs := Emit(Scoped, p, kind, BODY_INDENT, true, START).value;
    var f, g := CompilePlain(AsWritten, p).value, CompilePlain(Scoped, p).value;
    ScopedIsDefinitelyAssigned(p);
    FlowDecides(f);
    ReturnFlow(f);
    EmitShape(AsWritten, p, kind, BODY_INDENT, true, START);
    EmitShape(Scoped, p, kind, BODY_INDENT, true, START);
    var fin := Ends(rw.st, rs.st);
    var d := AllHoisted(fin);
    StartTwins(fin, d);
    EmitTwins(fin, p, kind, BODY_INDENT, true, START, START, d);
    if FlowOf(rw.code, d).Misses? {
      FlowGrows(rw.code, RootVars(f.roots), d);
    } else if DefinitelyAssigned(f) {
      TwinsParts(fin, rw.st, rs.st, FlowOf(rw.code, d).known);
    }
  }

  lemma {:induction false} StartTwins(fin: Ends, d: set<Var>)
    requires d == AllHoisted(fin)
    ensures Twins(fin, START, START, d)
  {
  }
}
