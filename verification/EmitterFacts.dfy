/** Which plans are refused, which dotted names a function refuses, and which roots it hoists: facts about plans, not
    about the order in which the compiler meets their nodes. */
module EmitterFacts {
  import opened Values
  import opened Plans
  import opened PythonTarget
  import opened LazySemantics
  import opened Emitter
  import opened EmitterShape

  function ScopeNames(scopes: seq<Scope>): set<Text> {
    set s | s in scopes :: s.name
  }

  function RootNames(roots: seq<HoistedRead>): set<Text> {
    set h | h in roots :: h.name
  }

  lemma {:induction false} FindScopeNames(scopes: seq<Scope>, name: Text)
    ensures FindScope(scopes, name).Some? <==> name in ScopeNames(scopes)
  {
    if scopes != [] {
      var rest, last := scopes[..|scopes| - 1], scopes[|scopes| - 1];
      FindScopeNames(rest, name);
      assert scopes == rest + [last];
      assert ScopeNames(scopes) == ScopeNames(rest) + {last.name};
    }
  }

  /** Emission between two states adds these dotted names and these hoisted roots. */
  ghost predicate Adds(st: State, st': State, dotted: set<Text>, roots: set<Text>) {
    && st'.dotted == st.dotted + dotted
    && RootNames(st'.roots) == RootNames(st.roots) + roots
    && st'.scopes == st.scopes
  }

  /** An emission succeeds exactly on accepted plans, and then adds what the plan says it adds. */
  ghost predicate Facts(st: State, r: Option<Emitted>, p: Plan, expected: PlainType) {
    && (r.Some? <==> Accepts(p, expected))
    && (r.Some? ==>
          && r.value.st.scopes == st.scopes
          && Adds(st, r.value.st, DottedNames(p, ScopeNames(st.scopes)),
                  ObjectRoots(p, expected == TObject, ScopeNames(st.scopes))))
  }

  lemma {:induction false} EmitFacts(mode: CacheMode, p: Plan, expected: PlainType, indent: nat, ct: bool, st: State)
    requires Wf(st)
    ensures Facts(st, Emit(mode, p, expected, indent, ct, st), p, expected)
    ensures Accepts(p, expected) ==> Wf(Emit(mode, p, expected, indent, ct, st).value.st)
    decreases p, 1
  {
    hide EmitSelect, EmitIndex, EmitLogic, EmitQuantifier, EmitCond, EmitUnary, EmitBinary, EmitIdent, CacheOk, Extends,
         Fresh, EntryKept;
    if Emit(mode, p, expected, indent, ct, st).Some? {
      EmitShape(mode, p, expected, indent, ct, st);
    }
    if p.BoolLit? || p.IntLit? || p.TextLit? || p.ListLit? || p.Nonsense? {
      return;
    }
    hide Adds, DottedNames, ObjectRoots, Wf, Grows, GoodResult;
    match p
    case BoolLit(_) | IntLit(_) | TextLit(_) | ListLit(_) | Nonsense =>
    case Ident(name) => IdentFacts(st, name, expected, ct);
    case Select(_, _, _) => SelectFacts(mode, p, expected, indent, ct, st);
    case Index(_, _) => IndexFacts(mode, p, expected, indent, ct, st);
    case Logic(_, _, _) => LogicFacts(mode, p, indent, st);
    case Quantifier(_, _, _, _) => QuantifierFacts(mode, p, indent, st);
    case Cond(_, _, _) => CondFacts(mode, p, expected, indent, st);
    case Neg(_) | Not(_) | Size(_) | In(_, _) | Matches(_, _) => UnaryFacts(mode, p, indent, st);
    case Compare(_, _, _) | Arith(_, _, _) | Test(_, _, _) => BinaryFacts(mode, p, indent, st);
  }

  lemma {:induction false} IdentFacts(st: State, name: Text, expected: PlainType, ct: bool)
    requires Wf(st)
    ensures Facts(st, Some(EmitIdent(name, expected, ct, st)), Ident(name), expected)
  {
    FindScopeNames(st.scopes, name);
    if RootKey(name) in st.objects {
      assert HoistedRead(st.objects[RootKey(name)], name) in st.roots;
    }
    var h := HoistedRead(st.counter + 1, name);
    assert RootNames(st.roots + [h]) == RootNames(st.roots) + {name};
  }

  lemma {:induction false} SelectFacts(mode: CacheMode, p: Plan, expected: PlainType, indent: nat, ct: bool, st: State)
    requires Wf(st) && p.Select?
    ensures Facts(st, EmitSelect(mode, p, expected, indent, ct, st), p, expected)
    decreases p, 0
  {
    hide Emit, Wf, Grows, CachedObject, Read, NoteDotted, Adds;
    var noted := NoteDotted(st, p);
    NotedShape(st, p);
    GrowsCounter(st, noted, []);
    EmitFacts(mode, p.target, TObject, indent, true, noted);
    if Accepts(p.target, TObject) {
      EmitShape(mode, p.target, TObject, indent, true, noted);
      var t := Emit(mode, p.target, TObject, indent, true, noted).value;
      ReadsAddNothing(t.st, t.e.v, p.field, indent, EGet(t.e, EText(p.field)), expected, ct);
      NotedAdds(st, p, t.st, if expected == TObject then CachedObject(t.st, t.e.v, p.field, indent).st
                             else Read(t.st, EGet(t.e, EText(p.field)), expected, ct).st);
    }
  }

  lemma {:induction false} ReadsAddNothing(st: State, target: Var, field: Text, indent: nat, source: Expr,
      expected: PlainType, ct: bool)
    ensures Adds(st, CachedObject(st, target, field, indent).st, {}, {})
    ensures Adds(st, Read(st, source, expected, ct).st, {}, {})
  {
  }

  lemma {:induction false} NotedAdds(st: State, p: Plan, t: State, r: State)
    requires p.Select?
    requires Adds(NoteDotted(st, p), t, DottedNames(p.target, ScopeNames(st.scopes)),
                  ObjectRoots(p.target, true, ScopeNames(st.scopes)))
    requires Adds(t, r, {}, {})
    ensures Adds(st, r, DottedNames(p, ScopeNames(st.scopes)), ObjectRoots(p, false, ScopeNames(st.scopes)))
    ensures ObjectRoots(p, false, ScopeNames(st.scopes)) == ObjectRoots(p, true, ScopeNames(st.scopes))
  {
    if ChainRoot(p).Some? {
      FindScopeNames(st.scopes, ChainRoot(p).value);
    }
  }

  lemma {:induction false} AddsTrans(a: State, b: State, c: State, dotted: set<Text>, roots: set<Text>,
      dotted': set<Text>, roots': set<Text>)
    requires Adds(a, b, dotted, roots) && Adds(b, c, dotted', roots')
    ensures Adds(a, c, dotted + dotted', roots + roots')
  {
  }

  lemma {:induction false} IndexAccepted(p: Plan, expected: PlainType)
    requires p.Index?
    ensures Accepts(p, expected) <==>
              KeyType(p.key) in {TText, TInt} && Accepts(p.target, IndexedType(p)) && Accepts(p.key, KeyType(p.key))
  {
  }

  lemma {:induction false} IndexFacts(mode: CacheMode, p: Plan, expected: PlainType, indent: nat, ct: bool, st: State)
    requires Wf(st) && p.Index?
    ensures Facts(st, EmitIndex(mode, p, expected, indent, ct, st), p, expected)
    decreases p, 0
  {
    hide Emit, Wf, Grows, CacheOk, Extends, GoodResult, EntryKept, Accepts;
    IndexAccepted(p, expected);
    EmitFacts(mode, p.target, IndexedType(p), indent, true, st);
    if Accepts(p.target, IndexedType(p)) {
      var t := Emit(mode, p.target, IndexedType(p), indent, true, st).value;
      EmitFacts(mode, p.key, KeyType(p.key), indent, KeyType(p.key) != TText, t.st);
    }
  }

  lemma {:induction false} UnaryFacts(mode: CacheMode, p: Plan, indent: nat, st: State)
    requires Wf(st) && IsUnary(p)
    ensures Facts(st, EmitUnary(mode, p, indent, st), p, ResultType(p))
    decreases p, 0
  {
    hide Emit, Wf, Grows;
    if OperandType(p).Some? {
      EmitFacts(mode, Operand(p), OperandType(p).value, indent, OperandChecked(p), st);
    }
  }

  lemma {:induction false} BinaryFacts(mode: CacheMode, p: Plan, indent: nat, st: State)
    requires Wf(st) && IsBinary(p)
    ensures Facts(st, EmitBinary(mode, p, indent, st), p, ResultType(p))
    decreases p, 0
  {
    hide Emit, Wf, Grows, Adds, CacheOk, Extends, GoodResult, EntryKept;
    if OperandsType(p).Some? {
      var kind, ct := OperandsType(p).value, OperandsChecked(p);
      EmitFacts(mode, LeftOperand(p), kind, indent, ct, st);
      if Accepts(LeftOperand(p), kind) {
        var l := Emit(mode, LeftOperand(p), kind, indent, ct, st).value;
        EmitFacts(mode, RightOperand(p), kind, indent, ct, l.st);
        if Accepts(RightOperand(p), kind) {
          var names := ScopeNames(st.scopes);
          AddsTrans(st, l.st, Emit(mode, RightOperand(p), kind, indent, ct, l.st).value.st,
                    DottedNames(LeftOperand(p), names), ObjectRoots(LeftOperand(p), false, names),
                    DottedNames(RightOperand(p), names), ObjectRoots(RightOperand(p), false, names));
        }
      }
    }
  }

  lemma {:induction false} LogicFacts(mode: CacheMode, p: Plan, indent: nat, st: State)
    requires Wf(st) && p.Logic?
    ensures Facts(st, EmitLogic(mode, p, indent, st), p, TBool)
    decreases p, 0
  {
    hide Emit, Wf, Grows;
    EmitFacts(mode, p.left, TBool, indent, true, st);
    if Accepts(p.left, TBool) {
      var l := Emit(mode, p.left, TBool, indent, true, st).value;
      GrowsAllocate(l.st, l.st.counter + 1);
      GrowsCounter(l.st, l.st.(counter := l.st.counter + 1), []);
      EmitFacts(mode, p.right, TBool, indent + 1, true, l.st.(counter := l.st.counter + 1));
    }
  }

  lemma {:induction false} QuantifierFacts(mode: CacheMode, p: Plan, indent: nat, st: State)
    requires Wf(st) && p.Quantifier?
    ensures Facts(st, EmitQuantifier(mode, p, indent, st), p, TBool)
    decreases p, 0
  {
    hide Emit, Wf, Grows;
    EmitFacts(mode, p.target, TList, indent, true, st);
    if Accepts(p.target, TList) {
      var t := Emit(mode, p.target, TList, indent, true, st).value;
      var element := t.st.counter + 2;
      var inner := t.st.(counter := element, scopes := t.st.scopes + [Scope(p.variable, element)]);
      PushShape(t.st, p.variable, element);
      GrowsCounter(t.st, inner, []);
      assert ScopeNames(inner.scopes) == ScopeNames(st.scopes) + {p.variable};
      EmitFacts(mode, p.body, TBool, indent + 1, true, inner);
    }
  }

  lemma {:induction false} CondFacts(mode: CacheMode, p: Plan, expected: PlainType, indent: nat, st: State)
    requires Wf(st) && p.Cond?
    ensures Facts(st, if expected in {TObject, TList, TAny} then None else EmitCond(mode, p, expected, indent, st),
                  p, expected)
    decreases p, 0
  {
    hide Emit, Wf, Grows, Adds, DottedNames, ObjectRoots, ElseStart, Shaped;
    EmitFacts(mode, p.condition, TBool, indent, true, st);
    if Accepts(p.condition, TBool) {
      var k := Emit(mode, p.condition, TBool, indent, true, st).value;
      var inner := k.st.(counter := k.st.counter + 1);
      GrowsAllocate(k.st, inner.counter);
      GrowsCounter(k.st, inner, []);
      EmitFacts(mode, p.yes, expected, indent + 1, true, inner);
      if Accepts(p.yes, expected) {
        var y := Emit(mode, p.yes, expected, indent + 1, true, inner).value;
        var start := ElseStart(y.st, k.st.objects);
        BranchStart(mode, p.yes, expected, indent + 1, inner);
        EmitFacts(mode, p.no, expected, indent + 1, true, start);
        if Accepts(p.no, expected) && expected !in {TObject, TList, TAny} {
          CondAdds(st, p, expected, k.st, y.st, start, Emit(mode, p.no, expected, indent + 1, true, start).value.st,
                   EmitCond(mode, p, expected, indent, st).value.st);
        }
      }
    }
  }

  lemma {:induction false} BranchStart(mode: CacheMode, p: Plan, expected: PlainType, indent: nat, inner: State)
    requires Wf(inner) && Emit(mode, p, expected, indent, true, inner).Some?
    ensures var y := Emit(mode, p, expected, indent, true, inner).value;
            var start := ElseStart(y.st, inner.objects);
            Wf(start) && start.dotted == y.st.dotted && start.roots == y.st.roots && start.scopes == y.st.scopes
  {
    hide Emit, Wf, Grows;
    EmitShape(mode, p, expected, indent, true, inner);
    ElseStartShape(inner, Emit(mode, p, expected, indent, true, inner).value);
  }

  lemma {:induction false} CondAdds(st: State, p: Plan, expected: PlainType, k: State, y: State, start: State, n: State,
      after: State)
    requires p.Cond? && expected != TObject
    requires var names := ScopeNames(st.scopes);
             && Adds(st, k, DottedNames(p.condition, names), ObjectRoots(p.condition, false, names))
             && Adds(k.(counter := k.counter + 1), y, DottedNames(p.yes, names), ObjectRoots(p.yes, false, names))
             && Adds(start, n, DottedNames(p.no, names), ObjectRoots(p.no, false, names))
    requires start.dotted == y.dotted && start.roots == y.roots && start.scopes == y.scopes
    requires after.dotted == n.dotted && after.roots == n.roots && after.scopes == n.scopes
    ensures Adds(st, after, DottedNames(p, ScopeNames(st.scopes)), ObjectRoots(p, false, ScopeNames(st.scopes)))
  {
  }
}
