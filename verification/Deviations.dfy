/** Four families of inputs on which the compiled function and the engine part ways. */
module Deviations {
  import opened Values
  import opened Plans
  import opened Encodings
  import opened PythonTarget
  import opened Emitter
  import opened LazySemantics
  import opened EmitterShape
  import opened EmitterFacts
  import opened CompiledPlans
  import opened Contract
  import Engine

  const F: Text := [0x66]
  const M: Text := [0x6D]
  const CHILD: Text := [0x63]
  const S: Text := [0x73]

  const CHILD_OF_M: Plan := Select(Ident(M), CHILD, false)
  const S_OF_CHILD: Plan := Select(CHILD_OF_M, S, false)
  const CHOICE: Plan := Cond(Ident(F), BoolLit(false), S_OF_CHILD)

  /** (f ? false : m.c.s) || m.c.s */
  const LEAKING: Plan := Logic(false, CHOICE, S_OF_CHILD)

  const LEAKING_BINDINGS: Bindings :=
    map[TextKey(F) := VBool(true), TextKey(M) := VMap(map[TextKey(CHILD) := VMap(map[TextKey(S) := VBool(true)])])]

  const ELSE_CODE: seq<Stmt> :=
    [Assign(4, EGet(EVar(3), EText(CHILD))), Guard(4, TObject, false),
     Assign(5, EGet(EVar(4), EText(S))), Guard(5, TBool, true)]

  const CHOICE_CODE: seq<Stmt> :=
    [Assign(1, EBinding(F)), Guard(1, TBool, true),
     IfElse(EVar(1), [Assign(2, EBool(false))], ELSE_CODE + [Assign(2, EVar(5))])]

  const RIGHT_CODE: seq<Stmt> := [Assign(7, EGet(EVar(4), EText(S))), Guard(7, TBool, true)]

  const LEAKING_CODE: seq<Stmt> :=
    CHOICE_CODE + [Assign(6, EVar(2)), If(ENot(EVar(6)), RIGHT_CODE + [Assign(6, EVar(7))])]

  const LEAKED: Cache := map[RootKey(M) := 3, ObjectKey(3, 3, CHILD) := 4]

  /** The object's first mention, in the `else` part: the root is hoisted and the object is read. */
  lemma {:induction false} LeakingRead(st: State)
    requires st.counter == 2 && st.objects == map[] && st.entry == map[] && st.aliased && st.scopes == []
    requires st.roots == []
    ensures var c := Emit(AsWritten, CHILD_OF_M, TObject, 3, true, st);
            && c.Some? && c.value.code == ELSE_CODE[..2] && c.value.e == EVar(4) && c.value.st.counter == 4
            && c.value.st.roots == [HoistedRead(3, M)] && c.value.st.entry == LEAKED && c.value.st.scopes == []
  {
    var noted := NoteDotted(st, CHILD_OF_M);
    var root := RootObject(noted, M);
    assert Emit(AsWritten, Ident(M), TObject, 3, true, noted) == Some(root);
    assert FindCached(root.st.objects, 3, 3, CHILD) == None;
    assert Emit(AsWritten, CHILD_OF_M, TObject, 3, true, st) == EmitSelect(AsWritten, CHILD_OF_M, TObject, 3, true, st);
    hide Emit;
    var read := CachedObject(root.st, 3, CHILD, 3);
    assert [] + read.code == ELSE_CODE[..2];
  }

  lemma {:induction false} LeakingElse(st: State)
    requires st.counter == 2 && st.objects == map[] && st.entry == map[] && st.aliased && st.scopes == []
    requires st.roots == []
    ensures var n := Emit(AsWritten, S_OF_CHILD, TBool, 3, true, st);
            && n.Some? && n.value.code == ELSE_CODE && n.value.e == EVar(5) && n.value.st.counter == 5
            && n.value.st.roots == [HoistedRead(3, M)] && n.value.st.entry == LEAKED && n.value.st.scopes == []
  {
    var noted := NoteDotted(st, S_OF_CHILD);
    LeakingRead(noted);
    assert Emit(AsWritten, S_OF_CHILD, TBool, 3, true, st) == EmitSelect(AsWritten, S_OF_CHILD, TBool, 3, true, st);
    hide Emit;
    var c := Emit(AsWritten, CHILD_OF_M, TObject, 3, true, noted).value;
    assert c.code + Read(c.st, EGet(EVar(4), EText(S)), TBool, true).code == ELSE_CODE;
  }

  lemma {:induction false} LeakingCondition()
    ensures Emit(AsWritten, Ident(F), TBool, 2, true, START)
         == Some(Emitted([Assign(1, EBinding(F)), Guard(1, TBool, true)], EVar(1), START.(counter := 1)))
  {
    assert Read(START, EBinding(F), TBool, true).code == [Assign(1, EBinding(F)), Guard(1, TBool, true)];
  }

  lemma {:induction false} LeakingYes(st: State)
    ensures Emit(AsWritten, BoolLit(false), TBool, 3, true, st) == Some(Emitted([], EBool(false), st))
    ensures Emit(AsWritten, CHOICE, TBool, 2, true, START) == EmitCond(AsWritten, CHOICE, TBool, 2, START)
  {
    hide EmitCond;
  }

  /** How the parts of a conditional make up its code. */
  lemma {:induction false} CondParts(mode: CacheMode, p: Plan, expected: PlainType, indent: nat, st: State, c: Emitted,
      y: Emitted, n: Emitted)
    requires p.Cond? && Emit(mode, p.condition, TBool, indent, true, st) == Some(c)
    requires Emit(mode, p.yes, expected, indent + 1, true, c.st.(counter := c.st.counter + 1)) == Some(y)
    requires Emit(mode, p.no, expected, indent + 1, true, ElseStart(y.st, c.st.objects)) == Some(n)
    ensures var v := c.st.counter + 1;
            EmitCond(mode, p, expected, indent, st) ==
            Some(Emitted(c.code + [IfElse(c.e, y.code + [Assign(v, y.e)], n.code + [Assign(v, n.e)])], EVar(v),
                         n.st.(objects := AfterElse(mode, c.st.objects, n.st.entry), entry := y.st.entry,
                               aliased := false)))
  {
    hide Emit, AfterElse, ElseStart;
  }

  lemma {:induction false} LeakingChoice()
    ensures var r := Emit(AsWritten, CHOICE, TBool, 2, true, START);
            && r.Some? && r.value.code == CHOICE_CODE && r.value.e == EVar(2)
            && r.value.st.counter == 5 && r.value.st.roots == [HoistedRead(3, M)] && r.value.st.scopes == []
            && r.value.st.objects == LEAKED
  {
    hide Emit, EmitCond, NoteDotted, Read;
    LeakingCondition();
    var yes := START.(counter := 2);
    LeakingYes(yes);
    LeakingElse(ElseStart(yes, map[]));
    var c := Emitted([Assign(1, EBinding(F)), Guard(1, TBool, true)], EVar(1), START.(counter := 1));
    var n := Emit(AsWritten, S_OF_CHILD, TBool, 3, true, ElseStart(yes, map[])).value;
    CondParts(AsWritten, CHOICE, TBool, 2, START, c, Emitted([], EBool(false), yes), n);
    assert [] + [Assign(2, EBool(false))] == [Assign(2, EBool(false))];
    assert c.code + [IfElse(EVar(1), [Assign(2, EBool(false))], ELSE_CODE + [Assign(2, EVar(5))])] == CHOICE_CODE;
  }

  lemma {:induction false} LeakingChild(st: State)
    requires st.scopes == [] && st.objects == LEAKED
    ensures var c := Emit(AsWritten, CHILD_OF_M, TObject, 3, true, st);
            c.Some? && c.value.code == [] && c.value.e == EVar(4) && c.value.st == NoteDotted(st, CHILD_OF_M)
  {
    var noted := NoteDotted(st, CHILD_OF_M);
    assert Emit(AsWritten, Ident(M), TObject, 3, true, noted) == Some(Emitted([], EVar(3), noted));
    assert FindCached(noted.objects, 3, 3, CHILD) == Some(4);
    assert Emit(AsWritten, CHILD_OF_M, TObject, 3, true, st) == EmitSelect(AsWritten, CHILD_OF_M, TObject, 3, true, st);
    hide Emit;
  }

  /** The second mention of the object, in the right operand: nothing is read, the leaked variable is used. */
  lemma {:induction false} LeakingRight(st: State)
    requires st.counter == 6 && st.scopes == [] && st.objects == LEAKED
    ensures var r := Emit(AsWritten, S_OF_CHILD, TBool, 3, true, st);
            r.Some? && r.value.code == RIGHT_CODE && r.value.e == EVar(7) && r.value.st.roots == st.roots
  {
    var noted := NoteDotted(st, S_OF_CHILD);
    LeakingChild(noted);
    assert Emit(AsWritten, S_OF_CHILD, TBool, 3, true, st) == EmitSelect(AsWritten, S_OF_CHILD, TBool, 3, true, st);
    hide Emit;
    assert [] + RIGHT_CODE == RIGHT_CODE;
  }

  lemma {:induction false} LeakingNames()
    requires Emit(AsWritten, LEAKING, TBool, 2, true, START).Some?
    ensures Emit(AsWritten, LEAKING, TBool, 2, true, START).value.st.dotted == DottedNames(LEAKING, {})
  {
    hide Emit, Accepts, ObjectRoots, DottedNames;
    assert EmitterShape.Wf(START);
    EmitFacts(AsWritten, LEAKING, TBool, 2, true, START);
    assert ScopeNames(START.scopes) == {};
  }

  lemma {:induction false} LeakingCompiles()
    ensures var f := CompilePlain(AsWritten, LEAKING);
            && f.Some? && f.value.dotted == DottedNames(LEAKING, {}) && f.value.roots == [HoistedRead(3, M)]
            && f.value.body == LEAKING_CODE && f.value.result == EVar(6)
  {
    LeakingChoice();
    LeakingNames();
    assert Emit(AsWritten, LEAKING, TBool, 2, true, START) == EmitLogic(AsWritten, LEAKING, 2, START);
    hide Emit;
    var l := Emit(AsWritten, CHOICE, TBool, 2, true, START).value;
    LeakingRight(l.st.(counter := 6));
    hide DottedNames;
  }

  /** The bindings follow the shape the program expects, so every check succeeds; the condition is true, so the `else`
      part is skipped, and the right operand of `||` reads the variable that only the `else` part assigns. */
  lemma {:induction false} LeakingRun()
    ensures Run(Machine(NoMatcher, LEAKING_BINDINGS), map[3 := LEAKING_BINDINGS[TextKey(M)]], LEAKING_CODE)
         == Failed(UnboundVariable)
  {
    var m := Machine(NoMatcher, LEAKING_BINDINGS);
    var s1 := map[3 := LEAKING_BINDINGS[TextKey(M)]][1 := VBool(true)];
    var s2 := s1[2 := VBool(false)];
    var s3 := s2[6 := VBool(false)];
    var last := [If(ENot(EVar(6)), RIGHT_CODE + [Assign(6, EVar(7))])];
    assert LEAKING_CODE[5..] == [] && LEAKING_CODE[4..] == last;
    assert Run(m, s3, RIGHT_CODE + [Assign(6, EVar(7))]) == Failed(UnboundVariable);
    assert Step(m, s3, last[0]) == Failed(UnboundVariable);
    assert Run(m, s3, last) == Failed(UnboundVariable);
    assert Run(m, s2, LEAKING_CODE[3..]) == Failed(UnboundVariable);
    assert Run(m, s1, [Assign(2, EBool(false))]) == Done(s2);
    assert Step(m, s1, LEAKING_CODE[2]) == Done(s2);
    assert Run(m, s1, LEAKING_CODE[2..]) == Failed(UnboundVariable);
    assert Run(m, s1, LEAKING_CODE[1..]) == Failed(UnboundVariable);
  }

  lemma {:induction false} LeakingReading(matcher: Matcher)
    ensures Admits(LEAKING, VMap(LEAKING_BINDINGS))
    ensures Reading(LEAKING, matcher, VMap(LEAKING_BINDINGS)) == Some(VBool(true))
  {
    var m := Machine(matcher, LEAKING_BINDINGS);
    assert Lazy(m, [], CHILD_OF_M, TObject, true) == Some(VMap(map[TextKey(S) := VBool(true)]));
    assert Lazy(m, [], S_OF_CHILD, TBool, true) == Some(VBool(true));
    assert Lazy(m, [], CHOICE, TBool, true) == Some(VBool(false));
    hide Lazy, DottedNames, ObjectRoots;
    LeakingSets();
  }

  lemma {:induction false} LeakingSets()
    ensures DottedNames(LEAKING, {}) == {M + [DOT] + CHILD, M + [DOT] + CHILD + [DOT] + S}
    ensures ObjectRoots(LEAKING, false, {}) == {M}
  {
    assert DottedNames(S_OF_CHILD, {}) == {M + [DOT] + CHILD, M + [DOT] + CHILD + [DOT] + S};
    assert DottedNames(LEAKING, {}) == DottedNames(S_OF_CHILD, {});
    assert ObjectRoots(S_OF_CHILD, false, {}) == {M};
    assert ObjectRoots(LEAKING, false, {}) == {M};
  }

  /** The first deviation. With the cache as written the call raises; with reads scoped to their branch it answers, and
      so does CEL. */
  lemma {:induction false} LeakingCall(host: Engine.Host)
    requires NoBuiltinNames(host, LEAKING)
    ensures CompilePlain(AsWritten, LEAKING).Some? && CompilePlain(Scoped, LEAKING).Some?
    ensures Call(CompilePlain(AsWritten, LEAKING).value, NoMatcher, VMap(LEAKING_BINDINGS)) == Raised(UnboundVariable)
    ensures Call(CompilePlain(Scoped, LEAKING).value, NoMatcher, VMap(LEAKING_BINDINGS)) == Answered(VBool(true))
    ensures Engine.Eval(host, LEAKING_BINDINGS, [], LEAKING) == Engine.Ok(VBool(true))
  {
    hide Emit, Lazy, Engine.Eval, DottedNames, ObjectRoots, Accepts;
    LeakingCompiles();
    RefusedPlans(AsWritten, LEAKING);
    RefusedPlans(Scoped, LEAKING);
    LeakingReading(NoMatcher);
    CallsAnswerTheReading(Scoped, LEAKING, NoMatcher, VMap(LEAKING_BINDINGS));
    AnswersAreCel(Scoped, LEAKING, NoMatcher, host, VMap(LEAKING_BINDINGS));
    LeakingRun();
    hide Run;
    var f := CompilePlain(AsWritten, LEAKING).value;
    assert RunRoots(Machine(NoMatcher, LEAKING_BINDINGS), map[], f.roots)
        == Done(map[3 := LEAKING_BINDINGS[TextKey(M)]]);
  }

  /** text.matches(pattern) || true */
  function Guarded(text: Text, pattern: Text): Plan {
    Logic(false, Matches(Ident(text), pattern), BoolLit(true))
  }

  function GuardedCode(name: Text, pattern: Text): seq<Stmt> {
    [Assign(1, EBinding(name)), Guard(1, TText, true), Assign(2, EMatches(EVar(1), pattern)),
     If(ENot(EVar(2)), [Assign(2, EBool(true))])]
  }

  lemma {:induction false} GuardedCompiles(name: Text, pattern: Text)
    ensures CompilePlain(AsWritten, Guarded(name, pattern))
         == Some(Function({}, [], GuardedCode(name, pattern), EVar(2)))
  {
    var p, matches := Guarded(name, pattern), Matches(Ident(name), pattern);
    var read := Read(START, EBinding(name), TText, true);
    assert Emit(AsWritten, Ident(name), TText, 2, true, START) == Some(read);
    assert Emit(AsWritten, matches, TBool, 2, true, START) == EmitUnary(AsWritten, matches, 2, START);
    assert Emit(AsWritten, BoolLit(true), TBool, 3, true, read.st.(counter := 2))
        == Some(Emitted([], EBool(true), read.st.(counter := 2)));
    assert Emit(AsWritten, p, TBool, 2, true, START) == EmitLogic(AsWritten, p, 2, START);
    hide Emit;
    assert [] + [Assign(2, EBool(true))] == [Assign(2, EBool(true))];
    assert read.code + [Assign(2, EMatches(EVar(1), pattern)), If(ENot(EVar(2)), [Assign(2, EBool(true))])]
        == GuardedCode(name, pattern);
  }

  lemma {:induction false} GuardedRun(m: Machine, name: Text, pattern: Text, t: Text)
    requires m.matcher.LiteralMatcher? && m.bindings == map[TextKey(name) := VText(t)] && WellFormed(t)
    ensures Return(m, map[], Function({}, [], GuardedCode(name, pattern), EVar(2)))
         == match m.matcher.run(t, pattern)
            case Ok(_) => Answered(VBool(true))
            case Err(e) => Raised(MatcherRaised(e))
  {
    var code := GuardedCode(name, pattern);
    var s1 := map[1 := VText(t)];
    assert code[4..] == [] && code[1..][0] == code[1] && code[2..][0] == code[2] && code[3..][0] == code[3];
    assert code[1..][1..] == code[2..] && code[2..][1..] == code[3..] && code[3..][1..] == code[4..];
    assert EvalExpr(m, s1, EVar(1)) == Val(VText(t));
    assert EvalExpr(m, s1, EMatches(EVar(1), pattern)) == MatchHelper(m.matcher, t, pattern);
    match m.matcher.run(t, pattern)
    case Err(e) =>
      assert Step(m, s1, code[2]) == Failed(MatcherRaised(e));
      assert Run(m, s1, code[2..]) == Failed(MatcherRaised(e));
      assert Run(m, s1, code[1..]) == Failed(MatcherRaised(e));
      assert Run(m, map[], code) == Failed(MatcherRaised(e));
    case Ok(matched) =>
      var s2 := s1[2 := VBool(matched)];
      var s3 := if matched then s2 else s2[2 := VBool(true)];
      assert Run(m, s2, [Assign(2, EBool(true))]) == Done(s2[2 := VBool(true)]);
      assert Step(m, s2, code[3]) == Done(s3);
      assert Run(m, s2, code[3..]) == Done(s3);
      assert Run(m, s1, code[2..]) == Done(s3);
      assert Run(m, s1, code[1..]) == Done(s3);
      assert Run(m, map[], code) == Done(s3);
  }

  /** The second deviation: the compiled function runs the matcher before it looks at the other operand, and an
      exception of the matcher leaves it; CEL lets the other operand of `||` decide, unless the error is fatal. For
      every text, every pattern and whatever RE2 makes of them, the results differ exactly when the matcher raises an
      error that is not fatal for the engine; that of an invalid pattern is one. */
  lemma {:induction false} MatcherEscapes(name: Text, pattern: Text, t: Text, host: Engine.Host)
    requires Engine.Converts(host, map[TextKey(name) := VText(t)])
    ensures var b, p := map[TextKey(name) := VText(t)], Guarded(name, pattern);
            var raised := Engine.LiteralMatched(host, t, pattern);
            && Evaluate(host, p, b, true) == Native(Engine.Evaluated(if raised.Err? then Engine.Err(raised.error)
                                                                     else Engine.Ok(VBool(true))))
            && (Evaluate(host, p, b, true) != Evaluate(host, p, b, false) <==>
                  raised.Err? && !Engine.FailsFatally(Engine.LiteralMatched(host, t, pattern)))
            && (raised == Engine.Err(Engine.InvalidArgument) ==>
                Evaluate(host, p, b, true) != Evaluate(host, p, b, false))
  {
    var b, p := map[TextKey(name) := VText(t)], Guarded(name, pattern);
    assert WellFormed(t) by { assert TextKey(name) in b; }
    GuardedCompiles(name, pattern);
    GuardedRun(Machine(LiteralPatterns(host), b), name, pattern, t);
    MatchedEval(host, b, name, pattern, t);
    hide Run, Return, Emit, GuardedCode, Engine.Converts;
    assert Engine.Eval(host, b, [], BoolLit(true)) == Engine.Ok(VBool(true));
    assert Engine.Eval(host, b, [], p) == Engine.Absorbed(false, Engine.Matched(host, t, pattern), Engine.Ok(true));
  }

  lemma {:induction false} MatchedEval(host: Engine.Host, b: Bindings, name: Text, pattern: Text, t: Text)
    requires TextKey(name) in b && b[TextKey(name)] == VText(t)
    ensures Engine.EvalBool(Engine.Eval(host, b, [], Matches(Ident(name), pattern))) == Engine.Matched(host, t, pattern)
    ensures Engine.Matched(host, t, pattern).Err? ==>
              Engine.Eval(host, b, [], Matches(Ident(name), pattern))
              == Engine.Err(Engine.Matched(host, t, pattern).error)
  {
    assert Engine.Eval(host, b, [], Ident(name)) == Engine.Ok(VText(t));
  }

  lemma {:induction false} MatchesCompiles(name: Text, pattern: Text)
    ensures CompilePlain(AsWritten, Matches(Ident(name), pattern))
         == Some(Function({}, [], [Assign(1, EBinding(name)), Guard(1, TText, true)], EMatches(EVar(1), pattern)))
  {
    var read := Read(START, EBinding(name), TText, true);
    assert Emit(AsWritten, Ident(name), TText, 2, true, START) == Some(read);
    var p := Matches(Ident(name), pattern);
    assert Infer(p) == Some(TBool);
    assert Emit(AsWritten, p, TBool, 2, true, START) == EmitUnary(AsWritten, p, 2, START);
    hide Emit;
    assert EmitUnary(AsWritten, p, 2, START) == Some(Emitted(read.code, EMatches(EVar(1), pattern), read.st));
    assert read.code == [Assign(1, EBinding(name)), Guard(1, TText, true)];
  }

  lemma {:induction false} MatchesRun(m: Machine, name: Text, pattern: Text, t: Text)
    requires m.matcher.LiteralMatcher? && m.bindings == map[TextKey(name) := VText(t)] && WellFormed(t)
    ensures Return(m, map[], Function({}, [], [Assign(1, EBinding(name)), Guard(1, TText, true)],
                                      EMatches(EVar(1), pattern)))
         == match m.matcher.run(t, pattern)
            case Ok(matched) => Answered(VBool(matched))
            case Err(e) => Raised(MatcherRaised(e))
  {
    var code := [Assign(1, EBinding(name)), Guard(1, TText, true)];
    var s := map[1 := VText(t)];
    assert code[1..][1..] == [] && code[1..][0] == code[1];
    assert Run(m, s, code[1..]) == Done(s);
    assert Run(m, map[], code) == Done(s);
    assert EvalExpr(m, s, EVar(1)) == Val(VText(t));
  }

  /** Where nothing absorbs the error, the engine raises it too, and the results are the same: a refused pattern alone
      is no deviation. Only a pattern too long to be compiled is reported differently. */
  lemma {:induction false} MatcherRaisesToo(name: Text, pattern: Text, t: Text, host: Engine.Host)
    requires Engine.Converts(host, map[TextKey(name) := VText(t)])
    ensures var b, p := map[TextKey(name) := VText(t)], Matches(Ident(name), pattern);
            Evaluate(host, p, b, true) == Evaluate(host, p, b, false) <==> |Write(UTF_8, pattern)| <= 65_536
  {
    var b, p := map[TextKey(name) := VText(t)], Matches(Ident(name), pattern);
    assert WellFormed(t) by { assert TextKey(name) in b; }
    MatchesCompiles(name, pattern);
    MatchesRun(Machine(LiteralPatterns(host), b), name, pattern, t);
    MatchedEval(host, b, name, pattern, t);
    hide Run, Return, Emit, Engine.Converts;
    assert Engine.Eval(host, b, [], Ident(name)) == Engine.Ok(VText(t));
  }

  /** first.second == t */
  function TypeNamed(first: Text, second: Text, t: Text): Plan {
    Compare(CmpEq, Select(Ident(first), second, false), TextLit(t))
  }

  lemma {:induction false} TypeNamedFacts(first: Text, second: Text, t: Text)
    ensures var p := TypeNamed(first, second, t);
            && Unconditional(p) && Accepts(p, TBool) && Infer(p) == Some(TBool) && Patterns(p) == {}
            && DottedNames(p, {}) == {first + [DOT] + second} && ObjectRoots(p, false, {}) == {first}
  {
    var p := TypeNamed(first, second, t);
    var field := Select(Ident(first), second, false);
    assert LeftOperand(p) == field && RightOperand(p) == TextLit(t) && OperandsType(p) == Some(TText);
    assert Unconditional(Ident(first)) && Unconditional(field) && Unconditional(TextLit(t));
    assert Accepts(Ident(first), TObject);
    assert Accepts(field, TText);
    assert Accepts(TextLit(t), TText);
    assert QualifiedName(Ident(first)) == Some(first) && ChainRoot(Ident(first)) == Some(first);
    assert DottedNames(Ident(first), {}) == {} && DottedNames(TextLit(t), {}) == {};
    assert DottedNames(field, {}) == {first + [DOT] + second};
    assert ObjectRoots(Ident(first), true, {}) == {first} && ObjectRoots(TextLit(t), false, {}) == {};
    assert ObjectRoots(field, false, {}) == {first};
    assert Patterns(Ident(first)) == {} && Patterns(field) == {} && Patterns(TextLit(t)) == {};
  }

  lemma {:induction false} TypeNamedReading(m: Machine, first: Text, second: Text, t: Text, bound: Text)
    requires m.bindings == map[TextKey(first) := VMap(map[TextKey(second) := VText(bound)])]
    ensures Lazy(m, [], TypeNamed(first, second, t), TBool, true) == Some(VBool(bound == t))
  {
    var p := TypeNamed(first, second, t);
    var field := Select(Ident(first), second, false);
    assert LeftOperand(p) == field && RightOperand(p) == TextLit(t) && OperandsType(p) == Some(TText);
    assert !OperandsChecked(p);
    assert Lazy(m, [], Ident(first), TObject, true) == Some(VMap(map[TextKey(second) := VText(bound)]));
    assert Lazy(m, [], field, TText, false) == Some(VText(bound));
    assert Lazy(m, [], TextLit(t), TText, false) == Some(VText(t));
  }

  function PathBindings(first: Text, second: Text, bound: Text): Bindings {
    map[TextKey(first) := VMap(map[TextKey(second) := VText(bound)])]
  }

  /** CEL takes the chain for the type whatever the bindings hold, the compiled function reads the field. */
  lemma {:induction false} TypeNameIsRead(first: Text, second: Text, t: Text, bound: Text, host: Engine.Host)
    requires Engine.BuiltinName(host, first + [DOT] + second)
    ensures var b, p := PathBindings(first, second, bound), TypeNamed(first, second, t);
            && Compiled(host, p, b) == Answered(VBool(bound == t))
            && Engine.Eval(host, b, [], p) == host.foreign(p, [Foreign(first + [DOT] + second), VText(t)])
  {
    var b, p := PathBindings(first, second, bound), TypeNamed(first, second, t);
    var field := Select(Ident(first), second, false);
    assert QualifiedName(Ident(first)) == Some(first) && ChainRoot(Ident(first)) == Some(first);
    assert Unquoted(Ident(first)) && Unquoted(field);
    assert Engine.Resolve(host, b, first + [DOT] + second) == Some(Foreign(first + [DOT] + second));
    assert Engine.Eval(host, b, [], field) == Engine.Ok(Foreign(first + [DOT] + second));
    assert Engine.Eval(host, b, [], p) == host.foreign(p, [Foreign(first + [DOT] + second), VText(t)]);
    TypeNamedFacts(first, second, t);
    TypeNamedReading(Machine(LiteralPatterns(host), b), first, second, t, bound);
    hide Accepts, Lazy, DottedNames, ObjectRoots, Call, Emit, Patterns;
    RefusedPlans(AsWritten, p);
    UnconditionalEmission(p, TBool, BODY_INDENT, true, START);
    assert |first + [DOT] + second| > |first|;
    assert Admits(p, VMap(b));
    SafeCalls(p, LiteralPatterns(host), VMap(b));
  }

  /** The third deviation, on every built-in type name of two parts (`net.IP` is one), whatever the engine makes of
      comparing a type with a text: of any two different texts bound to the path, at least one makes a difference. */
  lemma {:induction false} TypeNamesAreRead(first: Text, second: Text, t: Text, other: Text, host: Engine.Host)
    requires Engine.BuiltinName(host, first + [0x2E] + second) && t != other
    ensures var p, b, b' := TypeNamed(first, second, t), PathBindings(first, second, t),
              PathBindings(first, second, other);
            || Evaluate(host, p, b, true) != Evaluate(host, p, b, false)
            || Evaluate(host, p, b', true) != Evaluate(host, p, b', false)
  {
    hide Call, CompilePlain, Engine.Eval, Engine.Converts, TypeNamed, PathBindings;
    TypeNameIsRead(first, second, t, t, host);
    TypeNameIsRead(first, second, t, other, host);
  }

  // ----- texts that do not convert -----

  /** name == literal */
  function Compared(name: Text, literal: Text): Plan {
    Compare(CmpEq, Ident(name), TextLit(literal))
  }

  lemma {:induction false} ComparedFacts(name: Text, literal: Text)
    ensures var p := Compared(name, literal);
            && Unconditional(p) && Accepts(p, TBool) && Infer(p) == Some(TBool)
            && DottedNames(p, {}) == {} && ObjectRoots(p, false, {}) == {} && Patterns(p) == {}
  {
    var p := Compared(name, literal);
    assert LeftOperand(p) == Ident(name) && RightOperand(p) == TextLit(literal) && OperandsType(p) == Some(TText);
    assert Unconditional(Ident(name)) && Unconditional(TextLit(literal));
    assert Accepts(Ident(name), TText) && Accepts(TextLit(literal), TText);
    assert DottedNames(Ident(name), {}) == {} && DottedNames(TextLit(literal), {}) == {};
    assert ObjectRoots(Ident(name), false, {}) == {} && ObjectRoots(TextLit(literal), false, {}) == {};
    assert Patterns(Ident(name)) == {} && Patterns(TextLit(literal)) == {};
  }

  lemma {:induction false} ComparedReading(m: Machine, name: Text, literal: Text, t: Text)
    requires m.bindings == map[TextKey(name) := VText(t)]
    ensures Lazy(m, [], Compared(name, literal), TBool, true) == Some(VBool(t == literal))
  {
    var p := Compared(name, literal);
    assert LeftOperand(p) == Ident(name) && RightOperand(p) == TextLit(literal) && OperandsType(p) == Some(TText);
    assert !OperandsChecked(p);
    assert Lazy(m, [], Ident(name), TText, false) == Some(VText(t));
    assert Lazy(m, [], TextLit(literal), TText, false) == Some(VText(literal));
  }

  /** The fourth deviation, on every ill-formed text: compared with a literal it is read without its check, so the
      compiled function answers where the engine refuses the bindings. The program is in none of the other families. */
  lemma {:induction false} IllFormedTextsAreRead(name: Text, literal: Text, t: Text, host: Engine.Host)
    requires !WellFormed(t)
    ensures var b := map[TextKey(name) := VText(t)];
            var p := Compared(name, literal);
            && Sound(host, p)
            && Evaluate(host, p, b, true) == Native(Engine.Evaluated(Engine.Ok(VBool(t == literal))))
            && Evaluate(host, p, b, false) == Native(Engine.Refused)
  {
    var b := map[TextKey(name) := VText(t)];
    var p := Compared(name, literal);
    assert !Engine.Converts(host, b) by { assert TextKey(name) in b; }
    ComparedFacts(name, literal);
    ComparedReading(Machine(LiteralPatterns(host), b), name, literal, t);
    hide Accepts, Lazy, DottedNames, ObjectRoots, Patterns, Call, Emit, Engine.Eval, Engine.Converts;
    RefusedPlans(AsWritten, p);
    UnconditionalEmission(p, TBool, BODY_INDENT, true, START);
    assert Admits(p, VMap(b));
    SafeCalls(p, LiteralPatterns(host), VMap(b));
  }
}
