/** The contract of the fast path for the code as the source generates it. */
module Contract {
  import opened Values
  import opened Plans
  import opened PythonTarget
  import opened LazySemantics
  import opened Emitter
  import opened CompiledPlans
  import opened CacheLeaks
  import Engine
  import Soundness

  /** No pattern of the plan makes the matcher raise. */
  ghost predicate NeverRaises(matcher: Matcher, p: Plan) {
    matcher.LiteralMatcher? ==> forall t, pattern :: pattern in Patterns(p) ==> matcher.run(t, pattern).Ok?
  }

  /** Where the `else` cache makes no difference, a call is completely determined by the plain-data reading: its value
      when the bindings are admitted and it has one, BAIL otherwise. Nothing is raised. */
  lemma {:induction false} SafeCalls(p: Plan, matcher: Matcher, b: Value)
    requires CompilePlain(AsWritten, p).Some? && CompilePlain(AsWritten, p) == CompilePlain(Scoped, p)
    requires NeverRaises(matcher, p)
    ensures Call(CompilePlain(AsWritten, p).value, matcher, b)
         == if Admits(p, b) && Reading(p, matcher, b).Some? then Answered(Reading(p, matcher, b).value) else BAIL
  {
    hide CompilePlain, Call, Admits, Reading;
    CallsAnswerTheReading(AsWritten, p, matcher, b);
    CallsAnswerTheReading(Scoped, p, matcher, b);
  }

  /** Whatever the cache does, it changes no answer: the function as written does what the one with a scoped cache does,
      or reads a variable that was never assigned. */
  lemma {:induction false} LeaksOnlyRaise(p: Plan, matcher: Matcher, b: Value)
    requires CompilePlain(AsWritten, p).Some? && NeverRaises(matcher, p)
    ensures CompilePlain(Scoped, p).Some?
    ensures var a := Call(CompilePlain(AsWritten, p).value, matcher, b);
            a == Raised(UnboundVariable) || a == Call(CompilePlain(Scoped, p).value, matcher, b)
  {
    hide CompilePlain, Call, Admits, Reading;
    ScopedCompilesToo(p);
    CallsAnswerTheReading(AsWritten, p, matcher, b);
    CallsAnswerTheReading(Scoped, p, matcher, b);
  }

  // ----- evaluation of a program -----

  /** The matcher of a program: the engine's, on its literal patterns. */
  function LiteralPatterns(host: Engine.Host): Matcher {
    LiteralMatcher((t, pattern) => Engine.LiteralMatched(host, t, pattern))
  }

  /** What `evaluate` does: a result or an exception of the native module, which the matcher raises too, or an exception
      that no evaluation raises otherwise. */
  datatype Evaluation = Native(outcome: Engine.Outcome) | Escaped(failure: Failure)

  /** `evaluate`: the engine, after the compiled function bailed or when there is none. */
  function Evaluate(host: Engine.Host, p: Plan, b: Bindings, plainData: bool): Evaluation {
    var engine := Native(Engine.Evaluate(host, b, p));
    if plainData && CompilePlain(AsWritten, p).Some? then
      match Call(CompilePlain(AsWritten, p).value, LiteralPatterns(host), VMap(b))
      case Answered(v) => Native(Engine.Evaluated(Engine.Ok(v)))
      case BAIL => engine
      case Raised(MatcherRaised(e)) => Native(Engine.Evaluated(Engine.Err(e)))
      case Raised(f) => Escaped(f)
    else engine
  }

  /** What the compiled function does; a program without one leaves every call to the engine. */
  function Compiled(host: Engine.Host, p: Plan, b: Bindings): Answer {
    if CompilePlain(AsWritten, p).Some? then Call(CompilePlain(AsWritten, p).value, LiteralPatterns(host), VMap(b))
    else BAIL
  }

  /** The engine raises what the matcher raised: no other operand absorbs the error. */
  predicate RaisesToo(host: Engine.Host, p: Plan, b: Bindings, e: Engine.EvalError) {
    Engine.Evaluate(host, b, p) == Engine.Evaluated(Engine.Err(e))
  }

  /** When plain-data evaluation differs from the engine, call by call, for every program without built-in names and all
      bindings, of whatever shape: exactly when the call reads a variable that was never assigned, or answers on
      bindings that do not convert, or the matcher raises what the engine does not raise. */
  lemma {:induction false} DiffersExactly(host: Engine.Host, p: Plan, b: Bindings)
    requires NoBuiltinNames(host, p)
    ensures Evaluate(host, p, b, true) != Evaluate(host, p, b, false) <==>
              match Compiled(host, p, b)
              case Raised(UnboundVariable) => true
              case Raised(MatcherRaised(e)) => !RaisesToo(host, p, b, e)
              case Raised(_) => false
              case Answered(_) => !Engine.Converts(host, b)
              case BAIL => false
  {
    hide Call, CompilePlain, Engine.Eval, NoBuiltinNames, Engine.Converts, Admits, Reading;
    if CompilePlain(AsWritten, p).Some? {
      CallsAnswerTheReading(AsWritten, p, LiteralPatterns(host), VMap(b));
      if Compiled(host, p, b).Answered? {
        AnswersAreCel(AsWritten, p, LiteralPatterns(host), host, VMap(b));
      }
    }
  }

  /** What keeps a program out of two of the families: no `else` part whose cache leaks, and no selection chain that
      spells a built-in type. */
  ghost predicate Sound(host: Engine.Host, p: Plan) {
    && (CompilePlain(AsWritten, p).Some? ==> CompilePlain(AsWritten, p) == CompilePlain(Scoped, p))
    && NoBuiltinNames(host, p)
  }

  /** When plain-data evaluation changes no result, errors included, for every such program: exactly when the call
      bails, or the bindings convert and the engine raises whatever error the matcher raised. */
  lemma {:induction false} PlainDataChangesNothing(host: Engine.Host, p: Plan, b: Bindings)
    requires Sound(host, p)
    ensures Evaluate(host, p, b, true) == Evaluate(host, p, b, false) <==>
              match Compiled(host, p, b)
              case BAIL => true
              case Answered(_) => Engine.Converts(host, b)
              case Raised(MatcherRaised(e)) => Engine.Converts(host, b) && Engine.Eval(host, b, [], p) == Engine.Err(e)
              case Raised(_) => false
    ensures Compiled(host, p, b).Raised? ==> Compiled(host, p, b).failure.MatcherRaised?
  {
    hide Call, CompilePlain, Engine.Eval, NoBuiltinNames, Engine.Converts, Admits, Reading;
    DiffersExactly(host, p, b);
    if CompilePlain(AsWritten, p).Some? {
      CallsAnswerTheReading(Scoped, p, LiteralPatterns(host), VMap(b));
    }
  }

  /** The patterns of the program are compiled, and match or fail to match every text. */
  ghost predicate AcceptedPatterns(host: Engine.Host, p: Plan) {
    forall t, pattern :: pattern in Patterns(p) ==> !Engine.TooLong(pattern) && host.matches(t, pattern).Ok?
  }

  lemma {:induction false} AcceptedNeverRaises(host: Engine.Host, p: Plan)
    requires AcceptedPatterns(host, p)
    ensures NeverRaises(LiteralPatterns(host), p)
  {
    forall t, pattern | pattern in Patterns(p) ensures LiteralPatterns(host).run(t, pattern).Ok? {
      assert host.matches(t, pattern).Ok?;
    }
  }

  /** With accepted patterns, only bindings that do not convert make a difference. */
  lemma {:induction false} AcceptedPatternsNeverRaise(host: Engine.Host, p: Plan, b: Bindings)
    requires Sound(host, p) && AcceptedPatterns(host, p)
    ensures !Compiled(host, p, b).Raised?
    ensures Evaluate(host, p, b, true) == Evaluate(host, p, b, false) <==>
              Engine.Converts(host, b) || Compiled(host, p, b) == BAIL
  {
    hide Call, CompilePlain, Engine.Eval, NoBuiltinNames, Engine.Converts, Admits, Reading;
    PlainDataChangesNothing(host, p, b);
    AcceptedNeverRaises(host, p);
    if CompilePlain(AsWritten, p).Some? {
      SafeCalls(p, LiteralPatterns(host), VMap(b));
    }
  }

  // ----- plans without conditionals -----

  /** The `else` cache makes no difference where there is no `else`. */
  predicate Unconditional(p: Plan) {
    match p
    case Cond(_, _, _) => false
    case Select(target, _, _) => Unconditional(target)
    case Index(target, key) => Unconditional(target) && Unconditional(key)
    case Logic(_, left, right) => Unconditional(left) && Unconditional(right)
    case Quantifier(_, target, _, body) => Unconditional(target) && Unconditional(body)
    case Neg(_) | Not(_) | Size(_) | In(_, _) | Matches(_, _) => Unconditional(Operand(p))
    case Compare(_, _, _) | Arith(_, _, _) | Test(_, _, _) =>
      Unconditional(LeftOperand(p)) && Unconditional(RightOperand(p))
    case Ident(_) | BoolLit(_) | IntLit(_) | TextLit(_) | ListLit(_) | Nonsense => true
  }

  lemma {:induction false} UnconditionalEmission(p: Plan, expected: PlainType, indent: nat, ct: bool, st: State)
    requires Unconditional(p)
    ensures Emit(AsWritten, p, expected, indent, ct, st) == Emit(Scoped, p, expected, indent, ct, st)
    decreases p, 1
  {
    hide CachedObject, Read, FindScope, EmitIndex, EmitLogic, EmitQuantifier, EmitBinary, EmitCond;
    match p
    case Select(target, _, _) => UnconditionalEmission(target, TObject, indent, true, NoteDotted(st, p));
    case Index(_, _) => UnconditionalIndex(p, expected, indent, ct, st);
    case Logic(_, _, _) => UnconditionalLogic(p, indent, st);
    case Quantifier(_, _, _, _) => UnconditionalQuantifier(p, indent, st);
    case Neg(_) | Not(_) | Size(_) | In(_, _) | Matches(_, _) =>
      if OperandType(p).Some? {
        UnconditionalEmission(Operand(p), OperandType(p).value, indent, OperandChecked(p), st);
      }
    case Compare(_, _, _) | Arith(_, _, _) | Test(_, _, _) => UnconditionalPair(p, indent, st);
    case Ident(_) | BoolLit(_) | IntLit(_) | TextLit(_) | ListLit(_) | Nonsense =>
  }

  lemma {:induction false} UnconditionalIndex(p: Plan, expected: PlainType, indent: nat, ct: bool, st: State)
    requires p.Index? && Unconditional(p)
    ensures EmitIndex(AsWritten, p, expected, indent, ct, st) == EmitIndex(Scoped, p, expected, indent, ct, st)
    decreases p, 0
  {
    hide Emit, Read;
    UnconditionalEmission(p.target, IndexedType(p), indent, true, st);
    var t := Emit(Scoped, p.target, IndexedType(p), indent, true, st);
    if t.Some? {
      UnconditionalEmission(p.key, KeyType(p.key), indent, KeyType(p.key) != TText, t.value.st);
    }
  }

  lemma {:induction false} UnconditionalLogic(p: Plan, indent: nat, st: State)
    requires p.Logic? && Unconditional(p)
    ensures EmitLogic(AsWritten, p, indent, st) == EmitLogic(Scoped, p, indent, st)
    decreases p, 0
  {
    hide Emit;
    UnconditionalEmission(p.left, TBool, indent, true, st);
    var l := Emit(Scoped, p.left, TBool, indent, true, st);
    if l.Some? {
      UnconditionalEmission(p.right, TBool, indent + 1, true, l.value.st.(counter := l.value.st.counter + 1));
    }
  }

  lemma {:induction false} UnconditionalQuantifier(p: Plan, indent: nat, st: State)
    requires p.Quantifier? && Unconditional(p)
    ensures EmitQuantifier(AsWritten, p, indent, st) == EmitQuantifier(Scoped, p, indent, st)
    decreases p, 0
  {
    hide Emit;
    UnconditionalEmission(p.target, TList, indent, true, st);
    var t := Emit(Scoped, p.target, TList, indent, true, st);
    if t.Some? {
      var element := t.value.st.counter + 2;
      UnconditionalEmission(p.body, TBool, indent + 1, true,
        t.value.st.(counter := element, scopes := t.value.st.scopes + [Scope(p.variable, element)]));
    }
  }

  lemma {:induction false} UnconditionalPair(p: Plan, indent: nat, st: State)
    requires (p.Compare? || p.Arith? || p.Test?) && Unconditional(p)
    ensures EmitBinary(AsWritten, p, indent, st) == EmitBinary(Scoped, p, indent, st)
    decreases p, 0
  {
    hide Emit;
    if OperandsType(p).Some? {
      var kind, ct := OperandsType(p).value, OperandsChecked(p);
      UnconditionalEmission(LeftOperand(p), kind, indent, ct, st);
      var l := Emit(Scoped, LeftOperand(p), kind, indent, ct, st);
      if l.Some? {
        UnconditionalEmission(RightOperand(p), kind, indent, ct, l.value.st);
      }
    }
  }
}
