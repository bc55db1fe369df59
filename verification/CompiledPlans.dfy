/** What calling a compiled function does, for every plan and every binding tree. */
module CompiledPlans {
  import opened Values
  import opened Plans
  import opened PythonTarget
  import Engine
  import opened LazySemantics
  import opened Emitter
  import opened EmitterShape
  import opened EmitterFacts
  import opened Simulation
  import Soundness

  /** What a call tests before it evaluates anything: the bindings are a dictionary, no key of theirs is a dotted name
      the plan spells, and every root used as a dictionary is one, in whatever branch it is used. */
  predicate Admits(p: Plan, b: Value) {
    && b.VMap?
    && (forall q :: q in DottedNames(p, {}) ==> TextKey(q) !in b.fields)
    && (forall name :: name in ObjectRoots(p, false, {}) ==> Get(b.fields, name).VMap?)
  }

  /** The lazy plain-data reading of the whole plan. */
  function Reading(p: Plan, matcher: Matcher, b: Value): Option<Value> {
    if b.VMap? && Infer(p).Some? then Lazy(Machine(matcher, b.fields), [], p, Infer(p).value, true) else None
  }

  /** `compile_plain` refuses a plan for its shape alone. */
  lemma {:induction false} RefusedPlans(mode: CacheMode, p: Plan)
    ensures CompilePlain(mode, p).Some? <==>
              (Infer(p) == Some(TBool) || Infer(p) == Some(TText)) && Accepts(p, Infer(p).value)
  {
    if Infer(p).Some? {
      EmitFacts(mode, p, Infer(p).value, BODY_INDENT, true, START);
    }
  }

  /** The hoisted reads load every root, or bail. */
  lemma {:induction false} RootsRun(m: Machine, roots: seq<HoistedRead>, s: Store)
    requires forall h, h' :: h in roots && h' in roots && h.v == h'.v ==> h.name == h'.name
    requires forall h :: h in roots && h.v in s ==> s[h.v] == Get(m.bindings, h.name)
    ensures if forall h :: h in roots ==> Get(m.bindings, h.name).VMap? then
              && RunRoots(m, s, roots).Done?
              && var t := RunRoots(m, s, roots).store;
                 && t.Keys == s.Keys + RootVars(roots)
                 && (forall h :: h in roots ==> t[h.v] == Get(m.bindings, h.name))
                 && (forall v :: v in s ==> t[v] == s[v])
            else RunRoots(m, s, roots) == Failed(Bailed)
    decreases roots
  {
    if roots != [] {
      var x := Get(m.bindings, roots[0].name);
      assert RootVars(roots) == {roots[0].v} + RootVars(roots[1..]);
      assert forall h :: h in roots <==> h == roots[0] || h in roots[1..];
      if x.VMap? {
        RootsRun(m, roots[1..], s[roots[0].v := x]);
      }
    }
  }

  /** The initial store: hoisted variables only. */
  lemma {:induction false} StartOk(c: Context, s: Store)
    requires Wf(c.fin) && s.Keys == RootVars(c.fin.roots)
    requires forall h :: h in c.fin.roots ==> s[h.v] == Get(c.m.bindings, h.name) && s[h.v].VMap?
    ensures Inv(c, START, s, [])
  {
    forall v | v in c.fin.paths && v in s
      ensures PathValue(c.m.bindings, c.fin.paths[v]) == Some(s[v])
    {
      var h :| h in c.fin.roots && h.v == v;
      assert c.fin.paths[v] == Path(h.name, []);
    }
  }

  /** What an answer says about the lazy reading. */
  ghost predicate Faithful(mode: CacheMode, p: Plan, matcher: Matcher, admitted: bool, reading: Option<Value>,
      a: Answer) {
    match a
    case Answered(v) => admitted && reading == Some(v)
    case BAIL => !admitted || reading.None?
    case Raised(UnboundVariable) => mode.AsWritten?
    case Raised(MatcherRaised(e)) =>
      && reading.None? && matcher.LiteralMatcher?
      && exists t, pattern :: pattern in Patterns(p) && matcher.run(t, pattern) == Engine.Err(e)
    case Raised(_) => false
  }

  /** Calls, completely: a compiled function answers exactly when it admits the bindings and the lazy reading has a
      value, and then answers that value. Otherwise it bails, unless the matcher itself raises, or, with the cache as
      the source has it, it reads a variable that was never assigned. */
  lemma {:induction false} CallsAnswerTheReading(mode: CacheMode, p: Plan, matcher: Matcher, b: Value)
    requires CompilePlain(mode, p).Some?
    ensures Faithful(mode, p, matcher, Admits(p, b), Reading(p, matcher, b),
                     Call(CompilePlain(mode, p).value, matcher, b))
  {
    hide Emit, Lazy, Wf, Return, CacheOk, Grows, GoodResult, Inv, Adds, Extends, RunRoots, DottedNames, ObjectRoots,
         Faithful, EntryKept, Patterns;
    var kind := Infer(p).value;
    var r := Emit(mode, p, kind, BODY_INDENT, true, START).value;
    StartWf();
    EmitFacts(mode, p, kind, BODY_INDENT, true, START);
    EmitShape(mode, p, kind, BODY_INDENT, true, START);
    assert ScopeNames(START.scopes) == {};
    CallGuards(p, r.st, b);
    var f := Function(r.st.dotted, r.st.roots, r.code, r.e);
    assert CompilePlain(mode, p) == Some(f);
    if Admits(p, b) {
      var c := Context(Machine(matcher, b.fields), mode, r.st, Patterns(p));
      RootsDistinct(r.st);
      RootsRun(c.m, r.st.roots, map[]);
      ReturnIsFaithful(c, p, kind, r, RunRoots(c.m, map[], r.st.roots).store);
    } else {
      if b.VMap? {
        RootsDistinct(r.st);
        RootsRun(Machine(matcher, b.fields), r.st.roots, map[]);
      }
      assert Call(f, matcher, b) == BAIL;
      BailsRefused(mode, p, matcher, Reading(p, matcher, b));
    }
  }

  lemma {:induction false} BailsRefused(mode: CacheMode, p: Plan, matcher: Matcher, reading: Option<Value>)
    ensures Faithful(mode, p, matcher, false, reading, BAIL)
  {
  }

  lemma {:induction false} ReturnIsFaithful(c: Context, p: Plan, kind: PlainType, r: Emitted, s: Store)
    requires Emit(c.mode, p, kind, BODY_INDENT, true, START) == Some(r) && c.fin == r.st && c.patterns == Patterns(p)
    requires Wf(r.st) && s.Keys == RootVars(r.st.roots)
    requires forall h :: h in r.st.roots ==> s[h.v] == Get(c.m.bindings, h.name) && s[h.v].VMap?
    ensures Faithful(c.mode, p, c.m.matcher, true, Lazy(c.m, [], p, kind, true),
                     Return(c.m, s, Function(r.st.dotted, r.st.roots, r.code, r.e)))
  {
    hide Emit, Lazy, Wf, Inv, Frame, StoreOk;
    StartOk(c, s);
    assert Extends(r.st, c.fin);
    EmitSimulates(c, p, kind, BODY_INDENT, true, START, s, []);
  }

  lemma {:induction false} StartWf()
    ensures Wf(START)
  {
  }

  lemma {:induction false} RootsDistinct(st: State)
    requires Wf(st)
    ensures forall h, h' :: h in st.roots && h' in st.roots && h.v == h'.v ==> h.name == h'.name
  {
  }

  lemma {:induction false} CallGuards(p: Plan, st: State, b: Value)
    requires Adds(START, st, DottedNames(p, {}), ObjectRoots(p, false, {}))
    ensures st.dotted == DottedNames(p, {})
    ensures b.VMap? ==>
              ((forall h :: h in st.roots ==> Get(b.fields, h.name).VMap?) <==>
               (forall name :: name in ObjectRoots(p, false, {}) ==> Get(b.fields, name).VMap?))
  {
    assert RootNames(st.roots) == ObjectRoots(p, false, {});
    assert forall h :: h in st.roots ==> h.name in RootNames(st.roots);
  }

  /** No selection chain of the plan names a built-in type. */
  ghost predicate NoBuiltinNames(host: Engine.Host, p: Plan) {
    forall q :: q in DottedNames(p, {}) ==> !Engine.BuiltinName(host, q)
  }

  /** The contract of the fast path, whatever the bindings hold and however the cache was treated: an answer is the
      answer of the engine for the same bindings, unless the engine refuses to convert them. */
  lemma {:induction false} AnswersAreCel(mode: CacheMode, p: Plan, matcher: Matcher, host: Engine.Host, b: Value)
    requires CompilePlain(mode, p).Some? && Call(CompilePlain(mode, p).value, matcher, b).Answered?
    requires Soundness.MatcherAgrees(matcher, host) && NoBuiltinNames(host, p)
    ensures b.VMap?
    ensures Engine.Eval(host, b.fields, [], p) == Engine.Ok(Call(CompilePlain(mode, p).value, matcher, b).value)
    ensures var v := Call(CompilePlain(mode, p).value, matcher, b).value;
            Engine.Evaluate(host, b.fields, p) ==
            (if Engine.Converts(host, b.fields) then Engine.Evaluated(Engine.Ok(v)) else Engine.Refused)
  {
    CallsAnswerTheReading(mode, p, matcher, b);
    assert Engine.LocalNames([]) == {};
    Soundness.PlainIsCel(host, Machine(matcher, b.fields), [], p, Infer(p).value, true);
  }
}
