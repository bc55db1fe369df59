/** When a compiled function has to answer. The condition speaks of CEL evaluation alone: every read the evaluation
    needs gives a value of the shape its place asks for, and no operator fails. */
module Completeness {
  import opened Values
  import opened Plans
  import opened PythonTarget
  import opened Engine
  import opened LazySemantics
  import opened Soundness
  import opened Emitter
  import opened CompiledPlans
  import opened CacheLeaks
  import opened Contract

  /** The integers a host computes with. */
  datatype Integers = Integers(low: int, high: int)

  /** Python's fast path takes 64-bit integers. */
  const INT64: Integers := Integers(-9_223_372_036_854_775_808, 9_223_372_036_854_775_807)

  /** The plain-data shapes. `TAny` is the operand of `size`: a text or a list, but no map. */
  predicate Shaped(ints: Integers, v: Value, expected: PlainType, checkedText: bool) {
    match expected
    case TBool => v.VBool?
    case TInt => v.VInt? && ints.low <= v.n <= ints.high
    case TText => v.VText? && (checkedText ==> WellFormed(v.t))
    case TObject => v.VMap?
    case TList => v.VList?
    case TAny => v.VList? || (v.VText? && WellFormed(v.t))
  }

  /** CEL evaluation gives a value of the shape. */
  predicate Yields(host: Host, ints: Integers, b: Bindings, locals: seq<Local>, p: Plan, expected: PlainType,
                   checkedText: bool)
  {
    var r := Eval(host, b, locals, p);
    r.Ok? && Shaped(ints, r.value, expected, checkedText)
  }

  /** CEL evaluation has the boolean result. */
  predicate Gives(host: Host, b: Bindings, locals: seq<Local>, p: Plan, result: bool) {
    Eval(host, b, locals, p) == Ok(VBool(result))
  }

  /** Everything evaluation of the plan depends on is plain data: what is read has the expected shape, operators do not
      fail in CEL, and operands that no longer matter are not looked at. A remainder needs the quotient. Texts are
      checked for lone surrogates except as keys, as needles, and beside a literal. */
  ghost predicate OnPlainData(host: Host, ints: Integers, b: Bindings, locals: seq<Local>, p: Plan, expected: PlainType,
                              checkedText: bool)
    decreases p, 1
  {
    match p
    case BoolLit(_) | IntLit(_) | TextLit(_) => true
    case Ident(_) => Yields(host, ints, b, locals, p, expected, checkedText)
    case Select(target, _, _) =>
      && OnPlainData(host, ints, b, locals, target, TObject, true)
      && Yields(host, ints, b, locals, p, expected, checkedText)
    case Index(target, key) =>
      && OnPlainData(host, ints, b, locals, target, if Infer(key) == Some(TInt) then TList else TObject, true)
      && OnPlainData(host, ints, b, locals, key, if Infer(key) == Some(TInt) then TInt else TText,
                     Infer(key) == Some(TInt))
      && Yields(host, ints, b, locals, p, expected, checkedText)
    case Logic(conj, left, right) =>
      && OnPlainData(host, ints, b, locals, left, TBool, true)
      && (Gives(host, b, locals, left, conj) ==> OnPlainData(host, ints, b, locals, right, TBool, true))
    case Cond(condition, yes, no) =>
      && OnPlainData(host, ints, b, locals, condition, TBool, true)
      && (Gives(host, b, locals, condition, true) ==> OnPlainData(host, ints, b, locals, yes, expected, true))
      && (Gives(host, b, locals, condition, false) ==> OnPlainData(host, ints, b, locals, no, expected, true))
    case Quantifier(universal, target, variable, body) =>
      && OnPlainData(host, ints, b, locals, target, TList, true)
      && ItemsOnPlainData(host, ints, b, locals, p, ItemsOf(Eval(host, b, locals, target)), 0)
    case Neg(operand) =>
      OnPlainData(host, ints, b, locals, operand, TInt, true) && Yields(host, ints, b, locals, p, TInt, true)
    case Not(operand) => OnPlainData(host, ints, b, locals, operand, TBool, true)
    case Size(operand) => OnPlainData(host, ints, b, locals, operand, if IsRead(operand) then TAny else TText, true)
    case In(needle, _) => OnPlainData(host, ints, b, locals, needle, TText, false)
    case Matches(text, _) =>
      OnPlainData(host, ints, b, locals, text, TText, true) && Yields(host, ints, b, locals, p, TBool, true)
    case Compare(op, left, right) =>
      var kind := if IsOrdering(op) then TInt else OrElse(OrElse(Infer(left), Infer(right)), Some(TText)).value;
      && OnPlainData(host, ints, b, locals, left, kind, !left.TextLit? && !right.TextLit?)
      && OnPlainData(host, ints, b, locals, right, kind, !left.TextLit? && !right.TextLit?)
    case Arith(op, left, right) =>
      && OnPlainData(host, ints, b, locals, left, TInt, true)
      && OnPlainData(host, ints, b, locals, right, TInt, true)
      && Yields(host, ints, b, locals, if op.Rem? then Arith(Div, left, right) else p, TInt, true)
    case Test(_, text, argument) =>
      && OnPlainData(host, ints, b, locals, text, TText, !argument.TextLit?)
      && OnPlainData(host, ints, b, locals, argument, TText, !argument.TextLit?)
    case ListLit(_) | Nonsense => false
  }

  function ItemsOf(r: Result<Value>): seq<Value> {
    if r.Ok? && r.value.VList? then r.value.items else []
  }

  /** The comprehension variable bound to the item. */
  function Bound(locals: seq<Local>, variable: Text, items: seq<Value>, i: nat): seq<Local>
    requires i < |items|
  {
    locals + [Local(variable, items[i])]
  }

  /** No item from `k` up to `i` decides the comprehension. */
  ghost predicate Undecided(host: Host, b: Bindings, locals: seq<Local>, p: Plan, items: seq<Value>, k: nat, i: nat)
    requires p.Quantifier? && i <= |items|
  {
    forall j :: k <= j < i ==> Gives(host, b, Bound(locals, p.variable, items, j), p.body, p.universal)
  }

  /** The predicate is evaluated on plain data, for every item from `k` on until one decides. */
  ghost predicate ItemsOnPlainData(host: Host, ints: Integers, b: Bindings, locals: seq<Local>, p: Plan,
                                   items: seq<Value>, k: nat)
    requires p.Quantifier?
    decreases p, 0
  {
    forall i | k <= i < |items| && Undecided(host, b, locals, p, items, k, i) ::
      OnPlainData(host, ints, b, Bound(locals, p.variable, items, i), p.body, TBool, true)
  }

  /** Matching a literal pattern in the compiled function is matching it in the engine, errors aside. */
  ghost predicate MatcherIs(matcher: Matcher, host: Host) {
    && matcher.LiteralMatcher?
    && MatcherAgrees(matcher, host)
    && forall t, pattern :: Matched(host, t, pattern).Ok? ==> matcher.run(t, pattern).Ok?
  }

  // ----- the reading gives a value exactly on plain data -----

  ghost predicate Decides(host: Host, m: Machine, locals: seq<Local>, p: Plan, expected: PlainType, ct: bool) {
    var v := Lazy(m, locals, p, expected, ct);
    OnPlainData(host, INT64, m.bindings, locals, p, expected, ct) <==>
      v.Some? && (expected == TAny ==> Shaped(INT64, v.value, TAny, ct))
  }

  ghost predicate Given(host: Host, m: Machine, locals: seq<Local>, p: Plan, expected: PlainType) {
    && MatcherIs(m.matcher, host) && Unambiguous(host, m.bindings, p, LocalNames(locals)) && Accepts(p, expected)
  }

  lemma {:induction false} GivenAgrees(host: Host, m: Machine, locals: seq<Local>, p: Plan, expected: PlainType)
    requires Given(host, m, locals, p, expected)
    ensures MatcherAgrees(m.matcher, host) && Unambiguous(host, m.bindings, p, LocalNames(locals))
    ensures Accepts(p, expected)
  {
  }

  /** What a reading gives is a CEL result of its type. */
  lemma {:induction false} ReadingIsResult(host: Host, m: Machine, locals: seq<Local>, p: Plan, expected: PlainType,
                                           ct: bool)
    requires Given(host, m, locals, p, expected) && expected != TAny && Lazy(m, locals, p, expected, ct).Some?
    ensures var v := Lazy(m, locals, p, expected, ct).value;
            HasType(v, expected) && Eval(host, m.bindings, locals, p) == Ok(v)
  {
    hide Lazy, Eval, MatcherAgrees, Unambiguous, Accepts, MatcherIs;
    GivenAgrees(host, m, locals, p, expected);
    PlainIsCel(host, m, locals, p, expected, ct);
  }

  lemma {:induction false} ReadsExactly(host: Host, m: Machine, locals: seq<Local>, p: Plan, expected: PlainType,
                                        ct: bool)
    requires Given(host, m, locals, p, expected)
    ensures Decides(host, m, locals, p, expected, ct)
    decreases p, 1
  {
    match p
    case BoolLit(_) | IntLit(_) | TextLit(_) | ListLit(_) | Nonsense =>
    case Ident(_) => ShapedFits(IdentValue(m, locals, p), expected, ct);
    case Select(_, _, _) => SelectReads(host, m, locals, p, expected, ct);
    case Index(_, _) => IndexReads(host, m, locals, p, expected, ct);
    case Logic(_, _, _) => LogicReads(host, m, locals, p, ct);
    case Cond(_, _, _) => CondReads(host, m, locals, p, expected, ct);
    case Quantifier(_, _, _, _) => QuantifierReads(host, m, locals, p, ct);
    case Neg(_) | Not(_) | Size(_) | In(_, _) | Matches(_, _) => UnaryReads(host, m, locals, p, expected, ct);
    case Compare(_, _, _) | Arith(_, _, _) | Test(_, _, _) => BinaryReads(host, m, locals, p, expected, ct);
  }

  function IdentValue(m: Machine, locals: seq<Local>, p: Plan): Value
    requires p.Ident?
  {
    match FindLocal(locals, p.name)
    case Some(v) => v
    case None => Get(m.bindings, p.name)
  }

  lemma {:induction false} ShapedFits(v: Value, expected: PlainType, ct: bool)
    ensures expected != TAny ==> (Shaped(INT64, v, expected, ct) <==> Fits(v, expected, ct))
    ensures Fits(v, TAny, ct)
    ensures Shaped(INT64, v, expected, ct) ==> !v.Foreign?
  {
  }

  lemma {:induction false} SelectReads(host: Host, m: Machine, locals: seq<Local>, p: Plan, expected: PlainType,
                                       ct: bool)
    requires p.Select? && Given(host, m, locals, p, expected)
    ensures Decides(host, m, locals, p, expected, ct)
    decreases p, 0
  {
    ReadsExactly(host, m, locals, p.target, TObject, true);
    SelectNotResolved(host, m.bindings, locals, p);
    if OnPlainData(host, INT64, m.bindings, locals, p.target, TObject, true) {
      ReadingIsResult(host, m, locals, p.target, TObject, true);
      ShapedFits(Get(LazyObject(m, locals, p.target).value, p.field), expected, ct);
    }
  }

  lemma {:induction false} IndexReads(host: Host, m: Machine, locals: seq<Local>, p: Plan, expected: PlainType,
                                      ct: bool)
    requires p.Index? && Given(host, m, locals, p, expected)
    ensures Decides(host, m, locals, p, expected, ct)
    decreases p, 0
  {
    hide Lazy, Eval, Decides, Unambiguous, MatcherIs;
    IndexGiven(host, m, locals, p, expected);
    if Infer(p.key) == Some(TInt) {
      ReadsExactly(host, m, locals, p.target, TList, true);
      ReadsExactly(host, m, locals, p.key, TInt, true);
      ItemReads(host, m, locals, p, expected, ct);
    } else {
      ReadsExactly(host, m, locals, p.target, TObject, true);
      ReadsExactly(host, m, locals, p.key, TText, false);
      EntryReads(host, m, locals, p, expected, ct);
    }
  }

  lemma {:induction false} IndexGiven(host: Host, m: Machine, locals: seq<Local>, p: Plan, expected: PlainType)
    requires p.Index? && Given(host, m, locals, p, expected)
    ensures Infer(p.key) in {None, Some(TText), Some(TInt)}
    ensures Given(host, m, locals, p.target, if Infer(p.key) == Some(TInt) then TList else TObject)
    ensures Given(host, m, locals, p.key, if Infer(p.key) == Some(TInt) then TInt else TText)
  {
  }

  lemma {:induction false} ItemReads(host: Host, m: Machine, locals: seq<Local>, p: Plan, expected: PlainType,
                                     ct: bool)
    requires p.Index? && Infer(p.key) == Some(TInt)
    requires Given(host, m, locals, p.target, TList) && Given(host, m, locals, p.key, TInt)
    requires Decides(host, m, locals, p.target, TList, true) && Decides(host, m, locals, p.key, TInt, true)
    ensures Decides(host, m, locals, p, expected, ct)
  {
    hide Given, Unquoted;
    if LazyList(m, locals, p.target).Some? && LazyInt(m, locals, p.key).Some? {
      ReadingIsResult(host, m, locals, p.target, TList, true);
      ReadingIsResult(host, m, locals, p.key, TInt, true);
      var xs, k := LazyList(m, locals, p.target).value, LazyInt(m, locals, p.key).value;
      ShapedFits(if 0 <= k < |xs| then xs[k] else MISSING, expected, ct);
    }
  }

  lemma {:induction false} EntryReads(host: Host, m: Machine, locals: seq<Local>, p: Plan, expected: PlainType,
                                      ct: bool)
    requires p.Index? && Infer(p.key) in {None, Some(TText)}
    requires Given(host, m, locals, p.target, TObject) && Given(host, m, locals, p.key, TText)
    requires Decides(host, m, locals, p.target, TObject, true) && Decides(host, m, locals, p.key, TText, false)
    ensures Decides(host, m, locals, p, expected, ct)
  {
    hide Given, Unquoted;
    if LazyObject(m, locals, p.target).Some? && LazyText(m, locals, p.key, false).Some? {
      ReadingIsResult(host, m, locals, p.target, TObject, true);
      ReadingIsResult(host, m, locals, p.key, TText, false);
      ShapedFits(Get(LazyObject(m, locals, p.target).value, LazyText(m, locals, p.key, false).value), expected, ct);
    }
  }

  lemma {:induction false} LogicReads(host: Host, m: Machine, locals: seq<Local>, p: Plan, ct: bool)
    requires p.Logic? && Given(host, m, locals, p, TBool)
    ensures Decides(host, m, locals, p, TBool, ct)
    decreases p, 0
  {
    ReadsExactly(host, m, locals, p.left, TBool, true);
    ReadsExactly(host, m, locals, p.right, TBool, true);
    if OnPlainData(host, INT64, m.bindings, locals, p.left, TBool, true) {
      ReadingIsResult(host, m, locals, p.left, TBool, true);
    }
  }

  lemma {:induction false} CondReads(host: Host, m: Machine, locals: seq<Local>, p: Plan, expected: PlainType, ct: bool)
    requires p.Cond? && Given(host, m, locals, p, expected)
    ensures Decides(host, m, locals, p, expected, ct)
    decreases p, 0
  {
    ReadsExactly(host, m, locals, p.condition, TBool, true);
    ReadsExactly(host, m, locals, p.yes, expected, true);
    ReadsExactly(host, m, locals, p.no, expected, true);
    if OnPlainData(host, INT64, m.bindings, locals, p.condition, TBool, true) {
      ReadingIsResult(host, m, locals, p.condition, TBool, true);
    }
  }

  lemma {:induction false} QuantifierReads(host: Host, m: Machine, locals: seq<Local>, p: Plan, ct: bool)
    requires p.Quantifier? && Given(host, m, locals, p, TBool)
    ensures Decides(host, m, locals, p, TBool, ct)
    decreases p, 0
  {
    ReadsExactly(host, m, locals, p.target, TList, true);
    if OnPlainData(host, INT64, m.bindings, locals, p.target, TList, true) {
      ReadingIsResult(host, m, locals, p.target, TList, true);
      var items := LazyList(m, locals, p.target).value;
      assert items[0..] == items;
      ItemsRead(host, m, locals, p, items, 0);
    }
  }

  lemma {:induction false} ItemsRead(host: Host, m: Machine, locals: seq<Local>, p: Plan, items: seq<Value>, k: nat)
    requires p.Quantifier? && Given(host, m, locals, p, TBool) && k <= |items|
    ensures ItemsOnPlainData(host, INT64, m.bindings, locals, p, items, k) <==>
              LazyItems(m, locals, p.universal, p.variable, p.body, items[k..]).Some?
    decreases p, 0, |items| - k
  {
    if k < |items| {
      var inner := Bound(locals, p.variable, items, k);
      PushedNames(locals, Local(p.variable, items[k]));
      ReadsExactly(host, m, inner, p.body, TBool, true);
      ItemsRead(host, m, locals, p, items, k + 1);
      assert Undecided(host, m.bindings, locals, p, items, k, k);
      if Gives(host, m.bindings, inner, p.body, p.universal) {
        assert forall i :: k < i <= |items| ==>
          (Undecided(host, m.bindings, locals, p, items, k, i) <==>
           Undecided(host, m.bindings, locals, p, items, k + 1, i));
      }
      if LazyBool(m, inner, p.body).Some? {
        ReadingIsResult(host, m, inner, p.body, TBool, true);
      }
      assert items[k..][1..] == items[k + 1..];
    }
  }

  lemma {:induction false} UnaryReads(host: Host, m: Machine, locals: seq<Local>, p: Plan, expected: PlainType,
                                      ct: bool)
    requires IsUnary(p) && Given(host, m, locals, p, expected)
    ensures Decides(host, m, locals, p, expected, ct)
    decreases p, 0
  {
    var kind := OperandType(p).value;
    ReadsExactly(host, m, locals, Operand(p), kind, OperandChecked(p));
    if Lazy(m, locals, Operand(p), kind, OperandChecked(p)).Some? && kind != TAny {
      ReadingIsResult(host, m, locals, Operand(p), kind, OperandChecked(p));
    }
  }

  lemma {:induction false} BinaryReads(host: Host, m: Machine, locals: seq<Local>, p: Plan, expected: PlainType,
                                       ct: bool)
    requires IsBinary(p) && Given(host, m, locals, p, expected)
    ensures Decides(host, m, locals, p, expected, ct)
    decreases p, 0
  {
    hide Lazy, Eval, Decides, Unambiguous, MatcherIs, OnPlainData;
    BinaryGiven(host, m, locals, p, expected);
    var kind, checked := OperandsType(p).value, OperandsChecked(p);
    ReadsExactly(host, m, locals, LeftOperand(p), kind, checked);
    ReadsExactly(host, m, locals, RightOperand(p), kind, checked);
    PairReads(host, m, locals, p, ct);
  }

  lemma {:induction false} BinaryGiven(host: Host, m: Machine, locals: seq<Local>, p: Plan, expected: PlainType)
    requires IsBinary(p) && Given(host, m, locals, p, expected)
    ensures OperandsType(p).Some? && OperandsType(p).value in {TBool, TText, TInt} && expected == ResultType(p)
    ensures Given(host, m, locals, LeftOperand(p), OperandsType(p).value)
    ensures Given(host, m, locals, RightOperand(p), OperandsType(p).value)
  {
  }

  /** The operation that has to succeed. */
  function Needed(p: Plan): (q: Plan)
    requires p.Arith?
    ensures q.Arith?
  {
    if p.aop.Rem? then Arith(Div, p.left, p.right) else p
  }

  /** The arithmetic helpers answer wherever CEL gives a result, but for a remainder without a quotient. */
  lemma {:induction false} HelpersAnswer(op: Arithmetic, a: int, b: int)
    ensures ArithHelper(op, a, b).Val? <==> Arithmetics(if op.Rem? then Div else op, VInt(a), VInt(b)).Ok?
    ensures var r := Arithmetics(if op.Rem? then Div else op, VInt(a), VInt(b));
            r.Ok? ==> Shaped(INT64, r.value, TInt, true)
  {
  }

  lemma {:induction false} OperandsOnPlainData(host: Host, ints: Integers, b: Bindings, locals: seq<Local>, p: Plan,
                                               ct: bool)
    requires IsBinary(p) && Accepts(p, ResultType(p)) && OperandsType(p).Some?
    ensures var kind, checked := OperandsType(p).value, OperandsChecked(p);
            OnPlainData(host, ints, b, locals, p, ResultType(p), ct) <==>
              && OnPlainData(host, ints, b, locals, LeftOperand(p), kind, checked)
              && OnPlainData(host, ints, b, locals, RightOperand(p), kind, checked)
              && (p.Arith? ==> Yields(host, ints, b, locals, Needed(p), TInt, true))
  {
    hide Eval;
  }

  lemma {:induction false} LazyPair(m: Machine, locals: seq<Local>, p: Plan, ct: bool)
    requires IsBinary(p) && OperandsType(p).Some?
    ensures var kind, checked := OperandsType(p).value, OperandsChecked(p);
            var l, r := Lazy(m, locals, LeftOperand(p), kind, checked), Lazy(m, locals, RightOperand(p), kind, checked);
            Lazy(m, locals, p, ResultType(p), ct)
            == if l.Some? && r.Some? then Answers(BinaryResult(p, l.value, r.value)) else None
  {
    hide BinaryResult, OperandsChecked;
  }

  lemma {:induction false} ArithmeticNeeds(host: Host, b: Bindings, locals: seq<Local>, p: Plan, l: int, r: int)
    requires p.Arith?
    requires Eval(host, b, locals, p.left) == Ok(VInt(l)) && Eval(host, b, locals, p.right) == Ok(VInt(r))
    ensures Yields(host, INT64, b, locals, Needed(p), TInt, true) <==> ArithHelper(p.aop, l, r).Val?
  {
    hide Arithmetics, ArithHelper, Shaped;
    HelpersAnswer(p.aop, l, r);
    var q := Needed(p);
    assert Eval(host, b, locals, q) == Arithmetics(q.aop, VInt(l), VInt(r));
  }

  lemma {:induction false} PairReads(host: Host, m: Machine, locals: seq<Local>, p: Plan, ct: bool)
    requires IsBinary(p) && Accepts(p, ResultType(p)) && OperandsType(p).Some?
    requires OperandsType(p).value in {TBool, TText, TInt}
    requires Given(host, m, locals, LeftOperand(p), OperandsType(p).value)
    requires Given(host, m, locals, RightOperand(p), OperandsType(p).value)
    requires Decides(host, m, locals, LeftOperand(p), OperandsType(p).value, OperandsChecked(p))
    requires Decides(host, m, locals, RightOperand(p), OperandsType(p).value, OperandsChecked(p))
    ensures Decides(host, m, locals, p, ResultType(p), ct)
  {
    hide OnPlainData, Given, Accepts, Lazy, Eval, Yields, ArithHelper;
    OperandsOnPlainData(host, INT64, m.bindings, locals, p, ct);
    LazyPair(m, locals, p, ct);
    var kind, checked := OperandsType(p).value, OperandsChecked(p);
    var l, r := Lazy(m, locals, LeftOperand(p), kind, checked), Lazy(m, locals, RightOperand(p), kind, checked);
    if l.Some? && r.Some? {
      ReadingIsResult(host, m, locals, LeftOperand(p), kind, checked);
      ReadingIsResult(host, m, locals, RightOperand(p), kind, checked);
      if p.Arith? {
        ArithmeticNeeds(host, m.bindings, locals, p, l.value.n, r.value.n);
      }
    }
  }

  /** CEL has a remainder where its quotient has too many bits. Python's helper asks for the quotient first. */
  lemma {:induction false} RemainderBails()
    ensures ArithHelper(Rem, INT64.low, -1) == Fails(Bailed)
    ensures Arithmetics(Rem, VInt(INT64.low), VInt(-1)) == Ok(VInt(0))
  {
  }

  // ----- calls -----

  /** The bindings are a dictionary without dotted names of the plan, its object roots are dictionaries, and evaluation
      meets plain data only. */
  ghost predicate Answerable(host: Host, p: Plan, b: Bindings) {
    && Infer(p).Some?
    && (forall q :: q in DottedNames(p, {}) ==> TextKey(q) !in b)
    && (forall name :: name in ObjectRoots(p, false, {}) ==> TextKey(name) in b && b[TextKey(name)].VMap?)
    && OnPlainData(host, INT64, b, [], p, Infer(p).value, true)
  }

  lemma {:induction false} LiteralPatternsAre(host: Host)
    ensures MatcherIs(LiteralPatterns(host), host)
  {
  }

  /** Calls answer exactly on plain data, with the CEL result. With the cache as the source has it they may read an
      unassigned variable instead. */
  lemma {:induction false} AnswersOnPlainData(host: Host, p: Plan, b: Bindings)
    requires CompilePlain(AsWritten, p).Some? && NoBuiltinNames(host, p)
    ensures Answerable(host, p, b) ==>
              || Compiled(host, p, b) == Raised(UnboundVariable)
              || (Compiled(host, p, b).Answered? && Eval(host, b, [], p) == Ok(Compiled(host, p, b).value))
    ensures Compiled(host, p, b).Answered? ==> Answerable(host, p, b)
    ensures Sound(host, p) ==> (Compiled(host, p, b).Answered? <==> Answerable(host, p, b))
  {
    hide CompilePlain, Call, Lazy, Eval, Accepts, NoBuiltinNames, OnPlainData, MatcherIs;
    var matcher := LiteralPatterns(host);
    RefusedPlans(AsWritten, p);
    ScopedCompilesToo(p);
    CallsAnswerTheReading(AsWritten, p, matcher, VMap(b));
    CallsAnswerTheReading(Scoped, p, matcher, VMap(b));
    LiteralPatternsAre(host);
    PlanGiven(host, p, b);
    if Admits(p, VMap(b)) {
      ReadsExactly(host, Machine(matcher, b), [], p, Infer(p).value, true);
      if Compiled(host, p, b).Answered? {
        AnswersAreCel(AsWritten, p, matcher, host, VMap(b));
      }
    }
  }

  /** Outside the other families, plain-data evaluation differs from the engine exactly on bindings that do not convert
      although evaluation meets plain data only. */
  lemma {:induction false} DiffersOnPlainData(host: Host, p: Plan, b: Bindings)
    requires CompilePlain(AsWritten, p).Some? && Sound(host, p) && AcceptedPatterns(host, p)
    ensures Contract.Evaluate(host, p, b, true) != Contract.Evaluate(host, p, b, false) <==>
              Answerable(host, p, b) && !Converts(host, b)
  {
    hide CompilePlain, Call, Eval, NoBuiltinNames, Converts, OnPlainData, Answerable, AcceptedPatterns;
    AnswersOnPlainData(host, p, b);
    AcceptedPatternsNeverRaise(host, p, b);
  }

  lemma {:induction false} PlanGiven(host: Host, p: Plan, b: Bindings)
    requires NoBuiltinNames(host, p) && Infer(p).Some? && Accepts(p, Infer(p).value)
    requires MatcherIs(LiteralPatterns(host), host)
    ensures Admits(p, VMap(b)) ==> Given(host, Machine(LiteralPatterns(host), b), [], p, Infer(p).value)
    ensures Admits(p, VMap(b)) <==>
              && (forall q :: q in DottedNames(p, {}) ==> TextKey(q) !in b)
              && (forall name :: name in ObjectRoots(p, false, {}) ==> TextKey(name) in b && b[TextKey(name)].VMap?)
  {
    hide MatcherIs, Accepts, DottedNames, ObjectRoots;
    assert LocalNames([]) == {};
  }

  // ----- types -----

  /** A plan is accepted for the one type that is inferred for it; a read, for which none is inferred, and a conditional
      of reads, are accepted for any scalar type. */
  lemma {:induction false} InferredType(p: Plan, expected: PlainType, other: PlainType)
    requires Accepts(p, expected)
    ensures Infer(p).Some? ==> Infer(p) == Some(expected)
    ensures Infer(p).None? && other in {TBool, TText, TInt} ==> Accepts(p, other)
  {
    if p.Cond? {
      InferredType(p.yes, expected, other);
      InferredType(p.no, expected, other);
    }
  }
}
