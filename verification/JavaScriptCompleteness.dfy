/** When a compiled JavaScript function has to answer, as a condition on CEL evaluation alone. */
module JavaScriptCompleteness {
  import opened Values
  import opened Plans
  import opened Encodings
  import opened JavaScriptNumbers
  import opened JavaScriptTarget
  import opened JavaScriptReading
  import opened JavaScriptSoundness
  import opened Completeness
  import JavaScriptEmitter
  import LazySemantics
  import CompiledPlans
  import Soundness
  import Engine
  import Emitter

  /** The integers that doubles hold exactly. */
  const SAFE: Integers := Integers(-9_007_199_254_740_991, 9_007_199_254_740_991)

  /** No text and no list is longer than JavaScript allows. */
  predicate Physical(v: JsVal) {
    match v
    case JText(units) => |units| <= MAX_LENGTH
    case JList(items) => |items| <= MAX_LENGTH && forall i :: 0 <= i < |items| ==> Physical(items[i])
    case JObject(fields) => forall k :: k in fields ==> Physical(fields[k])
    case _ => true
  }

  predicate NoBigInts(v: JsVal) {
    match v
    case JBigInt(_) => false
    case JList(items) => forall i :: 0 <= i < |items| ==> NoBigInts(items[i])
    case JObject(fields) => forall k :: k in fields ==> NoBigInts(fields[k])
    case _ => true
  }

  predicate Ordinary(v: JsVal) {
    Physical(v) && NoBigInts(v)
  }

  ghost predicate Given(host: Engine.Host, m: Machine, locals: seq<JsLocal>, p: Plan, expected: PlainType) {
    && Reads(host, m, locals, p) && LazySemantics.Accepts(p, expected)
    && (forall t, pattern :: Engine.Matched(host, t, pattern).Ok? ==> m.run(t, pattern).Ok?)
    && Ordinary(JObject(m.bindings)) && (forall i :: 0 <= i < |locals| ==> Ordinary(locals[i].value))
  }

  ghost predicate PlainHere(host: Engine.Host, m: Machine, locals: seq<JsLocal>, p: Plan, expected: PlainType, ct: bool)
  {
    OnPlainData(host, SAFE, CelBindings(m.bindings), CelLocals(locals), p, expected, ct)
  }

  /** The reading gives a value exactly on plain data. */
  ghost predicate Decides(host: Engine.Host, m: Machine, locals: seq<JsLocal>, p: Plan, expected: PlainType, ct: bool) {
    var v := Reading(m, locals, p, expected);
    && (PlainHere(host, m, locals, p, expected, ct) <==>
          v.Some? && (expected == TAny ==> Shaped(SAFE, Cel(v.value), TAny, ct)))
    && (v.Some? ==> Ordinary(v.value))
  }

  lemma {:induction false} ReadingIsResult(host: Engine.Host, m: Machine, locals: seq<JsLocal>, p: Plan,
                                           expected: PlainType)
    requires Given(host, m, locals, p, expected) && Reading(m, locals, p, expected).Some?
    requires expected != TAny
    ensures var v := Reading(m, locals, p, expected).value;
            Passes(v, expected) && Engine.Eval(host, CelBindings(m.bindings), CelLocals(locals), p) == Engine.Ok(Cel(v))
  {
    hide Reading, Engine.Eval, Reads, LazySemantics.Accepts;
    ReadingIsCel(host, m, locals, p, expected);
  }

  lemma {:induction false} ShapedPasses(v: JsVal, expected: PlainType, ct: bool)
    requires Ordinary(v)
    ensures expected != TAny ==> (Shaped(SAFE, Cel(v), expected, ct) <==> Passes(v, expected))
    ensures Shaped(SAFE, Cel(v), expected, ct) ==> !Cel(v).Foreign?
  {
  }

  lemma {:induction false} ReadsExactly(host: Engine.Host, m: Machine, locals: seq<JsLocal>, p: Plan,
                                        expected: PlainType, ct: bool)
    requires Given(host, m, locals, p, expected)
    ensures Decides(host, m, locals, p, expected, ct)
    decreases p, 1
  {
    match p
    case BoolLit(_) | IntLit(_) | TextLit(_) | ListLit(_) | Nonsense =>
      LiteralAnswers(host, m, locals, p, expected, ct);
    case Ident(_) => IdentAnswers(host, m, locals, p, expected, ct);
    case Select(_, _, _) => SelectAnswers(host, m, locals, p, expected, ct);
    case Index(_, _) => IndexAnswers(host, m, locals, p, expected, ct);
    case Logic(_, _, _) => LogicAnswers(host, m, locals, p, ct);
    case Cond(_, _, _) => CondAnswers(host, m, locals, p, expected, ct);
    case Quantifier(_, _, _, _) => QuantifierAnswers(host, m, locals, p, ct);
    case Neg(_) | Not(_) | Size(_) | In(_, _) | Matches(_, _) => UnaryAnswers(host, m, locals, p, expected, ct);
    case Compare(_, _, _) | Arith(_, _, _) | Test(_, _, _) => BinaryAnswers(host, m, locals, p, expected, ct);
  }

  lemma {:induction false} LiteralAnswers(host: Engine.Host, m: Machine, locals: seq<JsLocal>, p: Plan,
                                        expected: PlainType, ct: bool)
    requires p.BoolLit? || p.IntLit? || p.TextLit? || p.ListLit? || p.Nonsense?
    requires Given(host, m, locals, p, expected)
    ensures Decides(host, m, locals, p, expected, ct)
  {
    if p.TextLit? {
      ReadAfterWrite(p.t);
    }
  }

  lemma {:induction false} LocalIsOrdinary(locals: seq<JsLocal>, name: Text)
    requires forall i :: 0 <= i < |locals| ==> Ordinary(locals[i].value)
    ensures FindLocal(locals, name).Some? ==> Ordinary(FindLocal(locals, name).value)
  {
    if locals != [] {
      LocalIsOrdinary(locals[..|locals| - 1], name);
    }
  }

  /** A guarded read answers where what is read has the shape. */
  lemma {:induction false} GuardDecides(host: Engine.Host, m: Machine, locals: seq<JsLocal>, p: Plan,
                                        expected: PlainType, ct: bool, v: JsVal)
    requires Ordinary(v) && Reading(m, locals, p, expected) == Checked(v, expected)
    requires PlainHere(host, m, locals, p, expected, ct) <==> Shaped(SAFE, Cel(v), expected, ct)
    ensures Decides(host, m, locals, p, expected, ct)
  {
    hide Reading, PlainHere, Ordinary, Cel, Shaped;
    ShapedPasses(v, expected, ct);
    PassesAny(v);
  }

  lemma {:induction false} PassesAny(v: JsVal)
    ensures Passes(v, TAny)
  {
  }

  function IdentValue(m: Machine, locals: seq<JsLocal>, name: Text): JsVal {
    match FindLocal(locals, name)
    case Some(v) => v
    case None => FieldOf(m.bindings, name)
  }

  lemma {:induction false} IdentAnswers(host: Engine.Host, m: Machine, locals: seq<JsLocal>, p: Plan,
                                      expected: PlainType, ct: bool)
    requires p.Ident? && Given(host, m, locals, p, expected)
    ensures Decides(host, m, locals, p, expected, ct)
  {
    hide Reads, Ordinary, Decides;
    LocalIsOrdinary(locals, p.name);
    FieldIsOrdinary(m.bindings, p.name);
    IdentYields(host, m, locals, p, expected, ct);
    GuardDecides(host, m, locals, p, expected, ct, IdentValue(m, locals, p.name));
  }

  lemma {:induction false} IdentYields(host: Engine.Host, m: Machine, locals: seq<JsLocal>, p: Plan,
                                       expected: PlainType, ct: bool)
    requires p.Ident?
    ensures Yields(host, SAFE, CelBindings(m.bindings), CelLocals(locals), p, expected, ct) <==>
              Shaped(SAFE, Cel(IdentValue(m, locals, p.name)), expected, ct)
  {
    LocalIsCel(locals, p.name);
    FieldIsCel(m.bindings, p.name);
    NothingIsShaped(expected, ct);
    hide Cel, CelBindings;
    if FindLocal(locals, p.name).None? && p.name !in m.bindings {
      var r := Engine.Eval(host, CelBindings(m.bindings), CelLocals(locals), p);
      assert r.Ok? ==> r.value.Foreign?;
    }
  }

  lemma {:induction false} NothingIsShaped(expected: PlainType, ct: bool)
    ensures !Shaped(SAFE, Cel(JUndefined), expected, ct)
  {
  }

  lemma {:induction false} FieldIsOrdinary(fields: map<Text, JsVal>, name: Text)
    requires Ordinary(JObject(fields))
    ensures Ordinary(FieldOf(fields, name))
  {
  }

  lemma {:induction false} SelectAnswers(host: Engine.Host, m: Machine, locals: seq<JsLocal>, p: Plan,
                                       expected: PlainType, ct: bool)
    requires p.Select? && Given(host, m, locals, p, expected)
    ensures Decides(host, m, locals, p, expected, ct)
    decreases p, 0
  {
    hide Passes, Rounding, Ordinary, MatcherAgrees, Decides, Cel, Shaped, Engine.Eval, Unquoted;
    ReadsExactly(host, m, locals, p.target, TObject, true);
    var t := Reading(m, locals, p.target, TObject);
    TargetDecides(host, m, locals, p.target, TObject, true);
    if t.Some? {
      ReadingIsResult(host, m, locals, p.target, TObject);
      PassesObject(t.value);
      FieldIsOrdinary(t.value.fields, p.field);
      SelectYields(host, m, locals, p, t.value.fields, expected, ct);
      GuardDecides(host, m, locals, p, expected, ct, FieldOf(t.value.fields, p.field));
    } else {
      NothingDecides(host, m, locals, p, expected, ct);
    }
  }

  lemma {:induction false} NothingDecides(host: Engine.Host, m: Machine, locals: seq<JsLocal>, p: Plan,
                                          expected: PlainType, ct: bool)
    requires Reading(m, locals, p, expected).None? && !PlainHere(host, m, locals, p, expected, ct)
    ensures Decides(host, m, locals, p, expected, ct)
  {
    hide Reading, PlainHere;
  }

  lemma {:induction false} TargetDecides(host: Engine.Host, m: Machine, locals: seq<JsLocal>, p: Plan,
                                         expected: PlainType, ct: bool)
    requires Decides(host, m, locals, p, expected, ct) && expected != TAny
    ensures OnPlainData(host, SAFE, CelBindings(m.bindings), CelLocals(locals), p, expected, ct) <==>
              Reading(m, locals, p, expected).Some?
    ensures Reading(m, locals, p, expected).Some? ==> Ordinary(Reading(m, locals, p, expected).value)
  {
    hide Reading, OnPlainData, Ordinary;
  }

  lemma {:induction false} SelectYields(host: Engine.Host, m: Machine, locals: seq<JsLocal>, p: Plan,
                                        fields: map<Text, JsVal>, expected: PlainType, ct: bool)
    requires p.Select?
    requires Soundness.Unambiguous(host, CelBindings(m.bindings), p, Engine.LocalNames(CelLocals(locals)))
    requires Engine.Eval(host, CelBindings(m.bindings), CelLocals(locals), p.target) == Engine.Ok(Cel(JObject(fields)))
    ensures Yields(host, SAFE, CelBindings(m.bindings), CelLocals(locals), p, expected, ct) <==>
              Shaped(SAFE, Cel(FieldOf(fields, p.field)), expected, ct)
  {
    Soundness.SelectNotResolved(host, CelBindings(m.bindings), CelLocals(locals), p);
    FieldIsCel(fields, p.field);
    NothingIsShaped(expected, ct);
    CelObject(fields);
    hide Cel, Shaped, Soundness.Unambiguous;
  }

  lemma {:induction false} CelObject(fields: map<Text, JsVal>)
    ensures Cel(JObject(fields)) == VMap(CelBindings(fields))
  {
  }

  lemma {:induction false} PassesObject(v: JsVal)
    requires Passes(v, TObject)
    ensures v.JObject?
  {
  }

  lemma {:induction false} IndexAnswers(host: Engine.Host, m: Machine, locals: seq<JsLocal>, p: Plan,
                                        expected: PlainType, ct: bool)
    requires p.Index? && Given(host, m, locals, p, expected)
    ensures Decides(host, m, locals, p, expected, ct)
    decreases p, 0
  {
    hide Reading, Engine.Eval, Decides, Reads;
    IndexGiven(host, m, locals, p, expected);
    if Infer(p.key) == Some(TInt) {
      ReadsExactly(host, m, locals, p.target, TList, true);
      ReadsExactly(host, m, locals, p.key, TInt, true);
      EntryAnswers(host, m, locals, p, expected, ct);
    } else {
      ReadsExactly(host, m, locals, p.target, TObject, true);
      ReadsExactly(host, m, locals, p.key, TText, false);
      EntryAnswers(host, m, locals, p, expected, ct);
    }
  }

  lemma {:induction false} IndexGiven(host: Engine.Host, m: Machine, locals: seq<JsLocal>, p: Plan,
                                      expected: PlainType)
    requires p.Index? && Given(host, m, locals, p, expected)
    ensures Infer(p.key) in {None, Some(TText), Some(TInt)} && JavaScriptEmitter.IndexOp(p).Some?
    ensures Given(host, m, locals, p.target, IndexedType(p)) && Given(host, m, locals, p.key, KeyType(p.key))
  {
    hide Rounding, MatcherAgrees, Ordinary;
  }

  lemma {:induction false} EntryAnswers(host: Engine.Host, m: Machine, locals: seq<JsLocal>, p: Plan,
                                        expected: PlainType, ct: bool)
    requires p.Index? && JavaScriptEmitter.IndexOp(p).Some? && Infer(p.key) in {None, Some(TText), Some(TInt)}
    requires Given(host, m, locals, p.target, IndexedType(p)) && Given(host, m, locals, p.key, KeyType(p.key))
    requires Decides(host, m, locals, p.target, IndexedType(p), true)
    requires Decides(host, m, locals, p.key, KeyType(p.key), KeyType(p.key) == TInt)
    ensures Decides(host, m, locals, p, expected, ct)
  {
    hide Given, Decides, Passes, Ordinary, Cel, Shaped, Engine.Indexed, Apply2, Engine.Eval;
    var t, k := Reading(m, locals, p.target, IndexedType(p)), Reading(m, locals, p.key, KeyType(p.key));
    TargetDecides(host, m, locals, p.target, IndexedType(p), true);
    TargetDecides(host, m, locals, p.key, KeyType(p.key), KeyType(p.key) == TInt);
    if t.Some? && k.Some? {
      ReadingIsResult(host, m, locals, p.target, IndexedType(p));
      ReadingIsResult(host, m, locals, p.key, KeyType(p.key));
      EntryIsCel(m, p, t.value, k.value);
      EntryShaped(m, p, t.value, k.value, expected, ct);
      IndexEvaluates(host, CelBindings(m.bindings), CelLocals(locals), p, Cel(t.value), Cel(k.value));
      var v := Apply2(m, JavaScriptEmitter.IndexOp(p).value, t.value, k.value).value;
      GuardDecides(host, m, locals, p, expected, ct, v);
    } else {
      NothingDecides(host, m, locals, p, expected, ct);
    }
  }

  lemma {:induction false} IndexEvaluates(host: Engine.Host, b: Bindings, locals: seq<Engine.Local>, p: Plan, t: Value,
                                          k: Value)
    requires p.Index? && !t.Foreign? && !k.Foreign?
    requires Engine.Eval(host, b, locals, p.target) == Engine.Ok(t)
    requires Engine.Eval(host, b, locals, p.key) == Engine.Ok(k)
    ensures Engine.Eval(host, b, locals, p) == Engine.Indexed(t, k)
  {
    hide Engine.Indexed;
  }

  /** What a list or an object holds at a key has the shape, in JavaScript as in CEL. */
  lemma {:induction false} EntryShaped(m: Machine, p: Plan, t: JsVal, k: JsVal, expected: PlainType, ct: bool)
    requires p.Index? && JavaScriptEmitter.IndexOp(p).Some? && Passes(t, IndexedType(p)) && Passes(k, KeyType(p.key))
    requires Ordinary(t)
    ensures var r := Apply2(m, JavaScriptEmitter.IndexOp(p).value, t, k);
            var found := Engine.Indexed(Cel(t), Cel(k));
            && r.Val? && Ordinary(r.value)
            && (Shaped(SAFE, Cel(r.value), expected, ct) <==> found.Ok? && Shaped(SAFE, found.value, expected, ct))
  {
    NothingIsShaped(expected, ct);
    if k.JText? {
      FieldIsCel(t.fields, ReadUtf16(k.units));
      FieldIsOrdinary(t.fields, ReadUtf16(k.units));
    }
    hide Shaped;
  }

  lemma {:induction false} LogicAnswers(host: Engine.Host, m: Machine, locals: seq<JsLocal>, p: Plan, ct: bool)
    requires p.Logic? && Given(host, m, locals, p, TBool)
    ensures Decides(host, m, locals, p, TBool, ct)
    decreases p, 0
  {
    hide Rounding, MatcherAgrees, Engine.Eval, Ordinary;
    ReadsExactly(host, m, locals, p.left, TBool, true);
    ReadsExactly(host, m, locals, p.right, TBool, true);
    DecidesBool(host, m, locals, p.left);
    DecidesBool(host, m, locals, p.right);
  }

  lemma {:induction false} CondAnswers(host: Engine.Host, m: Machine, locals: seq<JsLocal>, p: Plan,
                                       expected: PlainType, ct: bool)
    requires p.Cond? && Given(host, m, locals, p, expected)
    ensures Decides(host, m, locals, p, expected, ct)
    decreases p, 0
  {
    hide Rounding, MatcherAgrees, Engine.Eval, Ordinary, Shaped, Passes;
    ReadsExactly(host, m, locals, p.condition, TBool, true);
    ReadsExactly(host, m, locals, p.yes, expected, true);
    ReadsExactly(host, m, locals, p.no, expected, true);
    DecidesBool(host, m, locals, p.condition);
  }

  lemma {:induction false} QuantifierAnswers(host: Engine.Host, m: Machine, locals: seq<JsLocal>, p: Plan, ct: bool)
    requires p.Quantifier? && Given(host, m, locals, p, TBool)
    ensures Decides(host, m, locals, p, TBool, ct)
    decreases p, 0
  {
    hide Rounding, MatcherAgrees;
    ReadsExactly(host, m, locals, p.target, TList, true);
    var t := Reading(m, locals, p.target, TList);
    if t.Some? {
      ReadingIsResult(host, m, locals, p.target, TList);
      ItemsAnswer(host, m, locals, p, t.value.items, 0);
      assert t.value.items[0..] == t.value.items;
    }
  }

  lemma {:induction false} ItemsAnswer(host: Engine.Host, m: Machine, locals: seq<JsLocal>, p: Plan,
                                       items: seq<JsVal>, k: nat)
    requires p.Quantifier? && Given(host, m, locals, p, TBool) && k <= |items|
    requires forall i :: 0 <= i < |items| ==> Ordinary(items[i])
    ensures ItemsOnPlainData(host, SAFE, CelBindings(m.bindings), CelLocals(locals), p, Cel(JList(items)).items, k) <==>
              ReadingItems(m, locals, p.universal, p.variable, p.body, items[k..]).Some?
    decreases p, 0, |items| - k
  {
    hide Reading, Engine.Eval, OnPlainData, Reads, LazySemantics.Accepts, Ordinary, Decides;
    if k < |items| {
      var cel, b := Cel(JList(items)).items, CelBindings(m.bindings);
      var inner := locals + [JsLocal(p.variable, items[k])];
      assert CelLocals(inner) == Bound(CelLocals(locals), p.variable, cel, k);
      ItemGiven(host, m, locals, p, items[k]);
      ReadsExactly(host, m, inner, p.body, TBool, true);
      ItemsAnswer(host, m, locals, p, items, k + 1);
      assert Undecided(host, b, CelLocals(locals), p, cel, k, k);
      if Gives(host, b, Bound(CelLocals(locals), p.variable, cel, k), p.body, p.universal) {
        assert forall i :: k < i <= |items| ==>
          (Undecided(host, b, CelLocals(locals), p, cel, k, i) <==>
           Undecided(host, b, CelLocals(locals), p, cel, k + 1, i));
      }
      DecidesBool(host, m, inner, p.body);
      assert items[k..][1..] == items[k + 1..];
    }
  }

  lemma {:induction false} ItemGiven(host: Engine.Host, m: Machine, locals: seq<JsLocal>, p: Plan, item: JsVal)
    requires p.Quantifier? && Given(host, m, locals, p, TBool) && Ordinary(item)
    ensures Given(host, m, locals + [JsLocal(p.variable, item)], p.body, TBool)
  {
    hide Rounding, MatcherAgrees, Ordinary;
    assert CelLocals(locals + [JsLocal(p.variable, item)]) == CelLocals(locals) + [Engine.Local(p.variable, Cel(item))];
    Soundness.PushedNames(CelLocals(locals), Engine.Local(p.variable, Cel(item)));
  }

  /** On plain data a boolean is read that is the result, and otherwise none. */
  lemma {:induction false} DecidesBool(host: Engine.Host, m: Machine, locals: seq<JsLocal>, p: Plan)
    requires Given(host, m, locals, p, TBool) && Decides(host, m, locals, p, TBool, true)
    ensures var v := Reading(m, locals, p, TBool);
            && (PlainHere(host, m, locals, p, TBool, true) <==> v.Some?)
            && (v.Some? ==> v.value.JBool? && Gives(host, CelBindings(m.bindings), CelLocals(locals), p, v.value.b))
            && (v.Some? ==> !Gives(host, CelBindings(m.bindings), CelLocals(locals), p, !v.value.b))
  {
    hide Reading, Engine.Eval, OnPlainData, Given;
    if Reading(m, locals, p, TBool).Some? {
      ReadingIsResult(host, m, locals, p, TBool);
    }
  }

  lemma {:induction false} UnaryAnswers(host: Engine.Host, m: Machine, locals: seq<JsLocal>, p: Plan,
                                        expected: PlainType, ct: bool)
    requires IsUnary(p) && Given(host, m, locals, p, expected)
    ensures Decides(host, m, locals, p, expected, ct)
    decreases p, 0
  {
    hide Reading, Engine.Eval, Decides, Reads;
    UnaryGiven(host, m, locals, p, expected);
    ReadsExactly(host, m, locals, Operand(p), OperandType(p).value, OperandChecked(p));
    OneAnswers(host, m, locals, p, ct);
  }

  lemma {:induction false} UnaryGiven(host: Engine.Host, m: Machine, locals: seq<JsLocal>, p: Plan,
                                      expected: PlainType)
    requires IsUnary(p) && Given(host, m, locals, p, expected)
    ensures OperandType(p).Some? && expected == ResultType(p)
    ensures Given(host, m, locals, Operand(p), OperandType(p).value)
  {
    hide Rounding, MatcherAgrees, Ordinary;
  }

  lemma {:induction false} OneAnswers(host: Engine.Host, m: Machine, locals: seq<JsLocal>, p: Plan, ct: bool)
    requires IsUnary(p) && Given(host, m, locals, p, ResultType(p)) && OperandType(p).Some?
    requires Given(host, m, locals, Operand(p), OperandType(p).value)
    requires Decides(host, m, locals, Operand(p), OperandType(p).value, OperandChecked(p))
    ensures Decides(host, m, locals, p, ResultType(p), ct)
  {
    hide Rounding, MatcherAgrees, Ordinary, Cel, Reading, OnPlainData, Engine.Eval, Shaped, UnaryAnswer, Yields;
    var kind := OperandType(p).value;
    var v := Reading(m, locals, Operand(p), kind);
    UnaryIsChecked(m, locals, p, ResultType(p));
    UnaryOnPlainData(host, m, locals, p, ct);
    if v.Some? && (kind == TAny ==> Shaped(SAFE, Cel(v.value), TAny, true)) {
      if kind != TAny {
        ReadingIsResult(host, m, locals, Operand(p), kind);
        UnaryYields(host, m, CelBindings(m.bindings), CelLocals(locals), p, v.value);
      }
      OneGives(host, m, p, v.value);
    } else if v.Some? {
      SizeBails(m, p, v.value);
    }
  }

  /** Negation and matching have to succeed. */
  predicate Fallible(p: Plan) {
    p.Neg? || p.Matches?
  }

  lemma {:induction false} UnaryOnPlainData(host: Engine.Host, m: Machine, locals: seq<JsLocal>, p: Plan, ct: bool)
    requires IsUnary(p) && LazySemantics.Accepts(p, ResultType(p)) && OperandType(p).Some?
    ensures PlainHere(host, m, locals, p, ResultType(p), ct) <==>
              && PlainHere(host, m, locals, Operand(p), OperandType(p).value, OperandChecked(p))
              && (Fallible(p) ==>
                    Yields(host, SAFE, CelBindings(m.bindings), CelLocals(locals), p, ResultType(p), true))
  {
    hide Engine.Eval;
  }

  lemma {:induction false} UnaryYields(host: Engine.Host, m: Machine, b: Bindings, locals: seq<Engine.Local>, p: Plan,
                                       v: JsVal)
    requires IsUnary(p) && OperandType(p).Some? && Passes(v, OperandType(p).value)
    requires Engine.Eval(host, b, locals, Operand(p)) == Engine.Ok(Cel(v))
    ensures p.Neg? ==> Yields(host, SAFE, b, locals, p, TInt, true)
    ensures p.Matches? && v.JText? ==>
              (Yields(host, SAFE, b, locals, p, TBool, true) <==>
               WellFormedUtf16(v.units) && Engine.Matched(host, ReadUtf16(v.units), p.pattern).Ok?)
  {
    hide Engine.Matched, ReadUtf16, WellFormedUtf16;
  }

  lemma {:induction false} OneGives(host: Engine.Host, m: Machine, p: Plan, v: JsVal)
    requires IsUnary(p) && OperandType(p).Some? && Passes(v, OperandType(p).value) && Ordinary(v)
    requires p.In? ==> p.list.ListLit?
    requires OperandType(p).value == TAny ==> Shaped(SAFE, Cel(v), TAny, true)
    requires MatcherAgrees(m.run, host)
    requires forall t, pattern :: Engine.Matched(host, t, pattern).Ok? ==> m.run(t, pattern).Ok?
    ensures var a := UnaryAnswer(m, p, v);
            && (a.Some? ==> Passes(a.value, ResultType(p)) && Ordinary(a.value))
            && (!p.Matches? ==> a.Some?)
            && (p.Matches? ==>
                  (a.Some? <==> v.JText? && WellFormedUtf16(v.units) &&
                                Engine.Matched(host, ReadUtf16(v.units), p.pattern).Ok?))
  {
    match p
    case Neg(_) => NegationIsExact(v.n);
    case Size(_) => if v.JText? { NotHighShorter(v.units); }
    case _ =>
  }

  lemma {:induction false} SizeBails(m: Machine, p: Plan, v: JsVal)
    requires IsUnary(p) && OperandType(p) == Some(TAny) && !Shaped(SAFE, Cel(v), TAny, true) && Ordinary(v)
    ensures UnaryAnswer(m, p, v).None?
  {
  }

  lemma {:induction false} BinaryAnswers(host: Engine.Host, m: Machine, locals: seq<JsLocal>, p: Plan,
                                         expected: PlainType, ct: bool)
    requires IsBinary(p) && Given(host, m, locals, p, expected)
    ensures Decides(host, m, locals, p, expected, ct)
    decreases p, 0
  {
    hide Reading, Engine.Eval, Decides, Reads;
    BinaryGiven(host, m, locals, p, expected);
    ReadsExactly(host, m, locals, LeftOperand(p), OperandsType(p).value, OperandsChecked(p));
    ReadsExactly(host, m, locals, RightOperand(p), OperandsType(p).value, OperandsChecked(p));
    PairAnswers(host, m, locals, p, ct);
  }

  lemma {:induction false} BinaryGiven(host: Engine.Host, m: Machine, locals: seq<JsLocal>, p: Plan,
                                       expected: PlainType)
    requires IsBinary(p) && Given(host, m, locals, p, expected)
    ensures OperandsType(p).Some? && OperandsType(p).value in {TBool, TText, TInt} && expected == ResultType(p)
    ensures Given(host, m, locals, LeftOperand(p), OperandsType(p).value)
    ensures Given(host, m, locals, RightOperand(p), OperandsType(p).value)
  {
    hide Rounding, MatcherAgrees, Ordinary;
  }

  lemma {:induction false} PairAnswers(host: Engine.Host, m: Machine, locals: seq<JsLocal>, p: Plan, ct: bool)
    requires IsBinary(p) && Given(host, m, locals, p, ResultType(p)) && OperandsType(p).Some?
    requires OperandsType(p).value in {TBool, TText, TInt}
    requires Given(host, m, locals, LeftOperand(p), OperandsType(p).value)
    requires Given(host, m, locals, RightOperand(p), OperandsType(p).value)
    requires Decides(host, m, locals, LeftOperand(p), OperandsType(p).value, OperandsChecked(p))
    requires Decides(host, m, locals, RightOperand(p), OperandsType(p).value, OperandsChecked(p))
    ensures Decides(host, m, locals, p, ResultType(p), ct)
  {
    hide OnPlainData, Reading, Engine.Eval, Yields, Apply2, Passes, Cel, Rounding, LazySemantics.Accepts, MatcherAgrees;
    var b, bound, kind := CelBindings(m.bindings), CelLocals(locals), OperandsType(p).value;
    OperandsOnPlainData(host, SAFE, b, bound, p, ct);
    ReadingIsChecked(m, locals, p, ResultType(p));
    var l, r := Reading(m, locals, LeftOperand(p), kind), Reading(m, locals, RightOperand(p), kind);
    if l.Some? && r.Some? {
      ReadingIsResult(host, m, locals, LeftOperand(p), kind);
      ReadingIsResult(host, m, locals, RightOperand(p), kind);
      PairGives(m, p, l.value, r.value);
      if p.Arith? {
        PassesInt(l.value);
        PassesInt(r.value);
        ArithmeticYields(host, m, b, bound, p, l.value.n, r.value.n);
        var n := ArithmeticInt(m.fl, p.aop, l.value.n, r.value.n);
        if n.Some? {
          PassesInt(JNumber(n.value));
        }
      }
    }
  }

  lemma {:induction false} PassesInt(v: JsVal)
    ensures Passes(v, TInt) <==> v.JNumber? && IsSafe(v.n)
    ensures Passes(v, TInt) ==> Cel(v) == VInt(v.n)
  {
  }

  /** Comparisons and text tests always answer, and arithmetic answers with an ordinary number of the type. */
  lemma {:induction false} PairGives(m: Machine, p: Plan, a: JsVal, b: JsVal)
    requires IsBinary(p) && OperandsType(p).Some? && OperandsType(p).value in {TBool, TText, TInt}
    requires Passes(a, OperandsType(p).value) && Passes(b, OperandsType(p).value)
    ensures var r := Apply2(m, JavaScriptEmitter.BinaryOp(p), a, b);
            && (r.Val? ==> Ordinary(r.value))
            && (p.Arith? ==> a.JNumber? && b.JNumber? && r == IntOrBail(ArithmeticInt(m.fl, p.aop, a.n, b.n)))
            && (!p.Arith? ==> r.Val? && Passes(r.value, TBool))
  {
    hide ArithmeticInt, WellFormedUtf16, UnitsTested, Infer;
  }

  lemma {:induction false} ArithmeticYields(host: Engine.Host, m: Machine, b: Bindings, locals: seq<Engine.Local>,
                                            p: Plan, l: int, r: int)
    requires p.Arith? && Rounding(m.fl) && IsSafe(l) && IsSafe(r)
    requires Engine.Eval(host, b, locals, p.left) == Engine.Ok(VInt(l))
    requires Engine.Eval(host, b, locals, p.right) == Engine.Ok(VInt(r))
    ensures var n := ArithmeticInt(m.fl, p.aop, l, r);
            && (Yields(host, SAFE, b, locals, Needed(p), TInt, true) <==> n.Some?)
            && (n.Some? ==> IsSafe(n.value))
  {
    hide Rounding, ArithmeticInt, Engine.TruncDiv, Engine.Eval;
    ArithmeticIsExact(m.fl, p.aop, l, r);
    NeededEvaluates(host, b, locals, p, VInt(l), VInt(r));
    if r != 0 {
      QuotientIsSafe(l, r);
    }
  }

  lemma {:induction false} NeededEvaluates(host: Engine.Host, b: Bindings, locals: seq<Engine.Local>, p: Plan,
                                           l: Value, r: Value)
    requires p.Arith? && l.VInt? && r.VInt?
    requires Engine.Eval(host, b, locals, p.left) == Engine.Ok(l)
    requires Engine.Eval(host, b, locals, p.right) == Engine.Ok(r)
    ensures Engine.Eval(host, b, locals, Needed(p)) == Engine.Arithmetics(Needed(p).aop, l, r)
  {
    var q := Needed(p);
    assert q.left == p.left && q.right == p.right;
    hide Engine.Arithmetics;
  }

  // ----- bigints -----

  /** The same value with nothing in place of its bigints, which are outside the shape in JavaScript. */
  function Doubles(v: JsVal): JsVal {
    match v
    case JBigInt(_) => JUndefined
    case JList(items) => JList(seq(|items|, i requires 0 <= i < |items| => Doubles(items[i])))
    case JObject(fields) => JObject(map k | k in fields :: Doubles(fields[k]))
    case _ => v
  }

  function DoublesOf(v: Option<JsVal>): Option<JsVal> {
    match v
    case Some(x) => Some(Doubles(x))
    case None => None
  }

  function DoubleLocals(locals: seq<JsLocal>): seq<JsLocal> {
    seq(|locals|, i requires 0 <= i < |locals| => JsLocal(locals[i].name, Doubles(locals[i].value)))
  }

  function DoubleMachine(m: Machine): Machine {
    m.(bindings := Doubles(JObject(m.bindings)).fields)
  }

  lemma {:induction false} DoublesOrdinary(v: JsVal)
    requires Physical(v)
    ensures Ordinary(Doubles(v))
    decreases v
  {
    match v
    case JList(items) =>
      forall i | 0 <= i < |items| ensures Ordinary(Doubles(v).items[i]) {
        DoublesOrdinary(items[i]);
      }
    case JObject(fields) =>
      forall k | k in fields ensures Ordinary(Doubles(v).fields[k]) {
        DoublesOrdinary(fields[k]);
      }
    case _ =>
  }

  lemma {:induction false} DoublesPass(v: JsVal, expected: PlainType)
    ensures Passes(Doubles(v), expected) <==> Passes(v, expected)
    ensures v.JBool? || v.JNumber? || v.JText? ==> Doubles(v) == v
    ensures DoublesOf(Checked(v, expected)) == Checked(Doubles(v), expected)
  {
  }

  lemma {:induction false} DoubleField(fields: map<Text, JsVal>, name: Text)
    ensures FieldOf(Doubles(JObject(fields)).fields, name) == Doubles(FieldOf(fields, name))
  {
  }

  lemma {:induction false} DoubleLocal(locals: seq<JsLocal>, name: Text)
    ensures FindLocal(DoubleLocals(locals), name) == DoublesOf(FindLocal(locals, name))
  {
    if locals != [] {
      var n := |locals| - 1;
      DoubleLocal(locals[..n], name);
      assert DoubleLocals(locals)[..n] == DoubleLocals(locals[..n]);
    }
  }

  /** Two readings, the second with nothing in place of the bigints. */
  ghost predicate SameReading(m: Machine, locals: seq<JsLocal>, p: Plan, expected: PlainType) {
    Reading(DoubleMachine(m), DoubleLocals(locals), p, expected) == DoublesOf(Reading(m, locals, p, expected))
  }

  lemma {:induction false} BigIntsAreNotRead(m: Machine, locals: seq<JsLocal>, p: Plan, expected: PlainType)
    ensures SameReading(m, locals, p, expected)
    decreases p, 1
  {
    match p
    case BoolLit(_) | IntLit(_) | TextLit(_) | ListLit(_) | Nonsense =>
    case Ident(name) =>
      DoubleLocal(locals, name);
      DoubleField(m.bindings, name);
      DoublesPass(IdentValue(m, locals, name), expected);
    case Select(target, field, _) =>
      BigIntsAreNotRead(m, locals, target, TObject);
      SelectWithout(m, locals, p, expected);
    case Index(target, key) =>
      BigIntsAreNotRead(m, locals, target, IndexedType(p));
      BigIntsAreNotRead(m, locals, key, KeyType(key));
      IndexWithout(m, locals, p, expected);
    case Logic(_, left, right) =>
      BigIntsAreNotRead(m, locals, left, TBool);
      BigIntsAreNotRead(m, locals, right, TBool);
      LogicWithout(m, locals, p, expected);
    case Cond(condition, yes, no) =>
      BigIntsAreNotRead(m, locals, condition, TBool);
      BigIntsAreNotRead(m, locals, yes, expected);
      BigIntsAreNotRead(m, locals, no, expected);
      CondWithout(m, locals, p, expected);
    case Quantifier(universal, target, variable, body) =>
      BigIntsAreNotRead(m, locals, target, TList);
      QuantifierWithout(m, locals, p, expected);
    case Neg(_) | Not(_) | Size(_) | In(_, _) | Matches(_, _) =>
      if OperandType(p).Some? {
        BigIntsAreNotRead(m, locals, Operand(p), OperandType(p).value);
      }
      UnaryWithout(m, locals, p, expected);
    case Compare(_, _, _) | Arith(_, _, _) | Test(_, _, _) =>
      if OperandsType(p).Some? {
        BigIntsAreNotRead(m, locals, LeftOperand(p), OperandsType(p).value);
        BigIntsAreNotRead(m, locals, RightOperand(p), OperandsType(p).value);
      }
      BinaryWithout(m, locals, p, expected);
  }

  lemma {:induction false} SelectWithout(m: Machine, locals: seq<JsLocal>, p: Plan, expected: PlainType)
    requires p.Select? && SameReading(m, locals, p.target, TObject)
    ensures SameReading(m, locals, p, expected)
  {
    var t := Reading(m, locals, p.target, TObject);
    if t.Some? {
      DoubleField(t.value.fields, p.field);
      DoublesPass(FieldOf(t.value.fields, p.field), expected);
    }
  }

  lemma {:induction false} IndexWithout(m: Machine, locals: seq<JsLocal>, p: Plan, expected: PlainType)
    requires p.Index?
    requires SameReading(m, locals, p.target, IndexedType(p)) && SameReading(m, locals, p.key, KeyType(p.key))
    ensures SameReading(m, locals, p, expected)
  {
    hide Passes;
    var t, k := Reading(m, locals, p.target, IndexedType(p)), Reading(m, locals, p.key, KeyType(p.key));
    if t.Some? && k.Some? && JavaScriptEmitter.IndexOp(p).Some? {
      EntryWithout(m, p, t.value, k.value, expected);
    }
  }

  lemma {:induction false} EntryWithout(m: Machine, p: Plan, t: JsVal, k: JsVal, expected: PlainType)
    requires p.Index? && JavaScriptEmitter.IndexOp(p).Some? && Passes(t, IndexedType(p)) && Passes(k, KeyType(p.key))
    ensures var op := JavaScriptEmitter.IndexOp(p).value;
            var v := Apply2(m, op, t, k);
            && v.Val? && Apply2(DoubleMachine(m), op, Doubles(t), Doubles(k)) == Val(Doubles(v.value))
            && DoublesOf(Checked(v.value, expected)) == Checked(Doubles(v.value), expected)
  {
    if k.JText? {
      DoubleField(t.fields, ReadUtf16(k.units));
    }
  }

  lemma {:induction false} LogicWithout(m: Machine, locals: seq<JsLocal>, p: Plan, expected: PlainType)
    requires p.Logic? && SameReading(m, locals, p.left, TBool) && SameReading(m, locals, p.right, TBool)
    ensures SameReading(m, locals, p, expected)
  {
  }

  lemma {:induction false} CondWithout(m: Machine, locals: seq<JsLocal>, p: Plan, expected: PlainType)
    requires p.Cond? && SameReading(m, locals, p.condition, TBool)
    requires SameReading(m, locals, p.yes, expected) && SameReading(m, locals, p.no, expected)
    ensures SameReading(m, locals, p, expected)
  {
  }

  lemma {:induction false} QuantifierWithout(m: Machine, locals: seq<JsLocal>, p: Plan, expected: PlainType)
    requires p.Quantifier? && SameReading(m, locals, p.target, TList)
    ensures SameReading(m, locals, p, expected)
    decreases p, 0
  {
    var t := Reading(m, locals, p.target, TList);
    if t.Some? {
      ItemsWithout(m, locals, p.universal, p.variable, p.body, t.value.items);
    }
  }

  lemma {:induction false} ItemsWithout(m: Machine, locals: seq<JsLocal>, universal: bool, variable: Text, body: Plan,
                                        items: seq<JsVal>)
    ensures ReadingItems(DoubleMachine(m), DoubleLocals(locals), universal, variable, body, Doubles(JList(items)).items)
         == ReadingItems(m, locals, universal, variable, body, items)
    decreases body, 2, |items|
  {
    hide Reading, Passes;
    if items != [] {
      var inner := locals + [JsLocal(variable, items[0])];
      BigIntsAreNotRead(m, inner, body, TBool);
      ItemsWithout(m, locals, universal, variable, body, items[1..]);
      assert DoubleLocals(inner) == DoubleLocals(locals) + [JsLocal(variable, Doubles(items[0]))];
      assert Doubles(JList(items)).items[1..] == Doubles(JList(items[1..])).items;
      ReadBool(m, inner, body);
    }
  }

  lemma {:induction false} ReadBool(m: Machine, locals: seq<JsLocal>, p: Plan)
    ensures Reading(m, locals, p, TBool).Some? ==> Reading(m, locals, p, TBool).value.JBool?
  {
    hide Reading;
  }

  lemma {:induction false} UnaryWithout(m: Machine, locals: seq<JsLocal>, p: Plan, expected: PlainType)
    requires IsUnary(p)
    requires OperandType(p).Some? ==> SameReading(m, locals, Operand(p), OperandType(p).value)
    ensures SameReading(m, locals, p, expected)
  {
    hide Reading, Passes;
    UnaryIsChecked(m, locals, p, expected);
    UnaryIsChecked(DoubleMachine(m), DoubleLocals(locals), p, expected);
    if OperandType(p).Some? {
      var v := Reading(m, locals, Operand(p), OperandType(p).value);
      if v.Some? {
        AnswerWithout(m, p, v.value);
      }
    }
  }

  lemma {:induction false} AnswerWithout(m: Machine, p: Plan, v: JsVal)
    requires IsUnary(p)
    ensures UnaryAnswer(DoubleMachine(m), p, Doubles(v)) == UnaryAnswer(m, p, v)
    ensures UnaryAnswer(m, p, v).Some? ==> var a := UnaryAnswer(m, p, v).value; a.JBool? || a.JNumber?
  {
  }

  lemma {:induction false} BinaryWithout(m: Machine, locals: seq<JsLocal>, p: Plan, expected: PlainType)
    requires IsBinary(p)
    requires OperandsType(p).Some? ==> SameReading(m, locals, LeftOperand(p), OperandsType(p).value)
    requires OperandsType(p).Some? ==> SameReading(m, locals, RightOperand(p), OperandsType(p).value)
    ensures SameReading(m, locals, p, expected)
  {
    hide Reading, Passes, Apply2;
    ReadingIsChecked(m, locals, p, expected);
    ReadingIsChecked(DoubleMachine(m), DoubleLocals(locals), p, expected);
    if OperandsType(p).Some? {
      var kind := OperandsType(p).value;
      var l, r := Reading(m, locals, LeftOperand(p), kind), Reading(m, locals, RightOperand(p), kind);
      if l.Some? && r.Some? {
        PairWithout(m, JavaScriptEmitter.BinaryOp(p), l.value, r.value);
      }
    }
  }

  lemma {:induction false} PairWithout(m: Machine, op: Op2, l: JsVal, r: JsVal)
    requires op != OpEntry && op != OpItem
    ensures Apply2(DoubleMachine(m), op, Doubles(l), Doubles(r)) == Apply2(m, op, l, r)
    ensures Apply2(m, op, l, r).Val? ==> var a := Apply2(m, op, l, r).value; a.JBool? || a.JNumber?
  {
    hide ArithmeticInt, UnitsTested;
  }

  // ----- calls -----

  /** The JavaScript compiler takes the plans that the Python compiler takes. */
  lemma {:induction false} EmitsAccepted(p: Plan, expected: PlainType, scopes: seq<Emitter.Scope>, counter: nat)
    ensures JavaScriptEmitter.Emit(p, expected, scopes, counter).Some? <==> LazySemantics.Accepts(p, expected)
    decreases p, 2
  {
    match p
    case Ident(_) | BoolLit(_) | IntLit(_) | TextLit(_) | ListLit(_) | Nonsense =>
    case Select(target, _, _) => EmitsAccepted(target, TObject, scopes, counter);
    case Index(_, _) => IndexAccepted(p, expected, scopes, counter);
    case Logic(_, left, right) => BothAccepted(p, left, right, TBool, scopes, counter);
    case Cond(_, _, _) => CondAccepted(p, expected, scopes, counter);
    case Quantifier(_, _, _, _) => QuantifierAccepted(p, expected, scopes, counter);
    case Neg(_) | Not(_) | Size(_) | In(_, _) | Matches(_, _) => UnaryAccepted(p, expected, scopes, counter);
    case Compare(_, _, _) | Arith(_, _, _) | Test(_, _, _) => BinaryAccepted(p, expected, scopes, counter);
  }

  lemma {:induction false} IndexAccepted(p: Plan, expected: PlainType, scopes: seq<Emitter.Scope>, counter: nat)
    requires p.Index?
    ensures JavaScriptEmitter.Emit(p, expected, scopes, counter).Some? <==> LazySemantics.Accepts(p, expected)
    decreases p, 0
  {
    EmitsAccepted(p.target, IndexedType(p), scopes, counter);
    var t := JavaScriptEmitter.Emit(p.target, IndexedType(p), scopes, counter);
    if t.Some? {
      EmitsAccepted(p.key, KeyType(p.key), scopes, t.value.counter);
    }
  }

  lemma {:induction false} CondAccepted(p: Plan, expected: PlainType, scopes: seq<Emitter.Scope>, counter: nat)
    requires p.Cond?
    ensures JavaScriptEmitter.Emit(p, expected, scopes, counter).Some? <==> LazySemantics.Accepts(p, expected)
    decreases p, 0
  {
    EmitsAccepted(p.condition, TBool, scopes, counter);
    var c := JavaScriptEmitter.Emit(p.condition, TBool, scopes, counter);
    if c.Some? {
      EmitsAccepted(p.yes, expected, scopes, c.value.counter);
      var y := JavaScriptEmitter.Emit(p.yes, expected, scopes, c.value.counter);
      if y.Some? {
        EmitsAccepted(p.no, expected, scopes, y.value.counter);
      }
    }
  }

  lemma {:induction false} QuantifierAccepted(p: Plan, expected: PlainType, scopes: seq<Emitter.Scope>, counter: nat)
    requires p.Quantifier?
    ensures JavaScriptEmitter.Emit(p, expected, scopes, counter).Some? <==> LazySemantics.Accepts(p, expected)
    decreases p, 0
  {
    EmitsAccepted(p.target, TList, scopes, counter);
    var t := JavaScriptEmitter.Emit(p.target, TList, scopes, counter);
    if t.Some? {
      var e := t.value.counter + 1;
      EmitsAccepted(p.body, TBool, scopes + [Emitter.Scope(p.variable, e)], e);
    }
  }

  lemma {:induction false} UnaryAccepted(p: Plan, expected: PlainType, scopes: seq<Emitter.Scope>, counter: nat)
    requires IsUnary(p)
    ensures JavaScriptEmitter.Emit(p, expected, scopes, counter).Some? <==> LazySemantics.Accepts(p, expected)
    decreases p, 0
  {
    if OperandType(p).Some? {
      EmitsAccepted(Operand(p), OperandType(p).value, scopes, counter);
    }
  }

  lemma {:induction false} BinaryAccepted(p: Plan, expected: PlainType, scopes: seq<Emitter.Scope>, counter: nat)
    requires IsBinary(p)
    ensures JavaScriptEmitter.Emit(p, expected, scopes, counter).Some? <==> LazySemantics.Accepts(p, expected)
    decreases p, 1
  {
    if OperandsType(p).Some? {
      BothAccepted(p, LeftOperand(p), RightOperand(p), OperandsType(p).value, scopes, counter);
    }
  }

  lemma {:induction false} BothAccepted(p: Plan, left: Plan, right: Plan, expected: PlainType,
                                        scopes: seq<Emitter.Scope>, counter: nat)
    requires left < p && right < p
    ensures var l := JavaScriptEmitter.Emit(left, expected, scopes, counter);
            (l.Some? && JavaScriptEmitter.Emit(right, expected, scopes, l.value.counter).Some?) <==>
              LazySemantics.Accepts(left, expected) && LazySemantics.Accepts(right, expected)
    decreases p, 0
  {
    EmitsAccepted(left, expected, scopes, counter);
    var l := JavaScriptEmitter.Emit(left, expected, scopes, counter);
    if l.Some? {
      EmitsAccepted(right, expected, scopes, l.value.counter);
    }
  }

  lemma {:induction false} RefusedPlans(p: Plan)
    ensures JavaScriptEmitter.Compile(p).Some? <==>
              (Infer(p) == Some(TBool) || Infer(p) == Some(TText)) && LazySemantics.Accepts(p, Infer(p).value)
  {
    if Infer(p).Some? {
      EmitsAccepted(p, Infer(p).value, [], 0);
    }
  }

  /** The bindings are an object without dotted names, and evaluation meets plain data only: of numbers, safe integers,
      and of integers, numbers. */
  ghost predicate Answerable(host: Engine.Host, p: Plan, b: map<Text, JsVal>) {
    && Infer(p).Some?
    && (forall name :: name in b ==> 0x2E !in name)
    && OnPlainData(host, SAFE, CelBindings(Doubles(JObject(b)).fields), [], p, Infer(p).value, true)
  }

  lemma {:induction false} ReadingOnPlainData(host: Engine.Host, m: Machine, p: Plan, expected: PlainType)
    requires Rounding(m.fl) && Planned(p) && m.run == LiteralPatterns(host) && CompiledPlans.NoBuiltinNames(host, p)
    requires LazySemantics.Accepts(p, expected) && expected != TAny && Admits(JObject(m.bindings))
    requires Physical(JObject(m.bindings))
    ensures Reading(m, [], p, expected).Some? <==>
              OnPlainData(host, SAFE, CelBindings(DoubleMachine(m).bindings), [], p, expected, true)
  {
    hide Rounding, Planned, Reading, LazySemantics.Accepts, OnPlainData, Cel, Doubles;
    var m' := DoubleMachine(m);
    assert m'.run == LiteralPatterns(host) && m'.fl == m.fl;
    BigIntsAreNotRead(m, [], p, expected);
    assert DoubleLocals([]) == [] && CelLocals([]) == [] && Engine.LocalNames([]) == {};
    DoublesOrdinary(JObject(m.bindings));
    DoubleNames(m.bindings);
    DottedHaveDots(p, {});
    ReadsExactly(host, m', [], p, expected, true);
  }

  lemma {:induction false} DoubleNames(b: map<Text, JsVal>)
    ensures Doubles(JObject(b)) == JObject(Doubles(JObject(b)).fields)
    ensures Doubles(JObject(b)).fields.Keys == b.Keys
    ensures forall k :: k in CelBindings(Doubles(JObject(b)).fields) <==> k.TextKey? && k.t in b
  {
  }

  /** Calls answer exactly on plain data, with the CEL result. */
  lemma {:induction false} AnswersOnPlainData(host: Engine.Host, p: Plan, fl: real -> real, b: map<Text, JsVal>)
    requires Rounding(fl) && Planned(p) && CompiledPlans.NoBuiltinNames(host, p) && Physical(JObject(b))
    requires JavaScriptEmitter.Compile(p).Some?
    ensures var r := Compiled(host, p, fl, b);
            && (r.Val? <==> Answerable(host, p, b))
            && (r.Val? ==> Engine.Eval(host, CelBindings(b), [], p) == Engine.Ok(Cel(r.value)))
  {
    hide Rounding, Planned, Reading, LazySemantics.Accepts, OnPlainData, Cel, Doubles, JavaScriptEmitter.Compile, Eval,
         Engine.Eval;
    RefusedPlans(p);
    CallsAnswerTheReading(p, fl, LiteralPatterns(host), JObject(b));
    AnswersAreCel(p, fl, LiteralPatterns(host), host, JObject(b));
    if Admits(JObject(b)) {
      var m := Machine(fl, LiteralPatterns(host), b, JavaScriptEmitter.Compile(p).value.declared);
      ReadingOnPlainData(host, m, p, Infer(p).value);
    }
  }
}
