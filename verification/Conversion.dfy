/** Programs that only read what converts: where every text that is read is checked, what does not convert is as good as
    absent. */
module Conversion {
  import opened Values
  import opened Plans
  import opened PythonTarget
  import opened LazySemantics
  import opened Emitter
  import opened CompiledPlans
  import opened Contract
  import opened Engine

  // ----- bindings without what does not convert -----

  /** What does not convert is replaced by `None`, and entries whose keys do not convert are dropped. */
  function Strip(host: Host, v: Value): (r: Value)
    ensures v.VMap? ==> r.VMap? && r.fields.Keys == ConvertedKeys(v.fields)
    ensures v.VMap? ==> forall k :: k in r.fields ==> r.fields[k] == Strip(host, v.fields[k])
  {
    match v
    case VBool(_) => v
    case VInt(n) => if IsInt64(n) then v else NONE
    case VText(t) => if WellFormed(t) then v else NONE
    case VList(items) => VList(seq(|items|, i requires 0 <= i < |items| => Strip(host, items[i])))
    case VMap(fields) => VMap(map k | k in ConvertedKeys(fields) :: Strip(host, fields[k]))
    case Foreign(tag) => if v == NONE || host.converts(tag) then v else NONE
  }

  function ConvertedKeys(fields: map<Key, Value>): (r: set<Key>)
    ensures forall k :: k in r <==> k in fields && KeyConverts(k)
  {
    set k | k in fields && KeyConverts(k)
  }

  function StripBindings(host: Host, b: Bindings): (r: Bindings)
    ensures forall t :: TextKey(t) in r <==> TextKey(t) in b && WellFormed(t)
    ensures forall k :: k in r ==> k.TextKey? && KeyConverts(k) && k in b && r[k] == Strip(host, b[k])
  {
    map k | k in b && k.TextKey? && KeyConverts(k) :: Strip(host, b[k])
  }

  lemma {:induction false} StrippedConverts(host: Host, v: Value)
    ensures ValueConverts(host, Strip(host, v))
    decreases v
  {
    match v
    case VList(items) =>
      forall i | 0 <= i < |items| ensures ValueConverts(host, Strip(host, items[i])) {
        StrippedConverts(host, items[i]);
      }
    case VMap(fields) =>
      forall k | k in ConvertedKeys(fields) ensures ValueConverts(host, Strip(host, fields[k])) {
        StrippedConverts(host, fields[k]);
      }
    case _ =>
  }

  /** Stripped bindings convert, but for the limits; and bindings that convert have nothing to strip. */
  lemma {:induction false} StrippedBindingsConvert(host: Host, b: Bindings)
    ensures Converts(host, StripBindings(host, b)) <==> host.affords(StripBindings(host, b))
    ensures Converts(host, b) ==> StripBindings(host, b) == b
  {
    forall k | k in StripBindings(host, b) ensures ValueConverts(host, StripBindings(host, b)[k]) {
      StrippedConverts(host, b[k]);
    }
    if Converts(host, b) {
      forall k | k in b ensures Strip(host, b[k]) == b[k] {
        NothingToStrip(host, b[k]);
      }
    }
  }

  lemma {:induction false} NothingToStrip(host: Host, v: Value)
    requires ValueConverts(host, v)
    ensures Strip(host, v) == v
    decreases v
  {
    match v
    case VList(items) =>
      forall i | 0 <= i < |items| ensures Strip(host, items[i]) == items[i] {
        NothingToStrip(host, items[i]);
      }
      assert Strip(host, v).items == items;
    case VMap(fields) =>
      forall k | k in fields ensures Strip(host, fields[k]) == fields[k] {
        NothingToStrip(host, fields[k]);
      }
      assert Strip(host, v).fields == fields;
    case _ =>
  }

  // ----- programs that check what they read -----

  /** The names and literals of a plan are well formed: it comes from source text. */
  predicate Spelled(p: Plan) {
    match p
    case TextLit(t) => WellFormed(t)
    case Ident(name) => WellFormed(name)
    case Select(target, field, _) => Spelled(target) && WellFormed(field)
    case Index(target, key) => Spelled(target) && Spelled(key)
    case Logic(_, left, right) => Spelled(left) && Spelled(right)
    case Quantifier(_, target, _, body) => Spelled(target) && Spelled(body)
    case Cond(condition, yes, no) => Spelled(condition) && Spelled(yes) && Spelled(no)
    case Neg(_) | Not(_) | Size(_) | In(_, _) | Matches(_, _) => Spelled(Operand(p))
    case Compare(_, _, _) | Arith(_, _, _) | Test(_, _, _) => Spelled(LeftOperand(p)) && Spelled(RightOperand(p))
    case BoolLit(_) | IntLit(_) | ListLit(_) | Nonsense => true
  }

  /** No text is read without its well-formedness check: none is compared with a literal, tested against one, looked up
      in a list of literals, or used as a key. */
  predicate ChecksTexts(p: Plan, expected: PlainType, checkedText: bool) {
    match p
    case Ident(_) => expected == TText ==> checkedText
    case Select(target, _, _) => (expected == TText ==> checkedText) && ChecksTexts(target, TObject, true)
    case Index(target, key) =>
      && (expected == TText ==> checkedText)
      && ChecksTexts(target, IndexedType(p), true) && ChecksTexts(key, KeyType(key), KeyType(key) != TText)
    case Logic(_, left, right) => ChecksTexts(left, TBool, true) && ChecksTexts(right, TBool, true)
    case Quantifier(_, target, _, body) => ChecksTexts(target, TList, true) && ChecksTexts(body, TBool, true)
    case Cond(condition, yes, no) =>
      ChecksTexts(condition, TBool, true) && ChecksTexts(yes, expected, true) && ChecksTexts(no, expected, true)
    case Neg(_) | Not(_) | Size(_) | In(_, _) | Matches(_, _) =>
      OperandType(p).Some? ==> ChecksTexts(Operand(p), OperandType(p).value, OperandChecked(p))
    case Compare(_, _, _) | Arith(_, _, _) | Test(_, _, _) =>
      OperandsType(p).Some? ==>
        && ChecksTexts(LeftOperand(p), OperandsType(p).value, OperandsChecked(p))
        && ChecksTexts(RightOperand(p), OperandsType(p).value, OperandsChecked(p))
    case BoolLit(_) | IntLit(_) | TextLit(_) | ListLit(_) | Nonsense => true
  }

  /** Two readings of one plan, before and after stripping: both give up, or the second value is the first one stripped,
      and the same integer or boolean. A read of any type may give two values that no operator takes. */
  ghost predicate Stripped(host: Host, expected: PlainType, v: Option<Value>, w: Option<Value>) {
    && (v.Some? <==> w.Some?)
    && (v.Some? ==>
          || (w.value == (if v.value.VInt? then v.value else Strip(host, v.value)) && !w.value.Foreign?)
          || (expected == TAny && w.value.Foreign? && Strip(host, v.value).Foreign?))
  }

  function StripLocals(host: Host, locals: seq<Local>): seq<Local> {
    seq(|locals|, i requires 0 <= i < |locals| => Local(locals[i].name, Strip(host, locals[i].value)))
  }

  function StripMachine(host: Host, m: Machine): Machine {
    Machine(m.matcher, StripBindings(host, m.bindings))
  }

  ghost predicate ReadsStripped(host: Host, m: Machine, locals: seq<Local>, p: Plan, expected: PlainType, ct: bool) {
    Stripped(host, expected, Lazy(m, locals, p, expected, ct),
             Lazy(StripMachine(host, m), StripLocals(host, locals), p, expected, ct))
  }

  /** A guarded read. */
  lemma {:induction false} CheckedStripped(host: Host, v: Value, w: Value, expected: PlainType, ct: bool)
    requires w == Strip(host, v) || (w.Foreign? && v.Foreign?)
    requires expected == TText ==> ct
    ensures Stripped(host, expected, Checked_(v, expected, ct), Checked_(w, expected, ct))
  {
  }

  lemma {:induction false} GetStripped(host: Host, fields: map<Key, Value>, name: Text)
    requires WellFormed(name)
    ensures var w := Get(Strip(host, VMap(fields)).fields, name);
            w == Strip(host, Get(fields, name)) || (w.Foreign? && Get(fields, name).Foreign?)
  {
  }

  lemma {:induction false} LocalStripped(host: Host, locals: seq<Local>, name: Text)
    ensures match FindLocal(locals, name)
            case Some(v) => FindLocal(StripLocals(host, locals), name) == Some(Strip(host, v))
            case None => FindLocal(StripLocals(host, locals), name).None?
  {
    if locals != [] {
      var n := |locals| - 1;
      LocalStripped(host, locals[..n], name);
      assert StripLocals(host, locals)[..n] == StripLocals(host, locals[..n]);
    }
  }

  lemma {:induction false} ReadingStripped(host: Host, m: Machine, locals: seq<Local>, p: Plan, expected: PlainType,
                                           ct: bool)
    requires Spelled(p) && ChecksTexts(p, expected, ct)
    ensures ReadsStripped(host, m, locals, p, expected, ct)
    decreases p, 1
  {
    if p.BoolLit? || p.IntLit? || p.TextLit? || p.ListLit? || p.Nonsense? {
      return;
    }
    hide Spelled, ChecksTexts, ReadsStripped;
    match p
    case BoolLit(_) | IntLit(_) | TextLit(_) | ListLit(_) | Nonsense =>
    case Ident(_) => IdentStripped(host, m, locals, p, expected, ct);
    case Select(_, _, _) => SelectStripped(host, m, locals, p, expected, ct);
    case Index(_, _) => IndexStripped(host, m, locals, p, expected, ct);
    case Logic(_, _, _) => LogicStripped(host, m, locals, p, expected, ct);
    case Quantifier(_, _, _, _) => QuantifierStripped(host, m, locals, p, expected, ct);
    case Cond(_, _, _) => CondStripped(host, m, locals, p, expected, ct);
    case Neg(_) | Not(_) | Size(_) | In(_, _) | Matches(_, _) => UnaryStripped(host, m, locals, p, expected, ct);
    case Compare(_, _, _) | Arith(_, _, _) | Test(_, _, _) => BinaryStripped(host, m, locals, p, expected, ct);
  }

  lemma {:induction false} IdentStripped(host: Host, m: Machine, locals: seq<Local>, p: Plan, expected: PlainType,
                                         ct: bool)
    requires p.Ident? && Spelled(p) && ChecksTexts(p, expected, ct)
    ensures ReadsStripped(host, m, locals, p, expected, ct)
  {
    LocalStripped(host, locals, p.name);
    match FindLocal(locals, p.name)
    case Some(v) => CheckedStripped(host, v, Strip(host, v), expected, ct);
    case None =>
      CheckedStripped(host, Get(m.bindings, p.name), Get(StripBindings(host, m.bindings), p.name), expected, ct);
  }

  lemma {:induction false} SelectStripped(host: Host, m: Machine, locals: seq<Local>, p: Plan, expected: PlainType,
                                          ct: bool)
    requires p.Select? && Spelled(p) && ChecksTexts(p, expected, ct)
    ensures ReadsStripped(host, m, locals, p, expected, ct)
    decreases p, 0
  {
    ReadingStripped(host, m, locals, p.target, TObject, true);
    var t := LazyObject(m, locals, p.target);
    if t.Some? {
      GetStripped(host, t.value, p.field);
      CheckedStripped(host, Get(t.value, p.field), Get(Strip(host, VMap(t.value)).fields, p.field), expected, ct);
    }
  }

  /** The only text keys that are not checked are literals. */
  lemma {:induction false} KeyIsSpelled(m: Machine, locals: seq<Local>, key: Plan)
    requires Spelled(key) && KeyType(key) == TText && ChecksTexts(key, TText, false)
    requires LazyText(m, locals, key, false).Some?
    ensures WellFormed(LazyText(m, locals, key, false).value)
  {
    if key.Cond? {
      ConditionalIsChecked(m, locals, key);
    }
  }

  lemma {:induction false} ConditionalIsChecked(m: Machine, locals: seq<Local>, p: Plan)
    requires Spelled(p) && Lazy(m, locals, p, TText, true).Some?
    ensures WellFormed(Lazy(m, locals, p, TText, true).value.t)
  {
    if p.Cond? {
      ConditionalIsChecked(m, locals, if LazyBool(m, locals, p.condition).value then p.yes else p.no);
    }
  }

  lemma {:induction false} IndexStripped(host: Host, m: Machine, locals: seq<Local>, p: Plan, expected: PlainType,
                                         ct: bool)
    requires p.Index? && Spelled(p) && ChecksTexts(p, expected, ct)
    ensures ReadsStripped(host, m, locals, p, expected, ct)
    decreases p, 0
  {
    hide Lazy, Strip, Stripped, Infer;
    ReadingStripped(host, m, locals, p.target, IndexedType(p), true);
    ReadingStripped(host, m, locals, p.key, KeyType(p.key), KeyType(p.key) != TText);
    if KeyType(p.key) == TText {
      EntryStripped(host, m, locals, p, expected, ct);
    } else {
      ItemStripped(host, m, locals, p, expected, ct);
    }
  }

  /** The object and the key of an index into an object. */
  lemma {:induction false} EntryOperands(host: Host, m: Machine, locals: seq<Local>, p: Plan)
    requires p.Index? && KeyType(p.key) == TText && Spelled(p.key) && ChecksTexts(p.key, TText, false)
    requires ReadsStripped(host, m, locals, p.target, TObject, true)
    requires ReadsStripped(host, m, locals, p.key, TText, false)
    ensures var m', locals' := StripMachine(host, m), StripLocals(host, locals);
            && LazyObject(m', locals', p.target)
               == (match LazyObject(m, locals, p.target)
                   case Some(fields) => Some(Strip(host, VMap(fields)).fields)
                   case None => None)
            && LazyText(m', locals', p.key, false) == LazyText(m, locals, p.key, false)
    ensures LazyText(m, locals, p.key, false).Some? ==> WellFormed(LazyText(m, locals, p.key, false).value)
  {
    hide Spelled, ChecksTexts, WellFormed, KeyType;
    if LazyText(m, locals, p.key, false).Some? {
      KeyIsSpelled(m, locals, p.key);
    }
  }

  lemma {:induction false} EntryStripped(host: Host, m: Machine, locals: seq<Local>, p: Plan, expected: PlainType,
                                         ct: bool)
    requires p.Index? && KeyType(p.key) == TText && Spelled(p) && ChecksTexts(p, expected, ct)
    requires ReadsStripped(host, m, locals, p.target, TObject, true)
    requires ReadsStripped(host, m, locals, p.key, TText, false)
    ensures ReadsStripped(host, m, locals, p, expected, ct)
  {
    var t, k := LazyObject(m, locals, p.target), LazyText(m, locals, p.key, false);
    EntryOperands(host, m, locals, p);
    hide Strip, LazyObject, LazyText, Get, Checked_;
    if t.Some? && k.Some? {
      GetStripped(host, t.value, k.value);
      CheckedStripped(host, Get(t.value, k.value), Get(Strip(host, VMap(t.value)).fields, k.value), expected, ct);
    }
  }

  lemma {:induction false} ItemStripped(host: Host, m: Machine, locals: seq<Local>, p: Plan, expected: PlainType,
                                        ct: bool)
    requires p.Index? && KeyType(p.key) != TText && ChecksTexts(p, expected, ct)
    requires ReadsStripped(host, m, locals, p.target, TList, true)
    requires ReadsStripped(host, m, locals, p.key, KeyType(p.key), true)
    ensures ReadsStripped(host, m, locals, p, expected, ct)
  {
    var xs, k := LazyList(m, locals, p.target), LazyInt(m, locals, p.key);
    if KeyType(p.key) == TInt && xs.Some? && k.Some? {
      var v := if 0 <= k.value < |xs.value| then xs.value[k.value] else MISSING;
      var w := if 0 <= k.value < |xs.value| then Strip(host, v) else MISSING;
      CheckedStripped(host, v, w, expected, ct);
    }
  }

  lemma {:induction false} LogicStripped(host: Host, m: Machine, locals: seq<Local>, p: Plan, expected: PlainType,
                                         ct: bool)
    requires p.Logic? && Spelled(p) && ChecksTexts(p, expected, ct)
    ensures ReadsStripped(host, m, locals, p, expected, ct)
    decreases p, 0
  {
    ReadingStripped(host, m, locals, p.left, TBool, true);
    ReadingStripped(host, m, locals, p.right, TBool, true);
  }

  lemma {:induction false} CondReads(m: Machine, locals: seq<Local>, p: Plan, expected: PlainType, ct: bool)
    requires p.Cond?
    ensures var c := Lazy(m, locals, p.condition, TBool, true);
            Lazy(m, locals, p, expected, ct) ==
            (if expected in {TObject, TList, TAny} || c.None? then None
             else Lazy(m, locals, if c.value.b then p.yes else p.no, expected, true))
  {
  }

  lemma {:induction false} CondStripped(host: Host, m: Machine, locals: seq<Local>, p: Plan, expected: PlainType,
                                        ct: bool)
    requires p.Cond? && Spelled(p) && ChecksTexts(p, expected, ct)
    ensures ReadsStripped(host, m, locals, p, expected, ct)
    decreases p, 0
  {
    hide Lazy, Strip, Infer;
    ReadingStripped(host, m, locals, p.condition, TBool, true);
    SameScalars(host, m, locals, p.condition, TBool, true);
    ReadingStripped(host, m, locals, p.yes, expected, true);
    ReadingStripped(host, m, locals, p.no, expected, true);
    CondReads(m, locals, p, expected, ct);
    CondReads(StripMachine(host, m), StripLocals(host, locals), p, expected, ct);
  }

  lemma {:induction false} QuantifierStripped(host: Host, m: Machine, locals: seq<Local>, p: Plan, expected: PlainType,
                                              ct: bool)
    requires p.Quantifier? && Spelled(p) && ChecksTexts(p, expected, ct)
    ensures ReadsStripped(host, m, locals, p, expected, ct)
    decreases p, 0
  {
    ReadingStripped(host, m, locals, p.target, TList, true);
    var xs := LazyList(m, locals, p.target);
    if xs.Some? {
      ItemsStripped(host, m, locals, p.universal, p.variable, p.body, xs.value);
    }
  }

  lemma {:induction false} ItemsStripped(host: Host, m: Machine, locals: seq<Local>, universal: bool, variable: Text,
                                         body: Plan,
                                         items: seq<Value>)
    requires Spelled(body) && ChecksTexts(body, TBool, true)
    ensures LazyItems(StripMachine(host, m), StripLocals(host, locals), universal, variable, body,
                      Strip(host, VList(items)).items)
         == LazyItems(m, locals, universal, variable, body, items)
    decreases body, 2, |items|
  {
    hide Spelled, ChecksTexts;
    if items != [] {
      var inner := locals + [Local(variable, items[0])];
      assert StripLocals(host, inner) == StripLocals(host, locals) + [Local(variable, Strip(host, items[0]))];
      ReadingStripped(host, m, inner, body, TBool, true);
      ItemsStripped(host, m, locals, universal, variable, body, items[1..]);
      assert Strip(host, VList(items)).items[1..] == Strip(host, VList(items[1..])).items;
    }
  }

  lemma {:induction false} UnaryStripped(host: Host, m: Machine, locals: seq<Local>, p: Plan, expected: PlainType,
                                         ct: bool)
    requires IsUnary(p) && Spelled(p) && ChecksTexts(p, expected, ct)
    ensures ReadsStripped(host, m, locals, p, expected, ct)
    decreases p, 0
  {
    hide Lazy, LazyUnary, Strip, Stripped;
    OperatorReads(host, m, locals, p, expected, ct);
    if OperandType(p).Some? {
      var kind := OperandType(p).value;
      ReadingStripped(host, m, locals, Operand(p), kind, OperandChecked(p));
      UnarySame(host, m, locals, p, Lazy(m, locals, Operand(p), kind, OperandChecked(p)),
                Lazy(StripMachine(host, m), StripLocals(host, locals), Operand(p), kind, OperandChecked(p)));
    } else {
      UnaryRefused(m, locals, p);
      UnaryRefused(StripMachine(host, m), StripLocals(host, locals), p);
    }
  }

  lemma {:induction false} UnaryRefused(m: Machine, locals: seq<Local>, p: Plan)
    requires IsUnary(p) && OperandType(p).None?
    ensures LazyUnary(m, locals, p).None?
  {
  }

  /** The reading of an operator is the same before and after when its answer is. */
  lemma {:induction false} OperatorReads(host: Host, m: Machine, locals: seq<Local>, p: Plan, expected: PlainType,
                                         ct: bool)
    requires IsUnary(p) || IsBinary(p)
    ensures var m', locals' := StripMachine(host, m), StripLocals(host, locals);
            (if IsUnary(p) then LazyUnary(m, locals, p) == LazyUnary(m', locals', p)
             else LazyBinary(m, locals, p) == LazyBinary(m', locals', p)) ==>
              ReadsStripped(host, m, locals, p, expected, ct)
  {
    hide LazyUnary, LazyBinary;
  }

  lemma {:induction false} UnarySame(host: Host, m: Machine, locals: seq<Local>, p: Plan, v: Option<Value>,
                                     w: Option<Value>)
    requires IsUnary(p) && OperandType(p).Some? && Stripped(host, OperandType(p).value, v, w)
    requires v == Lazy(m, locals, Operand(p), OperandType(p).value, OperandChecked(p))
    requires w == Lazy(StripMachine(host, m), StripLocals(host, locals), Operand(p), OperandType(p).value,
                       OperandChecked(p))
    ensures LazyUnary(m, locals, p) == LazyUnary(StripMachine(host, m), StripLocals(host, locals), p)
  {
    hide Lazy;
    if v.Some? {
      OperandStripped(host, m, p, v.value, w.value);
    }
  }

  lemma {:induction false} OperandStripped(host: Host, m: Machine, p: Plan, v: Value, w: Value)
    requires IsUnary(p) && OperandType(p).Some? && Stripped(host, OperandType(p).value, Some(v), Some(w))
    requires HasType(v, OperandType(p).value) && HasType(w, OperandType(p).value)
    ensures Answers(UnaryResult(m, p, v)) == Answers(UnaryResult(StripMachine(host, m), p, w))
  {
    if OperandType(p) == Some(TAny) {
      SizeStripped(host, v, w);
    } else {
      ScalarStripped(host, OperandType(p).value, v, w);
    }
  }

  lemma {:induction false} SizeStripped(host: Host, v: Value, w: Value)
    requires Stripped(host, TAny, Some(v), Some(w))
    ensures Answers(SizeHelper(v)) == Answers(SizeHelper(w))
  {
  }

  lemma {:induction false} ScalarStripped(host: Host, kind: PlainType, v: Value, w: Value)
    requires kind in {TBool, TInt, TText} && Stripped(host, kind, Some(v), Some(w)) && HasType(v, kind)
    ensures v == w
  {
  }

  lemma {:induction false} BinaryStripped(host: Host, m: Machine, locals: seq<Local>, p: Plan, expected: PlainType,
                                          ct: bool)
    requires IsBinary(p) && Spelled(p) && ChecksTexts(p, expected, ct)
    ensures ReadsStripped(host, m, locals, p, expected, ct)
    decreases p, 0
  {
    hide Lazy, LazyBinary, Strip, Stripped;
    OperatorReads(host, m, locals, p, expected, ct);
    if OperandsType(p).Some? {
      ReadingStripped(host, m, locals, LeftOperand(p), OperandsType(p).value, OperandsChecked(p));
      ReadingStripped(host, m, locals, RightOperand(p), OperandsType(p).value, OperandsChecked(p));
      BinarySame(host, m, locals, p);
    } else {
      BinaryRefused(m, locals, p);
      BinaryRefused(StripMachine(host, m), StripLocals(host, locals), p);
    }
  }

  lemma {:induction false} BinaryRefused(m: Machine, locals: seq<Local>, p: Plan)
    requires IsBinary(p) && OperandsType(p).None?
    ensures LazyBinary(m, locals, p).None?
  {
  }

  lemma {:induction false} BinarySame(host: Host, m: Machine, locals: seq<Local>, p: Plan)
    requires IsBinary(p) && OperandsType(p).Some?
    requires ReadsStripped(host, m, locals, LeftOperand(p), OperandsType(p).value, OperandsChecked(p))
    requires ReadsStripped(host, m, locals, RightOperand(p), OperandsType(p).value, OperandsChecked(p))
    ensures LazyBinary(m, locals, p) == LazyBinary(StripMachine(host, m), StripLocals(host, locals), p)
  {
    hide Lazy;
    var kind, ct := OperandsType(p).value, OperandsChecked(p);
    assert kind in {TBool, TInt, TText} by { OperandsAreScalars(p); }
    SameScalars(host, m, locals, LeftOperand(p), kind, ct);
    SameScalars(host, m, locals, RightOperand(p), kind, ct);
  }

  lemma {:induction false} OperandsAreScalars(p: Plan)
    requires IsBinary(p) && OperandsType(p).Some?
    ensures OperandsType(p).value in {TBool, TInt, TText}
  {
    var kind := OperandsType(p).value;
    assert kind != TObject && kind != TList && kind != TAny;
    match kind
    case TBool | TInt | TText | TObject | TList | TAny =>
  }

  lemma {:induction false} SameScalars(host: Host, m: Machine, locals: seq<Local>, p: Plan, kind: PlainType, ct: bool)
    requires kind in {TBool, TInt, TText} && ReadsStripped(host, m, locals, p, kind, ct)
    ensures Lazy(m, locals, p, kind, ct) == Lazy(StripMachine(host, m), StripLocals(host, locals), p, kind, ct)
  {
    hide Lazy;
    var v, w := Lazy(m, locals, p, kind, ct), Lazy(StripMachine(host, m), StripLocals(host, locals), p, kind, ct);
    if v.Some? {
      ScalarStripped(host, kind, v.value, w.value);
    }
  }

  // ----- whole programs -----

  lemma {:induction false} AdmitsStripped(host: Host, p: Plan, b: Bindings)
    requires Spelled(p)
    ensures Admits(p, VMap(b)) <==> Admits(p, VMap(StripBindings(host, b)))
  {
    DottedAreSpelled(p, {});
    RootsAreSpelled(p, false, {});
    forall name | name in ObjectRoots(p, false, {})
      ensures Get(b, name).VMap? <==> Get(StripBindings(host, b), name).VMap?
    {
    }
  }

  lemma {:induction false} NameIsSpelled(p: Plan)
    requires Spelled(p) && QualifiedName(p).Some?
    ensures WellFormed(QualifiedName(p).value)
  {
    if p.Select? {
      NameIsSpelled(p.target);
    }
  }

  lemma {:induction false} DottedAreSpelled(p: Plan, names: set<Text>)
    requires Spelled(p)
    ensures forall q :: q in DottedNames(p, names) ==> WellFormed(q)
  {
    match p
    case Select(target, _, _) =>
      DottedAreSpelled(target, names);
      if QualifiedName(p).Some? {
        NameIsSpelled(p);
      }
    case Index(target, key) => DottedAreSpelled(target, names); DottedAreSpelled(key, names);
    case Logic(_, left, right) => DottedAreSpelled(left, names); DottedAreSpelled(right, names);
    case Quantifier(_, target, variable, body) =>
      DottedAreSpelled(target, names);
      DottedAreSpelled(body, names + {variable});
    case Cond(condition, yes, no) =>
      DottedAreSpelled(condition, names);
      DottedAreSpelled(yes, names);
      DottedAreSpelled(no, names);
    case Neg(_) | Not(_) | Size(_) | In(_, _) | Matches(_, _) => DottedAreSpelled(Operand(p), names);
    case Compare(_, _, _) | Arith(_, _, _) | Test(_, _, _) =>
      DottedAreSpelled(LeftOperand(p), names);
      DottedAreSpelled(RightOperand(p), names);
    case Ident(_) | BoolLit(_) | IntLit(_) | TextLit(_) | ListLit(_) | Nonsense =>
  }

  lemma {:induction false} RootsAreSpelled(p: Plan, asObject: bool, names: set<Text>)
    requires Spelled(p)
    ensures forall name :: name in ObjectRoots(p, asObject, names) ==> WellFormed(name)
  {
    match p
    case Select(target, _, _) => RootsAreSpelled(target, true, names);
    case Index(target, key) =>
      RootsAreSpelled(target, KeyType(key) == TText, names);
      RootsAreSpelled(key, false, names);
    case Logic(_, left, right) => RootsAreSpelled(left, false, names); RootsAreSpelled(right, false, names);
    case Quantifier(_, target, variable, body) =>
      RootsAreSpelled(target, false, names);
      RootsAreSpelled(body, false, names + {variable});
    case Cond(condition, yes, no) =>
      RootsAreSpelled(condition, false, names);
      RootsAreSpelled(yes, false, names);
      RootsAreSpelled(no, false, names);
    case Neg(_) | Not(_) | Size(_) | In(_, _) | Matches(_, _) => RootsAreSpelled(Operand(p), false, names);
    case Compare(_, _, _) | Arith(_, _, _) | Test(_, _, _) =>
      RootsAreSpelled(LeftOperand(p), false, names);
      RootsAreSpelled(RightOperand(p), false, names);
    case Ident(_) | BoolLit(_) | IntLit(_) | TextLit(_) | ListLit(_) | Nonsense =>
  }

  /** Where every text that is read is checked, nothing that is read fails to convert: a call does the same on the
      bindings without everything that does not convert, and its answer is the engine's answer for those. */
  lemma {:induction false} CheckedTextsConvert(host: Host, p: Plan, b: Bindings)
    requires Sound(host, p) && AcceptedPatterns(host, p)
    requires CompilePlain(AsWritten, p).Some? && Spelled(p) && ChecksTexts(p, Infer(p).value, true)
    ensures var f, stripped := CompilePlain(AsWritten, p).value, StripBindings(host, b);
            var a := Call(f, LiteralPatterns(host), VMap(b));
            && Call(f, LiteralPatterns(host), VMap(stripped)) == a
            && (a.Answered? && host.affords(stripped) ==> Engine.Evaluate(host, stripped, p) == Evaluated(Ok(a.value)))
  {
    hide Call, CompilePlain, Eval, Admits, Lazy, NoBuiltinNames, Converts, StripBindings, Spelled, ChecksTexts;
    var matcher, stripped := LiteralPatterns(host), StripBindings(host, b);
    AcceptedNeverRaises(host, p);
    SafeCalls(p, matcher, VMap(b));
    SafeCalls(p, matcher, VMap(stripped));
    AdmitsStripped(host, p, b);
    CompiledIsScalar(p);
    ReadingStripped(host, Machine(matcher, b), [], p, Infer(p).value, true);
    assert StripLocals(host, []) == [];
    SameScalars(host, Machine(matcher, b), [], p, Infer(p).value, true);
    StrippedBindingsConvert(host, b);
    if Call(CompilePlain(AsWritten, p).value, matcher, VMap(stripped)).Answered? {
      AnswersAreCel(AsWritten, p, matcher, host, VMap(stripped));
    }
  }

  lemma {:induction false} CompiledIsScalar(p: Plan)
    requires CompilePlain(AsWritten, p).Some?
    ensures Infer(p) == Some(TBool) || Infer(p) == Some(TText)
  {
  }
}
