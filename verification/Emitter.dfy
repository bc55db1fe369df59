/** The compiler as a function of its state: what each visit of a plan node appends, allocates and remembers. */
module Emitter {
  import opened Values
  import opened Plans
  import opened PythonTarget

  /** The key of the object cache: a root is kept under the empty indentation and its name; any other object under the
      indentation of its read, in steps of four spaces, and the text `v7.field`. Field names hold no dot, so that text
      determines the variable and the field, and no root name equals it. */
  datatype CacheKey = RootKey(name: Text) | ObjectKey(indent: nat, target: Var, field: Text)

  type Cache = map<CacheKey, Var>

  datatype Scope = Scope(name: Text, v: Var)

  /** Where an object variable was read from: a root binding and the fields selected from it. */
  datatype Path = Path(root: Text, fields: seq<Text>)

  /** How a `?:` leaves its cache. The source assigns the dictionary it saved before the branches to the `else` part as
      well, without copying it again, so what the `else` part reads is still cached afterwards (`AsWritten`). `Scoped`
      does what the comment on the cache says: a read made inside a branch is not in scope after it. Hoisted roots are
      read at the start of the function, so they stay. */
  datatype CacheMode = AsWritten | Scoped

  /** `objects` is the dictionary in use. `entry` is the present content of the dictionary that was in use when the
      current `else` part began, and `aliased` tells whether the two are still one object: every nested block replaces
      the dictionary in use by a copy. `paths` only records provenance. */
  datatype State = State(
    counter: nat,
    objects: Cache,
    entry: Cache,
    aliased: bool,
    roots: seq<HoistedRead>,
    dotted: set<Text>,
    scopes: seq<Scope>,
    paths: map<Var, Path>)

  datatype Emitted = Emitted(code: seq<Stmt>, e: Expr, st: State)

  const START: State := State(0, map[], map[], false, [], {}, [], map[])

  /** The body of the generated function is indented by two steps. */
  const BODY_INDENT: nat := 2

  function Remember(st: State, key: CacheKey, v: Var): State {
    st.(objects := st.objects[key := v],
        entry := if st.aliased then st.entry[key := v] else st.entry)
  }

  /** `self.objects = before`, where `before` is a copy. */
  function Restore(st: State, before: Cache): State {
    st.(objects := before, aliased := false)
  }

  function FindScope(scopes: seq<Scope>, name: Text): Option<Var> {
    if scopes == [] then None
    else if scopes[|scopes| - 1].name == name then Some(scopes[|scopes| - 1].v)
    else FindScope(scopes[..|scopes| - 1], name)
  }

  function FindCached(objects: Cache, indent: nat, target: Var, field: Text): Option<Var>
    decreases indent
  {
    if ObjectKey(indent, target, field) in objects then Some(objects[ObjectKey(indent, target, field)])
    else if indent == 0 then None
    else FindCached(objects, indent - 1, target, field)
  }

  /** `read`. */
  function Read(st: State, source: Expr, expected: PlainType, checkedText: bool): Emitted {
    var v := st.counter + 1;
    Emitted([Assign(v, source)] + (if expected == TAny then [] else [Guard(v, expected, checkedText)]),
            EVar(v), st.(counter := v))
  }

  /** `root_object`. */
  function RootObject(st: State, name: Text): Emitted {
    if RootKey(name) in st.objects then Emitted([], EVar(st.objects[RootKey(name)]), st)
    else Emitted([], EVar(st.counter + 1), Remember(Hoist(st, name), RootKey(name), st.counter + 1))
  }

  function Hoist(st: State, name: Text): State {
    var v := st.counter + 1;
    st.(counter := v, roots := st.roots + [HoistedRead(v, name)], paths := st.paths[v := Path(name, [])])
  }

  /** `cached_object`. */
  function CachedObject(st: State, target: Var, field: Text, indent: nat): Emitted {
    match FindCached(st.objects, indent, target, field)
    case Some(v) => Emitted([], EVar(v), st)
    case None =>
      var r := Read(st, EGet(EVar(target), EText(field)), TObject, false);
      var v := st.counter + 1;
      var known := if target in st.paths
                   then r.st.(paths := r.st.paths[v := Path(st.paths[target].root, st.paths[target].fields + [field])])
                   else r.st;
      Emitted(r.code, r.e, Remember(known, ObjectKey(indent, target, field), v))
  }

  function EmitIdent(name: Text, expected: PlainType, checkedText: bool, st: State): Emitted {
    match FindScope(st.scopes, name)
    case Some(v) => Read(st, EVar(v), expected, checkedText)
    case None => if expected == TObject then RootObject(st, name) else Read(st, EBinding(name), expected, checkedText)
  }

  function NoteDotted(st: State, p: Plan): State {
    if QualifiedName(p).Some? && ChainRoot(p).Some? && FindScope(st.scopes, ChainRoot(p).value).None?
    then st.(dotted := st.dotted + {QualifiedName(p).value}) else st
  }

  function Emit(mode: CacheMode, p: Plan, expected: PlainType, indent: nat, checkedText: bool,
      st: State): Option<Emitted>
    decreases p, 1
  {
    match p
    case BoolLit(b) => if expected == TBool then Some(Emitted([], EBool(b), st)) else None
    case IntLit(n) => if expected == TInt then Some(Emitted([], EInt(n), st)) else None
    case TextLit(t) => if expected == TText then Some(Emitted([], EText(t), st)) else None
    case Ident(name) => Some(EmitIdent(name, expected, checkedText, st))
    case Select(_, _, _) => EmitSelect(mode, p, expected, indent, checkedText, st)
    case Index(_, _) => EmitIndex(mode, p, expected, indent, checkedText, st)
    case Logic(conj, left, right) => if expected != TBool then None else EmitLogic(mode, p, indent, st)
    case Quantifier(_, _, _, _) => if expected != TBool then None else EmitQuantifier(mode, p, indent, st)
    case Cond(_, _, _) => if expected in {TObject, TList, TAny} then None else EmitCond(mode, p, expected, indent, st)
    case Neg(_) | Not(_) | Size(_) | In(_, _) | Matches(_, _) =>
      if expected != ResultType(p) then None else EmitUnary(mode, p, indent, st)
    case Compare(_, _, _) | Arith(_, _, _) | Test(_, _, _) =>
      if expected != ResultType(p) then None else EmitBinary(mode, p, indent, st)
    case ListLit(_) | Nonsense => None
  }

  function EmitSelect(mode: CacheMode, p: Plan, expected: PlainType, indent: nat, checkedText: bool,
                      st: State): Option<Emitted>
    requires p.Select?
    decreases p, 0
  {
    var t :- Emit(mode, p.target, TObject, indent, true, NoteDotted(st, p));
    if !t.e.EVar? then None  // an object expression is always a variable
    else
      var r := if expected == TObject then CachedObject(t.st, t.e.v, p.field, indent)
               else Read(t.st, EGet(t.e, EText(p.field)), expected, checkedText);
      Some(Emitted(t.code + r.code, r.e, r.st))
  }

  function EmitIndex(mode: CacheMode, p: Plan, expected: PlainType, indent: nat, checkedText: bool,
                     st: State): Option<Emitted>
    requires p.Index?
    decreases p, 0
  {
    if KeyType(p.key) != TText && KeyType(p.key) != TInt then None else
    var t :- Emit(mode, p.target, IndexedType(p), indent, true, st);
    var k :- Emit(mode, p.key, KeyType(p.key), indent, KeyType(p.key) != TText, t.st);
    var r := Read(k.st, IndexExpr(p, t.e, k.e), expected, checkedText);
    Some(Emitted(t.code + k.code + r.code, r.e, r.st))
  }

  function IndexExpr(p: Plan, target: Expr, key: Expr): Expr
    requires p.Index?
  {
    if KeyType(p.key) == TText then EGet(target, key) else EItem(target, key)
  }

  function UnaryExpr(p: Plan, e: Expr): Expr
    requires IsUnary(p) && OperandType(p).Some?
  {
    match p
    case Neg(_) => ENeg(e)
    case Not(_) => ENot(e)
    case Size(_) => if OperandType(p) == Some(TText) then ELen(e) else ESize(e)
    case In(_, list) => EMember(e, set t | t in list.members)
    case Matches(_, pattern) => EMatches(e, pattern)
  }

  function BinaryExpr(p: Plan, left: Expr, right: Expr): Expr
    requires IsBinary(p)
  {
    match p
    case Compare(op, _, _) => ECompare(op, left, right)
    case Arith(op, _, _) => EArith(op, left, right)
    case Test(test, _, _) => ETest(test, left, right)
  }

  function EmitUnary(mode: CacheMode, p: Plan, indent: nat, st: State): Option<Emitted>
    requires IsUnary(p)
    decreases p, 0
  {
    var kind :- OperandType(p);
    var r :- Emit(mode, Operand(p), kind, indent, OperandChecked(p), st);
    Some(r.(e := UnaryExpr(p, r.e)))
  }

  /** Both operands are emitted, left then right, before the expression that joins them is used. */
  function EmitBinary(mode: CacheMode, p: Plan, indent: nat, st: State): Option<Emitted>
    requires IsBinary(p)
    decreases p, 0
  {
    var kind :- OperandsType(p);
    var l :- Emit(mode, LeftOperand(p), kind, indent, OperandsChecked(p), st);
    var r :- Emit(mode, RightOperand(p), kind, indent, OperandsChecked(p), l.st);
    Some(Emitted(l.code + r.code, BinaryExpr(p, l.e, r.e), r.st))
  }

  function EmitLogic(mode: CacheMode, p: Plan, indent: nat, st: State): Option<Emitted>
    requires p.Logic?
    decreases p, 0
  {
    var l :- Emit(mode, p.left, TBool, indent, true, st);
    var result := l.st.counter + 1;
    var before := l.st.objects;
    var r :- Emit(mode, p.right, TBool, indent + 1, true, l.st.(counter := result));
    var test := if p.conj then EVar(result) else ENot(EVar(result));
    Some(Emitted(l.code + [Assign(result, l.e), If(test, r.code + [Assign(result, r.e)])],
                 EVar(result), Restore(r.st, before)))
  }

  function EmitQuantifier(mode: CacheMode, p: Plan, indent: nat, st: State): Option<Emitted>
    requires p.Quantifier?
    decreases p, 0
  {
    var t :- Emit(mode, p.target, TList, indent, true, st);
    var result, element := t.st.counter + 1, t.st.counter + 2;
    var before := t.st.objects;
    var inner := t.st.(counter := element, scopes := t.st.scopes + [Scope(p.variable, element)]);
    var b :- Emit(mode, p.body, TBool, indent + 1, true, inner);
    var stop := If(if p.universal then ENot(b.e) else b.e, [Assign(result, EBool(!p.universal)), Break]);
    Some(Emitted(t.code + [Assign(result, EBool(p.universal)), For(element, t.e, b.code + [stop])],
                 EVar(result), Restore(b.st, before).(scopes := t.st.scopes)))
  }

  /** `self.objects = before` ahead of the `else` part: `before` itself is now the dictionary in use. */
  function ElseStart(st: State, before: Cache): State {
    Restore(st, before).(entry := before, aliased := true)
  }

  /** The cache after a conditional, given the dictionary of before it and what the `else` part made of it. */
  function AfterElse(mode: CacheMode, before: Cache, entry: Cache): Cache {
    if mode == AsWritten then entry
    else (map k | k in entry && k.RootKey? :: entry[k]) + before
  }

  function EmitCond(mode: CacheMode, p: Plan, expected: PlainType, indent: nat, st: State): Option<Emitted>
    requires p.Cond?
    decreases p, 0
  {
    var c :- Emit(mode, p.condition, TBool, indent, true, st);
    var result := c.st.counter + 1;
    var before := c.st.objects;
    var y :- Emit(mode, p.yes, expected, indent + 1, true, c.st.(counter := result));
    var n :- Emit(mode, p.no, expected, indent + 1, true, ElseStart(y.st, before));
    Some(Emitted(c.code + [IfElse(c.e, y.code + [Assign(result, y.e)], n.code + [Assign(result, n.e)])],
                 EVar(result), n.st.(objects := AfterElse(mode, before, n.st.entry), entry := y.st.entry,
                                     aliased := false)))
  }

  /** `compile_plain`: the generated function, or None when the plan is refused. */
  function CompilePlain(mode: CacheMode, root: Plan): Option<Function> {
    if Infer(root) != Some(TBool) && Infer(root) != Some(TText) then None else
    var r :- Emit(mode, root, Infer(root).value, BODY_INDENT, true, START);
    Some(Function(r.st.dotted, r.st.roots, r.code, r.e))
  }
}
