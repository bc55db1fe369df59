/** The compiler as the object it is: fields that every visit of a node updates, and dictionaries shared by reference.
    */
module Compiler {
  import opened Values
  import opened Plans
  import opened PythonTarget
  import opened Layout
  import opened Emitter

  /** A dictionary of cached object reads. Assigning one to a field shares it; `dict(...)` copies it. */
  class Dictionary {
    var entries: Cache

    constructor (entries: Cache)
      ensures this.entries == entries
    {
      this.entries := entries;
    }
  }

  class Compiler {
    var lines: seq<Line>
    var roots: seq<HoistedRead>
    var counter: nat
    var objects: Dictionary
    var dotted: set<Text>
    var scopes: seq<Scope>
    /** The dictionary that was in use when the innermost `else` part began. */
    ghost var elsePart: Dictionary?
    ghost var paths: map<Var, Path>

    constructor ()
      ensures Current() == START && lines == [] && fresh(objects) && elsePart == null
    {
      lines, roots, counter := [], [], 0;
      objects := new Dictionary(map[]);
      dotted, scopes := {}, [];
      elsePart, paths := null, map[];
    }

    /** The state that the compiler, as a function, passes from node to node. */
    ghost function Current(): State
      reads this, objects, elsePart
    {
      State(counter, objects.entries, if elsePart == null then map[] else elsePart.entries, objects == elsePart, roots,
            dotted, scopes, paths)
    }

    /** Whether a visit accepts or refuses its node: the scopes are as before, and the dictionary in use is the one it
        found or a new one. */
    twostate predicate Visited()
      reads this
    {
      elsePart == old(elsePart) && scopes == old(scopes) && (objects == old(objects) || fresh(objects))
    }

    /** What a visit of an accepted node did: the state moved as the compiler function says, and the code it says was
        appended at the indentation. */
    ghost predicate Emits(before: seq<Line>, indent: nat, e: Option<Expr>, r: Option<Emitted>)
      reads this, objects, elsePart
    {
      && (r.Some? <==> e.Some?)
      && (r.Some? ==>
            && Current() == r.value.st && e.value == r.value.e
            && lines == Appended(before, r.value.code, indent))
    }

    method Fresh() returns (v: Var)
      modifies this`counter
      ensures v == counter == old(counter) + 1
    {
      counter := counter + 1;
      v := counter;
    }

    /** The innermost comprehension variable of the name: the scopes are searched from the last. */
    method FindLocal(name: Text) returns (v: Option<Var>)
      ensures v == FindScope(scopes, name)
    {
      var i := |scopes|;
      assert scopes[..i] == scopes;
      while i > 0
        invariant 0 <= i <= |scopes|
        invariant FindScope(scopes, name) == FindScope(scopes[..i], name)
      {
        i := i - 1;
        if scopes[i].name == name {
          return Some(scopes[i].v);
        }
        assert scopes[..i + 1][..i] == scopes[..i];
      }
      return None;
    }

    /** `read`. */
    method ReadValue(source: Expr, expected: PlainType, indent: nat, checkedText: bool) returns (v: Var)
      modifies this`counter, this`lines
      ensures var r := Read(old(Current()), source, expected, checkedText);
              Current() == r.st && EVar(v) == r.e && lines == Appended(old(lines), r.code, indent)
    {
      v := Fresh();
      lines := lines + [Line(indent, LineAssign(v, source))];
      if expected != TAny {
        lines := lines + [Line(indent, LineGuard(v, expected, checkedText))];
      }
      ReadLines(old(lines), v, source, expected, indent, checkedText);
    }

    /** `root_object`. */
    method RootRead(name: Text) returns (v: Var)
      modifies this, objects
      ensures var r := RootObject(old(Current()), name);
              Current() == r.st && EVar(v) == r.e && r.code == []
      ensures Visited() && lines == old(lines) && objects == old(objects)
    {
      if RootKey(name) in objects.entries {
        v := objects.entries[RootKey(name)];
      } else {
        v := Fresh();
        roots := roots + [HoistedRead(v, name)];
        paths := paths[v := Path(name, [])];
        objects.entries := objects.entries[RootKey(name) := v];
      }
    }

    /** `cached_object`: the enclosing indentations are searched from the innermost. */
    method ObjectRead(target: Var, field: Text, indent: nat) returns (v: Var)
      modifies this, objects
      ensures var r := CachedObject(old(Current()), target, field, indent);
              Current() == r.st && EVar(v) == r.e && lines == Appended(old(lines), r.code, indent)
      ensures Visited() && objects == old(objects)
    {
      var depth: int := indent;
      while depth >= 0
        invariant -1 <= depth <= indent
        invariant FindCached(objects.entries, indent, target, field)
               == if depth < 0 then None else FindCached(objects.entries, depth, target, field)
      {
        if ObjectKey(depth, target, field) in objects.entries {
          v := objects.entries[ObjectKey(depth, target, field)];
          return;
        }
        depth := depth - 1;
      }
      v := ReadValue(EGet(EVar(target), EText(field)), TObject, indent, false);
      if target in paths {
        paths := paths[v := Path(paths[target].root, paths[target].fields + [field])];
      }
      objects.entries := objects.entries[ObjectKey(indent, target, field) := v];
    }

    /** `emit`. */
    method Emit(p: Plan, expected: PlainType, indent: nat, checkedText: bool) returns (e: Option<Expr>)
      modifies this, objects
      ensures Visited()
      ensures Emits(old(lines), indent, e, Emitter.Emit(AsWritten, p, expected, indent, checkedText, old(Current())))
      decreases p, 1
    {
      hide Emitter.EmitIdent, Emitter.EmitSelect, Emitter.EmitIndex, Emitter.EmitUnary, Emitter.EmitBinary;
      hide Emitter.EmitLogic, Emitter.EmitQuantifier, Emitter.EmitCond;
      assert Emits(lines, indent, None, None);
      assert Emits(lines, indent, Literal(p),
                   if Literal(p).None? then None else Some(Emitted([], Literal(p).value, Current())));
      hide Emits;
      match p
      case BoolLit(_) => e := if expected == TBool then Literal(p) else None;
      case IntLit(_) => e := if expected == TInt then Literal(p) else None;
      case TextLit(_) => e := if expected == TText then Literal(p) else None;
      case Ident(name) => e := EmitIdent(name, expected, indent, checkedText);
      case Select(_, _, _) => e := EmitSelect(p, expected, indent, checkedText);
      case Index(_, _) => e := EmitIndex(p, expected, indent, checkedText);
      case Logic(_, _, _) => 
        if expected == TBool { e := EmitLogic(p, indent); } else { e := None; }
      case Quantifier(_, _, _, _) =>
        if expected == TBool { e := EmitQuantifier(p, indent); } else { e := None; }
      case Cond(_, _, _) =>
        if expected in {TObject, TList, TAny} { e := None; } else { e := EmitCond(p, expected, indent); }
      case Neg(_) | Not(_) | Size(_) | In(_, _) | Matches(_, _) =>
        if expected == ResultType(p) { e := EmitUnary(p, indent); } else { e := None; }
      case Compare(_, _, _) | Arith(_, _, _) | Test(_, _, _) =>
        if expected == ResultType(p) { e := EmitBinary(p, indent); } else { e := None; }
      case ListLit(_) | Nonsense => e := None;
    }

    method EmitIdent(name: Text, expected: PlainType, indent: nat, checkedText: bool) returns (e: Option<Expr>)
      modifies this, objects
      ensures Visited()
      ensures Emits(old(lines), indent, e, Some(Emitter.EmitIdent(name, expected, checkedText, old(Current()))))
    {
      var local := FindLocal(name);
      var v;
      if local.Some? {
        v := ReadValue(EVar(local.value), expected, indent, checkedText);
      } else if expected == TObject {
        v := RootRead(name);
      } else {
        v := ReadValue(EBinding(name), expected, indent, checkedText);
      }
      e := Some(EVar(v));
    }

    method NoteName(p: Plan)
      modifies this`dotted
      ensures Current() == NoteDotted(old(Current()), p)
    {
      if QualifiedName(p).Some? && ChainRoot(p).Some? {
        var local := FindLocal(ChainRoot(p).value);
        if local.None? {
          dotted := dotted + {QualifiedName(p).value};
        }
      }
    }

    method EmitSelect(p: Plan, expected: PlainType, indent: nat, checkedText: bool) returns (e: Option<Expr>)
      requires p.Select?
      modifies this, objects
      ensures Visited()
      ensures Emits(old(lines), indent, e,
                    Emitter.EmitSelect(AsWritten, p, expected, indent, checkedText, old(Current())))
      decreases p, 0
    {
      hide Emitter.Emit, Emitter.EmitSelect, Appended, CachedObject, Read, NoteDotted;
      SelectSteps(p, expected, indent, checkedText, Current(), lines);
      NoteName(p);
      var target := Emit(p.target, TObject, indent, true);
      if target.None? || !target.value.EVar? {
        return None;
      }
      var v;
      if expected == TObject {
        v := ObjectRead(target.value.v, p.field, indent);
      } else {
        v := ReadValue(EGet(target.value, EText(p.field)), expected, indent, checkedText);
      }
      e := Some(EVar(v));
    }

    /** The key is visited even when the target is refused. */
    method EmitIndex(p: Plan, expected: PlainType, indent: nat, checkedText: bool) returns (e: Option<Expr>)
      requires p.Index?
      modifies this, objects
      ensures Visited()
      ensures Emits(old(lines), indent, e,
                    Emitter.EmitIndex(AsWritten, p, expected, indent, checkedText, old(Current())))
      decreases p, 0
    {
      var keyType := KeyType(p.key);
      if keyType != TText && keyType != TInt {
        return None;
      }
      hide Emitter.Emit, Emitter.EmitIndex, Appended, Read, KeyType, IndexedType, IndexExpr;
      IndexSteps(p, expected, indent, checkedText, Current(), lines);
      var target := Emit(p.target, IndexedType(p), indent, true);
      var key := Emit(p.key, keyType, indent, keyType != TText);
      if target.None? || key.None? {
        return None;
      }
      var v := ReadValue(IndexExpr(p, target.value, key.value), expected, indent, checkedText);
      e := Some(EVar(v));
    }

    method EmitUnary(p: Plan, indent: nat) returns (e: Option<Expr>)
      requires IsUnary(p)
      modifies this, objects
      ensures Visited() && Emits(old(lines), indent, e, Emitter.EmitUnary(AsWritten, p, indent, old(Current())))
      decreases p, 0
    {
      if OperandType(p).None? {
        return None;
      }
      var operand := Emit(Operand(p), OperandType(p).value, indent, OperandChecked(p));
      e := if operand.None? then None else Some(UnaryExpr(p, operand.value));
    }

    /** The right operand is visited even when the left one is refused. */
    method EmitBinary(p: Plan, indent: nat) returns (e: Option<Expr>)
      requires IsBinary(p)
      modifies this, objects
      ensures Visited() && Emits(old(lines), indent, e, Emitter.EmitBinary(AsWritten, p, indent, old(Current())))
      decreases p, 0
    {
      if OperandsType(p).None? {
        return None;
      }
      hide Emitter.Emit, Emitter.EmitBinary, Appended, LeftOperand, RightOperand, BinaryExpr, OperandsType,
           OperandsChecked;
      var kind, checkedText := OperandsType(p).value, OperandsChecked(p);
      BinarySteps(p, indent, Current(), lines);
      var left := Emit(LeftOperand(p), kind, indent, checkedText);
      var right := Emit(RightOperand(p), kind, indent, checkedText);
      if left.None? || right.None? {
        return None;
      }
      e := Some(BinaryExpr(p, left.value, right.value));
    }

    /** A visit after which the dictionary in use is a copy made before it. */
    method EmitApart(p: Plan, expected: PlainType, indent: nat) returns (e: Option<Expr>)
      modifies this, objects
      ensures elsePart == old(elsePart) && scopes == old(scopes) && fresh(objects)
      ensures var r := Emitter.Emit(AsWritten, p, expected, indent, true, old(Current()));
              && (e.Some? <==> r.Some?)
              && (e.Some? ==>
                    && Current() == Restore(r.value.st, old(objects.entries)) && e.value == r.value.e
                    && lines == Appended(old(lines), r.value.code, indent))
      decreases p, 2
    {
      hide Emitter.Emit, Appended;
      var before := new Dictionary(objects.entries);
      e := Emit(p, expected, indent, true);
      objects := before;
    }

    method EmitLogic(p: Plan, indent: nat) returns (e: Option<Expr>)
      requires p.Logic?
      modifies this, objects
      ensures Visited() && Emits(old(lines), indent, e, Emitter.EmitLogic(AsWritten, p, indent, old(Current())))
      decreases p, 0
    {
      hide Emitter.Emit, Emitter.EmitLogic, Appended;
      LogicSteps(p, indent, Current(), lines);
      var left := Emit(p.left, TBool, indent, true);
      if left.None? {
        return None;
      }
      var result := Fresh();
      var test := if p.conj then EVar(result) else ENot(EVar(result));
      lines := lines + [Line(indent, LineAssign(result, left.value)), Line(indent, LineIf(test))];
      var right := EmitApart(p.right, TBool, indent + 1);
      if right.None? {
        return None;
      }
      lines := lines + [Line(indent + 1, LineAssign(result, right.value))];
      e := Some(EVar(result));
    }

    /** The predicate of a loop, with the comprehension variable in scope. */
    method EmitScoped(p: Plan, name: Text, element: Var, indent: nat) returns (e: Option<Expr>)
      modifies this, objects
      ensures elsePart == old(elsePart) && scopes == old(scopes) && fresh(objects)
      ensures var inner := old(Current()).(scopes := old(scopes) + [Scope(name, element)]);
              var r := Emitter.Emit(AsWritten, p, TBool, indent, true, inner);
              && (e.Some? <==> r.Some?)
              && (e.Some? ==>
                    && Current() == Restore(r.value.st, old(objects.entries)).(scopes := old(scopes))
                    && e.value == r.value.e && lines == Appended(old(lines), r.value.code, indent))
      decreases p, 3
    {
      hide Emitter.Emit, Appended;
      scopes := scopes + [Scope(name, element)];
      e := EmitApart(p, TBool, indent);
      scopes := scopes[..|scopes| - 1];
    }

    method EmitQuantifier(p: Plan, indent: nat) returns (e: Option<Expr>)
      requires p.Quantifier?
      modifies this, objects
      ensures Visited() && Emits(old(lines), indent, e, Emitter.EmitQuantifier(AsWritten, p, indent, old(Current())))
      decreases p, 0
    {
      hide Emitter.Emit, Emitter.EmitQuantifier, Appended;
      QuantifierSteps(p, indent, Current(), lines);
      var items := Emit(p.target, TList, indent, true);
      if items.None? {
        return None;
      }
      var result := Fresh();
      var element := Fresh();
      lines := lines + [Line(indent, LineAssign(result, EBool(p.universal))),
                        Line(indent, LineFor(element, items.value))];
      var body := EmitScoped(p.body, p.variable, element, indent + 1);
      if body.None? {
        return None;
      }
      var stop := if p.universal then ENot(body.value) else body.value;
      lines := lines + [Line(indent + 1, LineIf(stop)), Line(indent + 2, LineAssign(result, EBool(!p.universal))),
                        Line(indent + 2, LineBreak)];
      e := Some(EVar(result));
    }

    /** An `else` part: whatever it caches directly, it leaves in the dictionary that stays in use. */
    method EmitElse(p: Plan, expected: PlainType, indent: nat) returns (e: Option<Expr>)
      requires objects != elsePart
      modifies this, objects
      ensures elsePart == old(elsePart) && scopes == old(scopes) && objects == old(objects)
      ensures var r := Emitter.Emit(AsWritten, p, expected, indent, true,
                                    ElseStart(old(Current()), old(objects.entries)));
              && (e.Some? <==> r.Some?)
              && (e.Some? ==>
                    && Current() == r.value.st.(objects := r.value.st.entry, entry := old(Current().entry),
                                                aliased := false)
                    && e.value == r.value.e && lines == Appended(old(lines), r.value.code, indent))
      decreases p, 2
    {
      hide Emitter.Emit, Appended;
      var before := objects;
      ghost var outer := elsePart;
      elsePart := before;
      e := Emit(p, expected, indent, true);
      objects := before;
      elsePart := outer;
    }

    method EmitCond(p: Plan, expected: PlainType, indent: nat) returns (e: Option<Expr>)
      requires p.Cond?
      modifies this, objects
      ensures Visited()
      ensures Emits(old(lines), indent, e, Emitter.EmitCond(AsWritten, p, expected, indent, old(Current())))
      decreases p, 0
    {
      hide Emitter.Emit, Emitter.EmitCond, Appended;
      CondSteps(p, expected, indent, Current(), lines);
      var condition := Emit(p.condition, TBool, indent, true);
      if condition.None? {
        return None;
      }
      var result := Fresh();
      lines := lines + [Line(indent, LineIf(condition.value))];
      var yes := EmitApart(p.yes, expected, indent + 1);
      if yes.None? {
        return None;
      }
      lines := lines + [Line(indent + 1, LineAssign(result, yes.value)), Line(indent, LineElse)];
      var no := EmitElse(p.no, expected, indent + 1);
      if no.None? {
        return None;
      }
      lines := lines + [Line(indent + 1, LineAssign(result, no.value))];
      e := Some(EVar(result));
    }
  }

  /** `repr` of a literal. */
  function Literal(p: Plan): Option<Expr> {
    match p
    case BoolLit(b) => Some(EBool(b))
    case IntLit(n) => Some(EInt(n))
    case TextLit(t) => Some(EText(t))
    case _ => None
  }

  /** `compile_plain`, up to the text it joins from the parts returned here: the dotted names, the hoisted reads, the
      lines of the body and the returned expression. Python reads the lines back as the code of the function. */
  method CompileLines(root: Plan)
    returns (dotted: set<Text>, roots: seq<HoistedRead>, lines: seq<Line>, result: Option<Expr>)
    ensures result.Some? <==> CompilePlain(AsWritten, root).Some?
    ensures result.Some? ==>
              var f := CompilePlain(AsWritten, root).value;
              && dotted == f.dotted && roots == f.roots && result.value == f.result
              && Parse(lines, BODY_INDENT) == Some(Parsed(f.body, []))
  {
    dotted, roots, lines, result := {}, [], [], None;
    if Infer(root) == Some(TBool) || Infer(root) == Some(TText) {
      var compiler := new Compiler();
      result := compiler.Emit(root, Infer(root).value, BODY_INDENT, true);
      dotted, roots, lines := compiler.dotted, compiler.roots, compiler.lines;
      if result.Some? {
        ghost var code := CompilePlain(AsWritten, root).value.body;
        LinesRoundTrip(code, BODY_INDENT, []);
        assert Lines(code, BODY_INDENT) + [] == [] + Lines(code, BODY_INDENT);
      }
    }
  }

  ghost function Appended(before: seq<Line>, code: seq<Stmt>, indent: nat): seq<Line> {
    before + Lines(code, indent)
  }

  ghost function LoopStart(p: Plan, st: State): State
    requires p.Quantifier?
  {
    st.(counter := st.counter + 2, scopes := st.scopes + [Scope(p.variable, st.counter + 2)])
  }

  lemma {:induction false} AppendedTwice(before: seq<Line>, a: seq<Stmt>, b: seq<Stmt>, indent: nat)
    ensures Appended(Appended(before, a, indent), b, indent) == Appended(before, a + b, indent)
  {
    LinesConcat(a, b, indent);
  }

  lemma {:induction false} ReadLines(before: seq<Line>, v: Var, source: Expr, expected: PlainType, indent: nat,
      checkedText: bool)
    ensures var guard := if expected == TAny then [] else [Guard(v, expected, checkedText)];
            Appended(before, [Assign(v, source)] + guard, indent)
            == before + [Line(indent, LineAssign(v, source))]
               + (if expected == TAny then [] else [Line(indent, LineGuard(v, expected, checkedText))])
  {
    LinesConcat([Assign(v, source)], if expected == TAny then [] else [Guard(v, expected, checkedText)], indent);
  }

  lemma {:induction false} OneStmt(s: Stmt, indent: nat)
    ensures Lines([s], indent) == StmtLines(s, indent)
  {
    assert Lines([s], indent) == StmtLines(s, indent) + Lines([], indent);
  }

  lemma {:induction false} LogicLines(before: seq<Line>, left: seq<Stmt>, result: Var, l: Expr, test: Expr,
      right: seq<Stmt>, r: Expr, indent: nat)
    ensures Appended(before, left + [Assign(result, l), If(test, right + [Assign(result, r)])], indent)
         == Appended(Appended(before, left, indent) + [Line(indent, LineAssign(result, l)), Line(indent, LineIf(test))],
                     right, indent + 1) + [Line(indent + 1, LineAssign(result, r))]
  {
    hide Lines;
    var branch := If(test, right + [Assign(result, r)]);
    assert [Assign(result, l)] + [branch] == [Assign(result, l), branch];
    LinesConcat(left, [Assign(result, l), branch], indent);
    LinesConcat([Assign(result, l)], [branch], indent);
    LinesConcat(right, [Assign(result, r)], indent + 1);
    OneStmt(Assign(result, l), indent);
    OneStmt(branch, indent);
    OneStmt(Assign(result, r), indent + 1);
  }

  lemma {:induction false} LoopLines(before: seq<Line>, target: seq<Stmt>, result: Var, universal: bool, element: Var,
      items: Expr, body: seq<Stmt>, stop: Expr, indent: nat)
    ensures var block := body + [If(stop, [Assign(result, EBool(!universal)), Break])];
            Appended(before, target + [Assign(result, EBool(universal)), For(element, items, block)], indent)
            == Appended(Appended(before, target, indent)
                        + [Line(indent, LineAssign(result, EBool(universal))), Line(indent, LineFor(element, items))],
                        body, indent + 1)
               + [Line(indent + 1, LineIf(stop)), Line(indent + 2, LineAssign(result, EBool(!universal))),
                  Line(indent + 2, LineBreak)]
  {
    hide Lines;
    var first, leave := Assign(result, EBool(universal)), Assign(result, EBool(!universal));
    var loop := For(element, items, body + [If(stop, [leave, Break])]);
    assert [first] + [loop] == [first, loop] && [leave] + [Break] == [leave, Break];
    LinesConcat(target, [first, loop], indent);
    LinesConcat([first], [loop], indent);
    LinesConcat(body, [If(stop, [leave, Break])], indent + 1);
    LinesConcat([leave], [Break], indent + 2);
    OneStmt(first, indent);
    OneStmt(loop, indent);
    OneStmt(If(stop, [leave, Break]), indent + 1);
    OneStmt(leave, indent + 2);
    OneStmt(Break, indent + 2);
  }

  lemma {:induction false} CondLines(before: seq<Line>, condition: seq<Stmt>, c: Expr, yes: seq<Stmt>, y: Expr,
      no: seq<Stmt>, n: Expr, result: Var, indent: nat)
    ensures Appended(before, condition + [IfElse(c, yes + [Assign(result, y)], no + [Assign(result, n)])], indent)
         == Appended(Appended(Appended(before, condition, indent) + [Line(indent, LineIf(c))], yes, indent + 1)
                     + [Line(indent + 1, LineAssign(result, y)), Line(indent, LineElse)], no, indent + 1)
            + [Line(indent + 1, LineAssign(result, n))]
  {
    hide Lines;
    var branch := IfElse(c, yes + [Assign(result, y)], no + [Assign(result, n)]);
    LinesConcat(condition, [branch], indent);
    LinesConcat(yes, [Assign(result, y)], indent + 1);
    LinesConcat(no, [Assign(result, n)], indent + 1);
    OneStmt(branch, indent);
    OneStmt(Assign(result, y), indent + 1);
    OneStmt(Assign(result, n), indent + 1);
  }

  // ----- the visits a node makes, one by one: the state each starts in and the lines so far -----

  lemma {:induction false} SelectSteps(p: Plan, expected: PlainType, indent: nat, checkedText: bool, st: State,
      before: seq<Line>)
    requires p.Select?
    ensures var t := Emitter.Emit(AsWritten, p.target, TObject, indent, true, NoteDotted(st, p));
            var s := Emitter.EmitSelect(AsWritten, p, expected, indent, checkedText, st);
            && (s.Some? <==> t.Some? && t.value.e.EVar?)
            && (s.Some? ==>
                  var r := if expected == TObject then CachedObject(t.value.st, t.value.e.v, p.field, indent)
                           else Read(t.value.st, EGet(t.value.e, EText(p.field)), expected, checkedText);
                  s.value.e == r.e && s.value.st == r.st
                  && Appended(Appended(before, t.value.code, indent), r.code, indent)
                     == Appended(before, s.value.code, indent))
  {
    hide Emitter.Emit, NoteDotted, CachedObject, Read, Appended;
    var t := Emitter.Emit(AsWritten, p.target, TObject, indent, true, NoteDotted(st, p));
    if t.Some? && t.value.e.EVar? {
      var r := if expected == TObject then CachedObject(t.value.st, t.value.e.v, p.field, indent)
               else Read(t.value.st, EGet(t.value.e, EText(p.field)), expected, checkedText);
      AppendedTwice(before, t.value.code, r.code, indent);
    }
  }

  lemma {:induction false} IndexSteps(p: Plan, expected: PlainType, indent: nat, checkedText: bool, st: State,
      before: seq<Line>)
    requires p.Index? && (KeyType(p.key) == TText || KeyType(p.key) == TInt)
    ensures var t := Emitter.Emit(AsWritten, p.target, IndexedType(p), indent, true, st);
            var s := Emitter.EmitIndex(AsWritten, p, expected, indent, checkedText, st);
            && (t.None? ==> s.None?)
            && (t.Some? ==>
                  var k := Emitter.Emit(AsWritten, p.key, KeyType(p.key), indent, KeyType(p.key) != TText, t.value.st);
                  && (s.Some? <==> k.Some?)
                  && (k.Some? ==>
                        var r := Read(k.value.st, IndexExpr(p, t.value.e, k.value.e), expected, checkedText);
                        s.value.e == r.e && s.value.st == r.st
                        && Appended(Appended(Appended(before, t.value.code, indent), k.value.code, indent), r.code,
                                    indent)
                           == Appended(before, s.value.code, indent)))
  {
    hide Emitter.Emit, Read, Appended;
    var t := Emitter.Emit(AsWritten, p.target, IndexedType(p), indent, true, st);
    if t.Some? {
      var k := Emitter.Emit(AsWritten, p.key, KeyType(p.key), indent, KeyType(p.key) != TText, t.value.st);
      if k.Some? {
        var r := Read(k.value.st, IndexExpr(p, t.value.e, k.value.e), expected, checkedText);
        AppendedTwice(before, t.value.code, k.value.code, indent);
        AppendedTwice(before, t.value.code + k.value.code, r.code, indent);
      }
    }
  }

  lemma {:induction false} BinarySteps(p: Plan, indent: nat, st: State, before: seq<Line>)
    requires IsBinary(p) && OperandsType(p).Some?
    ensures var l := Emitter.Emit(AsWritten, LeftOperand(p), OperandsType(p).value, indent, OperandsChecked(p), st);
            var s := Emitter.EmitBinary(AsWritten, p, indent, st);
            && (l.None? ==> s.None?)
            && (l.Some? ==>
                  var r := Emitter.Emit(AsWritten, RightOperand(p), OperandsType(p).value, indent, OperandsChecked(p),
                                        l.value.st);
                  && (s.Some? <==> r.Some?)
                  && (r.Some? ==>
                        && s.value.e == BinaryExpr(p, l.value.e, r.value.e) && s.value.st == r.value.st
                        && Appended(Appended(before, l.value.code, indent), r.value.code, indent)
                           == Appended(before, s.value.code, indent)))
  {
    hide Emitter.Emit, Appended, LeftOperand, RightOperand, OperandsType, OperandsChecked, BinaryExpr;
    var l := Emitter.Emit(AsWritten, LeftOperand(p), OperandsType(p).value, indent, OperandsChecked(p), st);
    if l.Some? {
      var r := Emitter.Emit(AsWritten, RightOperand(p), OperandsType(p).value, indent, OperandsChecked(p), l.value.st);
      if r.Some? {
        AppendedTwice(before, l.value.code, r.value.code, indent);
      }
    }
  }

  lemma {:induction false} LogicSteps(p: Plan, indent: nat, st: State, before: seq<Line>)
    requires p.Logic?
    ensures var l := Emitter.Emit(AsWritten, p.left, TBool, indent, true, st);
            var s := Emitter.EmitLogic(AsWritten, p, indent, st);
            && (l.None? ==> s.None?)
            && (l.Some? ==>
                  var result := l.value.st.counter + 1;
                  var r := Emitter.Emit(AsWritten, p.right, TBool, indent + 1, true, l.value.st.(counter := result));
                  && (s.Some? <==> r.Some?)
                  && (r.Some? ==>
                        && s.value.e == EVar(result) && s.value.st == Restore(r.value.st, l.value.st.objects)
                        && Appended(Appended(before, l.value.code, indent)
                                    + [Line(indent, LineAssign(result, l.value.e)),
                                       Line(indent, LineIf(if p.conj then EVar(result) else ENot(EVar(result))))],
                                    r.value.code, indent + 1) + [Line(indent + 1, LineAssign(result, r.value.e))]
                           == Appended(before, s.value.code, indent)))
  {
    hide Emitter.Emit, Appended;
    var l := Emitter.Emit(AsWritten, p.left, TBool, indent, true, st);
    if l.Some? {
      var result := l.value.st.counter + 1;
      var r := Emitter.Emit(AsWritten, p.right, TBool, indent + 1, true, l.value.st.(counter := result));
      if r.Some? {
        LogicLines(before, l.value.code, result, l.value.e, if p.conj then EVar(result) else ENot(EVar(result)),
                   r.value.code, r.value.e, indent);
      }
    }
  }

  lemma {:induction false} QuantifierSteps(p: Plan, indent: nat, st: State, before: seq<Line>)
    requires p.Quantifier?
    ensures var t := Emitter.Emit(AsWritten, p.target, TList, indent, true, st);
            var s := Emitter.EmitQuantifier(AsWritten, p, indent, st);
            && (t.None? ==> s.None?)
            && (t.Some? ==>
                  var result, element := t.value.st.counter + 1, t.value.st.counter + 2;
                  var b := Emitter.Emit(AsWritten, p.body, TBool, indent + 1, true, LoopStart(p, t.value.st));
                  && (s.Some? <==> b.Some?)
                  && (b.Some? ==>
                        && s.value.e == EVar(result)
                        && s.value.st == Restore(b.value.st, t.value.st.objects).(scopes := t.value.st.scopes)
                        && Appended(Appended(before, t.value.code, indent)
                                    + [Line(indent, LineAssign(result, EBool(p.universal))),
                                       Line(indent, LineFor(element, t.value.e))],
                                    b.value.code, indent + 1)
                           + [Line(indent + 1, LineIf(if p.universal then ENot(b.value.e) else b.value.e)),
                              Line(indent + 2, LineAssign(result, EBool(!p.universal))), Line(indent + 2, LineBreak)]
                           == Appended(before, s.value.code, indent)))
  {
    hide Emitter.Emit, Appended;
    var t := Emitter.Emit(AsWritten, p.target, TList, indent, true, st);
    if t.Some? {
      var result, element := t.value.st.counter + 1, t.value.st.counter + 2;
      var b := Emitter.Emit(AsWritten, p.body, TBool, indent + 1, true, LoopStart(p, t.value.st));
      if b.Some? {
        LoopLines(before, t.value.code, result, p.universal, element, t.value.e, b.value.code,
                  if p.universal then ENot(b.value.e) else b.value.e, indent);
      }
    }
  }

  lemma {:induction false} CondSteps(p: Plan, expected: PlainType, indent: nat, st: State, before: seq<Line>)
    requires p.Cond?
    ensures var c := Emitter.Emit(AsWritten, p.condition, TBool, indent, true, st);
            var s := Emitter.EmitCond(AsWritten, p, expected, indent, st);
            && (c.None? ==> s.None?)
            && (c.Some? ==>
                  var result := c.value.st.counter + 1;
                  var y := Emitter.Emit(AsWritten, p.yes, expected, indent + 1, true, c.value.st.(counter := result));
                  && (y.None? ==> s.None?)
                  && (y.Some? ==>
                        var n := Emitter.Emit(AsWritten, p.no, expected, indent + 1, true,
                                              ElseStart(y.value.st, c.value.st.objects));
                        && (s.Some? <==> n.Some?)
                        && (n.Some? ==>
                              && s.value.e == EVar(result)
                              && s.value.st == n.value.st.(objects := n.value.st.entry, entry := y.value.st.entry,
                                                           aliased := false)
                              && Appended(Appended(Appended(before, c.value.code, indent)
                                                   + [Line(indent, LineIf(c.value.e))],
                                                   y.value.code, indent + 1)
                                          + [Line(indent + 1, LineAssign(result, y.value.e)), Line(indent, LineElse)],
                                          n.value.code, indent + 1)
                                 + [Line(indent + 1, LineAssign(result, n.value.e))]
                                 == Appended(before, s.value.code, indent))))
  {
    hide Emitter.Emit, Appended;
    var c := Emitter.Emit(AsWritten, p.condition, TBool, indent, true, st);
    if c.Some? {
      var result := c.value.st.counter + 1;
      var y := Emitter.Emit(AsWritten, p.yes, expected, indent + 1, true, c.value.st.(counter := result));
      if y.Some? {
        var n := Emitter.Emit(AsWritten, p.no, expected, indent + 1, true, ElseStart(y.value.st, c.value.st.objects));
        if n.Some? {
          CondLines(before, c.value.code, c.value.e, y.value.code, y.value.e, n.value.code, n.value.e, result, indent);
        }
      }
    }
  }
}
