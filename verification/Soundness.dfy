/** Whenever the plain-data reading of a plan gives a value, that value is the CEL result. */
module Soundness {
  import opened Values
  import opened Plans
  import Encodings
  import opened PythonTarget
  import opened Engine
  import opened LazySemantics

  /** No selection chain of the plan can be taken for one qualified name: none is a binding key, none is the name of
      a built-in type. The compiled function tests the first half on every call; nothing tests the second half. */
  ghost predicate Unambiguous(host: Host, b: Bindings, p: Plan, names: set<Text>) {
    forall q :: q in DottedNames(p, names) ==> TextKey(q) !in b && !BuiltinName(host, q)
  }

  /** The matcher answers what the engine's matcher answers, whenever it answers. */
  ghost predicate MatcherAgrees(matcher: Matcher, host: Host) {
    matcher.LiteralMatcher? ==>
      forall t, pattern :: matcher.run(t, pattern).Ok? ==> Matched(host, t, pattern) == matcher.run(t, pattern)
  }

  lemma {:induction false} FindLocalNames(locals: seq<Local>, name: Text)
    ensures FindLocal(locals, name).Some? <==> name in LocalNames(locals)
  {
    if locals != [] {
      var rest, last := locals[..|locals| - 1], locals[|locals| - 1];
      FindLocalNames(rest, name);
      assert locals == rest + [last];
      assert LocalNames(locals) == LocalNames(rest) + {last.name};
    }
  }

  lemma {:induction false} PushedNames(locals: seq<Local>, l: Local)
    ensures LocalNames(locals + [l]) == LocalNames(locals) + {l.name}
  {
  }

  lemma {:induction false} ChainNames(p: Plan)
    ensures Unquoted(p) ==> ChainRoot(p).Some? && QualifiedName(p).Some?
  {
    if p.Select? {
      ChainNames(p.target);
    }
  }

  /** One selection: a chain that resolves as a whole would differ, so Unambiguous rules the resolution out. */
  lemma {:induction false} SelectNotResolved(host: Host, b: Bindings, locals: seq<Local>, p: Plan)
    requires p.Select?
    requires Unambiguous(host, b, p, LocalNames(locals))
    ensures Unquoted(p) && ChainRoot(p).Some? && QualifiedName(p).Some? && FindLocal(locals, ChainRoot(p).value).None?
        ==> Resolve(host, b, QualifiedName(p).value).None?
  {
    ChainNames(p);
    if Unquoted(p) && FindLocal(locals, ChainRoot(p).value).None? {
      FindLocalNames(locals, ChainRoot(p).value);
      assert QualifiedName(p).value in DottedNames(p, LocalNames(locals));
    }
  }

  lemma {:induction false} PlainIsCel(host: Host, m: Machine, locals: seq<Local>, p: Plan, expected: PlainType,
                                ct: bool)
    requires MatcherAgrees(m.matcher, host)
    requires Unambiguous(host, m.bindings, p, LocalNames(locals))
    requires Lazy(m, locals, p, expected, ct).Some? && !Lazy(m, locals, p, expected, ct).value.Foreign?
    ensures Eval(host, m.bindings, locals, p) == Ok(Lazy(m, locals, p, expected, ct).value)
    decreases p, 1
  {
    match p
    case BoolLit(_) | IntLit(_) | TextLit(_) | ListLit(_) | Nonsense | Ident(_) =>
    case Select(_, _, _) => SelectIsCel(host, m, locals, p, expected, ct);
    case Index(_, _) => IndexIsCel(host, m, locals, p, expected, ct);
    case Logic(_, _, _) => LogicIsCel(host, m, locals, p, expected, ct);
    case Quantifier(universal, target, variable, body) => QuantifierIsCel(host, m, locals, p, expected, ct);
    case Cond(condition, yes, no) => CondIsCel(host, m, locals, p, expected, ct);
    case Neg(_) | Not(_) | Size(_) | In(_, _) | Matches(_, _) => UnaryIsCel(host, m, locals, p, expected, ct);
    case Compare(_, _, _) | Arith(_, _, _) | Test(_, _, _) => BinaryIsCel(host, m, locals, p, expected, ct);
  }

  lemma {:induction false} SelectIsCel(host: Host, m: Machine, locals: seq<Local>, p: Plan, expected: PlainType,
                                ct: bool)
    requires p.Select?
    requires MatcherAgrees(m.matcher, host)
    requires Unambiguous(host, m.bindings, p, LocalNames(locals))
    requires Lazy(m, locals, p, expected, ct).Some? && !Lazy(m, locals, p, expected, ct).value.Foreign?
    ensures Eval(host, m.bindings, locals, p) == Ok(Lazy(m, locals, p, expected, ct).value)
    decreases p, 0
  {
    PlainIsCel(host, m, locals, p.target, TObject, true);
    SelectNotResolved(host, m.bindings, locals, p);
  }

  lemma {:induction false} IndexIsCel(host: Host, m: Machine, locals: seq<Local>, p: Plan, expected: PlainType,
                                ct: bool)
    requires p.Index?
    requires MatcherAgrees(m.matcher, host)
    requires Unambiguous(host, m.bindings, p, LocalNames(locals))
    requires Lazy(m, locals, p, expected, ct).Some? && !Lazy(m, locals, p, expected, ct).value.Foreign?
    ensures Eval(host, m.bindings, locals, p) == Ok(Lazy(m, locals, p, expected, ct).value)
    decreases p, 0
  {
    PlainIsCel(host, m, locals, p.target, if KeyType(p.key) == TText then TObject else TList, true);
    PlainIsCel(host, m, locals, p.key, KeyType(p.key), KeyType(p.key) != TText);
  }

  lemma {:induction false} LogicIsCel(host: Host, m: Machine, locals: seq<Local>, p: Plan, expected: PlainType,
                                ct: bool)
    requires p.Logic?
    requires MatcherAgrees(m.matcher, host)
    requires Unambiguous(host, m.bindings, p, LocalNames(locals))
    requires Lazy(m, locals, p, expected, ct).Some? && !Lazy(m, locals, p, expected, ct).value.Foreign?
    ensures Eval(host, m.bindings, locals, p) == Ok(Lazy(m, locals, p, expected, ct).value)
    decreases p, 0
  {
    PlainIsCel(host, m, locals, p.left, TBool, true);
    if LazyBool(m, locals, p.left) == Some(p.conj) {
      PlainIsCel(host, m, locals, p.right, TBool, true);
    }
  }

  lemma {:induction false} QuantifierIsCel(host: Host, m: Machine, locals: seq<Local>, p: Plan, expected: PlainType,
                                ct: bool)
    requires p.Quantifier?
    requires MatcherAgrees(m.matcher, host)
    requires Unambiguous(host, m.bindings, p, LocalNames(locals))
    requires Lazy(m, locals, p, expected, ct).Some? && !Lazy(m, locals, p, expected, ct).value.Foreign?
    ensures Eval(host, m.bindings, locals, p) == Ok(Lazy(m, locals, p, expected, ct).value)
    decreases p, 0
  {
    PlainIsCel(host, m, locals, p.target, TList, true);
    PlainItemsAreCelItems(host, m, locals, p.universal, p.variable, p.body, LazyList(m, locals, p.target).value);
  }

  lemma {:induction false} CondIsCel(host: Host, m: Machine, locals: seq<Local>, p: Plan, expected: PlainType,
                                ct: bool)
    requires p.Cond?
    requires MatcherAgrees(m.matcher, host)
    requires Unambiguous(host, m.bindings, p, LocalNames(locals))
    requires Lazy(m, locals, p, expected, ct).Some? && !Lazy(m, locals, p, expected, ct).value.Foreign?
    ensures Eval(host, m.bindings, locals, p) == Ok(Lazy(m, locals, p, expected, ct).value)
    decreases p, 0
  {
    PlainIsCel(host, m, locals, p.condition, TBool, true);
    PlainIsCel(host, m, locals, if LazyBool(m, locals, p.condition).value then p.yes else p.no, expected, true);
  }

  lemma {:induction false} UnaryIsCel(host: Host, m: Machine, locals: seq<Local>, p: Plan, expected: PlainType,
                                ct: bool)
    requires IsUnary(p)
    requires MatcherAgrees(m.matcher, host)
    requires Unambiguous(host, m.bindings, p, LocalNames(locals))
    requires Lazy(m, locals, p, expected, ct).Some? && !Lazy(m, locals, p, expected, ct).value.Foreign?
    ensures Eval(host, m.bindings, locals, p) == Ok(Lazy(m, locals, p, expected, ct).value)
    decreases p, 0
  {
    PlainIsCel(host, m, locals, Operand(p), OperandType(p).value, OperandChecked(p));
    if p.In? {
      TextMembership(LazyText(m, locals, p.needle, false).value, p.list.members);
    }
  }

  lemma {:induction false} BinaryIsCel(host: Host, m: Machine, locals: seq<Local>, p: Plan, expected: PlainType,
                                ct: bool)
    requires IsBinary(p)
    requires MatcherAgrees(m.matcher, host)
    requires Unambiguous(host, m.bindings, p, LocalNames(locals))
    requires Lazy(m, locals, p, expected, ct).Some? && !Lazy(m, locals, p, expected, ct).value.Foreign?
    ensures Eval(host, m.bindings, locals, p) == Ok(Lazy(m, locals, p, expected, ct).value)
    decreases p, 0
  {
    PlainIsCel(host, m, locals, LeftOperand(p), OperandsType(p).value, OperandsChecked(p));
    PlainIsCel(host, m, locals, RightOperand(p), OperandsType(p).value, OperandsChecked(p));
    if p.Test? {
      BytesAgree(p.test, LazyText(m, locals, p.text, OperandsChecked(p)).value,
                 LazyText(m, locals, p.argument, OperandsChecked(p)).value);
    }
    if p.Arith? {
      ArithmeticAgrees(p.aop, LazyInt(m, locals, p.left).value, LazyInt(m, locals, p.right).value);
    }
  }

  lemma {:induction false} PlainItemsAreCelItems(host: Host, m: Machine, locals: seq<Local>, universal: bool,
                                                 variable: Text, body: Plan, items: seq<Value>)
    requires MatcherAgrees(m.matcher, host)
    requires Unambiguous(host, m.bindings, body, LocalNames(locals) + {variable})
    requires LazyItems(m, locals, universal, variable, body, items).Some?
    ensures EvalItems(host, m.bindings, locals, universal, variable, body, items, None)
         == Ok(LazyItems(m, locals, universal, variable, body, items).value)
    decreases body, 2, |items|
  {
    if items != [] {
      var inner := locals + [Local(variable, items[0])];
      PushedNames(locals, Local(variable, items[0]));
      PlainIsCel(host, m, inner, body, TBool, true);
      if LazyBool(m, inner, body).value == universal {
        PlainItemsAreCelItems(host, m, locals, universal, variable, body, items[1..]);
      }
    }
  }

  lemma {:induction false} ArithmeticAgrees(op: Arithmetic, a: int, b: int)
    requires ArithHelper(op, a, b).Val?
    ensures Arithmetics(op, VInt(a), VInt(b)) == Ok(ArithHelper(op, a, b).value)
  {
    if op.Rem? && b == -1 {
      assert TruncDiv(a, b) == -a;
    }
  }

  lemma {:induction false} BytesAgree(test: TextTest, t: Text, argument: Text)
    ensures Tested(test, t, argument) == TextTested(test, t, argument)
  {
    Encodings.Utf8Synchronizes();
    Encodings.TestsAgree(Encodings.UTF_8, test, t, argument);
  }

  lemma {:induction false} TextMembership(t: Text, members: seq<Text>)
    ensures VText(t) in TextsOf(members) <==> t in members
  {
    if t in members {
      var i :| 0 <= i < |members| && members[i] == t;
      assert TextsOf(members)[i] == VText(t);
    }
  }
}
