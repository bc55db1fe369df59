/** Definite assignment of generated code: on every path, every variable is assigned before it is read. Paths are walks
    that take branches and enter loop iterations as a sequence of choices says; Flow decides the property. */
module DefiniteAssignment {
  import opened Values
  import opened PythonTarget
  import opened EmitterShape

  /** How far a walk comes: to a read of an unassigned variable, to the end of the choices, to a `break`, or through. */
  datatype Walk =
    | Missed
    | Starved
    | LeftLoop(known: set<Var>, choices: seq<bool>)
    | Passed(known: set<Var>, choices: seq<bool>)

  function WalkOf(code: seq<Stmt>, d: set<Var>, choices: seq<bool>): (w: Walk)
    ensures w.Passed? || w.LeftLoop? ==> |w.choices| <= |choices| && d <= w.known
    decreases code, 0, 0
  {
    if code == [] then Passed(d, choices)
    else
      match WalkStep(code[0], d, choices)
      case Passed(d', rest) => WalkOf(code[1..], d', rest)
      case other => other
  }

  function WalkStep(s: Stmt, d: set<Var>, choices: seq<bool>): (w: Walk)
    ensures w.Passed? || w.LeftLoop? ==> |w.choices| <= |choices| && d <= w.known
    decreases s, 1, 0
  {
    match s
    case Assign(v, e) => if Vars(e) <= d then Passed(d + {v}, choices) else Missed
    case Guard(v, _, _) => if v in d then Passed(d, choices) else Missed
    case If(c, block) =>
      if !(Vars(c) <= d) then Missed
      else if choices == [] then Starved
      else if choices[0] then WalkOf(block, d, choices[1..])
      else Passed(d, choices[1..])
    case IfElse(c, yes, no) =>
      if !(Vars(c) <= d) then Missed
      else if choices == [] then Starved
      else WalkOf(if choices[0] then yes else no, d, choices[1..])
    case For(v, items, block) => if Vars(items) <= d then WalkLoop(v, block, d, choices) else Missed
    case Break => LeftLoop(d, choices)
  }

  function WalkLoop(v: Var, block: seq<Stmt>, d: set<Var>, choices: seq<bool>): (w: Walk)
    ensures w.Passed? || w.LeftLoop? ==> |w.choices| <= |choices| && d <= w.known
    decreases block, 1, |choices|
  {
    if choices == [] then Starved
    else if !choices[0] then Passed(d, choices[1..])
    else
      match WalkOf(block, d + {v}, choices[1..])
      case Passed(d', rest) => WalkLoop(v, block, d', rest)
      case LeftLoop(d', rest) => Passed(d', rest)
      case other => other
  }

  /** The variables assigned on every path through the code, if no path misses one. */
  datatype Flow = Misses | Leaves | Falls(known: set<Var>)

  function Join(a: Flow, b: Flow): Flow {
    if a.Misses? || b.Misses? then Misses
    else if a.Leaves? then b
    else if b.Leaves? then a
    else Falls(a.known * b.known)
  }

  function FlowOf(code: seq<Stmt>, d: set<Var>): (f: Flow)
    ensures f.Falls? ==> d <= f.known
    decreases code, 0
  {
    if code == [] then Falls(d)
    else
      match FlowStep(code[0], d)
      case Falls(d') => FlowOf(code[1..], d')
      case other => other
  }

  function FlowStep(s: Stmt, d: set<Var>): (f: Flow)
    ensures f.Falls? ==> d <= f.known
    decreases s, 1
  {
    match s
    case Assign(v, e) => if Vars(e) <= d then Falls(d + {v}) else Misses
    case Guard(v, _, _) => if v in d then Falls(d) else Misses
    case If(c, block) => if Vars(c) <= d then Join(FlowOf(block, d), Falls(d)) else Misses
    case IfElse(c, yes, no) => if Vars(c) <= d then Join(FlowOf(yes, d), FlowOf(no, d)) else Misses
    case For(v, items, block) =>
      if Vars(items) <= d && !FlowOf(block, d + {v}).Misses? then Falls(d) else Misses
    case Break => Leaves
  }

  /** The flow is an under-approximation of every walk that starts with more assigned. */
  lemma {:induction false} WalksFollowFlow(code: seq<Stmt>, a: set<Var>, d: set<Var>, choices: seq<bool>)
    requires !FlowOf(code, a).Misses? && a <= d
    ensures !WalkOf(code, d, choices).Missed?
    ensures WalkOf(code, d, choices).Passed? ==>
              FlowOf(code, a).Falls? && FlowOf(code, a).known <= WalkOf(code, d, choices).known
    decreases code, 0, 0
  {
    if code != [] {
      StepsFollowFlow(code[0], a, d, choices);
      var w := WalkStep(code[0], d, choices);
      if w.Passed? {
        WalksFollowFlow(code[1..], FlowStep(code[0], a).known, w.known, w.choices);
      }
    }
  }

  lemma {:induction false} StepsFollowFlow(s: Stmt, a: set<Var>, d: set<Var>, choices: seq<bool>)
    requires !FlowStep(s, a).Misses? && a <= d
    ensures !WalkStep(s, d, choices).Missed?
    ensures WalkStep(s, d, choices).Passed? ==>
              FlowStep(s, a).Falls? && FlowStep(s, a).known <= WalkStep(s, d, choices).known
    decreases s, 1, 0
  {
    match s
    case If(_, block) =>
      if choices != [] {
        WalksFollowFlow(block, a, d, choices[1..]);
      }
    case IfElse(_, yes, no) =>
      if choices != [] {
        WalksFollowFlow(if choices[0] then yes else no, a, d, choices[1..]);
      }
    case For(v, _, block) => LoopsFollowFlow(v, block, a, d, choices);
    case _ =>
  }

  lemma {:induction false} LoopsFollowFlow(v: Var, block: seq<Stmt>, a: set<Var>, d: set<Var>, choices: seq<bool>)
    requires !FlowOf(block, a + {v}).Misses? && a <= d
    ensures !WalkLoop(v, block, d, choices).Missed? && !WalkLoop(v, block, d, choices).LeftLoop?
    decreases block, 1, |choices|
  {
    if choices != [] && choices[0] {
      WalksFollowFlow(block, a + {v}, d + {v}, choices[1..]);
      var w := WalkOf(block, d + {v}, choices[1..]);
      if w.Passed? {
        LoopsFollowFlow(v, block, a, w.known, w.choices);
      }
    }
  }

  // ----- the converse: a missing assignment is missed on some walk -----

  lemma {:induction false} WalkConcat(code: seq<Stmt>, d: set<Var>, choices: seq<bool>, more: seq<bool>)
    requires !WalkOf(code, d, choices).Starved?
    ensures WalkOf(code, d, choices + more) == Longer(WalkOf(code, d, choices), more)
    decreases code, 0, 0
  {
    if code != [] {
      WalkStepConcat(code[0], d, choices, more);
      var w := WalkStep(code[0], d, choices);
      if w.Passed? {
        WalkConcat(code[1..], w.known, w.choices, more);
      }
    }
  }

  function Longer(w: Walk, more: seq<bool>): Walk {
    match w
    case Passed(d, rest) => Passed(d, rest + more)
    case LeftLoop(d, rest) => LeftLoop(d, rest + more)
    case _ => w
  }

  lemma {:induction false} WalkStepConcat(s: Stmt, d: set<Var>, choices: seq<bool>, more: seq<bool>)
    requires !WalkStep(s, d, choices).Starved?
    ensures WalkStep(s, d, choices + more) == Longer(WalkStep(s, d, choices), more)
    decreases s, 1, 0
  {
    match s
    case If(c, block) =>
      if Vars(c) <= d {
        assert (choices + more)[1..] == choices[1..] + more;
        if choices[0] {
          WalkConcat(block, d, choices[1..], more);
        }
      }
    case IfElse(c, yes, no) =>
      if Vars(c) <= d {
        assert (choices + more)[1..] == choices[1..] + more;
        WalkConcat(if choices[0] then yes else no, d, choices[1..], more);
      }
    case For(v, items, block) =>
      if Vars(items) <= d {
        WalkLoopConcat(v, block, d, choices, more);
      }
    case _ =>
  }

  lemma {:induction false} WalkLoopConcat(v: Var, block: seq<Stmt>, d: set<Var>, choices: seq<bool>, more: seq<bool>)
    requires !WalkLoop(v, block, d, choices).Starved?
    ensures WalkLoop(v, block, d, choices + more) == Longer(WalkLoop(v, block, d, choices), more)
    decreases block, 1, |choices|
  {
    assert (choices + more)[1..] == choices[1..] + more;
    if choices[0] {
      WalkConcat(block, d + {v}, choices[1..], more);
      var w := WalkOf(block, d + {v}, choices[1..]);
      if w.Passed? {
        WalkLoopConcat(v, block, w.known, w.choices, more);
      }
    }
  }

  /** A variable the flow does not count as assigned is avoided by some walk through the code. */
  lemma {:induction false} AvoidingWalk(code: seq<Stmt>, a: set<Var>, d: set<Var>, v: Var) returns (choices: seq<bool>)
    requires a <= d && v !in d && FlowOf(code, a).Falls? && v !in FlowOf(code, a).known
    ensures WalkOf(code, d, choices).Passed? && v !in WalkOf(code, d, choices).known
    ensures WalkOf(code, d, choices).choices == []
    decreases code, 0
  {
    if code == [] {
      return [];
    }
    var first := AvoidingStep(code[0], a, d, v);
    StepsFollowFlow(code[0], a, d, first);
    var w := WalkStep(code[0], d, first);
    var second := AvoidingWalk(code[1..], FlowStep(code[0], a).known, w.known, v);
    WalkStepConcat(code[0], d, first, second);
    choices := first + second;
    assert [] + second == second;
  }

  lemma {:induction false} AvoidingStep(s: Stmt, a: set<Var>, d: set<Var>, v: Var) returns (choices: seq<bool>)
    requires a <= d && v !in d && FlowStep(s, a).Falls? && v !in FlowStep(s, a).known
    ensures WalkStep(s, d, choices).Passed? && v !in WalkStep(s, d, choices).known
    ensures WalkStep(s, d, choices).choices == []
    decreases s, 1
  {
    match s
    case Assign(_, _) | Guard(_, _, _) | Break =>
      choices := [];
    case If(_, _) | For(_, _, _) =>
      choices := [false];
    case IfElse(_, yes, no) =>
      var takeYes := FlowOf(yes, a).Falls? && v !in FlowOf(yes, a).known;
      var rest := AvoidingWalk(if takeYes then yes else no, a, d, v);
      choices := [takeYes] + rest;
      assert choices[1..] == rest;
  }

  /** The variable whose assignment is missing, where the flow first notices. */
  ghost function MissingVar(code: seq<Stmt>, a: set<Var>): (v: Var)
    requires FlowOf(code, a).Misses?
    ensures v !in a
    decreases code, 0
  {
    if FlowStep(code[0], a).Misses? then MissingInStep(code[0], a)
    else MissingVar(code[1..], FlowStep(code[0], a).known)
  }

  ghost function MissingInStep(s: Stmt, a: set<Var>): (v: Var)
    requires FlowStep(s, a).Misses?
    ensures v !in a
    decreases s, 1
  {
    match s
    case Assign(_, e) => Missing(e, a)
    case Guard(v, _, _) => v
    case If(c, block) => if Vars(c) <= a then MissingVar(block, a) else Missing(c, a)
    case IfElse(c, yes, no) =>
      if !(Vars(c) <= a) then Missing(c, a)
      else if FlowOf(yes, a).Misses? then MissingVar(yes, a)
      else MissingVar(no, a)
    case For(v, items, block) => if Vars(items) <= a then MissingVar(block, a + {v}) else Missing(items, a)
  }

  ghost function Missing(e: Expr, a: set<Var>): (v: Var)
    requires !(Vars(e) <= a)
    ensures v in Vars(e) && v !in a
  {
    var v :| v in Vars(e) && v !in a;
    v
  }

  lemma {:induction false} MissingWalk(code: seq<Stmt>, a: set<Var>, d: set<Var>) returns (choices: seq<bool>)
    requires a <= d && FlowOf(code, a).Misses? && MissingVar(code, a) !in d
    ensures WalkOf(code, d, choices).Missed?
    decreases code, 0
  {
    if FlowStep(code[0], a).Misses? {
      choices := MissingStep(code[0], a, d);
    } else {
      var v := MissingVar(code, a);
      var first := AvoidingStep(code[0], a, d, v);
      StepsFollowFlow(code[0], a, d, first);
      var w := WalkStep(code[0], d, first);
      var second := MissingWalk(code[1..], FlowStep(code[0], a).known, w.known);
      WalkStepConcat(code[0], d, first, second);
      choices := first + second;
      assert [] + second == second;
    }
  }

  lemma {:induction false} MissingStep(s: Stmt, a: set<Var>, d: set<Var>) returns (choices: seq<bool>)
    requires a <= d && FlowStep(s, a).Misses? && MissingInStep(s, a) !in d
    ensures WalkStep(s, d, choices).Missed?
    decreases s, 1
  {
    choices := [];
    match s
    case Assign(_, _) | Guard(_, _, _) =>
    case If(c, block) =>
      if Vars(c) <= a {
        var rest := MissingWalk(block, a, d);
        choices := [true] + rest;
        assert choices[1..] == rest;
      }
    case IfElse(c, yes, no) =>
      if Vars(c) <= a {
        var takeYes := FlowOf(yes, a).Misses?;
        var rest := MissingWalk(if takeYes then yes else no, a, d);
        choices := [takeYes] + rest;
        assert choices[1..] == rest;
      }
    case For(v, items, block) =>
      if Vars(items) <= a {
        var rest := MissingWalk(block, a + {v}, d + {v});
        choices := [true] + rest;
        assert choices[1..] == rest;
      }
  }

  /** Every walk through the function reads assigned variables only, the returned expression included. */
  ghost predicate DefinitelyAssigned(f: Function) {
    forall choices ::
      var w := WalkOf(f.body + [Assign(0, f.result)], RootVars(f.roots), choices);
      !w.Missed?
  }

  /** The flow decides definite assignment. */
  lemma {:induction false} FlowDecides(f: Function)
    ensures DefinitelyAssigned(f) <==> !FlowOf(f.body + [Assign(0, f.result)], RootVars(f.roots)).Misses?
  {
    var code, d := f.body + [Assign(0, f.result)], RootVars(f.roots);
    if FlowOf(code, d).Misses? {
      var choices := MissingWalk(code, d, d);
      assert WalkOf(code, d, choices).Missed?;
    } else {
      forall choices {
        WalksFollowFlow(code, d, d, choices);
      }
    }
  }

  // ----- code that never leaves a loop around it -----

  predicate Closed(code: seq<Stmt>)
    decreases code, 0
  {
    code == [] || (ClosedStep(code[0]) && Closed(code[1..]))
  }

  predicate ClosedStep(s: Stmt)
    decreases s, 1
  {
    match s
    case Assign(_, _) | Guard(_, _, _) | For(_, _, _) => true
    case If(_, block) => Closed(block)
    case IfElse(_, yes, no) => Closed(yes) && Closed(no)
    case Break => false
  }

  lemma {:induction false} ClosedFlow(code: seq<Stmt>, d: set<Var>)
    requires Closed(code)
    ensures !FlowOf(code, d).Leaves?
    decreases code, 0
  {
    if code != [] {
      ClosedFlowStep(code[0], d);
      if FlowStep(code[0], d).Falls? {
        ClosedFlow(code[1..], FlowStep(code[0], d).known);
      }
    }
  }

  lemma {:induction false} ClosedFlowStep(s: Stmt, d: set<Var>)
    requires ClosedStep(s)
    ensures !FlowStep(s, d).Leaves?
    decreases s, 1
  {
    match s
    case If(_, block) => ClosedFlow(block, d);
    case IfElse(_, yes, no) =>
      ClosedFlow(yes, d);
      ClosedFlow(no, d);
    case _ =>
  }

  lemma {:induction false} ClosedConcat(a: seq<Stmt>, b: seq<Stmt>)
    ensures Closed(a + b) <==> Closed(a) && Closed(b)
    decreases a
  {
    if a == [] {
      assert a + b == b;
    } else {
      assert (a + b)[1..] == a[1..] + b;
      ClosedConcat(a[1..], b);
    }
  }
}
