/** The generated body as the source lays it out: one line per simple statement or block header, nested by
    indentation. */
module Layout {
  import opened Values
  import opened Plans
  import opened PythonTarget

  datatype Line = Line(indent: nat, text: LineText)

  datatype LineText =
    | LineAssign(v: Var, e: Expr)
    | LineGuard(v: Var, expected: PlainType, checkedText: bool)
    | LineIf(condition: Expr)
    | LineElse
    | LineFor(v: Var, items: Expr)
    | LineBreak

  function Lines(code: seq<Stmt>, indent: nat): seq<Line>
    decreases code, 0
  {
    if code == [] then [] else StmtLines(code[0], indent) + Lines(code[1..], indent)
  }

  function StmtLines(s: Stmt, indent: nat): (r: seq<Line>)
    ensures r != [] && r[0].indent == indent && !r[0].text.LineElse?
    decreases s, 1
  {
    match s
    case Assign(v, e) => [Line(indent, LineAssign(v, e))]
    case Guard(v, expected, checkedText) => [Line(indent, LineGuard(v, expected, checkedText))]
    case If(condition, block) => [Line(indent, LineIf(condition))] + Lines(block, indent + 1)
    case IfElse(condition, yes, no) =>
      [Line(indent, LineIf(condition))] + Lines(yes, indent + 1) + [Line(indent, LineElse)] + Lines(no, indent + 1)
    case For(v, items, block) => [Line(indent, LineFor(v, items))] + Lines(block, indent + 1)
    case Break => [Line(indent, LineBreak)]
  }

  lemma {:induction false} LinesConcat(a: seq<Stmt>, b: seq<Stmt>, indent: nat)
    ensures Lines(a + b, indent) == Lines(a, indent) + Lines(b, indent)
  {
    if a == [] {
      assert a + b == b;
    } else {
      assert (a + b)[0] == a[0] && (a + b)[1..] == a[1..] + b;
      LinesConcat(a[1..], b, indent);
    }
  }

  // ----- how Python reads blocks back -----

  datatype Parsed = Parsed(code: seq<Stmt>, rest: seq<Line>)

  /** The statements at one indentation, up to the first line that is indented less. The lines below a header that are
      indented one step further are its block, and `else` needs the block of an `if` just above. */
  function Parse(lines: seq<Line>, indent: nat): (r: Option<Parsed>)
    ensures r.Some? ==> |r.value.rest| <= |lines|
    decreases |lines|, 1
  {
    if lines == [] || lines[0].indent < indent then Some(Parsed([], lines))
    else if lines[0].indent > indent then None
    else
      var first :- ParseStmt(lines, indent);
      var more :- Parse(first.rest, indent);
      Some(Parsed(first.code + more.code, more.rest))
  }

  function ParseStmt(lines: seq<Line>, indent: nat): (r: Option<Parsed>)
    requires lines != []
    ensures r.Some? ==> |r.value.rest| < |lines|
    decreases |lines|, 0
  {
    match lines[0].text
    case LineAssign(v, e) => Some(Parsed([Assign(v, e)], lines[1..]))
    case LineGuard(v, expected, checkedText) => Some(Parsed([Guard(v, expected, checkedText)], lines[1..]))
    case LineIf(condition) =>
      var yes :- Parse(lines[1..], indent + 1);
      if yes.rest != [] && yes.rest[0] == Line(indent, LineElse) then
        var no :- Parse(yes.rest[1..], indent + 1);
        Some(Parsed([IfElse(condition, yes.code, no.code)], no.rest))
      else Some(Parsed([If(condition, yes.code)], yes.rest))
    case LineElse => None
    case LineFor(v, items) =>
      var block :- Parse(lines[1..], indent + 1);
      Some(Parsed([For(v, items, block.code)], block.rest))
    case LineBreak => Some(Parsed([Break], lines[1..]))
  }

  /** Reading the laid-out lines gives the code back, whatever follows at a smaller indentation. */
  lemma {:induction false} LinesRoundTrip(code: seq<Stmt>, indent: nat, rest: seq<Line>)
    requires rest == [] || rest[0].indent < indent
    ensures Parse(Lines(code, indent) + rest, indent) == Some(Parsed(code, rest))
    decreases code, 0
  {
    if code == [] {
      assert Lines(code, indent) + rest == rest;
    } else {
      var after := Lines(code[1..], indent) + rest;
      assert Lines(code, indent) + rest == StmtLines(code[0], indent) + after;
      StmtRoundTrip(code[0], indent, after);
      LinesRoundTrip(code[1..], indent, rest);
      assert code == [code[0]] + code[1..];
    }
  }

  /** What may follow a statement: nothing, a line of its block that is not `else`, or the end of its block. */
  predicate Follows(rest: seq<Line>, indent: nat) {
    rest == [] || rest[0].indent < indent || (rest[0].indent == indent && !rest[0].text.LineElse?)
  }

  lemma {:induction false} StmtRoundTrip(s: Stmt, indent: nat, rest: seq<Line>)
    requires Follows(rest, indent)
    ensures ParseStmt(StmtLines(s, indent) + rest, indent) == Some(Parsed([s], rest))
    decreases s, 1
  {
    hide Lines, StmtLines, Parse, ParseStmt;
    match s
    case If(condition, block) =>
      LinesRoundTrip(block, indent + 1, rest);
      IfParses(condition, block, indent, rest);
    case For(v, items, block) =>
      LinesRoundTrip(block, indent + 1, rest);
      ForParses(v, items, block, indent, rest);
    case IfElse(condition, yes, no) =>
      LinesRoundTrip(yes, indent + 1, [Line(indent, LineElse)] + (Lines(no, indent + 1) + rest));
      LinesRoundTrip(no, indent + 1, rest);
      IfElseParses(condition, yes, no, indent, rest);
    case Assign(_, _) | Guard(_, _, _) | Break => LineParses(s, indent, rest);
  }

  lemma {:induction false} LineParses(s: Stmt, indent: nat, rest: seq<Line>)
    requires s.Assign? || s.Guard? || s.Break?
    ensures ParseStmt(StmtLines(s, indent) + rest, indent) == Some(Parsed([s], rest))
  {
    assert (StmtLines(s, indent) + rest)[1..] == rest;
  }

  lemma {:induction false} IfParses(condition: Expr, block: seq<Stmt>, indent: nat, rest: seq<Line>)
    requires Follows(rest, indent)
    requires Parse(Lines(block, indent + 1) + rest, indent + 1) == Some(Parsed(block, rest))
    ensures ParseStmt(StmtLines(If(condition, block), indent) + rest, indent)
              == Some(Parsed([If(condition, block)], rest))
  {
    hide Lines, Parse;
    var lines := StmtLines(If(condition, block), indent) + rest;
    assert lines == [Line(indent, LineIf(condition))] + (Lines(block, indent + 1) + rest);
    assert lines[1..] == Lines(block, indent + 1) + rest;
  }

  lemma {:induction false} ForParses(v: Var, items: Expr, block: seq<Stmt>, indent: nat, rest: seq<Line>)
    requires Parse(Lines(block, indent + 1) + rest, indent + 1) == Some(Parsed(block, rest))
    ensures ParseStmt(StmtLines(For(v, items, block), indent) + rest, indent)
         == Some(Parsed([For(v, items, block)], rest))
  {
    hide Lines, Parse;
    var lines := StmtLines(For(v, items, block), indent) + rest;
    assert lines == [Line(indent, LineFor(v, items))] + (Lines(block, indent + 1) + rest);
    assert lines[1..] == Lines(block, indent + 1) + rest;
  }

  lemma {:induction false} IfElseParses(condition: Expr, yes: seq<Stmt>, no: seq<Stmt>, indent: nat, rest: seq<Line>)
    requires var tail := [Line(indent, LineElse)] + (Lines(no, indent + 1) + rest);
             Parse(Lines(yes, indent + 1) + tail, indent + 1) == Some(Parsed(yes, tail))
    requires Parse(Lines(no, indent + 1) + rest, indent + 1) == Some(Parsed(no, rest))
    ensures ParseStmt(StmtLines(IfElse(condition, yes, no), indent) + rest, indent)
         == Some(Parsed([IfElse(condition, yes, no)], rest))
  {
    hide Lines, Parse;
    var tail := [Line(indent, LineElse)] + (Lines(no, indent + 1) + rest);
    var lines := StmtLines(IfElse(condition, yes, no), indent) + rest;
    assert lines == [Line(indent, LineIf(condition))] + (Lines(yes, indent + 1) + tail);
    assert lines[1..] == Lines(yes, indent + 1) + tail;
    assert tail[1..] == Lines(no, indent + 1) + rest;
  }
}
