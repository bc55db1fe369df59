/** The plain-data plan tree and its static classification. */
module Plans {
  import opened Values

  datatype Comparison = CmpEq | CmpNe | CmpLt | CmpLe | CmpGt | CmpGe
  datatype Arithmetic = Add | Sub | Mul | Div | Rem
  datatype TextTest = TestStartsWith | TestEndsWith | TestContains

  /** `conj` tells `&&` from `||`, and `universal` tells `all` from `exists`.
      `quoted` records whether the program wrote the field in back quotes: such a selection is never part of a
      qualified name for the engine. The plan text drops the difference, and the compiler ignores it. */
  datatype Plan =
    | BoolLit(b: bool)
    | IntLit(n: int)
    | TextLit(t: Text)
    | ListLit(members: seq<Text>)
    | Ident(name: Text)
    | Select(target: Plan, field: Text, quoted: bool)
    | Index(target: Plan, key: Plan)
    | Logic(conj: bool, left: Plan, right: Plan)
    | Compare(op: Comparison, left: Plan, right: Plan)
    | Arith(aop: Arithmetic, left: Plan, right: Plan)
    | Neg(operand: Plan)
    | Not(operand: Plan)
    | Size(operand: Plan)
    | In(needle: Plan, list: Plan)
    | Quantifier(universal: bool, target: Plan, variable: Text, body: Plan)
    | Cond(condition: Plan, yes: Plan, no: Plan)
    | Matches(text: Plan, pattern: Text)
    | Test(test: TextTest, text: Plan, argument: Plan)
    | Nonsense

  datatype PlainType = TBool | TText | TInt | TObject | TList | TAny

  predicate IsOrdering(op: Comparison) {
    !op.CmpEq? && !op.CmpNe?
  }

  predicate TextTested(test: TextTest, t: Text, argument: Text) {
    match test
    case TestStartsWith => StartsWith(t, argument)
    case TestEndsWith => EndsWith(t, argument)
    case TestContains => Contains(t, argument)
  }

  predicate IsRead(p: Plan) {
    p.Ident? || p.Select? || p.Index?
  }

  predicate IsLiteral(p: Plan) {
    p.BoolLit? || p.TextLit? || p.IntLit?
  }

  function OrElse<T>(a: Option<T>, b: Option<T>): Option<T> {
    if a.Some? then a else b
  }

  /** Static type of a node when the node itself determines it; reads have none. */
  function Infer(p: Plan): Option<PlainType> {
    match p
    case BoolLit(_) => Some(TBool)
    case TextLit(_) => Some(TText)
    case IntLit(_) => Some(TInt)
    case ListLit(_) => Some(TList)
    case Size(_) | Neg(_) | Arith(_, _, _) => Some(TInt)
    case Cond(_, yes, no) => OrElse(Infer(yes), Infer(no))
    case Compare(_, _, _) | Logic(_, _, _) | Not(_) | In(_, _) => Some(TBool)
    case Quantifier(_, _, _, _) | Matches(_, _) | Test(_, _, _) => Some(TBool)
    case Ident(_) | Select(_, _, _) | Index(_, _) | Nonsense => None
  }

  /** The operand type of `==` and `!=`. */
  function ComparedType(left: Plan, right: Plan): PlainType {
    match OrElse(Infer(left), Infer(right))
    case Some(t) => t
    case None => TText
  }

  function KeyType(key: Plan): PlainType {
    match Infer(key)
    case Some(t) => t
    case None => TText
  }

  /** What `target[key]` needs its target to be. */
  function IndexedType(p: Plan): PlainType
    requires p.Index?
  {
    if KeyType(p.key) == TText then TObject else TList
  }

  // ----- operators, by number of operands -----

  predicate IsUnary(p: Plan) {
    p.Neg? || p.Not? || p.Size? || p.In? || p.Matches?
  }

  predicate IsBinary(p: Plan) {
    p.Compare? || p.Arith? || p.Test?
  }

  /** The type of an operator's result. */
  function ResultType(p: Plan): PlainType
    requires IsUnary(p) || IsBinary(p)
  {
    if p.Neg? || p.Size? || p.Arith? then TInt else TBool
  }

  function Operand(p: Plan): (r: Plan)
    requires IsUnary(p)
    ensures r < p
  {
    match p
    case Neg(operand) => operand
    case Not(operand) => operand
    case Size(operand) => operand
    case In(needle, _) => needle
    case Matches(text, _) => text
  }

  /** The type the operand is read as, or None when the operator is refused. */
  function OperandType(p: Plan): Option<PlainType>
    requires IsUnary(p)
  {
    match p
    case Neg(_) => Some(TInt)
    case Not(_) => Some(TBool)
    case Size(operand) =>
      if Infer(operand) == Some(TText) then Some(TText)
      else if Infer(operand).None? && IsRead(operand) then Some(TAny)
      else None
    case In(_, list) => if list.ListLit? then Some(TText) else None
    case Matches(_, _) => Some(TText)
  }

  predicate OperandChecked(p: Plan) {
    !p.In?
  }

  function LeftOperand(p: Plan): (r: Plan)
    requires IsBinary(p)
    ensures r < p
  {
    match p
    case Compare(_, left, _) => left
    case Arith(_, left, _) => left
    case Test(_, text, _) => text
  }

  function RightOperand(p: Plan): (r: Plan)
    requires IsBinary(p)
    ensures r < p
  {
    match p
    case Compare(_, _, right) => right
    case Arith(_, _, right) => right
    case Test(_, _, argument) => argument
  }

  /** The type both operands are read as, or None when the operator is refused. Only integers are ordered: texts would
      need code-point order, and compound values are not compared at all. */
  function OperandsType(p: Plan): Option<PlainType>
    requires IsBinary(p)
  {
    match p
    case Compare(op, left, right) =>
      if IsOrdering(op) then Some(TInt)
      else if ComparedType(left, right) in {TObject, TList, TAny} then None
      else Some(ComparedType(left, right))
    case Arith(_, _, _) => Some(TInt)
    case Test(_, _, _) => Some(TText)
  }

  /** Texts compared with a literal, or tested against one, are read without the well-formedness check. */
  predicate OperandsChecked(p: Plan)
    requires IsBinary(p)
  {
    match p
    case Compare(op, left, right) =>
      IsOrdering(op) || !(ComparedType(left, right) == TText && (IsLiteral(left) || IsLiteral(right)))
    case Arith(_, _, _) => true
    case Test(_, _, argument) => !argument.TextLit?
  }

  /** The dotted name an identifier chain spells, or None for other shapes. */
  function QualifiedName(p: Plan): Option<Text> {
    match p
    case Ident(name) => Some(name)
    case Select(target, field, _) =>
      var prefix :- QualifiedName(target);
      Some(prefix + [DOT] + field)
    case _ => None
  }

  /** The identifier at the root of a chain. */
  function ChainRoot(p: Plan): Option<Text> {
    match p
    case Ident(name) => Some(name)
    case Select(target, _, _) => ChainRoot(target)
    case _ => None
  }

  /** A chain all of whose selections are unquoted: the engine may resolve it as one name. */
  predicate Unquoted(p: Plan) {
    match p
    case Ident(_) => true
    case Select(target, _, quoted) => !quoted && Unquoted(target)
    case _ => false
  }
}
