/** The trees that formulas are parsed into (calc/parse.go) and their function table. */
module Formula {
  import opened Common

  datatype Operator =
    | NotEqual | BangEqual | LessEqual | GreaterEqual | DoubleEqual
    | Plus | Minus | Star | Slash | Ampersand | Equal | Less | Greater

  datatype UnaryOp = Not | Negate

  datatype BinaryOp = Or | And | Infix(op: Operator)

  datatype Function =
    | If | Case | Upper | Lower | Trim | Length | Substitute | List | Concat | Left | Right
    | Middle | Round | Abs | Sum | Min | Max | Average | IsEmpty | Coalesce | Today | Now
    | Year | Month | Day

  datatype Node =
    | NumberNode(value: real, at: nat)
    | TextNode(text: string, at: nat)
    | BoolNode(truth: bool, at: nat)
    | FieldNode(name: string, at: nat)
    | UnaryNode(unary: UnaryOp, operand: Node, at: nat)
    | BinaryNode(binary: BinaryOp, left: Node, right: Node, at: nat)
    | CallNode(fn: Function, args: seq<Node>, at: nat)

  /** What went wrong, and where in the formula. */
  datatype Problem =
    | FormulaEmpty | UnexpectedCharacter | UnterminatedText
    | AfterTheEnd | ParenExpected | CallParenExpected | UnknownFunction
    | TooFewArguments | TooManyArguments | BadNumber | EndsTooEarly | UnexpectedToken
    | NotANumber | DateAsNumber | DivisionByZero | NegativeCount | EmptyDate | NotADate

  datatype Error = Error(pos: nat, problem: Problem)

  function FunctionName(f: Function): string {
    match f
    case If => "IF" case Case => "CASE" case Upper => "UPPER" case Lower => "LOWER"
    case Trim => "TRIM" case Length => "LENGTH" case Substitute => "SUBSTITUTE"
    case List => "LIST" case Concat => "CONCAT" case Left => "LEFT" case Right => "RIGHT"
    case Middle => "MIDDLE" case Round => "ROUND" case Abs => "ABS" case Sum => "SUM"
    case Min => "MIN" case Max => "MAX" case Average => "AVERAGE" case IsEmpty => "ISEMPTY"
    case Coalesce => "COALESCE" case Today => "TODAY" case Now => "NOW"
    case Year => "YEAR" case Month => "MONTH" case Day => "DAY"
  }

  /** The function table, by name. */
  function Lookup(name: string): (f: Option<Function>)
    ensures f.Some? ==> FunctionName(f.value) == name
  {
    match name
    case "IF" => Some(If) case "CASE" => Some(Case) case "UPPER" => Some(Function.Upper)
    case "LOWER" => Some(Lower) case "TRIM" => Some(Function.Trim) case "LENGTH" => Some(Length)
    case "SUBSTITUTE" => Some(Substitute) case "LIST" => Some(List) case "CONCAT" => Some(Concat)
    case "LEFT" => Some(Left) case "RIGHT" => Some(Right) case "MIDDLE" => Some(Middle)
    case "ROUND" => Some(Round) case "ABS" => Some(Abs) case "SUM" => Some(Sum)
    case "MIN" => Some(Min) case "MAX" => Some(Max) case "AVERAGE" => Some(Average)
    case "ISEMPTY" => Some(IsEmpty) case "COALESCE" => Some(Coalesce) case "TODAY" => Some(Today)
    case "NOW" => Some(Now) case "YEAR" => Some(Year) case "MONTH" => Some(Month)
    case "DAY" => Some(Day) case _ => None
  }

  lemma LookupName(f: Function)
    ensures Lookup(FunctionName(f)) == Some(f)
  {
  }

  function MinArgs(f: Function): nat {
    match f
    case Today | Now => 0
    case If | Case | Left | Right => 2
    case Substitute | Middle => 3
    case _ => 1
  }

  /** The most arguments a function takes; None means any number. */
  function MaxArgs(f: Function): Option<nat> {
    match f
    case Today | Now => Some(0)
    case Case | List | Concat | Sum | Min | Max | Average | Coalesce => None
    case Left | Right | Round => Some(2)
    case If | Substitute | Middle => Some(3)
    case _ => Some(1)
  }

  predicate LegalArity(f: Function, count: nat) {
    MinArgs(f) <= count && (MaxArgs(f).Some? ==> count <= MaxArgs(f).value)
  }

  /** Every call in the tree has a number of arguments its function takes. */
  predicate WellFormed(n: Node) {
    match n
    case UnaryNode(_, operand, _) => WellFormed(operand)
    case BinaryNode(_, left, right, _) => WellFormed(left) && WellFormed(right)
    case CallNode(fn, args, _) =>
      LegalArity(fn, |args|) && forall i :: 0 <= i < |args| ==> WellFormed(args[i])
    case _ => true
  }

  /** The field names a formula reads. */
  function Fields(n: Node): set<string> {
    match n
    case FieldNode(name, _) => {name}
    case UnaryNode(_, operand, _) => Fields(operand)
    case BinaryNode(_, left, right, _) => Fields(left) + Fields(right)
    case CallNode(_, args, _) => set i, f | 0 <= i < |args| && f in Fields(args[i]) :: f
    case _ => {}
  }

  lemma CallFields(n: Node)
    requires n.CallNode?
    ensures forall f :: f in Fields(n) <==> exists i :: 0 <= i < |n.args| && f in Fields(n.args[i])
  {
    var fields := set i, f | 0 <= i < |n.args| && f in Fields(n.args[i]) :: f;
    assert Fields(n) == fields;
  }

  /** One tree is another, or part of it. */
  predicate Within(m: Node, n: Node) {
    m == n ||
    match n
    case UnaryNode(_, operand, _) => Within(m, operand)
    case BinaryNode(_, left, right, _) => Within(m, left) || Within(m, right)
    case CallNode(_, args, _) => exists i :: 0 <= i < |args| && Within(m, args[i])
    case _ => false
  }

  /** A formula reads exactly the fields that stand in it, whatever its texts say. */
  lemma {:induction false} FieldsStandIn(n: Node, name: string)
    ensures name in Fields(n) <==> exists at: nat :: Within(FieldNode(name, at), n)
  {
    match n
    case UnaryNode(_, operand, _) =>
      FieldsStandIn(operand, name);
      forall at: nat ensures Within(FieldNode(name, at), n) <==> Within(FieldNode(name, at), operand) {}
    case BinaryNode(_, left, right, _) =>
      FieldsStandIn(left, name);
      FieldsStandIn(right, name);
      forall at: nat ensures Within(FieldNode(name, at), n) <==>
        Within(FieldNode(name, at), left) || Within(FieldNode(name, at), right)
      {
      }
    case CallNode(_, args, _) =>
      CallFields(n);
      forall i | 0 <= i < |args| ensures name in Fields(args[i]) <==>
        exists at: nat :: Within(FieldNode(name, at), args[i])
      {
        FieldsStandIn(args[i], name);
      }
      forall at: nat ensures Within(FieldNode(name, at), n) <==>
        exists i :: 0 <= i < |args| && Within(FieldNode(name, at), args[i])
      {
      }
    case FieldNode(_, at) => assert name == n.name ==> Within(FieldNode(name, at), n);
    case _ =>
  }

  /** The tree without its positions. */
  function Strip(n: Node): Node {
    match n
    case UnaryNode(op, operand, _) => UnaryNode(op, Strip(operand), 0)
    case BinaryNode(op, left, right, _) => BinaryNode(op, Strip(left), Strip(right), 0)
    case CallNode(fn, args, _) =>
      CallNode(fn, seq(|args|, i requires 0 <= i < |args| => Strip(args[i])), 0)
    case NumberNode(v, _) => NumberNode(v, 0)
    case TextNode(s, _) => TextNode(s, 0)
    case BoolNode(b, _) => BoolNode(b, 0)
    case FieldNode(name, _) => FieldNode(name, 0)
  }
}
