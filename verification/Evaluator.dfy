/** calc/eval.go, calc/functions.go and calc/value.go: what a formula works out to. */
module Evaluator {
  import opened Common
  import opened Formula
  import Numerals

  /** What a formula works with. */
  datatype Value =
    | Empty
    | Number(num: real)
    | Text(text: string)
    | Bool(truth: bool)
    | Time(when: Moment)

  /** What a record holds in a field. */
  datatype Stored =
    | Null
    | StoredNumber(num: real)
    | StoredText(text: string)
    | StoredBool(truth: bool)
    | StoredTime(when: Moment)

  type Record = map<string, Stored>

  datatype ResultType = AsText | AsNumber | AsDate | AsTimestamp | AsBoolean

  /** What reading a name from a record gives; a name that is not there reads as nothing. */
  function ReadField(r: Record, name: string): Stored {
    if name in r then r[name] else Null
  }

  function FromStored(raw: Stored): Value {
    match raw
    case Null => Empty
    case StoredNumber(n) => Number(n)
    case StoredText(s) => if s == "" then Empty else Text(s)
    case StoredBool(b) => Bool(b)
    case StoredTime(t) => Time(t)
  }

  function ToNumber(h: Host, v: Value, at: nat): Result<real, Error> {
    match v
    case Empty => Ok(0.0)
    case Number(n) => Ok(n)
    case Bool(b) => Ok(if b then 1.0 else 0.0)
    case Text(s) =>
      (match h.parseFloat(Common.Trim(h, s))
       case Some(n) => Ok(n)
       case None => Err(Error(at, NotANumber)))
    case Time(_) => Err(Error(at, DateAsNumber))
  }

  function IntText(i: int): string {
    if i < 0 then "-" + Numerals.DigitsOf(-i) else Numerals.DigitsOf(i)
  }

  /** A whole number below 10^15 is written without a fraction. */
  function FormatNumber(h: Host, n: real): string {
    if n == n.Floor as real && -1000000000000000.0 < n < 1000000000000000.0 then IntText(n.Floor)
    else h.formatFloat(n)
  }

  function ToText(h: Host, v: Value): string {
    match v
    case Empty => ""
    case Number(n) => FormatNumber(h, n)
    case Text(s) => s
    case Bool(b) => if b then "true" else "false"
    case Time(t) => if h.atMidnight(t) then h.formatDate(t) else h.formatTimestamp(t)
  }

  predicate Truth(h: Host, v: Value) {
    match v
    case Empty => false
    case Bool(b) => b
    case Number(n) => n != 0.0
    case Text(s) => Common.Trim(h, s) != ""
    case Time(t) => t != 0
  }

  function ToTime(h: Host, v: Value, at: nat): Result<Moment, Error> {
    match v
    case Time(t) => Ok(t)
    case Text(s) =>
      (match h.parseTime(Common.Trim(h, s))
       case Some(t) => Ok(t)
       case None => Err(Error(at, NotADate)))
    case Empty => Err(Error(at, EmptyDate))
    case _ => Err(Error(at, NotADate))
  }

  predicate IsNumeric(h: Host, v: Value) {
    match v
    case Number(_) | Bool(_) => true
    case Text(s) => h.parseFloat(Common.Trim(h, s)).Some?
    case _ => false
  }


  /** Moments as moments, numbers as numbers, anything else as text ignoring case. */
  function Compare(h: Host, a: Value, b: Value, at: nat): (c: Result<int, Error>)
    ensures c.Ok?
  {
    if a.Empty? && b.Empty? then Ok(0)
    else if a.Time? && b.Time? then Ok(if a.when < b.when then -1 else if a.when > b.when then 1 else 0)
    else if IsNumeric(h, a) && IsNumeric(h, b) then
      var x, y := ToNumber(h, a, at), ToNumber(h, b, at);
      Ok(if x.value < y.value then -1 else if x.value > y.value then 1 else 0)
    else Ok(CompareText(h.toLower(ToText(h, a)), h.toLower(ToText(h, b))))
  }

  /** The conversion of a float to an integer drops the fraction. */
  function Truncate(r: real): int {
    if r >= 0.0 then r.Floor else -((-r).Floor)
  }

  // ─── Functions over arguments that were evaluated already ───

  /** Every argument as a number, or the first error. */
  function Numbers(h: Host, args: seq<Value>, at: nat): (r: Result<seq<real>, Error>)
    ensures r.Ok? ==> |r.value| == |args|
  {
    if args == [] then Ok([])
    else match ToNumber(h, args[0], at)
      case Err(e) => Err(e)
      case Ok(n) =>
        match Numbers(h, args[1..], at)
        case Err(e) => Err(e)
        case Ok(rest) => Ok([n] + rest)
  }

  function Total(ns: seq<real>): real {
    if ns == [] then 0.0 else Total(ns[..|ns| - 1]) + ns[|ns| - 1]
  }

  function Least(ns: seq<real>): real
    requires ns != []
  {
    var last := ns[|ns| - 1];
    if |ns| == 1 then last
    else var rest := Least(ns[..|ns| - 1]); if last < rest then last else rest
  }

  function Greatest(ns: seq<real>): real
    requires ns != []
  {
    var last := ns[|ns| - 1];
    if |ns| == 1 then last
    else var rest := Greatest(ns[..|ns| - 1]); if last > rest then last else rest
  }

  /** The texts of the arguments that have something in them. */
  function FilledTexts(h: Host, args: seq<Value>): seq<string> {
    if args == [] then []
    else
      var front, last := FilledTexts(h, args[..|args| - 1]), args[|args| - 1];
      if last.Empty? then front else front + [ToText(h, last)]
  }

  function Join(parts: seq<string>, separator: string): string {
    if parts == [] then ""
    else if |parts| == 1 then parts[0]
    else Join(parts[..|parts| - 1], separator) + separator + parts[|parts| - 1]
  }

  function AllTexts(h: Host, args: seq<Value>): string {
    if args == [] then "" else AllTexts(h, args[..|args| - 1]) + ToText(h, args[|args| - 1])
  }

  function FirstFilled(args: seq<Value>): Value {
    if args == [] then Empty else if !args[0].Empty? then args[0] else FirstFilled(args[1..])
  }

  /** The number of characters a LEFT or RIGHT takes of a text. */
  function CountOf(h: Host, v: Value, at: nat, available: nat): (r: Result<nat, Error>)
    ensures r.Ok? ==> r.value <= available
  {
    match ToNumber(h, v, at)
    case Err(e) => Err(e)
    case Ok(n) =>
      if n < 0.0 then Err(Error(at, NegativeCount))
      else Ok(if Truncate(n) > available then available else Truncate(n))
  }

  function MiddleOf(text: string, start: real, count: real): Value {
    var from := if Truncate(start) - 1 < 0 then 0 else Truncate(start) - 1;
    if from >= |text| || count <= 0.0 then Empty
    else
      var to := from + Truncate(count);
      Text(text[from..if to > |text| then |text| else to])
  }

  function OfNumber(r: Result<real, Error>, f: real -> real): Result<Value, Error> {
    match r case Err(e) => Err(e) case Ok(n) => Ok(Number(f(n)))
  }

  function OfNumbers(r: Result<seq<real>, Error>, f: seq<real> -> real): Result<Value, Error> {
    match r case Err(e) => Err(e) case Ok(ns) => Ok(Number(f(ns)))
  }

  function DatePart(h: Host, v: Value, at: nat, part: Moment -> real): Result<Value, Error> {
    if v.Empty? then Ok(Empty)
    else match ToTime(h, v, at)
      case Err(e) => Err(e)
      case Ok(t) => Ok(Number(part(t)))
  }

  function MapText(h: Host, v: Value, f: string -> string): Value {
    if v.Empty? then Empty else Text(f(ToText(h, v)))
  }

  /** The entries of the function table. */
  function Apply(h: Host, fn: Function, at: nat, args: seq<Value>): Result<Value, Error>
    requires LegalArity(fn, |args|) && fn != If && fn != Case
  {
    match fn
    case Upper => Ok(MapText(h, args[0], h.toUpper))
    case Lower => Ok(MapText(h, args[0], h.toLower))
    case Trim => Ok(MapText(h, args[0], s => Common.Trim(h, s)))
    case Length => Ok(Number(|ToText(h, args[0])| as real))
    case Substitute =>
      Ok(Text(ReplaceAll(ToText(h, args[0]), ToText(h, args[1]), ToText(h, args[2]))))
    case List =>
      var parts := FilledTexts(h, args);
      Ok(if parts == [] then Empty else Text(Join(parts, "\n")))
    case Concat => Ok(Text(AllTexts(h, args)))
    case Left =>
      (var text := ToText(h, args[0]);
       match CountOf(h, args[1], at, |text|)
       case Err(e) => Err(e)
       case Ok(n) => Ok(Text(text[..n])))
    case Right =>
      (var text := ToText(h, args[0]);
       match CountOf(h, args[1], at, |text|)
       case Err(e) => Err(e)
       case Ok(n) => Ok(Text(text[|text| - n..])))
    case Middle =>
      (match Numbers(h, args[1..], at)
       case Err(e) => Err(e)
       case Ok(ns) => Ok(MiddleOf(ToText(h, args[0]), ns[0], ns[1])))
    case Round =>
      (match Numbers(h, args, at)
       case Err(e) => Err(e)
       case Ok(ns) => Ok(Number(h.round(ns[0], if |ns| == 2 then ns[1] else 0.0))))
    case Abs => OfNumber(ToNumber(h, args[0], at), n => if n < 0.0 then -n else n)
    case Sum => OfNumbers(Numbers(h, args, at), ns => Total(ns))
    case Min => OfNumbers(Numbers(h, args, at), ns => if ns == [] then 0.0 else Least(ns))
    case Max => OfNumbers(Numbers(h, args, at), ns => if ns == [] then 0.0 else Greatest(ns))
    case Average =>
      OfNumbers(Numbers(h, args, at), ns => if ns == [] then 0.0 else Total(ns) / |ns| as real)
    case IsEmpty => Ok(Bool(args[0].Empty?))
    case Coalesce => Ok(FirstFilled(args))
    case Today => Ok(Time(h.startOfDay(h.now)))
    case Now => Ok(Time(h.now))
    case Year => DatePart(h, args[0], at, h.year)
    case Month => DatePart(h, args[0], at, h.month)
    case Day => DatePart(h, args[0], at, h.day)
  }

  // ─── Evaluation ───

  function ApplyUnary(h: Host, op: UnaryOp, at: nat, v: Value): Result<Value, Error> {
    match op
    case Negate => OfNumber(ToNumber(h, v, at), n => -n)
    case Not => Ok(Bool(!Truth(h, v)))
  }

  function Arithmetic(op: Operator, at: nat, a: real, b: real): Result<Value, Error> {
    match op
    case Plus => Ok(Number(a + b))
    case Minus => Ok(Number(a - b))
    case Star => Ok(Number(a * b))
    case _ => if b == 0.0 then Err(Error(at, DivisionByZero)) else Ok(Number(a / b))
  }

  function ApplyInfix(h: Host, op: Operator, at: nat, left: Value, right: Value): Result<Value, Error> {
    match op
    case Ampersand => Ok(Text(ToText(h, left) + ToText(h, right)))
    case Plus | Minus | Star | Slash =>
      (match ToNumber(h, left, at)
       case Err(e) => Err(e)
       case Ok(a) =>
         match ToNumber(h, right, at)
         case Err(e) => Err(e)
         case Ok(b) => Arithmetic(op, at, a, b))
    case _ =>
      var c := Compare(h, left, right, at).value;
      Ok(Bool(match op
              case Equal | DoubleEqual => c == 0
              case NotEqual | BangEqual => c != 0
              case Less => c < 0
              case LessEqual => c <= 0
              case Greater => c > 0
              case _ => c >= 0))
  }

  function Eval(h: Host, n: Node, r: Record): Result<Value, Error>
    requires WellFormed(n)
    decreases n, 1
  {
    match n
    case NumberNode(v, _) => Ok(Number(v))
    case TextNode(s, _) => Ok(Text(s))
    case BoolNode(b, _) => Ok(Bool(b))
    case FieldNode(name, _) => Ok(FromStored(ReadField(r, name)))
    case UnaryNode(op, operand, at) =>
      (match Eval(h, operand, r)
       case Err(e) => Err(e)
       case Ok(v) => ApplyUnary(h, op, at, v))
    case BinaryNode(op, left, right, at) =>
      (match Eval(h, left, r)
       case Err(e) => Err(e)
       case Ok(a) =>
         if op == And && !Truth(h, a) then Ok(Bool(false))
         else if op == Or && Truth(h, a) then Ok(Bool(true))
         else match Eval(h, right, r)
           case Err(e) => Err(e)
           case Ok(b) => if op.Infix? then ApplyInfix(h, op.op, at, a, b) else Ok(Bool(Truth(h, b))))
    case CallNode(fn, args, at) =>
      if fn == If then
        match Eval(h, args[0], r)
        case Err(e) => Err(e)
        case Ok(test) =>
          if Truth(h, test) then Eval(h, args[1], r)
          else if |args| == 3 then Eval(h, args[2], r)
          else Ok(Empty)
      else if fn == Case then EvalCase(h, n, 0, r)
      else match EvalArgs(h, n, 0, r)
        case Err(e) => Err(e)
        case Ok(vs) => Apply(h, fn, at, vs)
  }

  /** The CASE loop from argument `i` on. */
  function EvalCase(h: Host, n: Node, i: nat, r: Record): Result<Value, Error>
    requires WellFormed(n) && n.CallNode? && i <= |n.args|
    decreases n, 0, |n.args| - i
  {
    if i + 1 < |n.args| then
      match Eval(h, n.args[i], r)
      case Err(e) => Err(e)
      case Ok(test) =>
        if Truth(h, test) then Eval(h, n.args[i + 1], r) else EvalCase(h, n, i + 2, r)
    else if i < |n.args| then Eval(h, n.args[i], r)
    else Ok(Empty)
  }

  /** The arguments from `i` on, evaluated in order. */
  function EvalArgs(h: Host, n: Node, i: nat, r: Record): (vs: Result<seq<Value>, Error>)
    requires WellFormed(n) && n.CallNode? && i <= |n.args|
    ensures vs.Ok? ==> |vs.value| == |n.args| - i
    decreases n, 0, |n.args| - i
  {
    if i == |n.args| then Ok([])
    else match Eval(h, n.args[i], r)
      case Err(e) => Err(e)
      case Ok(v) =>
        match EvalArgs(h, n, i + 1, r)
        case Err(e) => Err(e)
        case Ok(rest) => Ok([v] + rest)
  }

  /** store: the value as its result type has it stored. */
  function Store(h: Host, v: Value, at: nat, result: ResultType): Result<Stored, Error> {
    if v.Empty? then Ok(Null)
    else match result
      case AsNumber =>
        (match ToNumber(h, v, at) case Err(e) => Err(e) case Ok(n) => Ok(StoredNumber(n)))
      case AsBoolean => Ok(StoredBool(Truth(h, v)))
      case AsDate =>
        (match ToTime(h, v, at) case Err(e) => Err(e) case Ok(t) => Ok(StoredText(h.formatDate(t))))
      case AsTimestamp =>
        (match ToTime(h, v, at) case Err(e) => Err(e) case Ok(t) => Ok(StoredText(h.formatTimestamp(t))))
      case AsText => Ok(StoredText(ToText(h, v)))
  }

  /** Evaluate: the answer of a formula over a record, ready to be stored. */
  function Evaluate(h: Host, n: Node, r: Record, result: ResultType): Result<Stored, Error>
    requires WellFormed(n)
  {
    match Eval(h, n, r)
    case Err(e) => Err(e)
    case Ok(v) => Store(h, v, n.at, result)
  }
}
