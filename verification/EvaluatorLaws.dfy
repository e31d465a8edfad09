/**
 * Laws of evaluation: what it depends on, what CASE stands for, and what laziness changes.
 * The loops of calc/functions.go are proved against the specification at the end.
 */
module EvaluatorLaws {
  import opened Common
  import opened Formula
  import opened Evaluator

  // ─── Frame: only the fields of the formula matter ───

  predicate Agree(a: Record, b: Record, names: set<string>) {
    forall f :: f in names ==> ReadField(a, f) == ReadField(b, f)
  }

  /** Records that agree on the fields a formula reads give the same value or the same error. */
  lemma {:induction false} EvalFrame(h: Host, n: Node, a: Record, b: Record)
    requires WellFormed(n) && Agree(a, b, Fields(n))
    ensures Eval(h, n, a) == Eval(h, n, b)
    decreases n, 1
  {
    match n {
      case UnaryNode(_, operand, _) =>
        EvalFrame(h, operand, a, b);
      case BinaryNode(_, left, right, _) =>
        EvalFrame(h, left, a, b);
        EvalFrame(h, right, a, b);
      case CallNode(fn, args, _) =>
        CallFields(n);
        forall i | 0 <= i < |args| ensures Eval(h, args[i], a) == Eval(h, args[i], b) {
          EvalFrame(h, args[i], a, b);
        }
        if fn == Case { CaseFrame(h, n, 0, a, b); }
        else if fn != If { ArgsFrame(h, n, 0, a, b); }
      case _ =>
    }
  }

  lemma {:induction false} CaseFrame(h: Host, n: Node, i: nat, a: Record, b: Record)
    requires WellFormed(n) && n.CallNode? && i <= |n.args|
    requires forall k :: 0 <= k < |n.args| ==> Eval(h, n.args[k], a) == Eval(h, n.args[k], b)
    ensures EvalCase(h, n, i, a) == EvalCase(h, n, i, b)
    decreases |n.args| - i
  {
    if i + 1 < |n.args| { CaseFrame(h, n, i + 2, a, b); }
  }

  lemma {:induction false} ArgsFrame(h: Host, n: Node, i: nat, a: Record, b: Record)
    requires WellFormed(n) && n.CallNode? && i <= |n.args|
    requires forall k :: 0 <= k < |n.args| ==> Eval(h, n.args[k], a) == Eval(h, n.args[k], b)
    ensures EvalArgs(h, n, i, a) == EvalArgs(h, n, i, b)
    decreases |n.args| - i
  {
    if i < |n.args| { ArgsFrame(h, n, i + 1, a, b); }
  }

  lemma EvaluateFrame(h: Host, n: Node, a: Record, b: Record, result: ResultType)
    requires WellFormed(n) && Agree(a, b, Fields(n))
    ensures Evaluate(h, n, a, result) == Evaluate(h, n, b, result)
  {
    EvalFrame(h, n, a, b);
  }

  // ─── CASE is nested IFs ───

  /** The tree with every CASE written as IFs inside each other. */
  function Desugar(n: Node): Node
    decreases n, 1
  {
    match n
    case UnaryNode(op, operand, at) => UnaryNode(op, Desugar(operand), at)
    case BinaryNode(op, left, right, at) => BinaryNode(op, Desugar(left), Desugar(right), at)
    case CallNode(fn, args, at) =>
      if fn == Case && |args| >= 2 then Ifs(n, 0) else CallNode(fn, DesugarAll(n, 0), at)
    case _ => n
  }

  function DesugarAll(n: Node, i: nat): (ds: seq<Node>)
    requires n.CallNode? && i <= |n.args|
    ensures |ds| == |n.args| - i
    ensures forall k :: 0 <= k < |ds| ==> ds[k] == Desugar(n.args[i + k])
    decreases n, 0, |n.args| - i
  {
    if i == |n.args| then [] else [Desugar(n.args[i])] + DesugarAll(n, i + 1)
  }

  /** The test at `i`, its answer, and the rest of the CASE as the other branch. */
  function Ifs(n: Node, i: nat): Node
    requires n.CallNode? && i + 1 < |n.args|
    decreases n, 0, |n.args| - i
  {
    var test, answer := Desugar(n.args[i]), Desugar(n.args[i + 1]);
    if i + 2 == |n.args| then CallNode(If, [test, answer], n.at)
    else if i + 3 == |n.args| then CallNode(If, [test, answer, Desugar(n.args[i + 2])], n.at)
    else CallNode(If, [test, answer, Ifs(n, i + 2)], n.at)
  }

  predicate HasNoCase(n: Node) {
    match n
    case UnaryNode(_, operand, _) => HasNoCase(operand)
    case BinaryNode(_, left, right, _) => HasNoCase(left) && HasNoCase(right)
    case CallNode(fn, args, _) => fn != Case && forall i :: 0 <= i < |args| ==> HasNoCase(args[i])
    case _ => true
  }

  /** Writing every CASE as IFs changes neither value nor error, and leaves no CASE. */
  lemma {:induction false} DesugarMeans(h: Host, n: Node, r: Record)
    requires WellFormed(n)
    ensures WellFormed(Desugar(n)) && HasNoCase(Desugar(n))
    ensures Eval(h, Desugar(n), r) == Eval(h, n, r)
    decreases n, 1
  {
    match n {
      case UnaryNode(_, operand, _) =>
        DesugarMeans(h, operand, r);
      case BinaryNode(_, left, right, _) =>
        DesugarMeans(h, left, r);
        DesugarMeans(h, right, r);
      case CallNode(fn, args, _) =>
        forall i | 0 <= i < |args|
          ensures WellFormed(Desugar(args[i])) && HasNoCase(Desugar(args[i]))
          ensures Eval(h, Desugar(args[i]), r) == Eval(h, args[i], r)
        {
          DesugarMeans(h, args[i], r);
        }
        if fn == Case { IfsMean(h, n, 0, r); } else { DesugarCall(h, n, r); }
      case _ =>
    }
  }

  ghost predicate ArgsDesugared(h: Host, n: Node, r: Record)
    requires n.CallNode? && WellFormed(n)
  {
    forall i :: 0 <= i < |n.args| ==>
      && WellFormed(Desugar(n.args[i])) && HasNoCase(Desugar(n.args[i]))
      && Eval(h, Desugar(n.args[i]), r) == Eval(h, n.args[i], r)
  }

  lemma {:induction false} IfsMean(h: Host, n: Node, i: nat, r: Record)
    requires n.CallNode? && WellFormed(n) && i + 1 < |n.args| && ArgsDesugared(h, n, r)
    ensures WellFormed(Ifs(n, i)) && HasNoCase(Ifs(n, i))
    ensures Eval(h, Ifs(n, i), r) == EvalCase(h, n, i, r)
    decreases |n.args| - i
  {
    if i + 3 < |n.args| {
      IfsMean(h, n, i + 2, r);
    } else {
      assert EvalCase(h, n, i + 2, r) ==
        if i + 2 < |n.args| then Eval(h, n.args[i + 2], r) else Ok(Empty);
    }
  }

  lemma DesugarCall(h: Host, n: Node, r: Record)
    requires n.CallNode? && n.fn != Case && WellFormed(n) && ArgsDesugared(h, n, r)
    ensures WellFormed(Desugar(n)) && HasNoCase(Desugar(n)) && Eval(h, Desugar(n), r) == Eval(h, n, r)
  {
    SameArgs(h, Desugar(n), n, 0, r);
  }

  lemma {:induction false} SameArgs(h: Host, m: Node, n: Node, i: nat, r: Record)
    requires m.CallNode? && n.CallNode? && WellFormed(m) && WellFormed(n) && |m.args| == |n.args|
    requires forall k :: 0 <= k < |n.args| ==> Eval(h, m.args[k], r) == Eval(h, n.args[k], r)
    requires i <= |n.args|
    ensures EvalArgs(h, m, i, r) == EvalArgs(h, n, i, r)
    decreases |n.args| - i
  {
    if i < |n.args| { SameArgs(h, m, n, i + 1, r); }
  }

  // ─── Laziness ───

  /** The answer a CASE picks from its evaluated arguments. */
  function PickCase(h: Host, vs: seq<Value>): Value {
    if |vs| >= 2 then if Truth(h, vs[0]) then vs[1] else PickCase(h, vs[2..])
    else if |vs| == 1 then vs[0]
    else Empty
  }

  /** Evaluation that works out both sides of AND and OR and every branch of IF and CASE. */
  function StrictEval(h: Host, n: Node, r: Record): Result<Value, Error>
    requires WellFormed(n)
    decreases n, 1
  {
    match n
    case UnaryNode(op, operand, at) =>
      (match StrictEval(h, operand, r)
       case Err(e) => Err(e)
       case Ok(v) => ApplyUnary(h, op, at, v))
    case BinaryNode(op, left, right, at) =>
      (match StrictEval(h, left, r)
       case Err(e) => Err(e)
       case Ok(a) =>
         match StrictEval(h, right, r)
         case Err(e) => Err(e)
         case Ok(b) =>
           match op
           case And => Ok(Bool(Truth(h, a) && Truth(h, b)))
           case Or => Ok(Bool(Truth(h, a) || Truth(h, b)))
           case Infix(o) => ApplyInfix(h, o, at, a, b))
    case CallNode(fn, args, at) =>
      (match StrictArgs(h, n, 0, r)
       case Err(e) => Err(e)
       case Ok(vs) => if fn == If || fn == Case then Ok(PickCase(h, vs)) else Apply(h, fn, at, vs))
    case _ => Eval(h, n, r)
  }

  function StrictArgs(h: Host, n: Node, i: nat, r: Record): (vs: Result<seq<Value>, Error>)
    requires WellFormed(n) && n.CallNode? && i <= |n.args|
    ensures vs.Ok? ==> |vs.value| == |n.args| - i
    decreases n, 0, |n.args| - i
  {
    if i == |n.args| then Ok([])
    else match StrictEval(h, n.args[i], r)
      case Err(e) => Err(e)
      case Ok(v) =>
        match StrictArgs(h, n, i + 1, r)
        case Err(e) => Err(e)
        case Ok(rest) => Ok([v] + rest)
  }

  /** Where working everything out succeeds, lazy evaluation gives the same value. */
  lemma {:induction false} LazyRefinesStrict(h: Host, n: Node, r: Record)
    requires WellFormed(n) && StrictEval(h, n, r).Ok?
    ensures Eval(h, n, r) == StrictEval(h, n, r)
    decreases n, 1
  {
    match n {
      case UnaryNode(_, operand, _) =>
        LazyRefinesStrict(h, operand, r);
      case BinaryNode(_, left, right, _) =>
        LazyRefinesStrict(h, left, r);
        LazyRefinesStrict(h, right, r);
      case CallNode(fn, args, _) =>
        LazyArgs(h, n, 0, r);
        var vs := StrictArgs(h, n, 0, r).value;
        if fn == Case {
          LazyCase(h, n, 0, r);
          assert vs[0..] == vs;
        } else if fn == If {
          assert PickCase(h, vs[2..]) == if |vs| == 3 then vs[2] else Empty;
        }
      case _ =>
    }
  }

  lemma {:induction false} LazyArgs(h: Host, n: Node, i: nat, r: Record)
    requires WellFormed(n) && n.CallNode? && i <= |n.args| && StrictArgs(h, n, i, r).Ok?
    ensures EvalArgs(h, n, i, r) == StrictArgs(h, n, i, r)
    ensures forall k :: i <= k < |n.args| ==> Eval(h, n.args[k], r) == Ok(StrictArgs(h, n, i, r).value[k - i])
    decreases n, 0, |n.args| - i
  {
    if i < |n.args| {
      LazyRefinesStrict(h, n.args[i], r);
      LazyArgs(h, n, i + 1, r);
    }
  }

  lemma {:induction false} LazyCase(h: Host, n: Node, i: nat, r: Record)
    requires WellFormed(n) && n.CallNode? && i <= |n.args| && StrictArgs(h, n, 0, r).Ok?
    requires forall k :: 0 <= k < |n.args| ==> Eval(h, n.args[k], r) == Ok(StrictArgs(h, n, 0, r).value[k])
    ensures EvalCase(h, n, i, r) == Ok(PickCase(h, StrictArgs(h, n, 0, r).value[i..]))
    decreases |n.args| - i
  {
    var vs := StrictArgs(h, n, 0, r).value;
    if i + 1 < |n.args| {
      LazyCase(h, n, i + 2, r);
      assert vs[i..][2..] == vs[i + 2..];
    }
  }

  // ─── The loops of calc/functions.go ───

  /** The CASE loop of evalCall. */
  method CaseLoop(h: Host, n: Node, record: Record) returns (r: Result<Value, Error>)
    requires n.CallNode? && WellFormed(n)
    ensures r == EvalCase(h, n, 0, record)
  {
    hide Eval;
    var i := 0;
    while i + 1 < |n.args|
      invariant 0 <= i <= |n.args| && i % 2 == 0
      invariant EvalCase(h, n, 0, record) == EvalCase(h, n, i, record)
    {
      var test := Eval(h, n.args[i], record);
      if test.Err? {
        return test;
      }
      if Truth(h, test.value) {
        return Eval(h, n.args[i + 1], record);
      }
      i := i + 2;
    }
    if |n.args| % 2 == 1 {
      return Eval(h, n.args[|n.args| - 1], record);
    }
    return Ok(Empty);
  }

  /** A list with what comes behind it, or the error there. */
  function Behind<T>(done: seq<T>, rest: Result<seq<T>, Error>): Result<seq<T>, Error> {
    match rest
    case Err(e) => Err(e)
    case Ok(list) => Ok(done + list)
  }

  /** The argument loop of evalCall. */
  method CollectArgs(h: Host, n: Node, record: Record) returns (r: Result<seq<Value>, Error>)
    requires n.CallNode? && WellFormed(n)
    ensures r == EvalArgs(h, n, 0, record)
  {
    hide Eval;
    var args: seq<Value> := [];
    ghost var whole := EvalArgs(h, n, 0, record);
    assert whole.Ok? ==> args + whole.value == whole.value;
    for k := 0 to |n.args|
      invariant |args| == k
      invariant whole == Behind(args, EvalArgs(h, n, k, record))
    {
      var v := Eval(h, n.args[k], record);
      if v.Err? {
        return Err(v.error);
      }
      ghost var rest := EvalArgs(h, n, k + 1, record);
      assert rest.Ok? ==> args + ([v.value] + rest.value) == args + [v.value] + rest.value;
      args := args + [v.value];
    }
    assert args + [] == args;
    return Ok(args);
  }

  /** evalCall: only the branch that is taken is evaluated. */
  method EvalCall(h: Host, n: Node, record: Record) returns (r: Result<Value, Error>)
    requires n.CallNode? && WellFormed(n)
    ensures r == Eval(h, n, record)
  {
    if n.fn == If {
      var test := Eval(h, n.args[0], record);
      if test.Err? {
        return test;
      }
      if Truth(h, test.value) {
        return Eval(h, n.args[1], record);
      }
      return if |n.args| == 3 then Eval(h, n.args[2], record) else Ok(Empty);
    }
    if n.fn == Case {
      r := CaseLoop(h, n, record);
      return;
    }
    var args := CollectArgs(h, n, record);
    r := if args.Err? then Err(args.error) else Apply(h, n.fn, n.at, args.value);
  }

  function FoldAll(f: (real, real) -> real, start: real, ns: Result<seq<real>, Error>): Result<real, Error> {
    match ns
    case Err(e) => Err(e)
    case Ok(list) => Ok(Fold(f, start, list))
  }

  /** numberFold and numberReduce: one number after another, stopping at the first that is none. */
  method FoldNumbers(h: Host, at: nat, args: seq<Value>, f: (real, real) -> real, start: real)
    returns (r: Result<real, Error>)
    ensures r == FoldAll(f, start, Numbers(h, args, at))
  {
    var acc := start;
    ghost var done: seq<real> := [];
    ghost var whole := Numbers(h, args, at);
    assert args[0..] == args;
    assert whole.Ok? ==> done + whole.value == whole.value;
    for k := 0 to |args|
      invariant acc == Fold(f, start, done)
      invariant whole == Behind(done, Numbers(h, args[k..], at))
    {
      assert args[k..][1..] == args[k + 1..];
      var n := ToNumber(h, args[k], at);
      if n.Err? {
        return Err(n.error);
      }
      ghost var rest := Numbers(h, args[k + 1..], at);
      assert rest.Ok? ==> done + ([n.value] + rest.value) == done + [n.value] + rest.value;
      assert (done + [n.value])[..|done|] == done;
      acc := f(acc, n.value);
      done := done + [n.value];
    }
    assert done + [] == done;
    return Ok(acc);
  }

  function Fold(f: (real, real) -> real, start: real, ns: seq<real>): real {
    if ns == [] then start else f(Fold(f, start, ns[..|ns| - 1]), ns[|ns| - 1])
  }

  /** SUM, MIN and MAX are such folds, the last two over what follows the first number. */
  lemma {:induction false} FoldsAre(ns: seq<real>)
    ensures Fold((a: real, n: real) => a + n, 0.0, ns) == Total(ns)
    ensures ns != [] ==>
      && Fold((a: real, n: real) => if n < a then n else a, ns[0], ns[1..]) == Least(ns)
      && Fold((a: real, n: real) => if n > a then n else a, ns[0], ns[1..]) == Greatest(ns)
  {
    if ns != [] {
      FoldsAre(ns[..|ns| - 1]);
      if |ns| > 1 { assert ns[1..][..|ns| - 2] == ns[..|ns| - 1][1..]; }
    }
  }

  /** What MIN and MAX mean. */
  lemma {:induction false} LeastIsLeast(ns: seq<real>)
    requires ns != []
    ensures Least(ns) in ns && forall n :: n in ns ==> Least(ns) <= n
    ensures Greatest(ns) in ns && forall n :: n in ns ==> n <= Greatest(ns)
  {
    if |ns| > 1 {
      LeastIsLeast(ns[..|ns| - 1]);
      assert ns == ns[..|ns| - 1] + [ns[|ns| - 1]];
    }
  }

  /** LIST. */
  method ListTexts(h: Host, args: seq<Value>) returns (parts: seq<string>)
    ensures parts == FilledTexts(h, args)
  {
    parts := [];
    for k := 0 to |args|
      invariant parts == FilledTexts(h, args[..k])
    {
      assert args[..k + 1][..k] == args[..k];
      if !args[k].Empty? {
        parts := parts + [ToText(h, args[k])];
      }
    }
    assert args[..|args|] == args;
  }

  /** CONCAT. */
  method ConcatTexts(h: Host, args: seq<Value>) returns (b: string)
    ensures b == AllTexts(h, args)
  {
    b := "";
    for k := 0 to |args|
      invariant b == AllTexts(h, args[..k])
    {
      assert args[..k + 1][..k] == args[..k];
      b := b + ToText(h, args[k]);
    }
    assert args[..|args|] == args;
  }
}
