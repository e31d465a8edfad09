/**
 * The meaning of a formula, from the parts of its tree up, without the evaluator; and that the
 * evaluator answers with what the formula means, errors and all, and with nothing else.
 */
module Answers {
  import opened Common
  import opened Formula
  import opened Evaluator
  import opened Readings
  import opened Operations
  import opened Functions

  /** The formula has this answer over the record. */
  ghost predicate Answers(h: Host, n: Node, r: Record, a: Answer)
    requires WellFormed(n)
    decreases n, 1
  {
    match n
    case NumberNode(x, _) => a == Ok(Number(x))
    case TextNode(s, _) => a == Ok(Text(s))
    case BoolNode(b, _) => a == Ok(Bool(b))
    case FieldNode(name, _) => a.Ok? && Found(r, name, a.value)
    case UnaryNode(op, x, at) =>
      (a.Err? && Answers(h, x, r, a)) || exists v :: Answers(h, x, r, Ok(v)) && Turns(h, op, at, v, a)
    case BinaryNode(_, x, _, _) =>
      (a.Err? && Answers(h, x, r, a)) || exists v :: Answers(h, x, r, Ok(v)) && GoesOn(h, n, r, v, a)
    case CallNode(fn, args, _) =>
      if fn == If then
        (a.Err? && Answers(h, args[0], r, a)) || exists v :: Answers(h, args[0], r, Ok(v)) && Branches(h, n, r, v, a)
      else if fn == Case then exists i :: IsPlace(n, i) && Chosen(h, n, r, i, a)
      else exists vs :: Fits(n, vs) && Gives(h, n, r, vs, a)
  }

  /** What an operator comes to once its left side has a value. */
  ghost predicate GoesOn(h: Host, n: Node, r: Record, v: Value, a: Answer)
    requires WellFormed(n) && n.BinaryNode?
    decreases n, 0
  {
    if Settled(h, n.binary, v) then a == Ok(Bool(n.binary == Or))
    else
      || (a.Err? && Answers(h, n.right, r, a))
      || exists w :: Answers(h, n.right, r, Ok(w)) && Combines(h, n.binary, n.at, v, w, a)
  }

  /** What an IF comes to once its test has a value. */
  ghost predicate Branches(h: Host, n: Node, r: Record, v: Value, a: Answer)
    requires WellFormed(n) && n.CallNode? && n.fn == If
    decreases n, 0
  {
    if Holds(h, v) then Answers(h, n.args[1], r, a)
    else if |n.args| == 3 then Answers(h, n.args[2], r, a)
    else a == Ok(Empty)
  }

  /** A place among the arguments of a call, or behind the last of them. */
  predicate IsPlace(n: Node, i: int)
    requires n.CallNode?
  {
    0 <= i <= |n.args|
  }

  /** AND is settled by a left side that does not hold, OR by one that does. */
  predicate Settled(h: Host, op: BinaryOp, v: Value) { (op == And && !Holds(h, v)) || (op == Or && Holds(h, v)) }

  ghost predicate Combines(h: Host, op: BinaryOp, at: nat, v: Value, w: Value, a: Answer) {
    if op.Infix? then Operates(h, op.op, at, v, w, a) else a == Ok(Bool(Holds(h, w)))
  }

  /** Every test of a CASE before this place has an answer that does not hold. */
  ghost predicate NoneHolds(h: Host, n: Node, r: Record, i: nat)
    requires WellFormed(n) && n.CallNode? && i <= |n.args|
    decreases n, 0, 0
  {
    forall j :: 0 <= j < i && j % 2 == 0 && j + 1 < |n.args| ==>
      exists v :: Answers(h, n.args[j], r, Ok(v)) && !Holds(h, v)
  }

  /** What a CASE comes to at this place: the result behind a test that holds, the error of a
      test, the default at the end, or nothing where there is none. */
  ghost predicate Chosen(h: Host, n: Node, r: Record, i: nat, a: Answer)
    requires WellFormed(n) && n.CallNode? && i <= |n.args|
    decreases n, 0, 1
  {
    && i % 2 == 0 && NoneHolds(h, n, r, i)
    && if i + 1 < |n.args| then
         || (a.Err? && Answers(h, n.args[i], r, a))
         || ((exists v :: Answers(h, n.args[i], r, Ok(v)) && Holds(h, v)) && Answers(h, n.args[i + 1], r, a))
       else if i < |n.args| then Answers(h, n.args[i], r, a)
       else a == Ok(Empty)
  }

  predicate Fits(n: Node, vs: seq<Value>)
    requires n.CallNode?
  {
    |vs| <= |n.args|
  }

  /** The first arguments answer with these values; the function answers for the values of all,
      or else the next argument fails with this error. */
  ghost predicate Gives(h: Host, n: Node, r: Record, vs: seq<Value>, a: Answer)
    requires WellFormed(n) && n.CallNode? && n.fn != If && n.fn != Case && |vs| <= |n.args|
    decreases n, 0
  {
    && (forall j :: 0 <= j < |vs| ==> Answers(h, n.args[j], r, Ok(vs[j])))
    && if |vs| == |n.args| then Yields(h, n.fn, n.at, vs, a) else a.Err? && Answers(h, n.args[|vs|], r, a)
  }

  /** The evaluator's answer is the one answer of the formula. */
  ghost predicate Meant(h: Host, n: Node, r: Record)
    requires WellFormed(n)
  {
    forall a :: Answers(h, n, r, a) <==> a == Eval(h, n, r)
  }

  lemma MeantIs(h: Host, n: Node, r: Record, a: Answer)
    requires WellFormed(n) && Meant(h, n, r)
    ensures Answers(h, n, r, a) <==> a == Eval(h, n, r)
  {
    hide Answers, Eval;
  }

  lemma UnaryMeant(h: Host, n: Node, r: Record)
    requires WellFormed(n) && n.UnaryNode? && Meant(h, n.operand, r)
    ensures Meant(h, n, r)
  {
    hide Turns, ApplyUnary;
    var x := Eval(h, n.operand, r);
    forall a ensures Answers(h, n, r, a) <==> a == Eval(h, n, r) {
      if x.Ok? {
        UnaryMeans(h, n.unary, n.at, x.value, a);
        MeantIs(h, n.operand, r, Ok(x.value));
      }
      if a.Err? { MeantIs(h, n.operand, r, a); }
    }
  }

  lemma GoesOnMeant(h: Host, n: Node, r: Record, v: Value, a: Answer)
    requires WellFormed(n) && n.BinaryNode? && Meant(h, n.right, r)
    requires Eval(h, n.left, r) == Ok(v)
    ensures GoesOn(h, n, r, v, a) <==> a == Eval(h, n, r)
  {
    hide Operates, ApplyInfix, Holds, Truth;
    var y := Eval(h, n.right, r);
    TruthMeans(h, v);
    if y.Ok? {
      TruthMeans(h, y.value);
      if n.binary.Infix? { OperatorMeans(h, n.binary.op, n.at, v, y.value, a); }
      MeantIs(h, n.right, r, Ok(y.value));
    }
    if a.Err? { MeantIs(h, n.right, r, a); }
  }

  lemma BinaryMeant(h: Host, n: Node, r: Record)
    requires WellFormed(n) && n.BinaryNode? && Meant(h, n.left, r) && Meant(h, n.right, r)
    ensures Meant(h, n, r)
  {
    hide GoesOn;
    var x := Eval(h, n.left, r);
    forall a ensures Answers(h, n, r, a) <==> a == Eval(h, n, r) {
      if x.Ok? {
        GoesOnMeant(h, n, r, x.value, a);
        MeantIs(h, n.left, r, Ok(x.value));
      }
      if a.Err? { MeantIs(h, n.left, r, a); }
    }
  }

  /** Every argument of the call means what the evaluator makes of it. */
  ghost predicate ArgsMeant(h: Host, n: Node, r: Record)
    requires WellFormed(n) && n.CallNode?
  {
    forall i :: 0 <= i < |n.args| ==> Meant(h, n.args[i], r)
  }

  lemma BranchesMeant(h: Host, n: Node, r: Record, v: Value, a: Answer)
    requires WellFormed(n) && n.CallNode? && n.fn == If && ArgsMeant(h, n, r)
    requires Eval(h, n.args[0], r) == Ok(v)
    ensures Branches(h, n, r, v, a) <==> a == Eval(h, n, r)
  {
    hide Holds, Truth, Meant;
    TruthMeans(h, v);
    MeantIs(h, n.args[1], r, a);
    if |n.args| == 3 { MeantIs(h, n.args[2], r, a); }
  }

  lemma IfMeant(h: Host, n: Node, r: Record)
    requires WellFormed(n) && n.CallNode? && n.fn == If && ArgsMeant(h, n, r)
    ensures Meant(h, n, r)
  {
    hide Branches;
    var x := Eval(h, n.args[0], r);
    forall a ensures Answers(h, n, r, a) <==> a == Eval(h, n, r) {
      if x.Ok? {
        BranchesMeant(h, n, r, x.value, a);
        MeantIs(h, n.args[0], r, Ok(x.value));
      }
      if a.Err? { MeantIs(h, n.args[0], r, a); }
    }
  }

  // ─── CASE ───

  lemma {:induction false} CaseMeant(h: Host, n: Node, r: Record, i: nat)
    requires WellFormed(n) && n.CallNode? && ArgsMeant(h, n, r)
    requires i <= |n.args| && i % 2 == 0 && NoneHolds(h, n, r, i)
    ensures exists k :: IsPlace(n, k) && Chosen(h, n, r, k, EvalCase(h, n, i, r))
    decreases |n.args| - i
  {
    hide Answers, Holds, Truth, Meant, NoneHolds;
    var a := EvalCase(h, n, i, r);
    if i + 1 < |n.args| {
      var x := Eval(h, n.args[i], r);
      MeantIs(h, n.args[i], r, x);
      if x.Err? {
        MeantIs(h, n.args[i], r, a);
        assert IsPlace(n, i) && Chosen(h, n, r, i, a);
      } else {
        TruthMeans(h, x.value);
        if Holds(h, x.value) {
          MeantIs(h, n.args[i + 1], r, a);
          assert IsPlace(n, i) && Chosen(h, n, r, i, a);
        } else {
          OneMoreTest(h, n, r, i, x.value);
          CaseMeant(h, n, r, i + 2);
        }
      }
    } else {
      if i < |n.args| { MeantIs(h, n.args[i], r, a); }
      assert IsPlace(n, i) && Chosen(h, n, r, i, a);
    }
  }

  lemma OneMoreTest(h: Host, n: Node, r: Record, i: nat, v: Value)
    requires WellFormed(n) && n.CallNode? && i + 1 < |n.args| && i % 2 == 0 && NoneHolds(h, n, r, i)
    requires Answers(h, n.args[i], r, Ok(v)) && !Holds(h, v)
    ensures NoneHolds(h, n, r, i + 2)
  {
    hide Answers, Holds;
  }

  lemma ChosenOnce(h: Host, n: Node, r: Record, k: nat, l: nat, a: Answer, b: Answer)
    requires WellFormed(n) && n.CallNode? && ArgsMeant(h, n, r) && k <= l <= |n.args|
    requires Chosen(h, n, r, k, a) && Chosen(h, n, r, l, b)
    ensures a == b
  {
    hide Answers, Holds, Meant, NoneHolds;
    if k < l {
      assert k + 1 < |n.args|;
      NoneAt(h, n, r, l, k);
      HoldsOrFails(h, n, r, k, a);
      assert false;
    } else {
      ChosenMeant(h, n, r, k, a, b);
    }
  }

  lemma NoneAt(h: Host, n: Node, r: Record, l: nat, k: nat)
    requires WellFormed(n) && n.CallNode? && ArgsMeant(h, n, r) && l <= |n.args| && NoneHolds(h, n, r, l)
    requires k < l && k % 2 == 0 && k + 1 < |n.args|
    ensures Eval(h, n.args[k], r).Ok? && !Holds(h, Eval(h, n.args[k], r).value)
  {
    assert Meant(h, n.args[k], r);
    var x := Eval(h, n.args[k], r);
    forall c ensures Answers(h, n.args[k], r, c) <==> c == x { MeantIs(h, n.args[k], r, c); }
  }

  lemma HoldsOrFails(h: Host, n: Node, r: Record, k: nat, a: Answer)
    requires WellFormed(n) && n.CallNode? && ArgsMeant(h, n, r) && k + 1 < |n.args| && Chosen(h, n, r, k, a)
    ensures Eval(h, n.args[k], r).Ok? ==> Holds(h, Eval(h, n.args[k], r).value)
  {
    assert Meant(h, n.args[k], r);
    var x := Eval(h, n.args[k], r);
    forall c ensures Answers(h, n.args[k], r, c) <==> c == x { MeantIs(h, n.args[k], r, c); }
  }

  lemma ChosenMeant(h: Host, n: Node, r: Record, k: nat, a: Answer, b: Answer)
    requires WellFormed(n) && n.CallNode? && ArgsMeant(h, n, r) && k <= |n.args|
    requires Chosen(h, n, r, k, a) && Chosen(h, n, r, k, b)
    ensures a == b
  {
    if k < |n.args| {
      var x := Eval(h, n.args[k], r);
      forall c ensures Answers(h, n.args[k], r, c) <==> c == x { MeantIs(h, n.args[k], r, c); }
      if k + 1 < |n.args| {
        MeantIs(h, n.args[k + 1], r, a);
        MeantIs(h, n.args[k + 1], r, b);
        assert (exists v :: Answers(h, n.args[k], r, Ok(v)) && Holds(h, v)) ==> x.Ok?;
      }
    }
  }

  lemma CaseIs(h: Host, n: Node, r: Record, a: Answer)
    requires WellFormed(n) && n.CallNode? && n.fn == Case
    ensures Answers(h, n, r, a) <==> exists i :: IsPlace(n, i) && Chosen(h, n, r, i, a)
    ensures Eval(h, n, r) == EvalCase(h, n, 0, r)
  {
  }

  lemma CaseCallMeant(h: Host, n: Node, r: Record)
    requires WellFormed(n) && n.CallNode? && n.fn == Case && ArgsMeant(h, n, r)
    ensures Meant(h, n, r)
  {
    CaseMeant(h, n, r, 0);
    var e := EvalCase(h, n, 0, r);
    forall a ensures Answers(h, n, r, a) <==> a == Eval(h, n, r) {
      hide *;
      CaseIs(h, n, r, a);
      CaseIs(h, n, r, e);
      var k :| IsPlace(n, k) && Chosen(h, n, r, k, e);
      if Answers(h, n, r, a) {
        var l :| IsPlace(n, l) && Chosen(h, n, r, l, a);
        if k <= l { ChosenOnce(h, n, r, k, l, e, a); } else { ChosenOnce(h, n, r, l, k, a, e); }
      }
    }
  }

  // ─── Other calls ───

  lemma {:induction false} ArgsEvaluate(h: Host, n: Node, r: Record, i: nat)
    requires WellFormed(n) && n.CallNode? && i <= |n.args|
    ensures var vs := EvalArgs(h, n, i, r);
      if vs.Ok? then forall j :: i <= j < |n.args| ==> Eval(h, n.args[j], r) == Ok(vs.value[j - i])
      else exists k :: i <= k < |n.args| && Eval(h, n.args[k], r) == Err(vs.error) &&
             forall j :: i <= j < k ==> Eval(h, n.args[j], r).Ok?
    decreases |n.args| - i
  {
    hide Eval;
    if i < |n.args| { ArgsEvaluate(h, n, r, i + 1); }
  }

  /** The first arguments evaluate to these values. */
  ghost predicate Evaluated(h: Host, n: Node, r: Record, vs: seq<Value>)
    requires WellFormed(n) && n.CallNode? && |vs| <= |n.args|
  {
    forall j :: 0 <= j < |vs| ==> Eval(h, n.args[j], r) == Ok(vs[j])
  }

  lemma GivesMeant(h: Host, n: Node, r: Record, vs: seq<Value>, a: Answer)
    requires WellFormed(n) && n.CallNode? && n.fn != If && n.fn != Case && |vs| <= |n.args| && ArgsMeant(h, n, r)
    ensures Gives(h, n, r, vs, a) <==>
      Evaluated(h, n, r, vs) &&
      if |vs| == |n.args| then Yields(h, n.fn, n.at, vs, a) else a.Err? && Eval(h, n.args[|vs|], r) == a
  {
    forall j {:trigger vs[j]} | 0 <= j < |vs|
      ensures Answers(h, n.args[j], r, Ok(vs[j])) <==> Eval(h, n.args[j], r) == Ok(vs[j])
    {
      MeantIs(h, n.args[j], r, Ok(vs[j]));
    }
    if |vs| < |n.args| { MeantIs(h, n.args[|vs|], r, a); }
    hide Eval, Yields;
  }

  /** What the arguments evaluate to fills them all, or ends where one fails. */
  lemma ArgsEnd(h: Host, n: Node, r: Record) returns (vs: seq<Value>)
    requires WellFormed(n) && n.CallNode?
    ensures |vs| <= |n.args| && Evaluated(h, n, r, vs)
    ensures if |vs| == |n.args| then EvalArgs(h, n, 0, r) == Ok(vs)
            else Eval(h, n.args[|vs|], r).Err? && EvalArgs(h, n, 0, r) == Err(Eval(h, n.args[|vs|], r).error)
  {
    hide Eval, EvalArgs;
    ArgsEvaluate(h, n, r, 0);
    var es := EvalArgs(h, n, 0, r);
    if es.Ok? {
      vs := es.value;
    } else {
      var k :| 0 <= k < |n.args| && Eval(h, n.args[k], r) == Err(es.error) &&
        forall j :: 0 <= j < k ==> Eval(h, n.args[j], r).Ok?;
      vs := seq(k, j requires 0 <= j < k => Eval(h, n.args[j], r).value);
    }
  }

  lemma EvaluatedOnce(h: Host, n: Node, r: Record, vs: seq<Value>, ws: seq<Value>)
    requires WellFormed(n) && n.CallNode? && |vs| <= |n.args| && |ws| <= |n.args|
    requires Evaluated(h, n, r, vs) && Evaluated(h, n, r, ws)
    requires |vs| < |n.args| ==> Eval(h, n.args[|vs|], r).Err?
    requires |ws| < |n.args| ==> Eval(h, n.args[|ws|], r).Err?
    ensures vs == ws
  {
    hide Eval;
    assert !(|vs| < |ws|) && !(|ws| < |vs|);
    assert forall j :: 0 <= j < |vs| ==> Eval(h, n.args[j], r) == Ok(vs[j]) && vs[j] == ws[j];
  }

  lemma CallIs(h: Host, n: Node, r: Record, a: Answer)
    requires WellFormed(n) && n.CallNode? && n.fn != If && n.fn != Case
    ensures Answers(h, n, r, a) <==> exists vs :: Fits(n, vs) && Gives(h, n, r, vs, a)
    ensures Eval(h, n, r) ==
      match EvalArgs(h, n, 0, r) case Err(e) => Err(e) case Ok(vs) => Apply(h, n.fn, n.at, vs)
  {
    hide Yields, Apply;
  }

  lemma CallMeant(h: Host, n: Node, r: Record)
    requires WellFormed(n) && n.CallNode? && n.fn != If && n.fn != Case && ArgsMeant(h, n, r)
    ensures Meant(h, n, r)
  {
    forall a ensures Answers(h, n, r, a) <==> a == Eval(h, n, r) {
      hide *;
      var vs := ArgsEnd(h, n, r);
      GivesMeant(h, n, r, vs, a);
      CallIs(h, n, r, a);
      if |vs| == |n.args| { FunctionMeans(h, n.fn, n.at, vs, a); }
      assert Gives(h, n, r, vs, a) <==> a == Eval(h, n, r);
      GivesOnce(h, n, r, vs, a);
    }
  }

  /** What some values give is what the values give that the arguments evaluate to. */
  lemma GivesOnce(h: Host, n: Node, r: Record, vs: seq<Value>, a: Answer)
    requires WellFormed(n) && n.CallNode? && n.fn != If && n.fn != Case && |vs| <= |n.args| && ArgsMeant(h, n, r)
    requires Evaluated(h, n, r, vs) && (|vs| < |n.args| ==> Eval(h, n.args[|vs|], r).Err?)
    ensures Gives(h, n, r, vs, a) <==> exists ws :: Fits(n, ws) && Gives(h, n, r, ws, a)
  {
    hide Gives, Eval, Evaluated, ArgsMeant;
    assert Fits(n, vs);
    forall ws | Fits(n, ws) && Gives(h, n, r, ws, a) ensures ws == vs {
      GivesMeant(h, n, r, ws, a);
      EvaluatedOnce(h, n, r, vs, ws);
    }
  }

  /** Over every record, a formula evaluates to what it means and to nothing else. */
  lemma {:induction false} EvalMeans(h: Host, n: Node, r: Record, a: Answer)
    requires WellFormed(n)
    ensures Answers(h, n, r, a) <==> Eval(h, n, r) == a
  {
    TreeMeant(h, n, r);
    MeantIs(h, n, r, a);
  }

  lemma LeafMeant(h: Host, n: Node, r: Record)
    requires n.NumberNode? || n.TextNode? || n.BoolNode? || n.FieldNode?
    ensures Meant(h, n, r)
  {
    forall a ensures Answers(h, n, r, a) <==> a == Eval(h, n, r) {
      if n.FieldNode? && a.Ok? { FieldMeans(r, n.name, a.value); }
    }
  }

  lemma {:induction false} TreeMeant(h: Host, n: Node, r: Record)
    requires WellFormed(n)
    ensures Meant(h, n, r)
  {
    hide Meant;
    match n
    case UnaryNode(_, x, _) =>
      TreeMeant(h, x, r);
      UnaryMeant(h, n, r);
    case BinaryNode(_, x, y, _) =>
      TreeMeant(h, x, r);
      TreeMeant(h, y, r);
      BinaryMeant(h, n, r);
    case CallNode(fn, args, _) =>
      forall i | 0 <= i < |args| ensures Meant(h, args[i], r) { TreeMeant(h, args[i], r); }
      if fn == If { IfMeant(h, n, r); }
      else if fn == Case { CaseCallMeant(h, n, r); }
      else { CallMeant(h, n, r); }
    case _ => LeafMeant(h, n, r);
  }

  /** What is stored for a formula: what is kept of its answer, or its error. */
  ghost predicate StoredFor(h: Host, n: Node, r: Record, result: ResultType, s: Result<Stored, Error>)
    requires WellFormed(n)
  {
    || (s.Err? && Answers(h, n, r, Err(s.error)))
    || exists v :: Answers(h, n, r, Ok(v)) && Filed(h, v, n.at, result, s)
  }

  /** What is stored for a formula over a record is what is kept of its answer. */
  lemma EvaluateMeans(h: Host, n: Node, r: Record, result: ResultType, s: Result<Stored, Error>)
    requires WellFormed(n)
    ensures StoredFor(h, n, r, result, s) <==> Evaluate(h, n, r, result) == s
  {
    hide *;
    var x := Eval(h, n, r);
    forall a ensures Answers(h, n, r, a) <==> a == x { EvalMeans(h, n, r, a); }
    if x.Ok? {
      StoreMeans(h, x.value, n.at, result, s);
      assert Answers(h, n, r, Ok(x.value));
    }
    EvaluateIs(h, n, r, result);
    StoredIs(h, n, r, result, s, x);
  }

  lemma EvaluateIs(h: Host, n: Node, r: Record, result: ResultType)
    requires WellFormed(n)
    ensures Evaluate(h, n, r, result) ==
      match Eval(h, n, r) case Err(e) => Err(e) case Ok(v) => Store(h, v, n.at, result)
  {
    hide Eval, Store;
  }

  lemma StoredIs(h: Host, n: Node, r: Record, result: ResultType, s: Result<Stored, Error>, x: Answer)
    requires WellFormed(n) && forall a :: Answers(h, n, r, a) <==> a == x
    ensures StoredFor(h, n, r, result, s) <==>
      if x.Ok? then Filed(h, x.value, n.at, result, s) else s == Err(x.error)
  {
    hide Answers, Filed;
  }
}
