/** Laws between formulas: what one operator or function undoes of another, whatever its operands. */
module Algebra {
  import opened Common
  import opened Formula
  import opened Evaluator
  import opened Readings
  import opened Operations
  import opened Functions
  import opened Answers

  function Op(op: Operator, x: Node, y: Node, at: nat): (n: Node)
    ensures WellFormed(x) && WellFormed(y) ==> WellFormed(n)
  {
    BinaryNode(Infix(op), x, y, at)
  }

  function Denial(x: Node, at: nat): (n: Node)
    ensures WellFormed(x) ==> WellFormed(n)
  {
    UnaryNode(Not, x, at)
  }

  function Opposite(x: Node, at: nat): (n: Node)
    ensures WellFormed(x) ==> WellFormed(n)
  {
    UnaryNode(Negate, x, at)
  }

  // ─── Arithmetic ───

  /** The formula evaluates to a value that counts as this number. */
  ghost predicate Numbers(h: Host, n: Node, r: Record, x: real)
    requires WellFormed(n)
  {
    exists v :: Eval(h, n, r) == Ok(v) && Worth(h, v, x)
  }

  lemma Reckoned(h: Host, op: Operator, x: Node, y: Node, r: Record, at: nat, a: real, b: real)
    requires op in {Plus, Minus, Star, Slash} && WellFormed(x) && WellFormed(y)
    requires Numbers(h, x, r, a) && Numbers(h, y, r, b)
    ensures Reckons(op, at, a, b, Eval(h, Op(op, x, y, at), r))
  {
    hide Worth, Eval, ApplyInfix, Reckons, Operates, Op;
    var v :| Eval(h, x, r) == Ok(v) && Worth(h, v, a);
    var w :| Eval(h, y, r) == Ok(w) && Worth(h, w, b);
    Applied(h, op, x, y, r, at, v, w);
    OperatorMeans(h, op, at, v, w, Eval(h, Op(op, x, y, at), r));
    Exact(h, op, at, v, w, a, b, Eval(h, Op(op, x, y, at), r));
  }

  lemma Applied(h: Host, op: Operator, x: Node, y: Node, r: Record, at: nat, v: Value, w: Value)
    requires WellFormed(x) && WellFormed(y) && Eval(h, x, r) == Ok(v) && Eval(h, y, r) == Ok(w)
    ensures Eval(h, Op(op, x, y, at), r) == ApplyInfix(h, op, at, v, w)
  {
    hide ApplyInfix;
  }

  lemma Exact(h: Host, op: Operator, at: nat, v: Value, w: Value, a: real, b: real, answer: Answer)
    requires op in {Plus, Minus, Star, Slash} && Worth(h, v, a) && Worth(h, w, b)
    requires Operates(h, op, at, v, w, answer)
    ensures Reckons(op, at, a, b, answer)
  {
    WorthOnce(h, v);
    WorthOnce(h, w);
    assert SomeWorth(h, v) && SomeWorth(h, w);
    hide Worth, Worthless, Reckons, NoNumber, SomeWorth;
  }

  /** Addition undoes subtraction and subtraction addition; a difference turned round is its opposite. */
  lemma SumsUndone(h: Host, x: Node, y: Node, r: Record, i: nat, j: nat, a: real, b: real)
    requires WellFormed(x) && WellFormed(y) && Numbers(h, x, r, a) && Numbers(h, y, r, b)
    ensures Eval(h, Op(Plus, Op(Minus, x, y, i), y, j), r) == Ok(Number(a))
    ensures Eval(h, Op(Minus, Op(Plus, x, y, i), y, j), r) == Ok(Number(a))
    ensures Eval(h, Op(Minus, x, y, i), r) == Eval(h, Opposite(Op(Minus, y, x, i), j), r)
  {
    hide Eval, Numbers, Op;
    Reckoned(h, Minus, x, y, r, i, a, b);
    Reckoned(h, Minus, y, x, r, i, b, a);
    Reckoned(h, Plus, x, y, r, i, a, b);
    Counted(h, Op(Minus, x, y, i), r, a - b);
    Counted(h, Op(Plus, x, y, i), r, a + b);
    Reckoned(h, Plus, Op(Minus, x, y, i), y, r, j, a - b, b);
    Reckoned(h, Minus, Op(Plus, x, y, i), y, r, j, a + b, b);
    Negated(h, Op(Minus, y, x, i), r, j, b - a);
  }

  /** Multiplication undoes division and division multiplication, and only zero divides nothing. */
  lemma QuotientsUndone(h: Host, x: Node, y: Node, r: Record, i: nat, j: nat, a: real, b: real)
    requires WellFormed(x) && WellFormed(y) && Numbers(h, x, r, a) && Numbers(h, y, r, b)
    ensures b != 0.0 ==> Eval(h, Op(Star, Op(Slash, x, y, i), y, j), r) == Ok(Number(a))
    ensures b != 0.0 ==> Eval(h, Op(Slash, Op(Star, x, y, i), y, j), r) == Ok(Number(a))
    ensures b == 0.0 <==> Eval(h, Op(Slash, x, y, i), r) == Err(Error(i, DivisionByZero))
  {
    hide Eval, Numbers, Op;
    Reckoned(h, Star, x, y, r, i, a, b);
    Reckoned(h, Slash, x, y, r, i, a, b);
    if b != 0.0 {
      var quotient, product := a / b, a * b;
      Counted(h, Op(Slash, x, y, i), r, quotient);
      Counted(h, Op(Star, x, y, i), r, product);
      Multiplied(h, Op(Slash, x, y, i), y, r, j, quotient, b, a);
      Divided(h, Op(Star, x, y, i), y, r, j, product, b, a);
    }
  }

  lemma Multiplied(h: Host, x: Node, y: Node, r: Record, at: nat, a: real, b: real, c: real)
    requires WellFormed(x) && WellFormed(y) && Numbers(h, x, r, a) && Numbers(h, y, r, b) && a * b == c
    ensures Eval(h, Op(Star, x, y, at), r) == Ok(Number(c))
  {
    hide Eval, Numbers, Op;
    Reckoned(h, Star, x, y, r, at, a, b);
  }

  lemma Divided(h: Host, x: Node, y: Node, r: Record, at: nat, a: real, b: real, c: real)
    requires WellFormed(x) && WellFormed(y) && Numbers(h, x, r, a) && Numbers(h, y, r, b) && b != 0.0 && a / b == c
    ensures Eval(h, Op(Slash, x, y, at), r) == Ok(Number(c))
  {
    hide Eval, Numbers, Op;
    Reckoned(h, Slash, x, y, r, at, a, b);
  }

  lemma Counted(h: Host, n: Node, r: Record, x: real)
    requires WellFormed(n)
    ensures Eval(h, n, r) == Ok(Number(x)) ==> Numbers(h, n, r, x)
  {
    hide Eval;
    assert Worth(h, Number(x), x);
  }

  lemma Negated(h: Host, n: Node, r: Record, at: nat, x: real)
    requires WellFormed(n) && Eval(h, n, r) == Ok(Number(x))
    ensures Eval(h, Opposite(n, at), r) == Ok(Number(-x))
  {
  }

  // ─── Comparisons ───

  predicate Yes(a: Answer) { a == Ok(Bool(true)) }

  predicate No(a: Answer) { a == Ok(Bool(false)) }

  lemma Compared(h: Host, op: Operator, x: Node, y: Node, r: Record, at: nat, v: Value, w: Value)
    requires op !in {Plus, Minus, Star, Slash, Ampersand} && WellFormed(x) && WellFormed(y)
    requires Eval(h, x, r) == Ok(v) && Eval(h, y, r) == Ok(w)
    ensures Operates(h, op, at, v, w, Eval(h, Op(op, x, y, at), r))
  {
    var answer := Eval(h, Op(op, x, y, at), r);
    assert answer == ApplyInfix(h, op, at, v, w);
    hide Eval, ApplyInfix, Operates;
    OperatorMeans(h, op, at, v, w, answer);
  }

  /** The values are before, alike or behind, and one of these alone; turned round, the other way. */
  lemma Trichotomy(h: Host, v: Value, w: Value)
    ensures Before(h, v, w) || Alike(h, v, w) || Before(h, w, v)
    ensures !(Before(h, v, w) && Alike(h, v, w)) && !(Before(h, w, v) && Alike(h, v, w))
    ensures !(Before(h, v, w) && Before(h, w, v))
    ensures Alike(h, v, w) <==> Alike(h, w, v)
  {
    CompareMeans(h, v, w, 0);
    CompareTurned(h, v, w, 0);
    CompareMeans(h, w, v, 0);
    CompareTurned(h, w, v, 0);
    hide Before, Alike, Compare;
  }

  /** Whether a comparison of two formulas comes out true. */
  ghost predicate Says(h: Host, op: Operator, x: Node, y: Node, r: Record, at: nat)
    requires WellFormed(x) && WellFormed(y)
  {
    Yes(Eval(h, Op(op, x, y, at), r))
  }

  /** A comparison of two values comes out true or false. */
  lemma Decided(h: Host, op: Operator, x: Node, y: Node, r: Record, at: nat)
    requires op !in {Plus, Minus, Star, Slash, Ampersand} && WellFormed(x) && WellFormed(y)
    requires Eval(h, x, r).Ok? && Eval(h, y, r).Ok?
    ensures Eval(h, Op(op, x, y, at), r) == Ok(Bool(Says(h, op, x, y, r, at)))
    ensures Eval(h, Denial(Op(op, x, y, at), at), r) == Ok(Bool(!Says(h, op, x, y, r, at)))
    ensures var v, w := Eval(h, x, r).value, Eval(h, y, r).value;
      Operates(h, op, at, v, w, Ok(Bool(Says(h, op, x, y, r, at))))
  {
    var v, w := Eval(h, x, r).value, Eval(h, y, r).value;
    Compared(h, op, x, y, r, at, v, w);
    Denied(h, Op(op, x, y, at), r, at);
    hide Eval, Before, Alike;
  }

  /** Of any two values exactly one of <, = and > is true, the other three operators are their
      complements, and the sides turned round turn < and >. */
  lemma OneOfThree(h: Host, x: Node, y: Node, r: Record, at: nat)
    requires WellFormed(x) && WellFormed(y) && Eval(h, x, r).Ok? && Eval(h, y, r).Ok?
    ensures var less, equal, greater :=
        Says(h, Less, x, y, r, at), Says(h, Equal, x, y, r, at), Says(h, Greater, x, y, r, at);
      && (less || equal || greater) && !(less && equal) && !(less && greater) && !(equal && greater)
      && (Says(h, LessEqual, x, y, r, at) <==> !greater) && (Says(h, GreaterEqual, x, y, r, at) <==> !less)
      && (Says(h, NotEqual, x, y, r, at) <==> !equal) && (Says(h, BangEqual, x, y, r, at) <==> !equal)
      && (Says(h, DoubleEqual, x, y, r, at) <==> equal)
      && (Says(h, Less, y, x, r, at) <==> greater) && (Says(h, Equal, y, x, r, at) <==> equal)
  {
    hide Eval, Says, Before, Alike, Op, Denial;
    var v, w := Eval(h, x, r).value, Eval(h, y, r).value;
    Trichotomy(h, v, w);
    Decided(h, Less, x, y, r, at);
    Decided(h, Equal, x, y, r, at);
    Decided(h, Greater, x, y, r, at);
    Complements(h, x, y, r, at);
    Decided(h, Less, y, x, r, at);
    Decided(h, Equal, y, x, r, at);
  }

  lemma Complements(h: Host, x: Node, y: Node, r: Record, at: nat)
    requires WellFormed(x) && WellFormed(y) && Eval(h, x, r).Ok? && Eval(h, y, r).Ok?
    ensures Says(h, LessEqual, x, y, r, at) <==> !Says(h, Greater, x, y, r, at)
    ensures Says(h, GreaterEqual, x, y, r, at) <==> !Says(h, Less, x, y, r, at)
    ensures Says(h, NotEqual, x, y, r, at) == Says(h, BangEqual, x, y, r, at) == !Says(h, Equal, x, y, r, at)
    ensures Says(h, DoubleEqual, x, y, r, at) == Says(h, Equal, x, y, r, at)
  {
    hide Eval, Says, Before, Alike, Op, Denial;
    Trichotomy(h, Eval(h, x, r).value, Eval(h, y, r).value);
    Decided(h, Less, x, y, r, at);
    Decided(h, Equal, x, y, r, at);
    Decided(h, Greater, x, y, r, at);
    Decided(h, LessEqual, x, y, r, at);
    Decided(h, GreaterEqual, x, y, r, at);
    Decided(h, NotEqual, x, y, r, at);
    Decided(h, BangEqual, x, y, r, at);
    Decided(h, DoubleEqual, x, y, r, at);
  }

  lemma Denied(h: Host, n: Node, r: Record, at: nat)
    requires WellFormed(n) && (Yes(Eval(h, n, r)) || No(Eval(h, n, r)))
    ensures Eval(h, Denial(n, at), r) == if Yes(Eval(h, n, r)) then Ok(Bool(false)) else Ok(Bool(true))
  {
  }

  /** Values all compared in one way are in one order. */
  lemma OrderIsOne(h: Host, u: Value, v: Value, w: Value)
    requires WayOf(h, u, v) == WayOf(h, v, w) == WayOf(h, u, w)
    ensures Before(h, u, v) && Before(h, v, w) ==> Before(h, u, w)
    ensures Before(h, u, v) && Alike(h, v, w) ==> Before(h, u, w)
    ensures Alike(h, u, v) && Before(h, v, w) ==> Before(h, u, w)
    ensures Alike(h, u, v) && Alike(h, v, w) ==> Alike(h, u, w)
  {
    CompareBy(h, u, v, 0);
    CompareBy(h, v, w, 0);
    CompareBy(h, u, w, 0);
    CompareMeans(h, u, v, 0);
    CompareMeans(h, v, w, 0);
    CompareMeans(h, u, w, 0);
    var s, t, q := h.toLower(ToText(h, u)), h.toLower(ToText(h, v)), h.toLower(ToText(h, w));
    OneOrder(s, t, q);
    hide Before, Alike, Compare, ToText, ToNumber, CompareText, WayOf;
  }

  lemma {:induction false} OneOrder(s: string, t: string, u: string)
    ensures CompareText(s, t) <= 0 && CompareText(t, u) <= 0 ==> CompareText(s, u) <= 0
    ensures CompareText(s, t) <= 0 && CompareText(t, u) <= 0 && CompareText(s, t) + CompareText(t, u) < 0 ==>
      CompareText(s, u) < 0
    ensures CompareText(s, t) == 0 && CompareText(t, u) == 0 ==> CompareText(s, u) == 0
  {
    if s != "" && t != "" && u != "" { OneOrder(s[1..], t[1..], u[1..]); }
  }

  /** Values compared in different ways may go round in a ring: 2 < 10 < "1a" < 2. */
  lemma OrderGoesRound(h: Host)
    requires h.parseFloat("1a").None? && h.toLower("1a") == "1a" && h.toLower("2") == "2" && h.toLower("10") == "10"
    ensures Before(h, Number(2.0), Number(10.0)) && Before(h, Number(10.0), Text("1a"))
    ensures Before(h, Text("1a"), Number(2.0))
  {
    assert Worth(h, Number(2.0), 2.0) && Worth(h, Number(10.0), 10.0);
    assert !Countable(h, Text("1a")) by {
      forall t | Surrounds(h, "1a", t) ensures h.parseFloat(t).None? {
        TrimSurrounds(h, "1a", t);
        assert SetBetween(h, "1a", "1a", 0, 2);
        TrimSurrounds(h, "1a", "1a");
      }
    }
    assert Decimal("2", 2);
    assert "10"[..1] == "1" == [DIGITS[1]] && Decimal("1", 1);
    assert Decimal("10", 10);
    assert Written(h, Number(2.0), "2") && Written(h, Number(10.0), "10") && Written(h, Text("1a"), "1a");
    assert "10"[..1] == "1a"[..1] && Earlier("10", "1a");
    assert "1a"[..0] == "2"[..0] && Earlier("1a", "2");
    hide Written, Worth, Earlier, Countable;
    assert EarlierText(h, Number(10.0), Text("1a"));
    assert EarlierText(h, Text("1a"), Number(2.0));
  }

  // ─── Conditions ───

  function Both(x: Node, y: Node, at: nat): (n: Node)
    ensures WellFormed(x) && WellFormed(y) ==> WellFormed(n)
  {
    BinaryNode(And, x, y, at)
  }

  function OneOf(x: Node, y: Node, at: nat): (n: Node)
    ensures WellFormed(x) && WellFormed(y) ==> WellFormed(n)
  {
    BinaryNode(Or, x, y, at)
  }

  function Call(fn: Function, args: seq<Node>, at: nat): (n: Node)
    ensures LegalArity(fn, |args|) && (forall i :: 0 <= i < |args| ==> WellFormed(args[i])) ==> WellFormed(n)
  {
    CallNode(fn, args, at)
  }

  /** What is denied of two together is denied of one of them, errors and the side left unread included. */
  lemma DeMorgan(h: Host, x: Node, y: Node, r: Record, i: nat, j: nat)
    requires WellFormed(x) && WellFormed(y)
    ensures Eval(h, Denial(Both(x, y, i), j), r) == Eval(h, OneOf(Denial(x, i), Denial(y, i), j), r)
    ensures Eval(h, Denial(OneOf(x, y, i), j), r) == Eval(h, Both(Denial(x, i), Denial(y, i), j), r)
  {
  }

  /** An IF with its test denied is the IF with its branches exchanged. */
  lemma BranchesExchanged(h: Host, x: Node, y: Node, z: Node, r: Record, i: nat, j: nat)
    requires WellFormed(x) && WellFormed(y) && WellFormed(z)
    ensures Eval(h, Call(If, [Denial(x, i), y, z], j), r) == Eval(h, Call(If, [x, z, y], j), r)
  {
  }

  // ─── Functions ───

  lemma Called(h: Host, fn: Function, args: seq<Node>, r: Record, at: nat, vs: seq<Value>)
    requires fn != If && fn != Case && LegalArity(fn, |args|) && |vs| == |args|
    requires forall i :: 0 <= i < |args| ==> WellFormed(args[i]) && Eval(h, args[i], r) == Ok(vs[i])
    ensures Eval(h, Call(fn, args, at), r) == Apply(h, fn, at, vs)
  {
    var n := Call(fn, args, at);
    ArgsEvaluate(h, n, r, 0);
    assert EvalArgs(h, n, 0, r).Ok? ==> EvalArgs(h, n, 0, r).value == vs;
    hide Apply;
  }

  /** The answer of a function over values. */
  lemma Yielded(h: Host, fn: Function, args: seq<Node>, r: Record, at: nat, vs: seq<Value>)
    requires fn != If && fn != Case && LegalArity(fn, |args|) && |vs| == |args|
    requires forall i :: 0 <= i < |args| ==> WellFormed(args[i]) && Eval(h, args[i], r) == Ok(vs[i])
    ensures Yields(h, fn, at, vs, Eval(h, Call(fn, args, at), r))
  {
    hide Eval, Apply, Yields;
    Called(h, fn, args, r, at, vs);
    FunctionMeans(h, fn, at, vs, Apply(h, fn, at, vs));
  }

  /** The formula evaluates to a value that is written as this text. */
  ghost predicate Texts(h: Host, n: Node, r: Record, s: string)
    requires WellFormed(n)
  {
    exists v :: Eval(h, n, r) == Ok(v) && Written(h, v, s)
  }

  lemma WrittenAlone(h: Host, v: Value)
    ensures forall s, t :: Written(h, v, s) && Written(h, v, t) ==> s == t
  {
    TextMeans(h, v);
    hide Written, ToText;
  }

  lemma Joined(h: Host, x: Node, y: Node, r: Record, at: nat, s: string, t: string)
    requires WellFormed(x) && WellFormed(y) && Texts(h, x, r, s) && Texts(h, y, r, t)
    ensures Eval(h, Op(Ampersand, x, y, at), r) == Ok(Text(s + t)) && Texts(h, Op(Ampersand, x, y, at), r, s + t)
  {
    hide Eval, ApplyInfix, Written, Op;
    var v :| Eval(h, x, r) == Ok(v) && Written(h, v, s);
    var w :| Eval(h, y, r) == Ok(w) && Written(h, w, t);
    var answer := Eval(h, Op(Ampersand, x, y, at), r);
    Applied(h, Ampersand, x, y, r, at, v, w);
    OperatorMeans(h, Ampersand, at, v, w, answer);
    WrittenAlone(h, v);
    WrittenAlone(h, w);
    assert Written(h, Text(s + t), s + t) by { TextMeans(h, Text(s + t)); }
  }

  lemma Measured(h: Host, x: Node, r: Record, at: nat, s: string)
    requires WellFormed(x) && Texts(h, x, r, s)
    ensures Eval(h, Call(Length, [x], at), r) == Ok(Number(|s| as real))
    ensures Numbers(h, Call(Length, [x], at), r, |s| as real)
  {
    hide Eval, Written, Call;
    var v :| Eval(h, x, r) == Ok(v) && Written(h, v, s);
    Yielded(h, Length, [x], r, at, [v]);
    WrittenAlone(h, v);
    Counted(h, Call(Length, [x], at), r, |s| as real);
  }

  /** The length of two texts joined is the sum of their lengths. */
  lemma LengthAdds(h: Host, x: Node, y: Node, r: Record, at: nat, s: string, t: string)
    requires WellFormed(x) && WellFormed(y) && Texts(h, x, r, s) && Texts(h, y, r, t)
    ensures Eval(h, Call(Length, [Op(Ampersand, x, y, at)], at), r) ==
      Eval(h, Op(Plus, Call(Length, [x], at), Call(Length, [y], at), at), r)
  {
    hide Eval, Texts, Numbers, Op, Call;
    Joined(h, x, y, r, at, s, t);
    Measured(h, Op(Ampersand, x, y, at), r, at, s + t);
    Measured(h, x, r, at, s);
    Measured(h, y, r, at, t);
    Reckoned(h, Plus, Call(Length, [x], at), Call(Length, [y], at), r, at, |s| as real, |t| as real);
  }

  /** The whole part of a number that is not negative. */
  function Whole(x: real): nat
    requires x >= 0.0
  {
    x.Floor
  }

  /** LEFT and RIGHT take so many characters from their ends, all of them if there are no more. */
  lemma EndTaken(h: Host, fn: Function, x: Node, n: Node, r: Record, at: nat, s: string, k: real)
    requires fn in {Left, Right} && WellFormed(x) && WellFormed(n) && Texts(h, x, r, s) && Numbers(h, n, r, k)
    ensures var a := Eval(h, Call(fn, [x, n], at), r);
      if k < 0.0 then a == Err(Error(at, NegativeCount))
      else
        var most := if Whole(k) > |s| then |s| else Whole(k);
        a == Ok(Text(if fn == Left then s[..most] else s[|s| - most..]))
  {
    hide Eval, Written, Call, Worth;
    var v :| Eval(h, x, r) == Ok(v) && Written(h, v, s);
    var w :| Eval(h, n, r) == Ok(w) && Worth(h, w, k);
    Called(h, fn, [x, n], r, at, [v, w]);
    TextMeans(h, v);
    NumberMeans(h, w, at);
    EndApplied(h, fn, at, v, w, s, k);
  }

  lemma EndApplied(h: Host, fn: Function, at: nat, v: Value, w: Value, s: string, k: real)
    requires fn in {Left, Right} && ToText(h, v) == s && ToNumber(h, w, at) == Ok(k)
    ensures Apply(h, fn, at, [v, w]) ==
      if k < 0.0 then Err(Error(at, NegativeCount))
      else
        var most := if Whole(k) > |s| then |s| else Whole(k);
        Ok(Text(if fn == Left then s[..most] else s[|s| - most..]))
  {
    hide ToText, ToNumber;
  }

  lemma TextTexts(h: Host, n: Node, r: Record, s: string)
    requires WellFormed(n) && Eval(h, n, r) == Ok(Text(s))
    ensures Texts(h, n, r, s)
  {
    hide Eval;
    assert Written(h, Text(s), s);
  }

  /** The left end of a text and the rest of its length from the right are the text again exactly
      if the number is whole and within the text: a fraction loses a character. */
  lemma EndsJoin(h: Host, x: Node, n: Node, r: Record, at: nat, s: string, k: real)
    requires WellFormed(x) && WellFormed(n) && Texts(h, x, r, s) && Numbers(h, n, r, k)
    ensures var rest := Op(Minus, Call(Length, [x], at), n, at);
      Eval(h, Op(Ampersand, Call(Left, [x, n], at), Call(Right, [x, rest], at), at), r) == Ok(Text(s)) <==>
        0.0 <= k <= |s| as real && k.Floor as real == k
  {
    hide Eval, Texts, Numbers, Op, Call;
    var rest := Op(Minus, Call(Length, [x], at), n, at);
    var left, right := Call(Left, [x, n], at), Call(Right, [x, rest], at);
    Measured(h, x, r, at, s);
    Reckoned(h, Minus, Call(Length, [x], at), n, r, at, |s| as real, k);
    Counted(h, rest, r, |s| as real - k);
    EndTaken(h, Left, x, n, r, at, s, k);
    EndTaken(h, Right, x, rest, r, at, s, |s| as real - k);
    if 0.0 <= k <= |s| as real {
      var i, j := Whole(k), Whole(|s| as real - k);
      TextTexts(h, left, r, s[..i]);
      TextTexts(h, right, r, s[|s| - j..]);
      Joined(h, left, right, r, at, s[..i], s[|s| - j..]);
      if k.Floor as real == k { assert s[..i] + s[i..] == s; }
      else { assert |s[..i] + s[|s| - j..]| < |s|; }
    } else {
      FailsThrough(h, left, right, r, at);
    }
  }

  lemma FailsThrough(h: Host, x: Node, y: Node, r: Record, at: nat)
    requires WellFormed(x) && WellFormed(y) && (Eval(h, x, r).Err? || Eval(h, y, r).Err?)
    ensures Eval(h, Op(Ampersand, x, y, at), r).Err?
  {
  }

  lemma MiddleTaken(h: Host, x: Node, n: Node, m: Node, r: Record, at: nat, s: string, k: real, l: real)
    requires WellFormed(x) && WellFormed(n) && WellFormed(m)
    requires Texts(h, x, r, s) && Numbers(h, n, r, k) && Numbers(h, m, r, l)
    ensures Eval(h, Call(Middle, [x, n, m], at), r).Ok?
    ensures MidOf(s, k, l, Eval(h, Call(Middle, [x, n, m], at), r).value)
  {
    hide Eval, Written, Call, Worth, MidOf, MiddleOf;
    var v :| Eval(h, x, r) == Ok(v) && Written(h, v, s);
    var w :| Eval(h, n, r) == Ok(w) && Worth(h, w, k);
    var u :| Eval(h, m, r) == Ok(u) && Worth(h, u, l);
    Called(h, Middle, [x, n, m], r, at, [v, w, u]);
    TextMeans(h, v);
    NumbersAre(h, [w, u], at);
    assert AreWorth(h, [w, u], [k, l]);
    assert [v, w, u][1..] == [w, u];
    MiddleMeans(s, k, l, MiddleOf(s, k, l));
  }

  /** The left end of a text and its middle from the next character on are the text again. */
  lemma MiddleGoesOn(h: Host, x: Node, n: Node, r: Record, at: nat, s: string, k: real)
    requires WellFormed(x) && WellFormed(n) && Texts(h, x, r, s) && Numbers(h, n, r, k) && k >= 0.0
    ensures var next := Op(Plus, n, NumberNode(1.0, at), at);
      Eval(h, Op(Ampersand, Call(Left, [x, n], at), Call(Middle, [x, next, Call(Length, [x], at)], at), at), r)
        == Ok(Text(s))
  {
    hide Eval, Texts, Numbers, Op, Call, MidOf;
    var next, length := Op(Plus, n, NumberNode(1.0, at), at), Call(Length, [x], at);
    var left, middle := Call(Left, [x, n], at), Call(Middle, [x, next, length], at);
    Literal(h, r, at, 1.0);
    Measured(h, x, r, at, s);
    Reckoned(h, Plus, n, NumberNode(1.0, at), r, at, k, 1.0);
    Counted(h, next, r, k + 1.0);
    EndTaken(h, Left, x, n, r, at, s, k);
    MiddleTaken(h, x, next, length, r, at, s, k + 1.0, |s| as real);
    var i := if Whole(k) > |s| then |s| else Whole(k);
    MiddleRest(s, k, Eval(h, middle, r).value);
    TextTexts(h, left, r, s[..i]);
    RestTexts(h, middle, r, s[i..]);
    Joined(h, left, middle, r, at, s[..i], s[i..]);
    assert s[..i] + s[i..] == s;
  }

  lemma Literal(h: Host, r: Record, at: nat, x: real)
    ensures Numbers(h, NumberNode(x, at), r, x)
  {
    Counted(h, NumberNode(x, at), r, x);
  }

  lemma MiddleRest(s: string, k: real, v: Value)
    requires k >= 0.0 && MidOf(s, k + 1.0, |s| as real, v)
    ensures var rest := s[if Whole(k) > |s| then |s| else Whole(k)..]; v == if rest == "" then Empty else Text(rest)
  {
    var from: nat :| Place(k + 1.0, from) && if from >= |s| || |s| as real <= 0.0 then v == Empty
                                              else FrontOf(s[from..], |s| as real, v);
    assert from == Whole(k);
    if from < |s| {
      var l: nat :| Takes(|s| as real, |s[from..]|, l) && v == Text(s[from..][..l]);
      assert l == |s| - from;
    }
  }

  lemma RestTexts(h: Host, n: Node, r: Record, s: string)
    requires WellFormed(n) && Eval(h, n, r) == Ok(if s == "" then Empty else Text(s))
    ensures Texts(h, n, r, s)
  {
    hide Eval;
    assert Written(h, Text(s), s) && Written(h, Empty, "");
  }

  lemma Substituted(h: Host, x: Node, y: Node, z: Node, r: Record, at: nat, s: string, t: string, u: string)
    requires WellFormed(x) && WellFormed(y) && WellFormed(z)
    requires Texts(h, x, r, s) && Texts(h, y, r, t) && Texts(h, z, r, u)
    ensures exists q :: Replaced(s, t, u, q) && Eval(h, Call(Substitute, [x, y, z], at), r) == Ok(Text(q))
  {
    hide Eval, Written, Call, Replaced, ReplaceAll;
    var v :| Eval(h, x, r) == Ok(v) && Written(h, v, s);
    var w :| Eval(h, y, r) == Ok(w) && Written(h, w, t);
    var o :| Eval(h, z, r) == Ok(o) && Written(h, o, u);
    Called(h, Substitute, [x, y, z], r, at, [v, w, o]);
    TextMeans(h, v);
    TextMeans(h, w);
    TextMeans(h, o);
    ReplaceMeans(s, t, u, ReplaceAll(s, t, u));
  }

  /** A substitution leaves a text alone that has the searched one nowhere. */
  lemma SubstituteLeaves(h: Host, x: Node, y: Node, z: Node, r: Record, at: nat, s: string, t: string, u: string)
    requires WellFormed(x) && WellFormed(y) && WellFormed(z)
    requires Texts(h, x, r, s) && Texts(h, y, r, t) && Texts(h, z, r, u) && t != "" && FreeAtEnd(s, t)
    ensures Eval(h, Call(Substitute, [x, y, z], at), r) == Ok(Text(s))
  {
    hide Eval, Texts, Call, Replaced, ReplaceText, FreeAtEnd;
    Substituted(h, x, y, z, r, at, s, t, u);
    FreeAtEndStays(s, t, u);
    forall q | Replaced(s, t, u, q) ensures q == s { ReplaceMeans(s, t, u, q); }
  }

  /** At the first place where the searched text stands, the substitution puts the other and goes
      on behind it. */
  lemma SubstituteSplits(h: Host, x: Node, y: Node, z: Node, r: Record, at: nat, a: string, b: string, t: string,
                         u: string)
    requires WellFormed(x) && WellFormed(y) && WellFormed(z)
    requires Texts(h, x, r, a + t + b) && Texts(h, y, r, t) && Texts(h, z, r, u) && t != "" && Free(a, t)
    ensures Eval(h, Call(Substitute, [x, y, z], at), r) ==
      Eval(h, Op(Ampersand, Op(Ampersand, TextNode(a, at), z, at),
                 Call(Substitute, [TextNode(b, at), y, z], at), at), r)
  {
    hide Eval, Texts, Call, Op, Replaced, Free;
    var rest := Call(Substitute, [TextNode(b, at), y, z], at);
    PlainText(h, r, at, a);
    PlainText(h, r, at, b);
    Substituted(h, x, y, z, r, at, a + t + b, t, u);
    Substituted(h, TextNode(b, at), y, z, r, at, b, t, u);
    var p :| Replaced(a + t + b, t, u, p) && Eval(h, Call(Substitute, [x, y, z], at), r) == Ok(Text(p));
    var q :| Replaced(b, t, u, q) && Eval(h, rest, r) == Ok(Text(q));
    TextTexts(h, rest, r, q);
    Joined(h, TextNode(a, at), z, r, at, a, u);
    Joined(h, Op(Ampersand, TextNode(a, at), z, at), rest, r, at, a + u, q);
    ReplaceMeans(a + t + b, t, u, p);
    ReplaceMeans(b, t, u, q);
    FreeStays(a, t, b, u);
  }

  lemma PlainText(h: Host, r: Record, at: nat, s: string)
    ensures Texts(h, TextNode(s, at), r, s)
  {
    TextTexts(h, TextNode(s, at), r, s);
  }

  lemma EmptyIs(h: Host, x: Node, r: Record, at: nat)
    requires WellFormed(x) && Eval(h, x, r).Ok?
    ensures Eval(h, Call(IsEmpty, [x], at), r) == Ok(Bool(Eval(h, x, r).value == Empty))
  {
    hide Eval, Call;
    Called(h, IsEmpty, [x], r, at, [Eval(h, x, r).value]);
  }

  /** COALESCE takes its first argument unless it is empty, and goes on with the others if it is. */
  lemma CoalesceIs(h: Host, args: seq<Node>, r: Record, at: nat)
    requires |args| >= 2 && forall i :: 0 <= i < |args| ==> WellFormed(args[i]) && Eval(h, args[i], r).Ok?
    ensures Eval(h, Call(Coalesce, args, at), r) ==
      Eval(h, Call(If, [Call(IsEmpty, [args[0]], at), Call(Coalesce, args[1..], at), args[0]], at), r)
  {
    hide Eval, Call;
    var vs := seq(|args|, i requires 0 <= i < |args| => Eval(h, args[i], r).value);
    Called(h, Coalesce, args, r, at, vs);
    Called(h, Coalesce, args[1..], r, at, vs[1..]);
    EmptyIs(h, args[0], r, at);
    IfIs(h, Call(IsEmpty, [args[0]], at), Call(Coalesce, args[1..], at), args[0], r, at, vs[0] == Empty);
  }

  lemma IfIs(h: Host, x: Node, y: Node, z: Node, r: Record, at: nat, test: bool)
    requires WellFormed(x) && WellFormed(y) && WellFormed(z) && Eval(h, x, r) == Ok(Bool(test))
    ensures Eval(h, Call(If, [x, y, z], at), r) == if test then Eval(h, y, r) else Eval(h, z, r)
  {
  }

  /** The average times the number of arguments is the sum, errors included. */
  lemma AverageTimesCount(h: Host, args: seq<Node>, r: Record, at: nat)
    requires args != [] && forall i :: 0 <= i < |args| ==> WellFormed(args[i])
    ensures Eval(h, Op(Star, Call(Average, args, at), NumberNode(|args| as real, at), at), r) ==
      Eval(h, Call(Sum, args, at), r)
  {
    hide Eval, Call, Op, Numbers;
    var n, k := Call(Average, args, at), |args| as real;
    var average, sum := Averaged(h, args, r, at);
    if Eval(h, n, r).Ok? {
      Counted(h, n, r, average);
      Literal(h, r, at, k);
      Multiplied(h, n, NumberNode(k, at), r, at, average, k, sum);
    } else {
      StarFails(h, n, NumberNode(k, at), r, at);
    }
  }

  /** SUM and AVERAGE fail together, or come to numbers of which the one is so many times the other. */
  lemma Averaged(h: Host, args: seq<Node>, r: Record, at: nat) returns (average: real, sum: real)
    requires args != [] && forall i :: 0 <= i < |args| ==> WellFormed(args[i])
    ensures var a, b := Eval(h, Call(Average, args, at), r), Eval(h, Call(Sum, args, at), r);
      (a.Err? && a == b) || (a == Ok(Number(average)) && b == Ok(Number(sum)) && average * |args| as real == sum)
  {
    ArgsShared(h, args, r, at);
    hide Eval, EvalArgs, Apply, NumberOf, SumOf, Evaluator.Numbers;
    average, sum := 0.0, 0.0;
    var es := EvalArgs(h, Call(Average, args, at), 0, r);
    if es.Ok? {
      NumbersApplied(h, Average, at, es.value);
      NumbersApplied(h, Sum, at, es.value);
      var ns := Evaluator.Numbers(h, es.value, at);
      if ns.Ok? {
        sum, average := NumberOf(h, Sum, ns.value), NumberOf(h, Average, ns.value);
        SumOfAverage(h, ns.value);
      }
    }
  }

  lemma SumOfAverage(h: Host, ns: seq<real>)
    requires ns != []
    ensures NumberOf(h, Average, ns) * |ns| as real == NumberOf(h, Sum, ns)
  {
    hide NumberOf, SumOf;
    OfAllMeans(h, Sum, ns, NumberOf(h, Sum, ns));
    OfAllMeans(h, Average, ns, NumberOf(h, Average, ns));
  }

  lemma StarFails(h: Host, x: Node, y: Node, r: Record, at: nat)
    requires WellFormed(x) && WellFormed(y) && Eval(h, x, r).Err?
    ensures Eval(h, Op(Star, x, y, at), r) == Eval(h, x, r)
  {
  }

  lemma ArgsShared(h: Host, args: seq<Node>, r: Record, at: nat)
    requires args != [] && forall i :: 0 <= i < |args| ==> WellFormed(args[i])
    ensures var es := EvalArgs(h, Call(Average, args, at), 0, r);
      && EvalArgs(h, Call(Sum, args, at), 0, r) == es
      && Eval(h, Call(Average, args, at), r) == (if es.Err? then Err(es.error) else Apply(h, Average, at, es.value))
      && Eval(h, Call(Sum, args, at), r) == (if es.Err? then Err(es.error) else Apply(h, Sum, at, es.value))
  {
    hide Apply;
    SameArguments(h, Call(Average, args, at), Call(Sum, args, at), r, 0);
  }

  lemma {:induction false} SameArguments(h: Host, m: Node, n: Node, r: Record, i: nat)
    requires m.CallNode? && n.CallNode? && m.args == n.args && WellFormed(m) && WellFormed(n) && i <= |m.args|
    ensures EvalArgs(h, m, i, r) == EvalArgs(h, n, i, r)
    decreases |m.args| - i
  {
    hide Eval;
    if i < |m.args| { SameArguments(h, m, n, r, i + 1); }
  }
}
