/** What the operators and functions of formulas answer, said as relations and met by the evaluator. */
module Operations {
  import opened Common
  import opened Formula
  import opened Evaluator
  import opened Readings

  type Answer = Result<Value, Error>

  // ─── Comparisons ───

  /** One text comes before another: at the first place where they differ, or by ending there. */
  predicate Earlier(s: string, t: string) {
    exists i :: 0 <= i <= |s| && i < |t| && s[..i] == t[..i] && (i == |s| || s[i] < t[i])
  }

  lemma {:induction false} OrderOfTexts(s: string, t: string)
    ensures CompareText(s, t) < 0 <==> Earlier(s, t)
    ensures CompareText(s, t) > 0 <==> Earlier(t, s)
    ensures CompareText(s, t) == 0 <==> s == t
  {
    if s == "" || t == "" || s[0] != t[0] {
      if t != "" && (s == "" || s[0] < t[0]) { assert s[..0] == t[..0]; }
      if s != "" && (t == "" || t[0] < s[0]) { assert t[..0] == s[..0]; }
      assert forall i :: 0 < i <= |s| && i <= |t| && s[..i] == t[..i] ==> s[..i][0] == t[..i][0];
    } else {
      OrderOfTexts(s[1..], t[1..]);
      EarlierBehind(s, t);
      EarlierBehind(t, s);
      assert s == [s[0]] + s[1..] && t == [t[0]] + t[1..];
    }
  }

  lemma EarlierBehind(s: string, t: string)
    requires s != "" && t != "" && s[0] == t[0]
    ensures Earlier(s, t) <==> Earlier(s[1..], t[1..])
  {
    if i :| 0 <= i <= |s| && i < |t| && s[..i] == t[..i] && (i == |s| || s[i] < t[i]) {
      assert i > 0 && s[1..][..i - 1] == s[..i][1..] && t[1..][..i - 1] == t[..i][1..];
    }
    if i :| 0 <= i <= |s[1..]| && i < |t[1..]| && s[1..][..i] == t[1..][..i]
            && (i == |s[1..]| || s[1..][i] < t[1..][i]) {
      assert s[..i + 1] == [s[0]] + s[1..][..i] && t[..i + 1] == [t[0]] + t[1..][..i];
    }
  }

  /** The value is a number, a truth value, or a text that counts as a number. */
  ghost predicate Countable(h: Host, v: Value) { !v.Empty? && exists x :: Worth(h, v, x) }

  /** How two values are compared: as moments, as numbers, or as texts without regard to case. */
  datatype Way = AsNothing | AsMoments | AsNumbers | AsTexts

  ghost function WayOf(h: Host, a: Value, b: Value): Way {
    if a.Empty? && b.Empty? then AsNothing
    else if a.Time? && b.Time? then AsMoments
    else if Countable(h, a) && Countable(h, b) then AsNumbers
    else AsTexts
  }

  ghost predicate LessWorth(h: Host, a: Value, b: Value) {
    exists x, y :: Worth(h, a, x) && Worth(h, b, y) && x < y
  }

  ghost predicate SameWorth(h: Host, a: Value, b: Value) {
    exists x :: Worth(h, a, x) && Worth(h, b, x)
  }

  ghost predicate EarlierText(h: Host, a: Value, b: Value) {
    exists s, t :: Written(h, a, s) && Written(h, b, t) && Earlier(h.toLower(s), h.toLower(t))
  }

  ghost predicate SameText(h: Host, a: Value, b: Value) {
    exists s, t :: Written(h, a, s) && Written(h, b, t) && h.toLower(s) == h.toLower(t)
  }

  ghost predicate Before(h: Host, a: Value, b: Value) {
    match WayOf(h, a, b)
    case AsNothing => false
    case AsMoments => a.when < b.when
    case AsNumbers => LessWorth(h, a, b)
    case AsTexts => EarlierText(h, a, b)
  }

  ghost predicate Alike(h: Host, a: Value, b: Value) {
    match WayOf(h, a, b)
    case AsNothing => true
    case AsMoments => a.when == b.when
    case AsNumbers => SameWorth(h, a, b)
    case AsTexts => SameText(h, a, b)
  }

  lemma CountableMeans(h: Host, v: Value)
    ensures Countable(h, v) <==> IsNumeric(h, v)
    ensures Countable(h, v) ==> ToNumber(h, v, 0).Ok? && Worth(h, v, ToNumber(h, v, 0).value)
  {
    NumberMeans(h, v, 0);
    if Countable(h, v) { var x :| Worth(h, v, x); }
    if IsNumeric(h, v) { assert Worth(h, v, ToNumber(h, v, 0).value); }
    hide Worth;
  }

  lemma NumberAnywhere(h: Host, v: Value, at: nat)
    requires ToNumber(h, v, 0).Ok?
    ensures ToNumber(h, v, at) == ToNumber(h, v, 0)
  {
  }

  lemma TextsCompare(h: Host, a: Value, b: Value)
    ensures var c := CompareText(h.toLower(ToText(h, a)), h.toLower(ToText(h, b)));
      (c < 0 <==> EarlierText(h, a, b)) && (c == 0 <==> SameText(h, a, b))
  {
    hide Written, ToText, CompareText, Earlier;
    TextMeans(h, a);
    TextMeans(h, b);
    var s, t := ToText(h, a), ToText(h, b);
    assert Written(h, a, s) && Written(h, b, t);
    OrderOfTexts(h.toLower(s), h.toLower(t));
  }

  lemma NumbersCompare(h: Host, a: Value, b: Value, at: nat)
    requires Countable(h, a) && Countable(h, b)
    ensures ToNumber(h, a, at).Ok? && ToNumber(h, b, at).Ok?
    ensures var x, y := ToNumber(h, a, at).value, ToNumber(h, b, at).value;
      (x < y <==> LessWorth(h, a, b)) && (x == y <==> SameWorth(h, a, b))
  {
    hide Worth, ToNumber;
    NumberMeans(h, a, at);
    NumberMeans(h, b, at);
    assert Worth(h, a, ToNumber(h, a, at).value) && Worth(h, b, ToNumber(h, b, at).value);
  }

  /** What a comparison comes down to. */
  lemma CompareBy(h: Host, a: Value, b: Value, at: nat)
    ensures var way, c := WayOf(h, a, b), Compare(h, a, b, at).value;
      && (way == AsNothing ==> c == 0)
      && (way == AsMoments ==> (c < 0 <==> a.when < b.when) && (c == 0 <==> a.when == b.when))
      && (way == AsTexts ==> c == CompareText(h.toLower(ToText(h, a)), h.toLower(ToText(h, b))))
      && (way == AsNumbers ==>
          && ToNumber(h, a, at).Ok? && ToNumber(h, b, at).Ok?
          && var x, y := ToNumber(h, a, at).value, ToNumber(h, b, at).value; (c < 0 <==> x < y) && (c == 0 <==> x == y))
  {
    CountableMeans(h, a);
    CountableMeans(h, b);
    if WayOf(h, a, b) == AsNumbers { NumbersCompare(h, a, b, at); }
    hide ToNumber, ToText, CompareText, IsNumeric, Countable;
  }

  /** The comparison comes out before, alike or after, as the values are. */
  lemma CompareMeans(h: Host, a: Value, b: Value, at: nat)
    ensures Compare(h, a, b, at).value < 0 <==> Before(h, a, b)
    ensures Compare(h, a, b, at).value == 0 <==> Alike(h, a, b)
  {
    CompareBy(h, a, b, at);
    TextsCompare(h, a, b);
    if WayOf(h, a, b) == AsNumbers { NumbersCompare(h, a, b, at); }
    hide LessWorth, SameWorth, EarlierText, SameText, ToNumber, ToText, CompareText, Compare, WayOf;
  }

  /** Turned round, a comparison comes out the other way. */
  lemma CompareTurned(h: Host, a: Value, b: Value, at: nat)
    ensures Compare(h, a, b, at).value > 0 <==> Before(h, b, a)
  {
    var s, t := h.toLower(ToText(h, a)), h.toLower(ToText(h, b));
    OrderOfTexts(s, t);
    OrderOfTexts(t, s);
    CompareMeans(h, b, a, at);
    hide ToNumber, ToText, CompareText, IsNumeric, Before, Earlier, Alike;
  }

  // ─── Operators ───

  /** The error of a value that counts as no number. */
  ghost predicate NoNumber(h: Host, v: Value, at: nat, answer: Answer) {
    answer.Err? && answer.error.pos == at && Worthless(h, v, answer.error.problem)
  }

  predicate IsNumber(answer: Answer, x: real) { answer == Ok(Number(x)) }

  /** What the four operations of arithmetic make of two numbers. */
  predicate Reckons(op: Operator, at: nat, x: real, y: real, answer: Answer) {
    match op
    case Plus => IsNumber(answer, x + y)
    case Minus => IsNumber(answer, x - y)
    case Star => IsNumber(answer, x * y)
    case _ => if y == 0.0 then answer == Err(Error(at, DivisionByZero)) else IsNumber(answer, x / y)
  }

  ghost predicate Operates(h: Host, op: Operator, at: nat, a: Value, b: Value, answer: Answer) {
    match op
    case Ampersand => exists s, t :: Written(h, a, s) && Written(h, b, t) && answer == Ok(Text(s + t))
    case Plus | Minus | Star | Slash =>
      || NoNumber(h, a, at, answer)
      || exists x :: Worth(h, a, x) &&
           (NoNumber(h, b, at, answer) || exists y :: Worth(h, b, y) && Reckons(op, at, x, y, answer))
    case Equal | DoubleEqual => answer == Ok(Bool(Alike(h, a, b)))
    case NotEqual | BangEqual => answer == Ok(Bool(!Alike(h, a, b)))
    case Less => answer == Ok(Bool(Before(h, a, b)))
    case LessEqual => answer == Ok(Bool(Before(h, a, b) || Alike(h, a, b)))
    case Greater => answer == Ok(Bool(Before(h, b, a)))
    case GreaterEqual => answer == Ok(Bool(Before(h, b, a) || Alike(h, a, b)))
  }

  lemma NoNumberMeans(h: Host, v: Value, at: nat, answer: Answer)
    ensures NoNumber(h, v, at, answer) <==> ToNumber(h, v, at).Err? && answer == Err(ToNumber(h, v, at).error)
  {
    NumberMeans(h, v, at);
    hide Worth, Worthless, ToNumber;
    var r := ToNumber(h, v, at);
    assert r.Err? ==> r.error == Error(at, r.error.problem);
    assert answer.Err? ==> answer.error == Error(answer.error.pos, answer.error.problem);
  }

  lemma ArithmeticMeans(h: Host, op: Operator, at: nat, a: Value, b: Value, answer: Answer)
    requires op in {Plus, Minus, Star, Slash}
    ensures Operates(h, op, at, a, b, answer) <==> answer == ApplyInfix(h, op, at, a, b)
  {
    hide Worth, NoNumber, ToNumber, Reckons, Arithmetic;
    NumberMeans(h, a, at);
    NumberMeans(h, b, at);
    NoNumberMeans(h, a, at, answer);
    NoNumberMeans(h, b, at, answer);
    var x, y := ToNumber(h, a, at), ToNumber(h, b, at);
    if x.Ok? && y.Ok? {
      assert Worth(h, a, x.value) && Worth(h, b, y.value);
      ReckonMeans(op, at, x.value, y.value, answer);
    } else if x.Ok? {
      assert Worth(h, a, x.value);
    }
  }

  lemma ReckonMeans(op: Operator, at: nat, x: real, y: real, answer: Answer)
    requires op in {Plus, Minus, Star, Slash}
    ensures Reckons(op, at, x, y, answer) <==> answer == Arithmetic(op, at, x, y)
  {
  }

  lemma JoinedMeans(h: Host, at: nat, a: Value, b: Value, answer: Answer)
    ensures Operates(h, Ampersand, at, a, b, answer) <==> answer == ApplyInfix(h, Ampersand, at, a, b)
  {
    TextMeans(h, a);
    TextMeans(h, b);
    hide ToText, Written;
    assert Written(h, a, ToText(h, a)) && Written(h, b, ToText(h, b));
  }

  lemma OrderMeans(h: Host, op: Operator, at: nat, a: Value, b: Value, answer: Answer)
    requires op !in {Plus, Minus, Star, Slash, Ampersand}
    ensures Operates(h, op, at, a, b, answer) <==> answer == ApplyInfix(h, op, at, a, b)
  {
    CompareMeans(h, a, b, at);
    CompareTurned(h, a, b, at);
    hide Compare, Alike, Before, Written, Worth, ToText, ToNumber;
  }

  lemma OperatorMeans(h: Host, op: Operator, at: nat, a: Value, b: Value, answer: Answer)
    ensures Operates(h, op, at, a, b, answer) <==> answer == ApplyInfix(h, op, at, a, b)
  {
    hide *;
    if op in {Plus, Minus, Star, Slash} { ArithmeticMeans(h, op, at, a, b, answer); }
    else if op == Ampersand { JoinedMeans(h, at, a, b, answer); }
    else { OrderMeans(h, op, at, a, b, answer); }
  }

  ghost predicate Turns(h: Host, op: UnaryOp, at: nat, v: Value, answer: Answer) {
    match op
    case Negate => NoNumber(h, v, at, answer) || exists x :: Worth(h, v, x) && IsNumber(answer, -x)
    case Not => answer == Ok(Bool(!Holds(h, v)))
  }

  lemma UnaryMeans(h: Host, op: UnaryOp, at: nat, v: Value, answer: Answer)
    ensures Turns(h, op, at, v, answer) <==> answer == ApplyUnary(h, op, at, v)
  {
    NumberMeans(h, v, at);
    TruthMeans(h, v);
    hide Worth, Worthless, Holds, ToNumber, Truth;
  }
}
