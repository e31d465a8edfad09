/**
 * The grammar of formulas, as productions over stretches of tokens; and that the parser accepts
 * exactly what the grammar derives, with the tree of the derivation.
 */
module Grammar {
  import opened Common
  import opened Formula
  import opened Lexer
  import opened Numerals
  import opened Parser
  import opened Printer
  import opened Spelling
  import RoundTrip

  // ─── Words ───

  /** The word is this one, in upper or lower case, with the long s for an s or the Kelvin sign for a k. */
  predicate Reads(l: Lexeme, word: string) {
    l.Word? && |l.text| == |word| && forall i :: 0 <= i < |word| ==>
      || l.text[i] == word[i]
      || ('A' <= word[i] <= 'Z' && l.text[i] as int == word[i] as int + 32)
      || (word[i] == 'S' && l.text[i] == '\U{17F}') || (word[i] == 'K' && l.text[i] == '\U{212A}')
  }

  lemma ReadsMeans(l: Lexeme, word: string)
    requires forall i :: 0 <= i < |word| ==> 'A' <= word[i] <= 'Z'
    ensures Reads(l, word) <==> IsKeyword(l, word)
  {
  }

  /** An entry of the table of functions: a name, and how many arguments at least and at most. */
  datatype Entry = Entry(name: string, least: nat, most: Option<nat>)

  function EntryOf(fn: Function): Entry {
    match fn
    case If => Entry("IF", 2, Some(3)) case Case => Entry("CASE", 2, None)
    case Upper => Entry("UPPER", 1, Some(1)) case Lower => Entry("LOWER", 1, Some(1))
    case Trim => Entry("TRIM", 1, Some(1)) case Length => Entry("LENGTH", 1, Some(1))
    case Substitute => Entry("SUBSTITUTE", 3, Some(3)) case List => Entry("LIST", 1, None)
    case Concat => Entry("CONCAT", 1, None) case Left => Entry("LEFT", 2, Some(2))
    case Right => Entry("RIGHT", 2, Some(2)) case Middle => Entry("MIDDLE", 3, Some(3))
    case Round => Entry("ROUND", 1, Some(2)) case Abs => Entry("ABS", 1, Some(1))
    case Sum => Entry("SUM", 1, None) case Min => Entry("MIN", 1, None) case Max => Entry("MAX", 1, None)
    case Average => Entry("AVERAGE", 1, None) case IsEmpty => Entry("ISEMPTY", 1, Some(1))
    case Coalesce => Entry("COALESCE", 1, None) case Today => Entry("TODAY", 0, Some(0))
    case Now => Entry("NOW", 0, Some(0)) case Year => Entry("YEAR", 1, Some(1))
    case Month => Entry("MONTH", 1, Some(1)) case Day => Entry("DAY", 1, Some(1))
  }

  /** The word in capitals is this one; outside ASCII the library knows the capitals. */
  predicate Capitals(h: Host, t: string, word: string) {
    |t| == |word| && forall i :: 0 <= i < |word| ==>
      if t[i] < '\U{80}' then t[i] == word[i] || ('a' <= t[i] <= 'z' && t[i] as int - 32 == word[i] as int)
      else h.wideUpper(t[i]) == word[i]
  }

  /** A call by this name with so many arguments is one of this function. */
  predicate Callable(h: Host, name: string, fn: Function, count: nat) {
    var e := EntryOf(fn);
    Capitals(h, name, e.name) && e.least <= count && (e.most.Some? ==> count <= e.most.value)
  }

  lemma EntryMeans(fn: Function)
    ensures EntryOf(fn) == Entry(FunctionName(fn), MinArgs(fn), MaxArgs(fn))
  {
  }

  lemma CapitalsMean(h: Host, t: string, word: string)
    requires forall i :: 0 <= i < |word| ==> 'A' <= word[i] <= 'Z'
    ensures Capitals(h, t, word) <==> Common.Upper(h, t) == word
  {
    if |t| == |word| {
      forall i | 0 <= i < |t|
        ensures Common.Upper(h, t)[i] == word[i] <==>
          if t[i] < '\U{80}' then
            t[i] == word[i] || ('a' <= t[i] <= 'z' && t[i] as int - 32 == word[i] as int)
          else h.wideUpper(t[i]) == word[i]
      {
      }
    }
  }

  lemma TableMeans(h: Host, t: string, fn: Function, count: nat)
    ensures Callable(h, t, fn, count) <==> Lookup(Common.Upper(h, t)) == Some(fn) && LegalArity(fn, count)
  {
    hide Lookup, FunctionName, EntryOf, Capitals;
    EntryMeans(fn);
    NameIsCapitals(fn);
    CapitalsMean(h, t, FunctionName(fn));
    LookupName(fn);
  }

  // ─── Numbers ───

  /** Digits read from the left, ten times what was read before with each. */
  function ReadOn(digits: string, before: nat): nat
    requires AllDigits(digits)
  {
    if digits == "" then before else ReadOn(digits[1..], before * 10 + (digits[0] as int - '0' as int))
  }

  /** The number divided by ten so many times. */
  function Shifted(v: real, places: nat): real
    decreases places
  {
    if places == 0 then v else Shifted(v / 10.0, places - 1)
  }

  /** Digits, or digits around a point, that denote this number. */
  ghost predicate Value(t: string, v: real) {
    exists whole, fraction ::
      DigitsAround(t, whole, fraction) && v == Shifted(ReadOn(whole + fraction, 0) as real, |fraction|)
  }

  lemma {:induction false} ShiftedMeans(v: real, places: nat)
    ensures Shifted(v, places) == v / Pow10(places) as real
    decreases places
  {
    if places > 0 {
      ShiftedMeans(v / 10.0, places - 1);
      Quotients(v, Pow10(places - 1) as real);
    }
  }

  lemma Quotients(v: real, p: real)
    requires p >= 1.0
    ensures v / 10.0 / p == v / (10.0 * p)
  {
    var q := v / 10.0 / p;
    assert q * p == v / 10.0;
    assert q * (10.0 * p) == 10.0 * (q * p) == v;
    assert v / (10.0 * p) * (10.0 * p) == v;
  }

  predicate DigitsAround(t: string, whole: string, fraction: string) {
    && AllDigits(whole) && AllDigits(fraction) && |whole| + |fraction| > 0
    && (t == whole + "." + fraction || (t == whole && fraction == ""))
  }

  lemma {:induction false} ReadOnMore(digits: string, c: char, before: nat)
    requires AllDigits(digits) && IsAsciiDigit(c)
    ensures ReadOn(digits + [c], before) == ReadOn(digits, before) * 10 + (c as int - '0' as int)
  {
    if digits != "" {
      assert (digits + [c])[1..] == digits[1..] + [c];
      ReadOnMore(digits[1..], c, before * 10 + (digits[0] as int - '0' as int));
    } else {
      assert (digits + [c])[1..] == "";
    }
  }

  lemma {:induction false} ReadOnMeans(digits: string)
    requires AllDigits(digits)
    ensures ReadOn(digits, 0) == DigitsValue(digits)
  {
    if digits != "" {
      var front, last := digits[..|digits| - 1], digits[|digits| - 1];
      ReadOnMeans(front);
      ReadOnMore(front, last, 0);
      assert digits == front + [last];
    }
  }

  lemma AroundPoint(t: string, whole: string, fraction: string)
    requires DigitsAround(t, whole, fraction)
    ensures t[..PointAt(t)] == whole && AfterPoint(t) == fraction
  {
    if t == whole + "." + fraction { PointIn(whole, fraction); } else { NoPoint(whole); }
  }

  lemma NumeralMeans(t: string, v: real)
    ensures ReadNumeral(t) == Some(v) <==> Value(t, v)
  {
    var whole, fraction := t[..PointAt(t)], AfterPoint(t);
    if AllDigits(whole) && AllDigits(fraction) && |whole| + |fraction| > 0 {
      assert PointAt(t) < |t| ==> t == whole + "." + fraction;
      ReadOnMeans(whole + fraction);
      ShiftedMeans(ReadOn(whole + fraction, 0) as real, |fraction|);
      assert DigitsAround(t, whole, fraction);
    }
    hide ReadOn, Shifted, Pow10, DigitsValue, PointAt, AfterPoint;
    forall a, b | DigitsAround(t, a, b) ensures a == whole && b == fraction { AroundPoint(t, a, b); }
  }

  // ─── The productions ───

  /** The token is an operator of the node that groups to the left at this level. */
  predicate Groups(t: Token, level: Level, n: Node): (b: bool)
    ensures b ==> n.BinaryNode?
  {
    && n.BinaryNode? && n.at == t.pos
    && match level
       case LOr => n.binary == Or && Reads(t.lexeme, "OR")
       case LAnd => n.binary == And && Reads(t.lexeme, "AND")
       case LConcat => n.binary == Infix(Ampersand) && t.lexeme == Sign(Ampersand)
       case LAdditive =>
         (n.binary == Infix(Plus) && t.lexeme == Sign(Plus)) || (n.binary == Infix(Minus) && t.lexeme == Sign(Minus))
       case LMultiplicative =>
         (n.binary == Infix(Star) && t.lexeme == Sign(Star)) || (n.binary == Infix(Slash) && t.lexeme == Sign(Slash))
       case _ => false
  }

  /** The token compares the sides of the node. */
  predicate Relates(t: Token, n: Node): (b: bool)
    ensures b ==> n.BinaryNode?
  {
    && n.BinaryNode? && n.at == t.pos && n.binary.Infix? && t.lexeme == Sign(n.binary.op)
    && n.binary.op !in {Plus, Minus, Star, Slash, Ampersand}
  }

  predicate Separates(ts: seq<Token>, k: nat) { k < |ts| && ts[k].lexeme.Comma? }

  /** The tokens from `i` on and before `j` are an expression of this level, with this tree. */
  ghost predicate Derives(h: Host, ts: seq<Token>, i: nat, j: nat, level: Level, n: Node)
    requires j <= |ts|
    decreases if i < j then j - i else 0, Rank(level), 1
  {
    i < j && match level
      case LOr => Derives(h, ts, i, j, LAnd, n) || Grouped(h, ts, i, j, LOr, LAnd, n)
      case LAnd => Derives(h, ts, i, j, LNot, n) || Grouped(h, ts, i, j, LAnd, LNot, n)
      case LNot =>
        if Reads(ts[i].lexeme, "NOT") then
          n.UnaryNode? && n.unary == Not && n.at == ts[i].pos && Derives(h, ts, i + 1, j, LNot, n.operand)
        else Derives(h, ts, i, j, LComparison, n)
      case LComparison =>
        || Derives(h, ts, i, j, LConcat, n)
        || exists k: nat :: i < k < j && Relates(ts[k], n)
             && Derives(h, ts, i, k, LConcat, n.left) && Derives(h, ts, k + 1, j, LConcat, n.right)
      case LConcat => Derives(h, ts, i, j, LAdditive, n) || Grouped(h, ts, i, j, LConcat, LAdditive, n)
      case LAdditive =>
        Derives(h, ts, i, j, LMultiplicative, n) || Grouped(h, ts, i, j, LAdditive, LMultiplicative, n)
      case LMultiplicative =>
        Derives(h, ts, i, j, LUnary, n) || Grouped(h, ts, i, j, LMultiplicative, LUnary, n)
      case LUnary =>
        if ts[i].lexeme == Sign(Plus) then Derives(h, ts, i + 1, j, LUnary, n)
        else if ts[i].lexeme == Sign(Minus) then
          n.UnaryNode? && n.unary == Negate && n.at == ts[i].pos && Derives(h, ts, i + 1, j, LUnary, n.operand)
        else Derives(h, ts, i, j, LPrimary, n)
      case LPrimary => Stands(h, ts, i, j, n)
  }

  /** Operands with an operator between them, the left one of the level itself. */
  ghost predicate Grouped(h: Host, ts: seq<Token>, i: nat, j: nat, level: Level, next: Level, n: Node)
    requires j <= |ts|
    decreases if i < j then j - i else 0, Rank(level), 0
  {
    exists k: nat :: i < k < j && Groups(ts[k], level, n)
      && Derives(h, ts, i, k, level, n.left) && Derives(h, ts, k + 1, j, next, n.right)
  }

  /** A number, a text, an expression between parentheses, a truth value, a call, or a field. */
  ghost predicate Stands(h: Host, ts: seq<Token>, i: nat, j: nat, n: Node)
    requires i < j <= |ts|
    decreases j - i, 0, 0
  {
    var at, l := ts[i].pos, ts[i].lexeme;
    match l
    case Numeral(t) => j == i + 1 && n.NumberNode? && Value(t, n.value) && n.at == at
    case Literal(t) => j == i + 1 && n == TextNode(t, at)
    case LParen => i + 1 < j && ts[j - 1].lexeme == RParen && Derives(h, ts, i + 1, j - 1, LOr, n)
    case Word(t) =>
      if Reads(l, "TRUE") then j == i + 1 && n == BoolNode(true, at)
      else if Reads(l, "FALSE") then j == i + 1 && n == BoolNode(false, at)
      else if i + 1 < |ts| && ts[i + 1].lexeme == LParen then
        && n.CallNode? && n.at == at && Callable(h, t, n.fn, |n.args|)
        && i + 2 < j && ts[j - 1].lexeme == RParen
        && if n.args == [] then j == i + 3 else Listing(h, ts, i + 2, j - 1, n.args)
      else j == i + 1 && n == FieldNode(t, at)
    case _ => false
  }

  /** Expressions with a separator between any two. */
  ghost predicate Listing(h: Host, ts: seq<Token>, i: nat, j: nat, args: seq<Node>)
    requires j <= |ts| && args != []
    decreases if i < j then j - i else 0, 9, 0
  {
    if |args| == 1 then Derives(h, ts, i, j, LOr, args[0])
    else exists k: nat :: i < k < j && Separates(ts, k) && Derives(h, ts, i, k, LOr, args[0])
                          && Listing(h, ts, k + 1, j, args[1..])
  }

  // ─── What the parser reads is derived ───

  lemma JoinsGroup(t: Token, level: Level, n: Node)
    requires IsLoop(level) && n.BinaryNode? && n.at == t.pos
    ensures Joins(t.lexeme, level) == Some(n.binary) <==> Groups(t, level, n)
  {
    ReadsMeans(t.lexeme, "OR");
    ReadsMeans(t.lexeme, "AND");
    hide Reads, EqualFold;
  }

  lemma GroupIntro(h: Host, ts: seq<Token>, i: nat, k: nat, j: nat, level: Level, n: Node)
    requires IsLoop(level) && i < k < j <= |ts| && Groups(ts[k], level, n)
    requires Derives(h, ts, i, k, level, n.left) && Derives(h, ts, k + 1, j, Tighter(level), n.right)
    ensures Derives(h, ts, i, j, level, n)
  {
    assert Grouped(h, ts, i, j, level, Tighter(level), n) by { hide Groups, Reads; }
  }

  lemma Passes(h: Host, ts: seq<Token>, i: nat, j: nat, level: Level, n: Node)
    requires level != LPrimary && i < j <= |ts| && Derives(h, ts, i, j, Tighter(level), n)
    requires level == LNot ==> !Reads(ts[i].lexeme, "NOT")
    requires level == LUnary ==> ts[i].lexeme != Sign(Plus) && ts[i].lexeme != Sign(Minus)
    ensures Derives(h, ts, i, j, level, n)
  {
    hide Reads;
  }

  lemma NotUnfolds(h: Host, ts: seq<Token>, i: nat)
    requires EndsOnce(ts) && i < |ts|
    ensures if Reads(ts[i].lexeme, "NOT") then
        i + 1 < |ts| && var p := ParseLevel(h, ts, i + 1, LNot);
        ParseLevel(h, ts, i, LNot) ==
          if p.Err? then p else Ok(Parsed(UnaryNode(Not, p.value.node, ts[i].pos), p.value.next))
      else ParseLevel(h, ts, i, LNot) == ParseLevel(h, ts, i, LComparison)
  {
    ReadsMeans(ts[i].lexeme, "NOT");
    assert IsKeyword(ts[i].lexeme, "NOT") ==> ts[i].lexeme != End;
    hide Reads, EqualFold;
  }

  lemma ComparisonUnfolds(h: Host, ts: seq<Token>, i: nat)
    requires EndsOnce(ts) && i < |ts|
    ensures var r, p := ParseLevel(h, ts, i, LComparison), ParseLevel(h, ts, i, LConcat);
      if p.Err? then r == p
      else
        var o := ts[p.value.next];
        if o.lexeme.Sign? && o.lexeme.op !in {Plus, Minus, Star, Slash, Ampersand} then
          p.value.next + 1 < |ts| && var q := ParseLevel(h, ts, p.value.next + 1, LConcat);
          r == if q.Err? then q
               else Ok(Parsed(BinaryNode(Infix(o.lexeme.op), p.value.node, q.value.node, o.pos), q.value.next))
        else r == p
  {
    forall op ensures IsComparison(op) <==> op !in {Plus, Minus, Star, Slash, Ampersand} { SignCompares(op); }
    hide IsComparison;
    var p := ParseLevel(h, ts, i, LConcat);
    if p.Ok? && ts[p.value.next].lexeme.Sign? { assert ts[p.value.next].lexeme != End; }
  }

  lemma SignCompares(op: Operator)
    ensures IsComparison(op) <==> op !in {Plus, Minus, Star, Slash, Ampersand}
  {
  }

  lemma UnaryUnfolds(h: Host, ts: seq<Token>, i: nat)
    requires EndsOnce(ts) && i < |ts|
    ensures var r := ParseLevel(h, ts, i, LUnary);
      if ts[i].lexeme == Sign(Plus) then i + 1 < |ts| && r == ParseLevel(h, ts, i + 1, LUnary)
      else if ts[i].lexeme == Sign(Minus) then
        i + 1 < |ts| && var p := ParseLevel(h, ts, i + 1, LUnary);
        r == if p.Err? then p else Ok(Parsed(UnaryNode(Negate, p.value.node, ts[i].pos), p.value.next))
      else r == ParseLevel(h, ts, i, LPrimary)
  {
  }

  lemma Prefixed(h: Host, ts: seq<Token>, i: nat, j: nat, level: Level, n: Node)
    requires i < j <= |ts| && n.UnaryNode? && n.at == ts[i].pos && Derives(h, ts, i + 1, j, level, n.operand)
    requires (level == LNot && Reads(ts[i].lexeme, "NOT") && n.unary == Not)
      || (level == LUnary && ts[i].lexeme == Sign(Minus) && n.unary == Negate)
    ensures Derives(h, ts, i, j, level, n)
  {
    hide Reads;
  }

  lemma PlusPasses(h: Host, ts: seq<Token>, i: nat, j: nat, n: Node)
    requires i < j <= |ts| && ts[i].lexeme == Sign(Plus) && Derives(h, ts, i + 1, j, LUnary, n)
    ensures Derives(h, ts, i, j, LUnary, n)
  {
  }

  lemma Compared(h: Host, ts: seq<Token>, i: nat, k: nat, j: nat, n: Node)
    requires i < k < j <= |ts| && Relates(ts[k], n)
    requires Derives(h, ts, i, k, LConcat, n.left) && Derives(h, ts, k + 1, j, LConcat, n.right)
    ensures Derives(h, ts, i, j, LComparison, n)
  {
    hide Relates;
  }

  /** What the parser of a level reads is derived at that level. */
  lemma {:induction false} ReadIsDerived(h: Host, ts: seq<Token>, i: nat, level: Level)
    requires EndsOnce(ts) && i < |ts|
    ensures var r := ParseLevel(h, ts, i, level); r.Ok? ==> Derives(h, ts, i, r.value.next, level, r.value.node)
    decreases |ts| - i, Rank(level) + 1, 0
  {
    hide ParseLevel, ParseLoop, Derives, Reads, EndsOnce, Joins;
    var r := ParseLevel(h, ts, i, level);
    match level
    case LNot =>
      NotUnfolds(h, ts, i);
      if Reads(ts[i].lexeme, "NOT") {
        ReadIsDerived(h, ts, i + 1, LNot);
        if r.Ok? { Prefixed(h, ts, i, r.value.next, LNot, r.value.node); }
      } else {
        ReadIsDerived(h, ts, i, LComparison);
        if r.Ok? { Passes(h, ts, i, r.value.next, LNot, r.value.node); }
      }
    case LComparison =>
      ComparisonUnfolds(h, ts, i);
      ReadIsDerived(h, ts, i, LConcat);
      var p := ParseLevel(h, ts, i, LConcat);
      if p.Ok? && r == p {
        Passes(h, ts, i, r.value.next, LComparison, r.value.node);
      } else if r.Ok? {
        ReadIsDerived(h, ts, p.value.next + 1, LConcat);
        Compared(h, ts, i, p.value.next, r.value.next, r.value.node);
      }
    case LUnary =>
      UnaryUnfolds(h, ts, i);
      if ts[i].lexeme == Sign(Plus) || ts[i].lexeme == Sign(Minus) {
        ReadIsDerived(h, ts, i + 1, LUnary);
        if r.Ok? && ts[i].lexeme == Sign(Plus) { PlusPasses(h, ts, i, r.value.next, r.value.node); }
        else if r.Ok? { Prefixed(h, ts, i, r.value.next, LUnary, r.value.node); }
      } else {
        ReadIsDerived(h, ts, i, LPrimary);
        if r.Ok? { Passes(h, ts, i, r.value.next, LUnary, r.value.node); }
      }
    case LPrimary => PrimaryIsDerived(h, ts, i);
    case _ =>
      LoopStarts(h, ts, i, level);
      ReadIsDerived(h, ts, i, Tighter(level));
      var p := ParseLevel(h, ts, i, Tighter(level));
      if p.Ok? {
        Passes(h, ts, i, p.value.next, level, p.value.node);
        LoopIsDerived(h, ts, i, p.value.next, level, p.value.node);
      }
  }

  lemma {:induction false} LoopIsDerived(h: Host, ts: seq<Token>, from: nat, i: nat, level: Level, left: Node)
    requires EndsOnce(ts) && from < i < |ts| && IsLoop(level) && WellFormed(left)
    requires Derives(h, ts, from, i, level, left)
    ensures var r := ParseLoop(h, ts, i, level, left);
      r.Ok? ==> Derives(h, ts, from, r.value.next, level, r.value.node)
    decreases |ts| - i, 0, 0
  {
    hide ParseLevel, ParseLoop, Derives, Reads, EndsOnce, Joins;
    LoopGoesOn(h, ts, i, level, left);
    var op := Joins(ts[i].lexeme, level);
    if op.Some? {
      ReadIsDerived(h, ts, i + 1, Tighter(level));
      var p := ParseLevel(h, ts, i + 1, Tighter(level));
      if p.Ok? {
        var n := BinaryNode(op.value, left, p.value.node, ts[i].pos);
        JoinsGroup(ts[i], level, n);
        GroupIntro(h, ts, from, i, p.value.next, level, n);
        LoopIsDerived(h, ts, from, p.value.next, level, n);
      }
    }
  }

  lemma {:induction false} PrimaryIsDerived(h: Host, ts: seq<Token>, i: nat)
    requires EndsOnce(ts) && i < |ts|
    ensures var r := ParseLevel(h, ts, i, LPrimary); r.Ok? ==> Derives(h, ts, i, r.value.next, LPrimary, r.value.node)
    decreases |ts| - i, 0, 1
  {
    hide ParseLevel, Derives, Reads, EqualFold, ReadNumeral, ParseCall, Stands;
    PrimaryIs(h, ts, i);
    var r, t := ParseLevel(h, ts, i, LPrimary), ts[i];
    if r.Ok? {
      if t.lexeme == LParen {
        ReadIsDerived(h, ts, i + 1, LOr);
        ParensStand(h, ts, i, r.value.next, r.value.node);
      } else if t.lexeme.Word? {
        ReadsMeans(t.lexeme, "TRUE");
        ReadsMeans(t.lexeme, "FALSE");
        if !Reads(t.lexeme, "TRUE") && !Reads(t.lexeme, "FALSE") && ts[i + 1].lexeme == LParen {
          CallIsDerived(h, ts, i);
        } else {
          LeafStands(h, ts, i, r.value.node);
        }
      } else {
        LeafStands(h, ts, i, r.value.node);
      }
    }
  }

  lemma StandsIs(h: Host, ts: seq<Token>, i: nat, j: nat, n: Node)
    requires i < j <= |ts|
    ensures Derives(h, ts, i, j, LPrimary, n) <==> Stands(h, ts, i, j, n)
  {
    hide Stands;
  }

  lemma ParensStand(h: Host, ts: seq<Token>, i: nat, j: nat, n: Node)
    requires i + 1 < j <= |ts| && ts[i].lexeme == LParen && ts[j - 1].lexeme == RParen
    requires Derives(h, ts, i + 1, j - 1, LOr, n)
    ensures Derives(h, ts, i, j, LPrimary, n)
  {
    StandsIs(h, ts, i, j, n);
  }

  lemma LeafStands(h: Host, ts: seq<Token>, i: nat, n: Node)
    requires i < |ts| && n.at == ts[i].pos
    requires match ts[i].lexeme
      case Numeral(t) => n.NumberNode? && ReadNumeral(t) == Some(n.value)
      case Literal(t) => n.TextNode? && n.text == t
      case Word(t) =>
        if Reads(ts[i].lexeme, "TRUE") then n.BoolNode? && n.truth
        else if Reads(ts[i].lexeme, "FALSE") then n.BoolNode? && !n.truth
        else n.FieldNode? && n.name == t && !(i + 1 < |ts| && ts[i + 1].lexeme == LParen)
      case _ => false
    ensures Derives(h, ts, i, i + 1, LPrimary, n)
  {
    StandsIs(h, ts, i, i + 1, n);
    if ts[i].lexeme.Numeral? { NumeralMeans(ts[i].lexeme.text, n.value); }
    hide Reads, ReadNumeral, Derives, Value;
  }

  lemma {:induction false} CallIsDerived(h: Host, ts: seq<Token>, i: nat)
    requires EndsOnce(ts) && i + 1 < |ts| && ts[i].lexeme.Word? && ts[i + 1].lexeme == LParen
    requires !Reads(ts[i].lexeme, "TRUE") && !Reads(ts[i].lexeme, "FALSE")
    ensures var r := ParseCall(h, ts, i); r.Ok? ==> Derives(h, ts, i, r.value.next, LPrimary, r.value.node)
    decreases |ts| - i, 0, 0
  {
    hide ParseLevel, ParseArgs, Derives, Reads, Lookup, MinArgs, MaxArgs, Callable, Listing;
    var r := ParseCall(h, ts, i);
    if r.Ok? {
      var n := r.value.node;
      TableMeans(h, ts[i].lexeme.text, n.fn, |n.args|);
      if ts[i + 2].lexeme != RParen { ListIsDerived(h, ts, i + 2); }
      StandsIs(h, ts, i, r.value.next, n);
    }
  }

  lemma {:induction false} ListIsDerived(h: Host, ts: seq<Token>, i: nat)
    requires EndsOnce(ts) && i < |ts|
    ensures var r := ParseArgs(h, ts, i);
      r.Ok? ==> r.value.args != [] && Listing(h, ts, i, r.value.next, r.value.args)
    decreases |ts| - i, 10, 0
  {
    hide ParseLevel, Derives;
    ReadIsDerived(h, ts, i, LOr);
    var p := ParseLevel(h, ts, i, LOr);
    if p.Ok? && ts[p.value.next].lexeme.Comma? {
      ListIsDerived(h, ts, p.value.next + 1);
      var rest := ParseArgs(h, ts, p.value.next + 1);
      if rest.Ok? {
        assert ([p.value.node] + rest.value.args)[1..] == rest.value.args;
        assert Separates(ts, p.value.next);
      }
    }
  }

  // ─── What is derived, the parser reads ───

  lemma GroupElim(h: Host, ts: seq<Token>, i: nat, j: nat, level: Level, n: Node)
    requires IsLoop(level) && i < j <= |ts| && Derives(h, ts, i, j, level, n)
    ensures Derives(h, ts, i, j, Tighter(level), n) || exists k: nat ::
      i < k < j && Groups(ts[k], level, n)
      && Derives(h, ts, i, k, level, n.left) && Derives(h, ts, k + 1, j, Tighter(level), n.right)
  {
    hide Groups, Reads;
    assert Derives(h, ts, i, j, Tighter(level), n) || Grouped(h, ts, i, j, level, Tighter(level), n);
  }

  lemma CompareElim(h: Host, ts: seq<Token>, i: nat, j: nat, n: Node)
    requires i < j <= |ts| && Derives(h, ts, i, j, LComparison, n)
    ensures Derives(h, ts, i, j, LConcat, n) || exists k: nat ::
      i < k < j && Relates(ts[k], n)
      && Derives(h, ts, i, k, LConcat, n.left) && Derives(h, ts, k + 1, j, LConcat, n.right)
  {
    hide Relates;
  }

  lemma PrefixElim(h: Host, ts: seq<Token>, i: nat, j: nat, level: Level, n: Node)
    requires (level == LNot || level == LUnary) && i < j <= |ts| && Derives(h, ts, i, j, level, n)
    ensures level == LNot ==>
      if Reads(ts[i].lexeme, "NOT") then
        n.UnaryNode? && n.unary == Not && n.at == ts[i].pos && i + 1 < j && Derives(h, ts, i + 1, j, LNot, n.operand)
      else Derives(h, ts, i, j, LComparison, n)
    ensures level == LUnary ==>
      if ts[i].lexeme == Sign(Plus) then i + 1 < j && Derives(h, ts, i + 1, j, LUnary, n)
      else if ts[i].lexeme == Sign(Minus) then
        && n.UnaryNode? && n.unary == Negate && n.at == ts[i].pos
        && i + 1 < j && Derives(h, ts, i + 1, j, LUnary, n.operand)
      else Derives(h, ts, i, j, LPrimary, n)
  {
    hide Reads;
  }

  lemma ListElim(h: Host, ts: seq<Token>, i: nat, j: nat, args: seq<Node>)
    requires args != [] && j <= |ts| && Listing(h, ts, i, j, args)
    ensures if |args| == 1 then i < j && Derives(h, ts, i, j, LOr, args[0])
      else exists k: nat :: i < k < j && Separates(ts, k) && Derives(h, ts, i, k, LOr, args[0])
                            && Listing(h, ts, k + 1, j, args[1..])
  {
  }

  /** Trees that are derived have calls with the arguments their functions take, and no expression
      begins with a closing parenthesis. */
  lemma {:induction false} DerivedWell(h: Host, ts: seq<Token>, i: nat, j: nat, level: Level, n: Node)
    requires i < j <= |ts| && Derives(h, ts, i, j, level, n)
    ensures WellFormed(n) && ts[i].lexeme != RParen
    decreases j - i, Rank(level), 1
  {
    hide Derives, Reads, Groups, Relates;
    if IsLoop(level) {
      GroupElim(h, ts, i, j, level, n);
      if Derives(h, ts, i, j, Tighter(level), n) {
        DerivedWell(h, ts, i, j, Tighter(level), n);
      } else {
        var k: nat :| i < k < j && Groups(ts[k], level, n)
          && Derives(h, ts, i, k, level, n.left) && Derives(h, ts, k + 1, j, Tighter(level), n.right);
        SidesWell(h, ts, i, k, j, level, Tighter(level), n);
      }
    } else if level == LComparison {
      CompareElim(h, ts, i, j, n);
      if Derives(h, ts, i, j, LConcat, n) {
        DerivedWell(h, ts, i, j, LConcat, n);
      } else {
        var k: nat :| i < k < j && Relates(ts[k], n)
          && Derives(h, ts, i, k, LConcat, n.left) && Derives(h, ts, k + 1, j, LConcat, n.right);
        SidesWell(h, ts, i, k, j, LConcat, LConcat, n);
      }
    } else if level == LPrimary {
      StandsIs(h, ts, i, j, n);
      StandingWell(h, ts, i, j, n);
    } else {
      PrefixElim(h, ts, i, j, level, n);
      PrefixedWell(h, ts, i, j, level, n);
    }
  }

  lemma {:induction false} SidesWell(h: Host, ts: seq<Token>, i: nat, k: nat, j: nat, a: Level, b: Level, n: Node)
    requires i < k < j <= |ts| && n.BinaryNode?
    requires Derives(h, ts, i, k, a, n.left) && Derives(h, ts, k + 1, j, b, n.right)
    ensures WellFormed(n) && ts[i].lexeme != RParen
    decreases j - i, 0, 0
  {
    hide Derives;
    DerivedWell(h, ts, i, k, a, n.left);
    Spans(h, ts, k + 1, j, b, n.right);
    DerivedWell(h, ts, k + 1, j, b, n.right);
  }

  lemma Spans(h: Host, ts: seq<Token>, i: nat, j: nat, level: Level, n: Node)
    requires j <= |ts| && Derives(h, ts, i, j, level, n)
    ensures i < j
  {
  }

  lemma {:induction false} PrefixedWell(h: Host, ts: seq<Token>, i: nat, j: nat, level: Level, n: Node)
    requires (level == LNot || level == LUnary) && i < j <= |ts| && Derives(h, ts, i, j, level, n)
    ensures WellFormed(n) && ts[i].lexeme != RParen
    decreases j - i, Rank(level), 0
  {
    hide Derives;
    PrefixElim(h, ts, i, j, level, n);
    if level == LNot && Reads(ts[i].lexeme, "NOT") { DerivedWell(h, ts, i + 1, j, LNot, n.operand); }
    else if level == LNot { DerivedWell(h, ts, i, j, LComparison, n); }
    else if ts[i].lexeme == Sign(Plus) { DerivedWell(h, ts, i + 1, j, LUnary, n); }
    else if ts[i].lexeme == Sign(Minus) { DerivedWell(h, ts, i + 1, j, LUnary, n.operand); }
    else { DerivedWell(h, ts, i, j, LPrimary, n); }
  }

  lemma {:induction false} StandingWell(h: Host, ts: seq<Token>, i: nat, j: nat, n: Node)
    requires i < j <= |ts| && Stands(h, ts, i, j, n)
    ensures WellFormed(n) && ts[i].lexeme != RParen
    decreases j - i, 0, 0
  {
    hide Derives, Reads, Callable, Listing, ReadNumeral, LegalArity;
    if ts[i].lexeme == LParen {
      Spans(h, ts, i + 1, j - 1, LOr, n);
      DerivedWell(h, ts, i + 1, j - 1, LOr, n);
    } else if n.CallNode? {
      TableMeans(h, ts[i].lexeme.text, n.fn, |n.args|);
      if n.args != [] { ListingWell(h, ts, i + 2, j - 1, n.args); }
    }
  }

  lemma {:induction false} ListingWell(h: Host, ts: seq<Token>, i: nat, j: nat, args: seq<Node>)
    requires args != [] && j <= |ts| && Listing(h, ts, i, j, args)
    ensures i < j && ts[i].lexeme != RParen && forall m :: 0 <= m < |args| ==> WellFormed(args[m])
    decreases if i < j then j - i else 0, 9, 0
  {
    hide Derives;
    ListElim(h, ts, i, j, args);
    if |args| == 1 {
      DerivedWell(h, ts, i, j, LOr, args[0]);
    } else {
      var k: nat :| i < k < j && Separates(ts, k) && Derives(h, ts, i, k, LOr, args[0])
        && Listing(h, ts, k + 1, j, args[1..]);
      DerivedWell(h, ts, i, k, LOr, args[0]);
      ListingWell(h, ts, k + 1, j, args[1..]);
    }
  }

  lemma GroupEnds(t: Token, level: Level, n: Node)
    requires IsLoop(level) && Groups(t, level, n)
    ensures Ends(t.lexeme, Tighter(level))
  {
    ReadsMeans(t.lexeme, "OR");
    ReadsMeans(t.lexeme, "AND");
    hide Reads, EqualFold;
  }

  lemma RelationEnds(t: Token, n: Node)
    requires Relates(t, n)
    ensures Ends(t.lexeme, LConcat)
  {
  }

  /** A level whose loop has read a derived expression goes on from behind it. */
  lemma {:induction false} DerivedLoops(h: Host, ts: seq<Token>, i: nat, j: nat, level: Level, n: Node)
    requires EndsOnce(ts) && IsLoop(level) && i < j < |ts| && Derives(h, ts, i, j, level, n)
    requires Ends(ts[j].lexeme, Tighter(level))
    ensures WellFormed(n) && ParseLevel(h, ts, i, level) == ParseLoop(h, ts, j, level, n)
    decreases j - i, Rank(level), 1
  {
    hide ParseLevel, ParseLoop, Derives, Reads, EndsOnce, Joins, Ends, Groups, WellFormed;
    DerivedWell(h, ts, i, j, level, n);
    GroupElim(h, ts, i, j, level, n);
    LoopStarts(h, ts, i, level);
    if Derives(h, ts, i, j, Tighter(level), n) {
      DerivedIsRead(h, ts, i, j, Tighter(level), n);
    } else {
      var k: nat :| i < k < j && Groups(ts[k], level, n)
        && Derives(h, ts, i, k, level, n.left) && Derives(h, ts, k + 1, j, Tighter(level), n.right);
      GroupEnds(ts[k], level, n);
      GroupIs(ts[k], level, n);
      DerivedLoops(h, ts, i, k, level, n.left);
      Spans(h, ts, k + 1, j, Tighter(level), n.right);
      DerivedIsRead(h, ts, k + 1, j, Tighter(level), n.right);
      LoopGoesOn(h, ts, k, level, n.left);
    }
  }

  lemma GroupIs(t: Token, level: Level, n: Node)
    requires IsLoop(level) && Groups(t, level, n)
    ensures n.BinaryNode? && Joins(t.lexeme, level) == Some(n.binary)
    ensures n == BinaryNode(n.binary, n.left, n.right, t.pos)
  {
    JoinsGroup(t, level, n);
    hide Reads, EqualFold, Joins;
  }

  /** What is derived at a level and ends there, the parser of the level reads, with the tree. */
  lemma {:induction false} DerivedIsRead(h: Host, ts: seq<Token>, i: nat, j: nat, level: Level, n: Node)
    requires EndsOnce(ts) && i < j < |ts| && Derives(h, ts, i, j, level, n) && Ends(ts[j].lexeme, level)
    ensures WellFormed(n) && ParseLevel(h, ts, i, level) == Ok(Parsed(n, j))
    decreases j - i, Rank(level), 2
  {
    hide ParseLevel, ParseLoop, Derives, Reads, EndsOnce, Joins, Ends, Groups, Relates, WellFormed;
    DerivedWell(h, ts, i, j, level, n);
    if IsLoop(level) {
      EndsTighter(ts[j].lexeme, level);
      DerivedLoops(h, ts, i, j, level, n);
      EndsNotJoins(ts[j].lexeme, level);
      LoopGoesOn(h, ts, j, level, n);
    } else if level == LComparison {
      ComparisonIsRead(h, ts, i, j, n);
    } else if level == LPrimary {
      PrimaryIsRead(h, ts, i, j, n);
    } else {
      PrefixIsRead(h, ts, i, j, level, n);
    }
  }

  lemma {:induction false} PrefixIsRead(h: Host, ts: seq<Token>, i: nat, j: nat, level: Level, n: Node)
    requires EndsOnce(ts) && i < j < |ts| && Derives(h, ts, i, j, level, n) && Ends(ts[j].lexeme, level)
    requires level == LNot || level == LUnary
    ensures ParseLevel(h, ts, i, level) == Ok(Parsed(n, j))
    decreases j - i, Rank(level), 1
  {
    hide ParseLevel, Derives, Reads, EndsOnce, Ends, WellFormed;
    PrefixElim(h, ts, i, j, level, n);
    EndsTighter(ts[j].lexeme, level);
    if level == LNot {
      NotUnfolds(h, ts, i);
      if Reads(ts[i].lexeme, "NOT") { DerivedIsRead(h, ts, i + 1, j, LNot, n.operand); }
      else { DerivedIsRead(h, ts, i, j, LComparison, n); }
    } else {
      UnaryUnfolds(h, ts, i);
      if ts[i].lexeme == Sign(Plus) { DerivedIsRead(h, ts, i + 1, j, LUnary, n); }
      else if ts[i].lexeme == Sign(Minus) { DerivedIsRead(h, ts, i + 1, j, LUnary, n.operand); }
      else { DerivedIsRead(h, ts, i, j, LPrimary, n); }
    }
  }

  lemma EndsNoRelation(l: Lexeme)
    requires Ends(l, LComparison)
    ensures !(l.Sign? && l.op !in {Plus, Minus, Star, Slash, Ampersand})
  {
  }

  lemma {:induction false} ComparisonIsRead(h: Host, ts: seq<Token>, i: nat, j: nat, n: Node)
    requires EndsOnce(ts) && i < j < |ts| && Derives(h, ts, i, j, LComparison, n) && Ends(ts[j].lexeme, LComparison)
    ensures ParseLevel(h, ts, i, LComparison) == Ok(Parsed(n, j))
    decreases j - i, Rank(LComparison), 1
  {
    hide ParseLevel, Derives, EndsOnce, Ends, WellFormed;
    CompareElim(h, ts, i, j, n);
    ComparisonUnfolds(h, ts, i);
    EndsTighter(ts[j].lexeme, LComparison);
    if Derives(h, ts, i, j, LConcat, n) {
      DerivedIsRead(h, ts, i, j, LConcat, n);
      EndsNoRelation(ts[j].lexeme);
    } else {
      var k: nat :| i < k < j && Relates(ts[k], n)
        && Derives(h, ts, i, k, LConcat, n.left) && Derives(h, ts, k + 1, j, LConcat, n.right);
      RelationEnds(ts[k], n);
      DerivedIsRead(h, ts, i, k, LConcat, n.left);
      Spans(h, ts, k + 1, j, LConcat, n.right);
      DerivedIsRead(h, ts, k + 1, j, LConcat, n.right);
    }
  }

  lemma EndsAnything(level: Level, l: Lexeme)
    requires l == RParen || l.Comma? || l == End
    ensures Ends(l, level)
  {
  }

  lemma {:induction false} PrimaryIsRead(h: Host, ts: seq<Token>, i: nat, j: nat, n: Node)
    requires EndsOnce(ts) && i < j < |ts| && Derives(h, ts, i, j, LPrimary, n)
    ensures ParseLevel(h, ts, i, LPrimary) == Ok(Parsed(n, j))
    decreases j - i, 0, 1
  {
    hide ParseLevel, Derives, Reads, EqualFold, ReadNumeral, ParseCall, Callable, Listing, Value;
    StandsIs(h, ts, i, j, n);
    if ts[i].lexeme.Numeral? { NumeralMeans(ts[i].lexeme.text, n.value); }
    PrimaryIs(h, ts, i);
    var l := ts[i].lexeme;
    ReadsMeans(l, "TRUE");
    ReadsMeans(l, "FALSE");
    if l == LParen {
      Spans(h, ts, i + 1, j - 1, LOr, n);
      EndsAnything(LOr, RParen);
      DerivedIsRead(h, ts, i + 1, j - 1, LOr, n);
    } else if l.Word? && !Reads(l, "TRUE") && !Reads(l, "FALSE") && ts[i + 1].lexeme == LParen {
      CallIsRead(h, ts, i, j, n);
    }
  }

  lemma {:induction false} CallIsRead(h: Host, ts: seq<Token>, i: nat, j: nat, n: Node)
    requires EndsOnce(ts) && i + 2 < j < |ts| && ts[i].lexeme.Word? && ts[i + 1].lexeme == LParen
    requires n.CallNode? && n.at == ts[i].pos && Callable(h, ts[i].lexeme.text, n.fn, |n.args|)
    requires ts[j - 1].lexeme == RParen
    requires if n.args == [] then j == i + 3 else Listing(h, ts, i + 2, j - 1, n.args)
    ensures ParseCall(h, ts, i) == Ok(Parsed(n, j))
    decreases j - i, 0, 0
  {
    hide ParseLevel, ParseArgs, Derives, Lookup, MinArgs, MaxArgs, Callable, Listing;
    TableMeans(h, ts[i].lexeme.text, n.fn, |n.args|);
    if n.args != [] {
      ListingWell(h, ts, i + 2, j - 1, n.args);
      ListIsRead(h, ts, i + 2, j - 1, n.args);
    }
  }

  lemma {:induction false} ListIsRead(h: Host, ts: seq<Token>, i: nat, j: nat, args: seq<Node>)
    requires EndsOnce(ts) && args != [] && i < j < |ts| && Listing(h, ts, i, j, args) && ts[j].lexeme == RParen
    ensures ParseArgs(h, ts, i) == Ok(ParsedArgs(args, j))
    decreases j - i, 9, 0
  {
    hide ParseLevel, Derives, Ends;
    ListElim(h, ts, i, j, args);
    if |args| == 1 {
      EndsAnything(LOr, ts[j].lexeme);
      DerivedIsRead(h, ts, i, j, LOr, args[0]);
      assert args == [args[0]];
    } else {
      var k: nat :| i < k < j && Separates(ts, k) && Derives(h, ts, i, k, LOr, args[0])
        && Listing(h, ts, k + 1, j, args[1..]);
      EndsAnything(LOr, ts[k].lexeme);
      DerivedIsRead(h, ts, i, k, LOr, args[0]);
      ListingWell(h, ts, k + 1, j, args[1..]);
      ListIsRead(h, ts, k + 1, j, args[1..]);
      assert args == [args[0]] + args[1..];
    }
  }

  // ─── Formulas ───

  /** The text is a formula with this tree: its tokens are an expression, and then the end. */
  ghost predicate Formulates(h: Host, src: string, n: Node) {
    exists ts :: ts != [] && Tokens(h, src, 0, ts) && Derives(h, ts, 0, |ts| - 1, LOr, n)
  }

  lemma {:induction false} TokensEnd(h: Host, s: string, at: nat, ts: seq<Token>)
    requires Tokens(h, s, at, ts)
    ensures EndsOnce(ts)
  {
    LexMeans(h, s, at, ts);
    hide LexFrom, Tokens;
  }

  lemma ParseUnfolds(h: Host, src: string)
    ensures var ts := LexFrom(h, src, 0);
      Parse(h, src) ==
        if Blank(h, src) then Err(Error(0, FormulaEmpty))
        else if ts.Err? then Err(ts.error)
        else
          var p := ParseLevel(h, ts.value, 0, LOr);
          if p.Err? then Err(p.error)
          else
            var t := ts.value[p.value.next];
            if t.lexeme != End then Err(Error(t.pos, AfterTheEnd)) else Ok(p.value.node)
  {
    hide LexFrom, ParseLevel, Blank;
  }

  lemma ParsedIsFormula(h: Host, src: string, n: Node)
    requires Parse(h, src) == Ok(n)
    ensures Formulates(h, src, n)
  {
    hide *;
    ParseUnfolds(h, src);
    var ts := LexFrom(h, src, 0).value;
    LexMeans(h, src, 0, ts);
    ReadIsDerived(h, ts, 0, LOr);
    EndIsLast(ts, ParseLevel(h, ts, 0, LOr).value.next);
    FormulaIntro(h, src, ts, n);
  }

  lemma FormulaIntro(h: Host, src: string, ts: seq<Token>, n: Node)
    requires ts != [] && Tokens(h, src, 0, ts) && Derives(h, ts, 0, |ts| - 1, LOr, n)
    ensures Formulates(h, src, n)
  {
    hide Tokens, Derives;
  }

  lemma FormulaElim(h: Host, src: string, n: Node) returns (ts: seq<Token>)
    requires Formulates(h, src, n)
    ensures ts != [] && Tokens(h, src, 0, ts) && Derives(h, ts, 0, |ts| - 1, LOr, n)
  {
    hide Tokens, Derives;
    ts :| ts != [] && Tokens(h, src, 0, ts) && Derives(h, ts, 0, |ts| - 1, LOr, n);
  }

  lemma FormulaParses(h: Host, src: string, n: Node)
    requires Formulates(h, src, n)
    ensures Parse(h, src) == Ok(n)
  {
    hide *;
    var ts := FormulaElim(h, src, n);
    LexMeans(h, src, 0, ts);
    TokensEnd(h, src, 0, ts);
    Spans(h, ts, 0, |ts| - 1, LOr, n);
    EndIsLast(ts, |ts| - 1);
    EndsAnything(LOr, End);
    DerivedIsRead(h, ts, 0, |ts| - 1, LOr, n);
    if Blank(h, src) { BlankIsNothing(h, src, ts); }
    ParseUnfolds(h, src);
  }

  /**
   * The parser takes a text exactly if it is a formula of the grammar, and the tree it gives is
   * the one tree the text has.
   */
  lemma ParseMeans(h: Host, src: string, n: Node)
    ensures Parse(h, src) == Ok(n) <==> Formulates(h, src, n)
  {
    hide *;
    if Parse(h, src) == Ok(n) { ParsedIsFormula(h, src, n); }
    if Formulates(h, src, n) { FormulaParses(h, src, n); }
  }

  lemma EndIsLast(ts: seq<Token>, i: nat)
    requires EndsOnce(ts) && i < |ts|
    ensures ts[i].lexeme == End <==> i == |ts| - 1
  {
  }

  lemma BlankIsNothing(h: Host, src: string, ts: seq<Token>)
    requires Blank(h, src) && Tokens(h, src, 0, ts)
    ensures |ts| == 1
  {
    RoundTrip.BlankLexes(h, src);
    LexMeans(h, src, 0, ts);
    hide LexFrom, Tokens;
  }
}
