/**
 * Printing formulas with as few parentheses as the grammar of calc/parse.go allows, and
 * the proof that lexing and parsing give the printed tree back.
 */
module Printer {
  import opened Common
  import opened Formula
  import opened Lexer
  import opened Numerals
  import opened Parser

  /** The level whose rule builds the root of the tree. */
  function LevelOf(n: Node): Level {
    match n
    case UnaryNode(Not, _, _) => LNot
    case UnaryNode(Negate, _, _) => LUnary
    case BinaryNode(Or, _, _, _) => LOr
    case BinaryNode(And, _, _, _) => LAnd
    case BinaryNode(Infix(op), _, _, _) =>
      if IsComparison(op) then LComparison
      else if op == Ampersand then LConcat
      else if op == Plus || op == Minus then LAdditive
      else LMultiplicative
    case _ => LPrimary
  }

  predicate NeedsParens(n: Node, context: Level) { Rank(LevelOf(n)) > Rank(context) }

  /** A word that the parser takes for something else where an operand is expected. */
  predicate IsReserved(name: string) {
    EqualFold(name, "TRUE") || EqualFold(name, "FALSE") || EqualFold(name, "NOT")
  }

  predicate IsName(h: Host, name: string) {
    && name != "" && IsWordStart(h, name[0])
    && !IsSpace(h, name[0]) && !IsDigit(h, name[0])
    && (forall i :: 0 <= i < |name| ==> IsWordChar(h, name[i]))
    && !IsReserved(name)
  }

  /** A number a literal can denote: the quotient of a natural number and a power of ten. */
  ghost predicate IsDecimal(v: real) {
    exists digits: nat, places: nat :: Denotes(v, digits, places)
  }

  predicate Denotes(v: real, digits: nat, places: nat) {
    v == digits as real / Pow10(places) as real
  }

  /** The trees a formula can be written for. */
  ghost predicate Printable(h: Host, n: Node) {
    match n
    case NumberNode(v, _) => IsDecimal(v)
    case FieldNode(name, _) => IsName(h, name)
    case UnaryNode(_, operand, _) => Printable(h, operand)
    case BinaryNode(_, left, right, _) => Printable(h, left) && Printable(h, right)
    case CallNode(fn, args, _) =>
      LegalArity(fn, |args|) && forall i :: 0 <= i < |args| ==> Printable(h, args[i])
    case _ => true
  }

  function OperatorLexeme(op: BinaryOp): Lexeme {
    match op
    case Or => Word("OR")
    case And => Word("AND")
    case Infix(o) => Sign(o)
  }

  /** The level the left and right operands of a binary operator are read at. */
  function LeftContext(level: Level): Level
    requires level != LPrimary
  {
    if IsLoop(level) then level else Tighter(level)
  }

  ghost function NumeralText(v: real): (s: string)
    requires IsDecimal(v)
    ensures |s| > 0 && IsAsciiDigit(s[0]) && ReadNumeral(s) == Some(v)
  {
    var digits: nat, places: nat :| Denotes(v, digits, places);
    DecimalRoundTrip(digits, places);
    DecimalText(digits, places)
  }

  /** The lexemes of a tree where the grammar expects an expression of level `context`. */
  ghost function Print(h: Host, n: Node, context: Level): (p: seq<Lexeme>)
    requires Printable(h, n)
    ensures |p| > 0
    decreases n, 1
  {
    if NeedsParens(n, context) then [LParen] + Body(h, n) + [RParen] else Body(h, n)
  }

  ghost function Body(h: Host, n: Node): (p: seq<Lexeme>)
    requires Printable(h, n)
    ensures |p| > 0
    decreases n, 0
  {
    match n
    case NumberNode(v, _) => [Numeral(NumeralText(v))]
    case TextNode(text, _) => [Literal(text)]
    case BoolNode(truth, _) => [Word(if truth then "true" else "false")]
    case FieldNode(name, _) => [Word(name)]
    case UnaryNode(Not, operand, _) => [Word("NOT")] + Print(h, operand, LNot)
    case UnaryNode(Negate, operand, _) => [Sign(Minus)] + Print(h, operand, LUnary)
    case BinaryNode(op, left, right, _) =>
      Print(h, left, LeftContext(LevelOf(n))) + [OperatorLexeme(op)] + Print(h, right, Tighter(LevelOf(n)))
    case CallNode(fn, args, _) =>
      [Word(FunctionName(fn)), LParen] + PrintArgs(h, args) + [RParen]
  }

  ghost function PrintArgs(h: Host, args: seq<Node>): (p: seq<Lexeme>)
    requires forall i :: 0 <= i < |args| ==> Printable(h, args[i])
    ensures args != [] ==> |p| > 0
    decreases args
  {
    if args == [] then []
    else if |args| == 1 then Print(h, args[0], LOr)
    else Print(h, args[0], LOr) + [Comma(';')] + PrintArgs(h, args[1..])
  }

  /** The same lexeme, or either separator for the other. */
  predicate Alike(a: Lexeme, b: Lexeme) { a == b || (a.Comma? && b.Comma?) }

  predicate AllAlike(p: seq<Lexeme>, q: seq<Lexeme>) {
    |p| == |q| && forall k :: 0 <= k < |p| ==> Alike(p[k], q[k])
  }

  /** The tokens from `i` on spell the lexemes `p`, with whatever separators between arguments. */
  ghost predicate Spells(ts: seq<Token>, i: nat, p: seq<Lexeme>) {
    i + |p| <= |ts| && forall k :: 0 <= k < |p| ==> Alike(ts[i + k].lexeme, p[k])
  }

  lemma SpellsSplit(ts: seq<Token>, i: nat, p: seq<Lexeme>, q: seq<Lexeme>)
    requires Spells(ts, i, p + q)
    ensures Spells(ts, i, p) && Spells(ts, i + |p|, q)
  {
    forall k | 0 <= k < |p| ensures Alike(ts[i + k].lexeme, p[k]) {
      assert (p + q)[k] == p[k];
    }
    forall k | 0 <= k < |q| ensures Alike(ts[i + |p| + k].lexeme, q[k]) {
      assert (p + q)[|p| + k] == q[k];
    }
  }

  /** What may follow an expression of level `context`: an end, or an operator of a looser level. */
  predicate Ends(l: Lexeme, context: Level) {
    match l
    case End | RParen | Comma(_) => true
    case Word(_) =>
      || (IsKeyword(l, "OR") && Rank(context) < Rank(LOr))
      || (IsKeyword(l, "AND") && Rank(context) < Rank(LAnd))
    case Sign(op) => Rank(context) < Rank(LevelOf(BinaryNode(Infix(op), BoolNode(true, 0), BoolNode(true, 0), 0)))
    case _ => false
  }

  lemma EndsNotJoins(l: Lexeme, level: Level)
    requires IsLoop(level) && Ends(l, level)
    ensures Joins(l, level).None?
  {
  }

  /** How the operator of a looping level's node reads as a token. */
  lemma JoinsOperator(n: Node)
    requires n.BinaryNode? && IsLoop(LevelOf(n))
    ensures Joins(OperatorLexeme(n.binary), LevelOf(n)) == Some(n.binary)
    ensures Ends(OperatorLexeme(n.binary), Tighter(LevelOf(n)))
  {
  }

  lemma NameIsCapitals(fn: Function)
    ensures var name := FunctionName(fn);
      |name| > 0 && forall i :: 0 <= i < |name| ==> 'A' <= name[i] <= 'Z'
  {
  }

  lemma CapitalsStay(h: Host, name: string)
    requires forall i :: 0 <= i < |name| ==> 'A' <= name[i] <= 'Z'
    ensures Common.Upper(h, name) == name
  {
  }

  /** No function is called like a reserved word. */
  lemma NameNotReserved(fn: Function)
    ensures !IsReserved(FunctionName(fn))
  {
    var name := FunctionName(fn);
    NameIsCapitals(fn);
    assert FoldChar(name[0]) == name[0] && FoldChar(name[|name| - 1]) == name[|name| - 1];
  }

  /** The first lexeme of what is printed at a level that has no prefix operator. */
  lemma {:induction false} FirstLexeme(h: Host, n: Node, context: Level)
    requires Printable(h, n)
    ensures Rank(context) < Rank(LNot) ==> !IsKeyword(Print(h, n, context)[0], "NOT")
    ensures Rank(context) < Rank(LUnary) ==> Print(h, n, context)[0] != Sign(Minus)
    ensures Print(h, n, context)[0] != Sign(Plus) && Print(h, n, context)[0] != RParen
    ensures !Print(h, n, context)[0].Comma?
    decreases n
  {
    if !NeedsParens(n, context) {
      match n {
        case BinaryNode(op, left, right, _) =>
          FirstLexeme(h, left, LeftContext(LevelOf(n)));
        case CallNode(fn, _, _) =>
          NameNotReserved(fn);
        case _ =>
      }
    }
  }

  ghost predicate ReadBack(r: Result<Parsed, Error>, n: Node, next: nat) {
    r.Ok? && r.value.next == next && Strip(r.value.node) == Strip(n)
  }

  /** The level has no prefix operator of its own for the tree printed there. */
  predicate Descends(n: Node, context: Level) {
    NeedsParens(n, context) || LevelOf(n) != context
  }

  // How printing unfolds.

  lemma PrintedBinary(h: Host, n: Node, context: Level)
    requires Printable(h, n) && n.BinaryNode? && !NeedsParens(n, context)
    ensures Printable(h, n.left) && Printable(h, n.right)
    ensures Print(h, n, context)
         == Print(h, n.left, LeftContext(LevelOf(n)))
          + ([OperatorLexeme(n.binary)] + Print(h, n.right, Tighter(LevelOf(n))))
  {
  }

  lemma PrintedTighter(h: Host, n: Node, context: Level)
    requires Printable(h, n) && context != LPrimary && Descends(n, context)
    ensures Print(h, n, context) == Print(h, n, Tighter(context))
  {
    hide Body, Printable;
  }

  lemma PrintedParens(h: Host, n: Node)
    requires Printable(h, n) && NeedsParens(n, LPrimary)
    ensures !NeedsParens(n, LOr)
    ensures Print(h, n, LPrimary) == [LParen] + (Print(h, n, LOr) + [RParen])
  {
  }

  lemma PrintedCall(h: Host, n: Node)
    requires Printable(h, n) && n.CallNode?
    ensures LegalArity(n.fn, |n.args|) && forall i :: 0 <= i < |n.args| ==> Printable(h, n.args[i])
    ensures Print(h, n, LPrimary) == [Word(FunctionName(n.fn)), LParen] + (PrintArgs(h, n.args) + [RParen])
  {
  }

  lemma PrintedLeaf(h: Host, n: Node)
    requires Printable(h, n) && LevelOf(n) == LPrimary && !n.CallNode?
    ensures |Print(h, n, LPrimary)| == 1
    ensures var l := Print(h, n, LPrimary)[0];
      match n
      case NumberNode(v, _) => l.Numeral? && ReadNumeral(l.text) == Some(v)
      case TextNode(text, _) => l == Literal(text)
      case BoolNode(truth, _) => l == Word(if truth then "true" else "false")
      case FieldNode(name, _) => l == Word(name) && !IsReserved(name)
      case _ => true
  {
  }

  lemma PrintedPrefix(h: Host, n: Node)
    requires Printable(h, n) && n.UnaryNode?
    ensures Printable(h, n.operand) && LevelOf(n) == if n.unary == Not then LNot else LUnary
    ensures Print(h, n, LevelOf(n))
         == [if n.unary == Not then Word("NOT") else Sign(Minus)] + Print(h, n.operand, LevelOf(n))
  {
  }

  lemma EndsTighter(l: Lexeme, context: Level)
    requires context != LPrimary && Ends(l, context)
    ensures Ends(l, Tighter(context))
  {
  }

  // How the specification of the parser unfolds, one rule at a time.

  lemma ComparisonReads(h: Host, ts: seq<Token>, i: nat, p: Parsed, op: Operator, q: Parsed)
    requires EndsOnce(ts) && i < |ts| && ParseLevel(h, ts, i, LConcat) == Ok(p)
    requires ts[p.next].lexeme == Sign(op) && IsComparison(op)
    requires ParseLevel(h, ts, p.next + 1, LConcat) == Ok(q)
    ensures ParseLevel(h, ts, i, LComparison)
         == Ok(Parsed(BinaryNode(Infix(op), p.node, q.node, ts[p.next].pos), q.next))
  {
  }

  lemma PrefixReads(h: Host, ts: seq<Token>, i: nat, op: UnaryOp, p: Parsed)
    requires EndsOnce(ts) && i + 1 < |ts|
    requires ts[i].lexeme == if op == Not then Word("NOT") else Sign(Minus)
    requires ParseLevel(h, ts, i + 1, if op == Not then LNot else LUnary) == Ok(p)
    ensures ParseLevel(h, ts, i, if op == Not then LNot else LUnary)
         == Ok(Parsed(UnaryNode(op, p.node, ts[i].pos), p.next))
  {
  }

  /** A level without a loop passes on what the next tighter one reads. */
  lemma LevelPasses(h: Host, ts: seq<Token>, i: nat, level: Level, p: Parsed)
    requires EndsOnce(ts) && i < |ts| && level != LPrimary && !IsLoop(level)
    requires ParseLevel(h, ts, i, Tighter(level)) == Ok(p)
    requires level == LNot ==> !IsKeyword(ts[i].lexeme, "NOT")
    requires level == LUnary ==> ts[i].lexeme != Sign(Minus) && ts[i].lexeme != Sign(Plus)
    requires level == LComparison ==> Ends(ts[p.next].lexeme, LComparison)
    ensures ParseLevel(h, ts, i, level) == Ok(p)
  {
  }

  lemma CallReads(h: Host, ts: seq<Token>, i: nat, fn: Function, a: ParsedArgs)
    requires EndsOnce(ts) && i + 2 < |ts| && ts[i].lexeme == Word(FunctionName(fn))
    requires ts[i + 1].lexeme == LParen
    requires if ts[i + 2].lexeme == RParen then a == ParsedArgs([], i + 2)
             else ParseArgs(h, ts, i + 2) == Ok(a)
    requires ts[a.next].lexeme == RParen && LegalArity(fn, |a.args|)
    ensures ParseLevel(h, ts, i, LPrimary) == Ok(Parsed(CallNode(fn, a.args, ts[i].pos), a.next + 1))
  {
    NameIsCapitals(fn);
    CapitalsStay(h, FunctionName(fn));
    NameNotReserved(fn);
    LookupName(fn);
    assert ParseLevel(h, ts, i, LPrimary) == ParsePrimary(h, ts, i) == ParseCall(h, ts, i) by {
      hide Lookup, FunctionName;
    }
  }

  lemma BinaryWellFormed(m: Node)
    requires m.BinaryNode? && WellFormed(m.left) && WellFormed(m.right)
    ensures WellFormed(m)
  {
  }

  lemma StripUnary(m: Node, n: Node)
    requires m.UnaryNode? && n.UnaryNode? && m.unary == n.unary && Strip(m.operand) == Strip(n.operand)
    ensures Strip(m) == Strip(n)
  {
  }

  lemma StripCall(m: Node, n: Node)
    requires m.CallNode? && n.CallNode? && m.fn == n.fn && |m.args| == |n.args|
    requires forall k :: 0 <= k < |n.args| ==> Strip(m.args[k]) == Strip(n.args[k])
    ensures Strip(m) == Strip(n)
  {
    assert Strip(m).args == Strip(n).args;
  }

  lemma StripBinary(m: Node, n: Node)
    requires m.BinaryNode? && n.BinaryNode? && m.binary == n.binary
    requires Strip(m.left) == Strip(n.left) && Strip(m.right) == Strip(n.right)
    ensures Strip(m) == Strip(n)
  {
  }

  /** Where the operator of a printed node stands, and its operands around it. */
  lemma BinarySpelt(h: Host, ts: seq<Token>, i: nat, n: Node, context: Level) returns (j: nat)
    requires Printable(h, n) && n.BinaryNode? && IsLoop(context) && LevelOf(n) == context
    requires Spells(ts, i, Print(h, n, context)) && i + |Print(h, n, context)| < |ts|
    ensures Printable(h, n.left) && Printable(h, n.right)
    ensures var p, q := Print(h, n.left, context), Print(h, n.right, Tighter(context));
      && j == i + |p| && Spells(ts, i, p) && Spells(ts, j + 1, q) && j + 1 + |q| == i + |Print(h, n, context)|
      && ts[j].lexeme == OperatorLexeme(n.binary)
  {
    hide Print, Printable, OperatorLexeme, LevelOf;
    PrintedBinary(h, n, context);
    var p, o, q := Print(h, n.left, context), [OperatorLexeme(n.binary)], Print(h, n.right, Tighter(context));
    SpellsSplit(ts, i, p, o + q);
    SpellsSplit(ts, i + |p|, o, q);
    j := i + |p|;
    assert Alike(ts[j].lexeme, o[0]);
    OperatorIsNoComma(n.binary);
  }

  lemma OperatorIsNoComma(op: BinaryOp)
    ensures !OperatorLexeme(op).Comma?
  {
  }

  /** A loop that has read the left operand of a node goes on with the node. */
  lemma BinaryLoops(h: Host, ts: seq<Token>, j: nat, n: Node, left: Node, right: Parsed) returns (m: Node)
    requires EndsOnce(ts) && j + 1 < |ts| && n.BinaryNode? && IsLoop(LevelOf(n))
    requires Joins(ts[j].lexeme, LevelOf(n)) == Some(n.binary)
    requires ParseLevel(h, ts, j + 1, Tighter(LevelOf(n))) == Ok(right)
    requires WellFormed(left) && Strip(left) == Strip(n.left) && Strip(right.node) == Strip(n.right)
    ensures WellFormed(m) && Strip(m) == Strip(n)
    ensures ParseLoop(h, ts, j, LevelOf(n), left) == ParseLoop(h, ts, right.next, LevelOf(n), m)
  {
    hide ParseLevel, ParseLoop, Strip, WellFormed, Joins, EndsOnce, LevelOf;
    LoopGoesOn(h, ts, j, LevelOf(n), left);
    m := BinaryNode(n.binary, left, right.node, ts[j].pos);
    StripBinary(m, n);
    BinaryWellFormed(m);
  }

  /**
   * What a looping level reads where a tree is printed: it enters its loop with the tree
   * built, the next token not being one of a tighter level.
   */
  lemma {:induction false} LeftForm(h: Host, ts: seq<Token>, i: nat, n: Node, context: Level) returns (m: Node)
    requires EndsOnce(ts) && Printable(h, n) && IsLoop(context)
    requires Spells(ts, i, Print(h, n, context)) && i + |Print(h, n, context)| < |ts|
    requires Ends(ts[i + |Print(h, n, context)|].lexeme, Tighter(context))
    ensures WellFormed(m) && Strip(m) == Strip(n)
    ensures ParseLevel(h, ts, i, context) == ParseLoop(h, ts, i + |Print(h, n, context)|, context, m)
    decreases n, if NeedsParens(n, context) then 1 else 0, Rank(context), 0
  {
    hide ParseLevel, ParseLoop, Strip, WellFormed, Print, Printable, Ends, Joins, EndsOnce;
    var tight := Tighter(context);
    if Descends(n, context) {
      PrintedTighter(h, n, context);
      PrintedParses(h, ts, i, n, tight);
      var p := ParseLevel(h, ts, i, tight).value;
      LoopStarts(h, ts, i, context);
      m := p.node;
    } else {
      var j := BinarySpelt(h, ts, i, n, context);
      JoinsOperator(n);
      var left := LeftForm(h, ts, i, n.left, context);
      PrintedParses(h, ts, j + 1, n.right, tight);
      m := BinaryLoops(h, ts, j, n, left, ParseLevel(h, ts, j + 1, tight).value);
    }
  }

  /** Parsing at a level what is printed for it gives the tree back and stops after it. */
  lemma {:induction false} PrintedParses(h: Host, ts: seq<Token>, i: nat, n: Node, context: Level)
    requires EndsOnce(ts) && Printable(h, n)
    requires Spells(ts, i, Print(h, n, context)) && i + |Print(h, n, context)| < |ts|
    requires Ends(ts[i + |Print(h, n, context)|].lexeme, context)
    ensures ReadBack(ParseLevel(h, ts, i, context), n, i + |Print(h, n, context)|)
    decreases n, if NeedsParens(n, context) then 1 else 0, Rank(context), 3
  {
    hide ParseLevel, ParseLoop, Strip, WellFormed, Print, Printable, Body, Ends, Joins, EndsOnce;
    var next := i + |Print(h, n, context)|;
    if IsLoop(context) {
      EndsTighter(ts[next].lexeme, context);
      var m := LeftForm(h, ts, i, n, context);
      EndsNotJoins(ts[next].lexeme, context);
      LoopGoesOn(h, ts, next, context, m);
    } else if context == LPrimary {
      PrimaryParses(h, ts, i, n);
    } else if Descends(n, context) {
      PrintedTighter(h, n, context);
      EndsTighter(ts[next].lexeme, context);
      PrintedParses(h, ts, i, n, Tighter(context));
      FirstLexeme(h, n, Tighter(context));
      assert Alike(ts[i].lexeme, Print(h, n, context)[0]);
      LevelPasses(h, ts, i, context, ParseLevel(h, ts, i, Tighter(context)).value);
    } else if context == LComparison {
      ComparisonParses(h, ts, i, n);
    } else {
      PrefixParses(h, ts, i, n);
    }
  }

  lemma {:induction false} PrefixParses(h: Host, ts: seq<Token>, i: nat, n: Node)
    requires EndsOnce(ts) && Printable(h, n) && n.UnaryNode?
    requires Spells(ts, i, Print(h, n, LevelOf(n))) && i + |Print(h, n, LevelOf(n))| < |ts|
    requires Ends(ts[i + |Print(h, n, LevelOf(n))|].lexeme, LevelOf(n))
    ensures ReadBack(ParseLevel(h, ts, i, LevelOf(n)), n, i + |Print(h, n, LevelOf(n))|)
    decreases n, 0, 0, 1
  {
    hide ParseLevel, Strip, WellFormed, Print, Printable, Ends, EndsOnce;
    PrintedPrefix(h, n);
    var context := LevelOf(n);
    var prefix := [if n.unary == Not then Word("NOT") else Sign(Minus)];
    SpellsSplit(ts, i, prefix, Print(h, n.operand, context));
    assert Alike(ts[i].lexeme, prefix[0]);
    PrintedParses(h, ts, i + 1, n.operand, context);
    var p := ParseLevel(h, ts, i + 1, context).value;
    PrefixReads(h, ts, i, n.unary, p);
    StripUnary(UnaryNode(n.unary, p.node, ts[i].pos), n);
  }

  lemma {:induction false} ComparisonParses(h: Host, ts: seq<Token>, i: nat, n: Node)
    requires EndsOnce(ts) && Printable(h, n) && LevelOf(n) == LComparison
    requires Spells(ts, i, Print(h, n, LComparison)) && i + |Print(h, n, LComparison)| < |ts|
    requires Ends(ts[i + |Print(h, n, LComparison)|].lexeme, LComparison)
    ensures ReadBack(ParseLevel(h, ts, i, LComparison), n, i + |Print(h, n, LComparison)|)
    decreases n, 0, 0, 1
  {
    hide ParseLevel, Strip, WellFormed, Print, Printable, EndsOnce;
    PrintedBinary(h, n, LComparison);
    var p, o, q := Print(h, n.left, LConcat), [OperatorLexeme(n.binary)], Print(h, n.right, LConcat);
    SpellsSplit(ts, i, p, o + q);
    SpellsSplit(ts, i + |p|, o, q);
    assert Alike(ts[i + |p|].lexeme, o[0]);
    EndsTighter(ts[i + |p| + 1 + |q|].lexeme, LComparison);
    PrintedParses(h, ts, i, n.left, LConcat);
    PrintedParses(h, ts, i + |p| + 1, n.right, LConcat);
    ComparisonReads(h, ts, i, ParseLevel(h, ts, i, LConcat).value, n.binary.op,
                    ParseLevel(h, ts, i + |p| + 1, LConcat).value);
    StripBinary(ParseLevel(h, ts, i, LComparison).value.node, n);
  }

  lemma {:induction false} PrimaryParses(h: Host, ts: seq<Token>, i: nat, n: Node)
    requires EndsOnce(ts) && Printable(h, n)
    requires Spells(ts, i, Print(h, n, LPrimary)) && i + |Print(h, n, LPrimary)| < |ts|
    requires Ends(ts[i + |Print(h, n, LPrimary)|].lexeme, LPrimary)
    ensures ReadBack(ParseLevel(h, ts, i, LPrimary), n, i + |Print(h, n, LPrimary)|)
    decreases n, if NeedsParens(n, LPrimary) then 1 else 0, 0, 2
  {
    hide ParseLevel, Strip, WellFormed, Print, Printable, Body, EndsOnce;
    if NeedsParens(n, LPrimary) {
      PrintedParens(h, n);
      var inner := Print(h, n, LOr);
      SpellsSplit(ts, i, [LParen], inner + [RParen]);
      SpellsSplit(ts, i + 1, inner, [RParen]);
      assert Alike(ts[i].lexeme, [LParen][0]) && Alike(ts[i + 1 + |inner|].lexeme, [RParen][0]);
      PrintedParses(h, ts, i + 1, n, LOr);
      ParensRead(h, ts, i, ParseLevel(h, ts, i + 1, LOr).value);
    } else if n.CallNode? {
      CallParses(h, ts, i, n);
    } else {
      assert Alike(ts[i].lexeme, Print(h, n, LPrimary)[0]);
      FirstLexeme(h, n, LPrimary);
      LeafParses(h, ts, i, n);
    }
  }

  lemma ParensRead(h: Host, ts: seq<Token>, i: nat, p: Parsed)
    requires EndsOnce(ts) && i + 1 < |ts| && ts[i].lexeme == LParen
    requires ParseLevel(h, ts, i + 1, LOr) == Ok(p) && ts[p.next].lexeme == RParen
    ensures ParseLevel(h, ts, i, LPrimary) == Ok(Parsed(p.node, p.next + 1))
  {
  }

  lemma PrimaryIs(h: Host, ts: seq<Token>, i: nat)
    requires EndsOnce(ts) && i < |ts|
    ensures ParseLevel(h, ts, i, LPrimary) == ParsePrimary(h, ts, i)
  {
    hide ParsePrimary;
  }

  lemma NoneOpens(l: Lexeme)
    requires Ends(l, LPrimary)
    ensures l != LParen
  {
  }

  lemma LeafParses(h: Host, ts: seq<Token>, i: nat, n: Node)
    requires EndsOnce(ts) && Printable(h, n) && i + |Print(h, n, LPrimary)| < |ts|
    requires LevelOf(n) == LPrimary && !n.CallNode? && ts[i].lexeme == Print(h, n, LPrimary)[0]
    requires Ends(ts[i + |Print(h, n, LPrimary)|].lexeme, LPrimary)
    ensures ReadBack(ParseLevel(h, ts, i, LPrimary), n, i + |Print(h, n, LPrimary)|)
  {
    hide ParseLevel, ParseLoop, ParseCall, Lookup, FunctionName, ReadNumeral, EqualFold, Ends, Print, Printable;
    hide EndsOnce, LevelOf, NeedsParens;
    PrintedLeaf(h, n);
    PrimaryIs(h, ts, i);
    NoneOpens(ts[i + 1].lexeme);
    if n.BoolNode? { BoolWords(); }
    LeafLevels(n);
  }

  /** A tree read as a primary expression is a leaf or a call. */
  lemma LeafLevels(n: Node)
    requires LevelOf(n) == LPrimary
    ensures n.NumberNode? || n.TextNode? || n.BoolNode? || n.FieldNode? || n.CallNode?
  {
  }

  lemma BoolWords()
    ensures EqualFold("true", "TRUE") && EqualFold("false", "FALSE") && !EqualFold("false", "TRUE")
  {
    assert FoldChar("false"[0]) != "TRUE"[0];
  }

  lemma {:induction false} CallParses(h: Host, ts: seq<Token>, i: nat, n: Node)
    requires EndsOnce(ts) && Printable(h, n) && n.CallNode?
    requires Spells(ts, i, Print(h, n, LPrimary)) && i + |Print(h, n, LPrimary)| < |ts|
    ensures ReadBack(ParseLevel(h, ts, i, LPrimary), n, i + |Print(h, n, LPrimary)|)
    decreases n, 0, 0, 1
  {
    hide ParseLevel, ParseArgs, Strip, WellFormed, Printable, Print, Lookup, FunctionName, EndsOnce;
    PrintedCall(h, n);
    var open, list := [Word(FunctionName(n.fn)), LParen], PrintArgs(h, n.args);
    SpellsSplit(ts, i, open, list + [RParen]);
    SpellsSplit(ts, i + 2, list, [RParen]);
    assert Alike(ts[i].lexeme, open[0]) && Alike(ts[i + 1].lexeme, open[1]);
    assert Alike(ts[i + 2 + |list|].lexeme, [RParen][0]);
    var a := ParsedArgs([], i + 2);
    if n.args != [] {
      FirstLexeme(h, n.args[0], LOr);
      assert list[0] == Print(h, n.args[0], LOr)[0] && Alike(ts[i + 2].lexeme, list[0]);
      ArgsParse(h, ts, i + 2, n, n.args);
      a := ParseArgs(h, ts, i + 2).value;
    }
    CallReads(h, ts, i, n.fn, a);
    StripCall(CallNode(n.fn, a.args, ts[i].pos), n);
  }

  lemma {:induction false} ArgsParse(h: Host, ts: seq<Token>, i: nat, n: Node, args: seq<Node>)
    requires EndsOnce(ts) && args != []
    requires forall k :: 0 <= k < |args| ==> Printable(h, args[k]) && args[k] < n
    requires Spells(ts, i, PrintArgs(h, args)) && i + |PrintArgs(h, args)| < |ts|
    requires ts[i + |PrintArgs(h, args)|].lexeme == RParen
    ensures var r := ParseArgs(h, ts, i);
      && r.Ok? && r.value.next == i + |PrintArgs(h, args)| && |r.value.args| == |args|
      && forall k :: 0 <= k < |args| ==> Strip(r.value.args[k]) == Strip(args[k])
    decreases n, 0, 0, 0, |args|
  {
    hide ParseLevel, Printable, Print, Strip, WellFormed, EndsOnce;
    var first := Print(h, args[0], LOr);
    if |args| == 1 {
      PrintedParses(h, ts, i, args[0], LOr);
    } else {
      var rest := PrintArgs(h, args[1..]);
      assert PrintArgs(h, args) == first + ([Comma(';')] + rest);
      SpellsSplit(ts, i, first, [Comma(';')] + rest);
      SpellsSplit(ts, i + |first|, [Comma(';')], rest);
      assert Alike(ts[i + |first|].lexeme, [Comma(';')][0]);
      PrintedParses(h, ts, i, args[0], LOr);
      ArgsParse(h, ts, i + |first| + 1, n, args[1..]);
    }
  }
}
