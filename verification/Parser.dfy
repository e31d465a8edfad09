/** calc/parse.go: a recursive-descent parser with nine levels of precedence. */
module Parser {
  import opened Common
  import opened Formula
  import opened Lexer
  import opened Numerals

  /** The levels, loosest first. */
  datatype Level =
    | LOr | LAnd | LNot | LComparison | LConcat | LAdditive | LMultiplicative | LUnary | LPrimary

  function Rank(level: Level): nat {
    match level
    case LOr => 8 case LAnd => 7 case LNot => 6 case LComparison => 5 case LConcat => 4
    case LAdditive => 3 case LMultiplicative => 2 case LUnary => 1 case LPrimary => 0
  }

  /** The next tighter level. */
  function Tighter(level: Level): (t: Level)
    requires level != LPrimary
    ensures Rank(t) == Rank(level) - 1
  {
    match level
    case LOr => LAnd case LAnd => LNot case LNot => LComparison case LComparison => LConcat
    case LConcat => LAdditive case LAdditive => LMultiplicative case LMultiplicative => LUnary
    case LUnary => LPrimary
  }

  predicate IsComparison(op: Operator) {
    op in {Equal, DoubleEqual, NotEqual, BangEqual, Less, LessEqual, Greater, GreaterEqual}
  }

  predicate IsKeyword(l: Lexeme, word: string) { l.Word? && EqualFold(l.text, word) }

  /** The levels whose operators group to the left in a loop. */
  predicate IsLoop(level: Level) {
    level == LOr || level == LAnd || level == LConcat || level == LAdditive || level == LMultiplicative
  }

  /** The operator of a looping level that `l` is, if it is one. */
  function Joins(l: Lexeme, level: Level): Option<BinaryOp>
    requires IsLoop(level)
  {
    match level
    case LOr => if IsKeyword(l, "OR") then Some(Or) else None
    case LAnd => if IsKeyword(l, "AND") then Some(And) else None
    case LConcat => if l == Sign(Ampersand) then Some(Infix(Ampersand)) else None
    case LAdditive => if l == Sign(Plus) || l == Sign(Minus) then Some(Infix(l.op)) else None
    case LMultiplicative => if l == Sign(Star) || l == Sign(Slash) then Some(Infix(l.op)) else None
  }

  datatype Parsed = Parsed(node: Node, next: nat)
  datatype ParsedArgs = ParsedArgs(args: seq<Node>, next: nat)

  /** What the parser method of a level reads from position `i` on, and where it stops. */
  function ParseLevel(h: Host, ts: seq<Token>, i: nat, level: Level): (r: Result<Parsed, Error>)
    requires EndsOnce(ts) && i < |ts|
    ensures r.Ok? ==> i < r.value.next < |ts| && WellFormed(r.value.node)
    decreases |ts| - i, Rank(level) + 1
  {
    var t := ts[i];
    if IsLoop(level) then
      match ParseLevel(h, ts, i, Tighter(level))
      case Err(e) => Err(e)
      case Ok(p) => ParseLoop(h, ts, p.next, level, p.node)
    else if level == LNot && IsKeyword(t.lexeme, "NOT") then
      match ParseLevel(h, ts, i + 1, LNot)
      case Err(e) => Err(e)
      case Ok(p) => Ok(Parsed(UnaryNode(Not, p.node, t.pos), p.next))
    else if level == LComparison then
      match ParseLevel(h, ts, i, LConcat)
      case Err(e) => Err(e)
      case Ok(p) =>
        var o := ts[p.next];
        if o.lexeme.Sign? && IsComparison(o.lexeme.op) then
          match ParseLevel(h, ts, p.next + 1, LConcat)
          case Err(e) => Err(e)
          case Ok(q) => Ok(Parsed(BinaryNode(Infix(o.lexeme.op), p.node, q.node, o.pos), q.next))
        else Ok(p)
    else if level == LUnary && (t.lexeme == Sign(Minus) || t.lexeme == Sign(Plus)) then
      match ParseLevel(h, ts, i + 1, LUnary)
      case Err(e) => Err(e)
      case Ok(p) =>
        if t.lexeme == Sign(Plus) then Ok(p)
        else Ok(Parsed(UnaryNode(Negate, p.node, t.pos), p.next))
    else if level == LPrimary then ParsePrimary(h, ts, i)
    else ParseLevel(h, ts, i, Tighter(level))
  }

  /** The loop of a left-grouping level, with what it has built so far. */
  function ParseLoop(h: Host, ts: seq<Token>, i: nat, level: Level, left: Node): (r: Result<Parsed, Error>)
    requires EndsOnce(ts) && i < |ts| && IsLoop(level) && WellFormed(left)
    ensures r.Ok? ==> i <= r.value.next < |ts| && WellFormed(r.value.node)
    decreases |ts| - i, 0
  {
    match Joins(ts[i].lexeme, level)
    case None => Ok(Parsed(left, i))
    case Some(op) =>
      match ParseLevel(h, ts, i + 1, Tighter(level))
      case Err(e) => Err(e)
      case Ok(p) => ParseLoop(h, ts, p.next, level, BinaryNode(op, left, p.node, ts[i].pos))
  }

  function ParsePrimary(h: Host, ts: seq<Token>, i: nat): (r: Result<Parsed, Error>)
    requires EndsOnce(ts) && i < |ts|
    ensures r.Ok? ==> i < r.value.next < |ts| && WellFormed(r.value.node)
    decreases |ts| - i, 0
  {
    var t := ts[i];
    match t.lexeme
    case Numeral(text) =>
      (match ReadNumeral(text)
       case None => Err(Error(t.pos, BadNumber))
       case Some(v) => Ok(Parsed(NumberNode(v, t.pos), i + 1)))
    case Literal(text) => Ok(Parsed(TextNode(text, t.pos), i + 1))
    case LParen =>
      (match ParseLevel(h, ts, i + 1, LOr)
       case Err(e) => Err(e)
       case Ok(p) =>
         if ts[p.next].lexeme != RParen then Err(Error(ts[p.next].pos, ParenExpected))
         else Ok(Parsed(p.node, p.next + 1)))
    case Word(text) =>
      if EqualFold(text, "TRUE") then Ok(Parsed(BoolNode(true, t.pos), i + 1))
      else if EqualFold(text, "FALSE") then Ok(Parsed(BoolNode(false, t.pos), i + 1))
      else if ts[i + 1].lexeme == LParen then ParseCall(h, ts, i)
      else Ok(Parsed(FieldNode(text, t.pos), i + 1))
    case End => Err(Error(t.pos, EndsTooEarly))
    case _ => Err(Error(t.pos, UnexpectedToken))
  }

  /** A call whose name stands at `i` and whose parenthesis opens right after it. */
  function ParseCall(h: Host, ts: seq<Token>, i: nat): (r: Result<Parsed, Error>)
    requires EndsOnce(ts) && i + 1 < |ts| && ts[i].lexeme.Word? && ts[i + 1].lexeme == LParen
    ensures r.Ok? ==> i < r.value.next < |ts| && WellFormed(r.value.node)
    decreases |ts| - i - 1, 20
  {
    var name := ts[i];
    var list := if ts[i + 2].lexeme == RParen then Ok(ParsedArgs([], i + 2)) else ParseArgs(h, ts, i + 2);
    match list
    case Err(e) => Err(e)
    case Ok(a) =>
      if ts[a.next].lexeme != RParen then Err(Error(ts[a.next].pos, CallParenExpected))
      else match Lookup(Common.Upper(h, name.lexeme.text))
        case None => Err(Error(name.pos, UnknownFunction))
        case Some(fn) =>
          if |a.args| < MinArgs(fn) then Err(Error(name.pos, TooFewArguments))
          else if !LegalArity(fn, |a.args|) then Err(Error(name.pos, TooManyArguments))
          else Ok(Parsed(CallNode(fn, a.args, name.pos), a.next + 1))
  }

  /** One or more expressions separated by commas. */
  function ParseArgs(h: Host, ts: seq<Token>, i: nat): (r: Result<ParsedArgs, Error>)
    requires EndsOnce(ts) && i < |ts|
    ensures r.Ok? ==> i < r.value.next < |ts|
    ensures r.Ok? ==> forall k :: 0 <= k < |r.value.args| ==> WellFormed(r.value.args[k])
    decreases |ts| - i, 10
  {
    match ParseLevel(h, ts, i, LOr)
    case Err(e) => Err(e)
    case Ok(p) =>
      if ts[p.next].lexeme.Comma? then
        match ParseArgs(h, ts, p.next + 1)
        case Err(e) => Err(e)
        case Ok(a) => Ok(ParsedArgs([p.node] + a.args, a.next))
      else Ok(ParsedArgs([p.node], p.next))
  }

  /** Parse: an expression and nothing after it. */
  function ParseTokens(h: Host, ts: seq<Token>): (r: Result<Node, Error>)
    requires EndsOnce(ts)
    ensures r.Ok? ==> WellFormed(r.value)
  {
    match ParseLevel(h, ts, 0, LOr)
    case Err(e) => Err(e)
    case Ok(p) => if ts[p.next].lexeme != End then Err(Error(ts[p.next].pos, AfterTheEnd)) else Ok(p.node)
  }

  function Parse(h: Host, src: string): (r: Result<Node, Error>)
    ensures r.Ok? ==> WellFormed(r.value)
  {
    if Blank(h, src) then Err(Error(0, FormulaEmpty))
    else match LexFrom(h, src, 0)
      case Err(e) => Err(e)
      case Ok(ts) => ParseTokens(h, ts)
  }

  lemma LoopStarts(h: Host, ts: seq<Token>, i: nat, level: Level)
    requires EndsOnce(ts) && i < |ts| && IsLoop(level)
    ensures var p := ParseLevel(h, ts, i, Tighter(level));
      ParseLevel(h, ts, i, level) == if p.Err? then p else ParseLoop(h, ts, p.value.next, level, p.value.node)
  {
  }

  lemma LoopGoesOn(h: Host, ts: seq<Token>, i: nat, level: Level, left: Node)
    requires EndsOnce(ts) && i < |ts| && IsLoop(level) && WellFormed(left)
    ensures Joins(ts[i].lexeme, level).None? ==> ParseLoop(h, ts, i, level, left) == Ok(Parsed(left, i))
    ensures Joins(ts[i].lexeme, level).Some? ==>
      i + 1 < |ts|
      && var p, op := ParseLevel(h, ts, i + 1, Tighter(level)), Joins(ts[i].lexeme, level).value;
      ParseLoop(h, ts, i, level, left) ==
        if p.Err? then p
        else ParseLoop(h, ts, p.value.next, level, BinaryNode(op, left, p.value.node, ts[i].pos))
  {
  }

  /** The parser: the tokens and a cursor into them. */
  class TokenReader {
    const h: Host
    const tokens: seq<Token>
    var i: nat

    constructor (h: Host, tokens: seq<Token>)
      ensures this.h == h && this.tokens == tokens && i == 0
    {
      this.h, this.tokens, i := h, tokens, 0;
    }

    ghost predicate Ready()
      reads this`i
    {
      EndsOnce(tokens) && i < |tokens|
    }

    /** The method read what the specification says, and the cursor stands after it. */
    ghost predicate Reads(r: Result<Node, Error>, spec: Result<Parsed, Error>)
      reads this`i
    {
      match spec
      case Ok(p) => r == Ok(p.node) && i == p.next
      case Err(e) => r == Err(e)
    }

    function Peek(): Token
      requires Ready()
      reads this`i
    {
      tokens[i]
    }

    method Next() returns (t: Token)
      requires i < |tokens|
      modifies this`i
      ensures t == tokens[old(i)] && i == old(i) + 1
    {
      t := tokens[i];
      i := i + 1;
    }

    method BackUp()
      requires i > 0
      modifies this`i
      ensures i == old(i) - 1
    {
      i := i - 1;
    }

    method ParseOr() returns (r: Result<Node, Error>)
      requires Ready()
      modifies this`i
      ensures Reads(r, ParseLevel(h, tokens, old(i), LOr))
      decreases |tokens| - i, Rank(LOr) + 1
    {
      hide ParseLevel, ParseLoop, EqualFold;
      LoopStarts(h, tokens, i, LOr);
      r := ParseAnd();
      while r.Ok? && IsKeyword(Peek().lexeme, "OR")
        invariant r.Ok? ==> old(i) < i < |tokens| && WellFormed(r.value)
        invariant r.Ok? ==> ParseLevel(h, tokens, old(i), LOr) == ParseLoop(h, tokens, i, LOr, r.value)
        invariant r.Err? ==> ParseLevel(h, tokens, old(i), LOr) == Err(r.error)
        decreases r.Ok?, |tokens| - i
      {
        LoopGoesOn(h, tokens, i, LOr, r.value);
        var t := Next();
        var right := ParseAnd();
        r := if right.Err? then right else Ok(BinaryNode(Or, r.value, right.value, t.pos));
      }
      if r.Ok? { LoopGoesOn(h, tokens, i, LOr, r.value); }
    }

    method ParseAnd() returns (r: Result<Node, Error>)
      requires Ready()
      modifies this`i
      ensures Reads(r, ParseLevel(h, tokens, old(i), LAnd))
      decreases |tokens| - i, Rank(LAnd) + 1
    {
      hide ParseLevel, ParseLoop, EqualFold;
      LoopStarts(h, tokens, i, LAnd);
      r := ParseNot();
      while r.Ok? && IsKeyword(Peek().lexeme, "AND")
        invariant r.Ok? ==> old(i) < i < |tokens| && WellFormed(r.value)
        invariant r.Ok? ==> ParseLevel(h, tokens, old(i), LAnd) == ParseLoop(h, tokens, i, LAnd, r.value)
        invariant r.Err? ==> ParseLevel(h, tokens, old(i), LAnd) == Err(r.error)
        decreases r.Ok?, |tokens| - i
      {
        LoopGoesOn(h, tokens, i, LAnd, r.value);
        var t := Next();
        var right := ParseNot();
        r := if right.Err? then right else Ok(BinaryNode(And, r.value, right.value, t.pos));
      }
      if r.Ok? { LoopGoesOn(h, tokens, i, LAnd, r.value); }
    }

    method ParseNot() returns (r: Result<Node, Error>)
      requires Ready()
      modifies this`i
      ensures Reads(r, ParseLevel(h, tokens, old(i), LNot))
      decreases |tokens| - i, Rank(LNot) + 1
    {
      if IsKeyword(Peek().lexeme, "NOT") {
        var t := Next();
        var operand := ParseNot();
        return if operand.Err? then operand else Ok(UnaryNode(Not, operand.value, t.pos));
      }
      r := ParseComparison();
    }

    method ParseComparison() returns (r: Result<Node, Error>)
      requires Ready()
      modifies this`i
      ensures Reads(r, ParseLevel(h, tokens, old(i), LComparison))
      decreases |tokens| - i, Rank(LComparison) + 1
    {
      r := ParseConcat();
      if r.Err? {
        return;
      }
      var t := Peek();
      if t.lexeme.Sign? && IsComparison(t.lexeme.op) {
        var _ := Next();
        var right := ParseConcat();
        r := if right.Err? then right else Ok(BinaryNode(Infix(t.lexeme.op), r.value, right.value, t.pos));
      }
    }

    method ParseConcat() returns (r: Result<Node, Error>)
      requires Ready()
      modifies this`i
      ensures Reads(r, ParseLevel(h, tokens, old(i), LConcat))
      decreases |tokens| - i, Rank(LConcat) + 1
    {
      hide ParseLevel, ParseLoop, EqualFold;
      LoopStarts(h, tokens, i, LConcat);
      r := ParseAdditive();
      while r.Ok? && Peek().lexeme == Sign(Ampersand)
        invariant r.Ok? ==> old(i) < i < |tokens| && WellFormed(r.value)
        invariant r.Ok? ==> ParseLevel(h, tokens, old(i), LConcat) == ParseLoop(h, tokens, i, LConcat, r.value)
        invariant r.Err? ==> ParseLevel(h, tokens, old(i), LConcat) == Err(r.error)
        decreases r.Ok?, |tokens| - i
      {
        LoopGoesOn(h, tokens, i, LConcat, r.value);
        var t := Next();
        var right := ParseAdditive();
        r := if right.Err? then right else Ok(BinaryNode(Infix(Ampersand), r.value, right.value, t.pos));
      }
      if r.Ok? { LoopGoesOn(h, tokens, i, LConcat, r.value); }
    }

    method ParseAdditive() returns (r: Result<Node, Error>)
      requires Ready()
      modifies this`i
      ensures Reads(r, ParseLevel(h, tokens, old(i), LAdditive))
      decreases |tokens| - i, Rank(LAdditive) + 1
    {
      hide ParseLevel, ParseLoop, EqualFold;
      LoopStarts(h, tokens, i, LAdditive);
      r := ParseMultiplicative();
      while r.Ok? && (Peek().lexeme == Sign(Plus) || Peek().lexeme == Sign(Minus))
        invariant r.Ok? ==> old(i) < i < |tokens| && WellFormed(r.value)
        invariant r.Ok? ==> ParseLevel(h, tokens, old(i), LAdditive) == ParseLoop(h, tokens, i, LAdditive, r.value)
        invariant r.Err? ==> ParseLevel(h, tokens, old(i), LAdditive) == Err(r.error)
        decreases r.Ok?, |tokens| - i
      {
        LoopGoesOn(h, tokens, i, LAdditive, r.value);
        var t := Next();
        var right := ParseMultiplicative();
        r := if right.Err? then right else Ok(BinaryNode(Infix(t.lexeme.op), r.value, right.value, t.pos));
      }
      if r.Ok? { LoopGoesOn(h, tokens, i, LAdditive, r.value); }
    }

    method ParseMultiplicative() returns (r: Result<Node, Error>)
      requires Ready()
      modifies this`i
      ensures Reads(r, ParseLevel(h, tokens, old(i), LMultiplicative))
      decreases |tokens| - i, Rank(LMultiplicative) + 1
    {
      hide ParseLevel, ParseLoop, EqualFold;
      LoopStarts(h, tokens, i, LMultiplicative);
      r := ParseUnary();
      while r.Ok? && (Peek().lexeme == Sign(Star) || Peek().lexeme == Sign(Slash))
        invariant r.Ok? ==> old(i) < i < |tokens| && WellFormed(r.value)
        invariant r.Ok? ==>
          ParseLevel(h, tokens, old(i), LMultiplicative) == ParseLoop(h, tokens, i, LMultiplicative, r.value)
        invariant r.Err? ==> ParseLevel(h, tokens, old(i), LMultiplicative) == Err(r.error)
        decreases r.Ok?, |tokens| - i
      {
        LoopGoesOn(h, tokens, i, LMultiplicative, r.value);
        var t := Next();
        var right := ParseUnary();
        r := if right.Err? then right else Ok(BinaryNode(Infix(t.lexeme.op), r.value, right.value, t.pos));
      }
      if r.Ok? { LoopGoesOn(h, tokens, i, LMultiplicative, r.value); }
    }

    method ParseUnary() returns (r: Result<Node, Error>)
      requires Ready()
      modifies this`i
      ensures Reads(r, ParseLevel(h, tokens, old(i), LUnary))
      decreases |tokens| - i, Rank(LUnary) + 1
    {
      if Peek().lexeme == Sign(Minus) || Peek().lexeme == Sign(Plus) {
        var t := Next();
        var operand := ParseUnary();
        return if operand.Err? || t.lexeme == Sign(Plus) then operand
          else Ok(UnaryNode(Negate, operand.value, t.pos));
      }
      r := ParsePrimaryToken();
    }

    method ParsePrimaryToken() returns (r: Result<Node, Error>)
      requires Ready()
      modifies this`i
      ensures Reads(r, ParseLevel(h, tokens, old(i), LPrimary))
      decreases |tokens| - i, 1
    {
      var t := Next();
      match t.lexeme {
        case Numeral(text) =>
          var value := ReadNumeral(text);
          return if value.None? then Err(Error(t.pos, BadNumber)) else Ok(NumberNode(value.value, t.pos));
        case Literal(text) =>
          return Ok(TextNode(text, t.pos));
        case LParen =>
          var inner := ParseOr();
          if inner.Err? {
            return inner;
          }
          if Peek().lexeme != RParen {
            return Err(Error(Peek().pos, ParenExpected));
          }
          var _ := Next();
          return inner;
        case Word(text) =>
          if EqualFold(text, "TRUE") {
            return Ok(BoolNode(true, t.pos));
          } else if EqualFold(text, "FALSE") {
            return Ok(BoolNode(false, t.pos));
          }
          if Peek().lexeme == LParen {
            r := ParseCallAfter(t);
            return;
          }
          return Ok(FieldNode(text, t.pos));
        case End =>
          return Err(Error(t.pos, EndsTooEarly));
        case _ =>
          BackUp();
          return Err(Error(t.pos, UnexpectedToken));
      }
    }

    method ParseCallAfter(name: Token) returns (r: Result<Node, Error>)
      requires Ready() && i > 0 && tokens[i - 1] == name && name.lexeme.Word? && Peek().lexeme == LParen
      modifies this`i
      ensures Reads(r, ParseCall(h, tokens, (old(i) - 1) as nat))
      decreases |tokens| - i, 20
    {
      var _ := Next();
      var args: seq<Node> := [];
      if Peek().lexeme != RParen {
        var list := ParseArguments();
        if list.Err? {
          return Err(list.error);
        }
        args := list.value;
      }
      if Peek().lexeme != RParen {
        return Err(Error(Peek().pos, CallParenExpected));
      }
      var _ := Next();
      var fn := Lookup(Common.Upper(h, name.lexeme.text));
      if fn.None? {
        return Err(Error(name.pos, UnknownFunction));
      }
      if |args| < MinArgs(fn.value) {
        return Err(Error(name.pos, TooFewArguments));
      }
      if MaxArgs(fn.value).Some? && |args| > MaxArgs(fn.value).value {
        return Err(Error(name.pos, TooManyArguments));
      }
      return Ok(CallNode(fn.value, args, name.pos));
    }

    /** The argument loop of parseCall. */
    method ParseArguments() returns (r: Result<seq<Node>, Error>)
      requires Ready()
      modifies this`i
      ensures match ParseArgs(h, tokens, old(i))
              case Ok(a) => r == Ok(a.args) && i == a.next
              case Err(e) => r == Err(e)
      decreases |tokens| - i, 10
    {
      var args: seq<Node> := [];
      ghost var whole := ParseArgs(h, tokens, i);
      assert whole.Ok? ==> [] + whole.value.args == whole.value.args;
      while true
        invariant old(i) <= i < |tokens|
        invariant whole == match ParseArgs(h, tokens, i)
                           case Ok(a) => Ok(ParsedArgs(args + a.args, a.next))
                           case Err(e) => Err(e)
        decreases |tokens| - i
      {
        var arg := ParseOr();
        if arg.Err? {
          return Err(arg.error);
        }
        if Peek().lexeme.Comma? {
          ghost var rest := ParseArgs(h, tokens, i + 1);
          assert rest.Ok? ==> args + ([arg.value] + rest.value.args) == args + [arg.value] + rest.value.args;
          args := args + [arg.value];
          var _ := Next();
        } else {
          return Ok(args + [arg.value]);
        }
      }
    }
  }

  /** Parse. */
  method ParseFormula(h: Host, src: string) returns (r: Result<Node, Error>)
    ensures r == Parse(h, src)
  {
    if Common.Trim(h, src) == "" {
      return Err(Error(0, FormulaEmpty));
    }
    var tokens := Lex(h, src);
    if tokens.Err? {
      return Err(tokens.error);
    }
    var p := new TokenReader(h, tokens.value);
    r := p.ParseOr();
    if r.Ok? && p.Peek().lexeme != End {
      r := Err(Error(p.Peek().pos, AfterTheEnd));
    }
  }

  /** collectFields: adds the fields a tree reads to a set. */
  class FieldCollector {
    var seen: set<string>

    constructor ()
      ensures seen == {}
    {
      seen := {};
    }

    method Collect(n: Node)
      modifies this
      ensures seen == old(seen) + Fields(n)
      decreases n
    {
      match n {
        case FieldNode(name, _) =>
          seen := seen + {name};
        case UnaryNode(_, operand, _) =>
          Collect(operand);
        case BinaryNode(_, left, right, _) =>
          Collect(left);
          Collect(right);
        case CallNode(_, args, _) =>
          for k := 0 to |args|
            invariant forall f :: f in seen <==>
              f in old(seen) || exists j :: 0 <= j < k && f in Fields(args[j])
          {
            Collect(args[k]);
          }
          CallFields(n);
        case _ =>
      }
    }
  }
}
