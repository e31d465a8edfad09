/** calc/lex.go: from the text of a formula to tokens. */
module Lexer {
  import opened Common
  import opened Formula

  datatype Lexeme =
    | End
    | Numeral(text: string)
    | Literal(text: string)
    | Word(text: string)
    | Sign(op: Operator)
    | LParen
    | RParen
    | Comma(ch: char)

  datatype Token = Token(lexeme: Lexeme, pos: nat)

  function OperatorText(op: Operator): (s: string)
    ensures 1 <= |s| <= 2
  {
    match op
    case NotEqual => "<>" case BangEqual => "!=" case LessEqual => "<="
    case GreaterEqual => ">=" case DoubleEqual => "==" case Plus => "+" case Minus => "-"
    case Star => "*" case Slash => "/" case Ampersand => "&" case Equal => "="
    case Less => "<" case Greater => ">"
  }

  /** The operator `s` starts with, the two-character ones being tried first. */
  function MatchOperator(s: string): (op: Option<Operator>)
    requires s != ""
    ensures op.Some? ==> OperatorText(op.value) <= s
  {
    if |s| >= 2 && s[0] == '<' && s[1] == '>' then Some(NotEqual)
    else if |s| >= 2 && s[0] == '!' && s[1] == '=' then Some(BangEqual)
    else if |s| >= 2 && s[0] == '<' && s[1] == '=' then Some(LessEqual)
    else if |s| >= 2 && s[0] == '>' && s[1] == '=' then Some(GreaterEqual)
    else if |s| >= 2 && s[0] == '=' && s[1] == '=' then Some(DoubleEqual)
    else match s[0]
      case '+' => Some(Plus) case '-' => Some(Minus) case '*' => Some(Star)
      case '/' => Some(Slash) case '&' => Some(Ampersand) case '=' => Some(Equal)
      case '<' => Some(Less) case '>' => Some(Greater) case _ => None
  }

  /** How many characters of `s` belong to the number it starts with. */
  function NumeralWidth(h: Host, s: string, seenDot: bool): (n: nat)
    ensures n <= |s|
  {
    if s == "" then 0
    else if IsDigit(h, s[0]) then 1 + NumeralWidth(h, s[1..], seenDot)
    else if s[0] == '.' && !seenDot then 1 + NumeralWidth(h, s[1..], true)
    else 0
  }

  predicate IsWordStart(h: Host, c: char) { c == '_' || IsLetter(h, c) }

  predicate IsWordChar(h: Host, c: char) { c == '_' || IsLetter(h, c) || IsDigit(h, c) }

  function WordWidth(h: Host, s: string): (n: nat)
    ensures n <= |s|
  {
    if s != "" && IsWordChar(h, s[0]) then 1 + WordWidth(h, s[1..]) else 0
  }

  datatype Quoted = Quoted(text: string, width: nat)

  /** The rest of a quoted text after its opening quote, up to and including the
      closing one; a doubled quote stands for itself. */
  function QuotedRest(s: string, quote: char): (q: Option<Quoted>)
    ensures q.Some? ==> 1 <= q.value.width <= |s|
  {
    if s == "" then None
    else if s[0] == quote then
      if |s| >= 2 && s[1] == quote then
        match QuotedRest(s[2..], quote)
        case None => None
        case Some(q) => Some(Quoted([quote] + q.text, q.width + 2))
      else Some(Quoted("", 1))
    else
      match QuotedRest(s[1..], quote)
      case None => None
      case Some(q) => Some(Quoted([s[0]] + q.text, q.width + 1))
  }

  datatype Scanned = Space | Found(lexeme: Lexeme, width: nat) | Bad(problem: Problem)

  predicate StartsNumeral(h: Host, s: string)
    requires s != ""
  {
    IsDigit(h, s[0]) || (s[0] == '.' && |s| > 1 && IsDigit(h, s[1]))
  }

  /** What the text `s` starts with. */
  function Scan(h: Host, s: string): (r: Scanned)
    requires s != ""
    ensures r.Found? ==> 1 <= r.width <= |s| && r.lexeme != End
  {
    var ch := s[0];
    if IsSpace(h, ch) then Space
    else if ch == '(' then Found(LParen, 1)
    else if ch == ')' then Found(RParen, 1)
    else if ch == ',' || ch == ';' then Found(Comma(ch), 1)
    else if ch == '"' || ch == '\'' then
      match Extend("", 1, QuotedRest(s[1..], ch))
      case None => Bad(UnterminatedText)
      case Some(q) => Found(Literal(q.text), q.width)
    else if StartsNumeral(h, s) then
      var n := NumeralWidth(h, s, false);
      Found(Numeral(s[..n]), n)
    else if IsWordStart(h, ch) then
      var n := WordWidth(h, s);
      Found(Word(s[..n]), n)
    else match MatchOperator(s)
      case Some(op) => Found(Sign(op), |OperatorText(op)|)
      case None => Bad(UnexpectedCharacter)
  }

  function Prepend(ts: seq<Token>, r: Result<seq<Token>, Error>): Result<seq<Token>, Error> {
    if r.Ok? then Ok(ts + r.value) else r
  }

  /** The tokens of `s`, whose first character stands at position `at` of the formula. */
  function LexFrom(h: Host, s: string, at: nat): (r: Result<seq<Token>, Error>)
    ensures r.Ok? ==> EndsOnce(r.value)
    decreases |s|
  {
    if s == "" then Ok([Token(End, at)])
    else match Scan(h, s)
      case Space => LexFrom(h, s[1..], at + 1)
      case Found(lexeme, width) =>
        Prepend([Token(lexeme, at)], LexFrom(h, s[width..], at + width))
      case Bad(problem) => Err(Error(at, problem))
  }

  /** The list ends in an end token and has no other. */
  predicate EndsOnce(ts: seq<Token>) {
    |ts| > 0 && forall i :: 0 <= i < |ts| ==> (ts[i].lexeme == End <==> i == |ts| - 1)
  }

  lemma PrependAssociates(a: seq<Token>, b: seq<Token>, r: Result<seq<Token>, Error>)
    ensures Prepend(a, Prepend(b, r)) == Prepend(a + b, r)
  {
    if r.Ok? { assert a + (b + r.value) == a + b + r.value; }
  }

  lemma PrependNothing(r: Result<seq<Token>, Error>)
    ensures Prepend([], r) == r
  {
    if r.Ok? { assert [] + r.value == r.value; }
  }

  /** A quoted text of which `text` was read before, from `used` characters on. */
  function Extend(text: string, used: nat, q: Option<Quoted>): Option<Quoted> {
    if q.None? then None else Some(Quoted(text + q.value.text, used + q.value.width))
  }

  lemma ExtendTwice(text: string, used: nat, c: char, width: nat, q: Option<Quoted>)
    ensures Extend(text, used, Extend([c], width, q)) == Extend(text + [c], used + width, q)
  {
    if q.Some? { assert text + ([c] + q.value.text) == text + [c] + q.value.text; }
  }

  lemma QuotedUnfolds(s: string, quote: char)
    requires s != ""
    ensures QuotedRest(s, quote) ==
      if s[0] == quote then
        if |s| >= 2 && s[1] == quote then Extend([quote], 2, QuotedRest(s[2..], quote))
        else Some(Quoted("", 1))
      else Extend([s[0]], 1, QuotedRest(s[1..], quote))
  {
  }

  /** lexString: `start` is where the opening quote stands; the width counts it. */
  method LexString(runes: string, start: nat) returns (r: Option<Quoted>)
    requires start < |runes|
    ensures r == Extend("", 1, QuotedRest(runes[start + 1..], runes[start]))
  {
    hide QuotedRest;
    var quote := runes[start];
    var b := "";
    var i := start + 1;
    while i < |runes|
      invariant start < i <= |runes|
      invariant Extend("", 1, QuotedRest(runes[start + 1..], quote))
             == Extend(b, i - start, QuotedRest(runes[i..], quote))
    {
      QuotedUnfolds(runes[i..], quote);
      if runes[i] == quote {
        if i + 1 < |runes| && runes[i + 1] == quote {
          assert runes[i..][2..] == runes[i + 2..];
          ExtendTwice(b, i - start, quote, 2, QuotedRest(runes[i + 2..], quote));
          b := b + [quote];
          i := i + 2;
          continue;
        }
        assert b + "" == b;
        return Some(Quoted(b, i + 1 - start));
      }
      assert runes[i..][1..] == runes[i + 1..];
      ExtendTwice(b, i - start, runes[i], 1, QuotedRest(runes[i + 1..], quote));
      b := b + [runes[i]];
      i := i + 1;
    }
    QuotedNothing(quote);
    return None;
  }

  lemma QuotedNothing(quote: char)
    ensures QuotedRest("", quote) == None
  {
  }

  method NumeralEnd(h: Host, runes: string, start: nat) returns (i: nat)
    requires start <= |runes|
    ensures i == start + NumeralWidth(h, runes[start..], false) <= |runes|
  {
    i := start;
    var seenDot := false;
    while i < |runes| && (IsDigit(h, runes[i]) || (runes[i] == '.' && !seenDot))
      invariant start <= i <= |runes|
      invariant start + NumeralWidth(h, runes[start..], false) == i + NumeralWidth(h, runes[i..], seenDot)
    {
      assert runes[i..][1..] == runes[i + 1..];
      if runes[i] == '.' {
        assert !IsDigit(h, runes[i]);
        seenDot := true;
      }
      i := i + 1;
    }
  }

  method WordEnd(h: Host, runes: string, start: nat) returns (i: nat)
    requires start <= |runes|
    ensures i == start + WordWidth(h, runes[start..]) <= |runes|
  {
    i := start;
    while i < |runes| && IsWordChar(h, runes[i])
      invariant start <= i <= |runes|
      invariant start + WordWidth(h, runes[start..]) == i + WordWidth(h, runes[i..])
    {
      assert runes[i..][1..] == runes[i + 1..];
      i := i + 1;
    }
  }

  /** The switch of lex: what stands at position `i`. */
  method ScanAt(h: Host, runes: string, i: nat) returns (r: Scanned)
    requires i < |runes|
    ensures r == Scan(h, runes[i..])
  {
    var ch := runes[i];
    if IsSpace(h, ch) {
      return Space;
    } else if ch == '(' {
      return Found(LParen, 1);
    } else if ch == ')' {
      return Found(RParen, 1);
    } else if ch == ',' || ch == ';' {
      return Found(Comma(ch), 1);
    } else if ch == '"' || ch == '\'' {
      assert runes[i..][1..] == runes[i + 1..];
      var q := LexString(runes, i);
      return if q.None? then Bad(UnterminatedText) else Found(Literal(q.value.text), q.value.width);
    } else if IsDigit(h, ch) || (ch == '.' && i + 1 < |runes| && IsDigit(h, runes[i + 1])) {
      var next := NumeralEnd(h, runes, i);
      assert runes[i..next] == runes[i..][..next - i];
      return Found(Numeral(runes[i..next]), next - i);
    } else if IsWordStart(h, ch) {
      var next := WordEnd(h, runes, i);
      assert runes[i..next] == runes[i..][..next - i];
      return Found(Word(runes[i..next]), next - i);
    } else {
      var matched := MatchOperator(runes[i..]);
      return if matched.None? then Bad(UnexpectedCharacter)
        else Found(Sign(matched.value), |OperatorText(matched.value)|);
    }
  }

  /** lex. */
  method Lex(h: Host, runes: string) returns (r: Result<seq<Token>, Error>)
    ensures r == LexFrom(h, runes, 0)
  {
    hide Scan;
    var tokens: seq<Token> := [];
    var i := 0;
    assert runes[0..] == runes;
    PrependNothing(LexFrom(h, runes, 0));
    while i < |runes|
      invariant 0 <= i <= |runes|
      invariant LexFrom(h, runes, 0) == Prepend(tokens, LexFrom(h, runes[i..], i))
    {
      var scanned := ScanAt(h, runes, i);
      match scanned {
        case Space =>
          assert runes[i..][1..] == runes[i + 1..];
          i := i + 1;
        case Found(lexeme, width) =>
          assert runes[i..][width..] == runes[i + width..];
          PrependAssociates(tokens, [Token(lexeme, i)], LexFrom(h, runes[i + width..], i + width));
          tokens := tokens + [Token(lexeme, i)];
          i := i + width;
        case Bad(problem) =>
          return Err(Error(i, problem));
      }
    }
    return Ok(tokens + [Token(End, |runes|)]);
  }
}
