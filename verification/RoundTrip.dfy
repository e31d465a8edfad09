/** Formulas as text: lexing what was printed, and the round trip through the parser. */
module RoundTrip {
  import opened Common
  import opened Formula
  import opened Lexer
  import opened Numerals
  import opened Parser
  import opened Printer

  /** A text with every double quote doubled. */
  function Doubled(t: string): string {
    if t == "" then "" else (if t[0] == '"' then "\"\"" else [t[0]]) + Doubled(t[1..])
  }

  function TextOf(l: Lexeme): string {
    match l
    case End => ""
    case Numeral(t) => t
    case Literal(t) => "\"" + (Doubled(t) + "\"")
    case Word(t) => t
    case Sign(op) => OperatorText(op)
    case LParen => "("
    case RParen => ")"
    case Comma(ch) => [ch]
  }

  /** The lexemes written out with the gaps between, before and after them. */
  function Render(ls: seq<Lexeme>, gaps: seq<string>): string
    requires |gaps| == |ls| + 1
  {
    if ls == [] then gaps[0] else gaps[0] + (TextOf(ls[0]) + Render(ls[1..], gaps[1..]))
  }

  /** What follows a lexeme does not run on into it. */
  predicate Stops(h: Host, l: Lexeme, rest: string) {
    rest == "" ||
    match l
    case Numeral(t) => !IsDigit(h, rest[0]) && rest[0] != '.'
    case Literal(_) => rest[0] != '"'
    case Word(_) => !IsWordChar(h, rest[0])
    case Sign(Less) => rest[0] != '>' && rest[0] != '='
    case Sign(Greater) => rest[0] != '='
    case Sign(Equal) => rest[0] != '='
    case _ => true
  }

  /** The gaps are white space, and wide enough to keep the lexemes apart. */
  ghost predicate Spaced(h: Host, ls: seq<Lexeme>, gaps: seq<string>) {
    |gaps| == |ls| + 1 && Blank(h, gaps[0]) &&
    (ls != [] ==> Stops(h, ls[0], Render(ls[1..], gaps[1..])) && Spaced(h, ls[1..], gaps[1..]))
  }

  /** The lexer makes the lexeme, and nothing else, of its own text. */
  predicate Lexable(h: Host, l: Lexeme) {
    match l
    case End => false
    case Numeral(t) => t != "" && IsAsciiDigit(t[0]) && NumeralWidth(h, t, false) == |t|
    case Word(t) =>
      && t != "" && IsWordStart(h, t[0]) && !IsSpace(h, t[0]) && !IsDigit(h, t[0])
      && forall i :: 0 <= i < |t| ==> IsWordChar(h, t[i])
    case Comma(ch) => ch == ',' || ch == ';'
    case _ => true
  }

  lemma QuoteReads(tail: string)
    ensures QuotedRest("\"\"" + tail, '"') == Extend("\"", 2, QuotedRest(tail, '"'))
  {
    QuotedUnfolds("\"\"" + tail, '"');
    assert ("\"\"" + tail)[2..] == tail;
  }

  lemma PlainReads(c: char, tail: string)
    requires c != '"'
    ensures QuotedRest([c] + tail, '"') == Extend([c], 1, QuotedRest(tail, '"'))
  {
    QuotedUnfolds([c] + tail, '"');
    assert ([c] + tail)[1..] == tail;
  }

  lemma ClosingReads(rest: string)
    requires rest == "" || rest[0] != '"'
    ensures QuotedRest("\"" + rest, '"') == Some(Quoted("", 1))
  {
    QuotedUnfolds("\"" + rest, '"');
  }

  lemma {:induction false} QuotedDoubled(t: string, rest: string)
    requires rest == "" || rest[0] != '"'
    ensures QuotedRest(Doubled(t) + ("\"" + rest), '"') == Some(Quoted(t, |Doubled(t)| + 1))
  {
    hide QuotedRest;
    if t == "" {
      ClosingReads(rest);
      assert "" + ("\"" + rest) == "\"" + rest;
    } else {
      var c, inner := t[0], Doubled(t[1..]);
      var tail := inner + ("\"" + rest);
      QuotedDoubled(t[1..], rest);
      assert [c] + t[1..] == t;
      if c == '"' {
        QuoteReads(tail);
        assert "\"\"" + inner + ("\"" + rest) == "\"\"" + tail;
      } else {
        PlainReads(c, tail);
        assert [c] + inner + ("\"" + rest) == [c] + tail;
      }
    }
  }

  lemma {:induction false} NumeralStops(h: Host, t: string, rest: string, seenDot: bool)
    requires NumeralWidth(h, t, seenDot) == |t|
    requires rest == "" || (!IsDigit(h, rest[0]) && rest[0] != '.')
    ensures NumeralWidth(h, t + rest, seenDot) == |t|
  {
    if t == "" {
      assert t + rest == rest;
    } else {
      assert (t + rest)[1..] == t[1..] + rest;
      NumeralStops(h, t[1..], rest, seenDot || !IsDigit(h, t[0]));
    }
  }

  lemma {:induction false} WordStops(h: Host, t: string, rest: string)
    requires forall i :: 0 <= i < |t| ==> IsWordChar(h, t[i])
    requires rest == "" || !IsWordChar(h, rest[0])
    ensures WordWidth(h, t + rest) == |t|
  {
    if t == "" {
      assert t + rest == rest;
    } else {
      assert (t + rest)[1..] == t[1..] + rest;
      WordStops(h, t[1..], rest);
    }
  }

  lemma SignStops(op: Operator, rest: string)
    requires rest != "" ==> op == Less ==> rest[0] != '>' && rest[0] != '='
    requires rest != "" ==> op == Greater || op == Equal ==> rest[0] != '='
    ensures MatchOperator(OperatorText(op) + rest) == Some(op)
  {
  }

  lemma ScanNumeral(h: Host, t: string, rest: string)
    requires Lexable(h, Numeral(t)) && Stops(h, Numeral(t), rest)
    ensures t + rest != "" && Scan(h, t + rest) == Found(Numeral(t), |t|)
  {
    hide NumeralWidth;
    NumeralStops(h, t, rest, false);
    assert (t + rest)[..|t|] == t && (t + rest)[0] == t[0];
  }

  lemma ScanLiteral(h: Host, t: string, rest: string)
    requires Stops(h, Literal(t), rest)
    ensures Scan(h, TextOf(Literal(t)) + rest) == Found(Literal(t), |TextOf(Literal(t))|)
  {
    hide QuotedRest, Doubled;
    var s := TextOf(Literal(t)) + rest;
    assert s[0] == '"' && s[1..] == Doubled(t) + ("\"" + rest);
    QuotedDoubled(t, rest);
    assert "" + t == t;
  }

  lemma ScanWord(h: Host, t: string, rest: string)
    requires Lexable(h, Word(t)) && Stops(h, Word(t), rest)
    ensures t + rest != "" && Scan(h, t + rest) == Found(Word(t), |t|)
  {
    hide WordWidth;
    WordStops(h, t, rest);
    assert (t + rest)[..|t|] == t && (t + rest)[0] == t[0];
  }

  lemma ScanSign(h: Host, op: Operator, rest: string)
    requires Stops(h, Sign(op), rest)
    ensures Scan(h, OperatorText(op) + rest) == Found(Sign(op), |OperatorText(op)|)
  {
    SignStops(op, rest);
    hide MatchOperator;
    assert (OperatorText(op) + rest)[0] == OperatorText(op)[0];
  }

  /** The lexer reads a lexeme's text back, whatever follows it. */
  lemma ScanText(h: Host, l: Lexeme, rest: string)
    requires Lexable(h, l) && Stops(h, l, rest)
    ensures TextOf(l) + rest != ""
    ensures Scan(h, TextOf(l) + rest) == Found(l, |TextOf(l)|)
  {
    match l {
      case Numeral(t) => ScanNumeral(h, t, rest);
      case Literal(t) => ScanLiteral(h, t, rest);
      case Word(t) => ScanWord(h, t, rest);
      case Sign(op) => ScanSign(h, op, rest);
      case _ =>
    }
  }

  lemma {:induction false} SkipGap(h: Host, gap: string, s: string, at: nat)
    requires Blank(h, gap)
    ensures LexFrom(h, gap + s, at) == LexFrom(h, s, at + |gap|)
  {
    if gap == "" {
      assert gap + s == s;
    } else {
      hide LexFrom;
      assert (gap + s)[1..] == gap[1..] + s;
      SkipGap(h, gap[1..], s, at + 1);
      SkipOne(h, gap + s, at);
    }
  }

  lemma SkipOne(h: Host, s: string, at: nat)
    requires s != "" && IsSpace(h, s[0])
    ensures LexFrom(h, s, at) == LexFrom(h, s[1..], at + 1)
  {
  }

  lemma LexOne(h: Host, s: string, at: nat, l: Lexeme, width: nat)
    requires s != "" && Scan(h, s) == Found(l, width)
    ensures LexFrom(h, s, at) == Prepend([Token(l, at)], LexFrom(h, s[width..], at + width))
  {
    hide Scan;
  }

  lemma LexNothing(h: Host, at: nat)
    ensures LexFrom(h, "", at) == Ok([Token(End, at)])
  {
  }

  /** The tokens carry the lexemes, and then the end. */
  predicate Carries(r: Result<seq<Token>, Error>, ls: seq<Lexeme>) {
    && r.Ok? && |r.value| == |ls| + 1 && r.value[|ls|].lexeme == End
    && forall k :: 0 <= k < |ls| ==> r.value[k].lexeme == ls[k]
  }

  /** Lexing written-out lexemes gives them back. */
  lemma {:induction false} LexRendered(h: Host, ls: seq<Lexeme>, gaps: seq<string>, at: nat)
    requires (forall k :: 0 <= k < |ls| ==> Lexable(h, ls[k])) && Spaced(h, ls, gaps)
    ensures Carries(LexFrom(h, Render(ls, gaps), at), ls)
  {
    hide LexFrom, Scan, Lexable, Stops;
    if ls == [] {
      assert gaps[0] + "" == gaps[0];
      SkipGap(h, gaps[0], "", at);
      LexNothing(h, at + |gaps[0]|);
    } else {
      var text, rest := TextOf(ls[0]), Render(ls[1..], gaps[1..]);
      var at' := at + |gaps[0]|;
      SkipGap(h, gaps[0], text + rest, at);
      ScanText(h, ls[0], rest);
      LexOne(h, text + rest, at', ls[0], |text|);
      assert (text + rest)[|text|..] == rest;
      LexRendered(h, ls[1..], gaps[1..], at' + |text|);
    }
  }

  lemma BlankLexes(h: Host, s: string)
    requires Blank(h, s)
    ensures Carries(LexFrom(h, s, 0), [])
  {
    assert s + "" == s;
    SkipGap(h, s, "", 0);
  }

  lemma {:induction false} DigitsWidth(h: Host, s: string, seenDot: bool)
    requires AllDigits(s)
    ensures NumeralWidth(h, s, seenDot) == |s|
  {
    if s != "" { DigitsWidth(h, s[1..], seenDot); }
  }

  lemma {:induction false} SplitWidth(h: Host, whole: string, fraction: string)
    requires AllDigits(whole) && AllDigits(fraction)
    ensures NumeralWidth(h, whole + "." + fraction, false) == |whole| + 1 + |fraction|
  {
    var s := whole + "." + fraction;
    if whole == "" {
      assert s[0] == '.' && s[1..] == fraction;
      DigitsWidth(h, fraction, true);
    } else {
      assert s[1..] == whole[1..] + "." + fraction;
      SplitWidth(h, whole[1..], fraction);
    }
  }

  lemma DecimalWidth(h: Host, digits: nat, places: nat)
    ensures var s := DecimalText(digits, places); NumeralWidth(h, s, false) == |s|
  {
    var d := Zeros(places) + DigitsOf(digits);
    if places == 0 { DigitsWidth(h, d, false); }
    else { SplitWidth(h, d[..|d| - places], d[|d| - places..]); }
  }

  lemma PrintIs(h: Host, n: Node, context: Level)
    requires Printable(h, n)
    ensures Print(h, n, context) == if NeedsParens(n, context) then [LParen] + Body(h, n) + [RParen] else Body(h, n)
  {
    hide Body, Printable, NeedsParens;
  }

  lemma ParensLexable(h: Host, ls: seq<Lexeme>)
    requires forall k :: 0 <= k < |ls| ==> Lexable(h, ls[k])
    ensures var all := [LParen] + ls + [RParen]; forall k :: 0 <= k < |all| ==> Lexable(h, all[k])
  {
    assert Lexable(h, LParen) && Lexable(h, RParen);
    hide Lexable;
  }

  /** Every lexeme of a printed tree can be lexed. */
  lemma {:induction false} PrintLexable(h: Host, n: Node, context: Level)
    requires Printable(h, n)
    ensures forall k :: 0 <= k < |Print(h, n, context)| ==> Lexable(h, Print(h, n, context)[k])
    decreases n, 2
  {
    hide *;
    BodyLexable(h, n);
    PrintIs(h, n, context);
    ParensLexable(h, Body(h, n));
  }

  lemma {:induction false} BodyLexable(h: Host, n: Node)
    requires Printable(h, n)
    ensures forall k :: 0 <= k < |Body(h, n)| ==> Lexable(h, Body(h, n)[k])
    decreases n, 1
  {
    match n {
      case NumberNode(v, _) =>
        NumeralLexable(h, v);
      case UnaryNode(op, operand, _) =>
        PrintLexable(h, operand, LevelOf(n));
      case BinaryNode(_, left, right, _) =>
        PrintLexable(h, left, LeftContext(LevelOf(n)));
        PrintLexable(h, right, Tighter(LevelOf(n)));
      case CallNode(fn, args, _) =>
        NameIsCapitals(fn);
        ArgsLexable(h, n, args);
      case _ =>
    }
  }

  lemma NumeralLexable(h: Host, v: real)
    requires IsDecimal(v)
    ensures Lexable(h, Numeral(NumeralText(v)))
  {
    var digits: nat, places: nat :|
      Denotes(v, digits, places) && NumeralText(v) == DecimalText(digits, places);
    DecimalWidth(h, digits, places);
  }

  lemma {:induction false} ArgsLexable(h: Host, n: Node, args: seq<Node>)
    requires forall k :: 0 <= k < |args| ==> Printable(h, args[k]) && args[k] < n
    ensures forall k :: 0 <= k < |PrintArgs(h, args)| ==> Lexable(h, PrintArgs(h, args)[k])
    decreases n, 0, |args|
  {
    if args != [] {
      PrintLexable(h, args[0], LOr);
      ArgsLexable(h, n, args[1..]);
    }
  }

  /**
   * The round trip. However a printable tree's lexemes are spaced, and whichever separator
   * stands between any two arguments, parsing the text gives the tree back, up to the
   * positions its nodes stand at.
   */
  lemma ParsePrinted(h: Host, n: Node, ls: seq<Lexeme>, gaps: seq<string>)
    requires Printable(h, n) && AllAlike(ls, Print(h, n, LOr)) && Spaced(h, ls, gaps)
    requires forall k :: 0 <= k < |ls| && ls[k].Comma? ==> ls[k].ch == ',' || ls[k].ch == ';'
    ensures var r := Parse(h, Render(ls, gaps));
      r.Ok? && Strip(r.value) == Strip(n)
  {
    hide *;
    SpacedGaps(h, ls, gaps);
    PrintLexable(h, n, LOr);
    var p, text := Print(h, n, LOr), Render(ls, gaps);
    LikeLexable(h, ls, p);
    var ts := RenderedSpells(h, ls, gaps, p);
    PrintedParses(h, ts, 0, n, LOr);
    ReadBackParses(h, text, ts, n, |p|);
  }

  lemma SpacedGaps(h: Host, ls: seq<Lexeme>, gaps: seq<string>)
    requires Spaced(h, ls, gaps)
    ensures |gaps| == |ls| + 1
  {
  }

  lemma LikeLexable(h: Host, ls: seq<Lexeme>, p: seq<Lexeme>)
    requires AllAlike(ls, p) && forall k :: 0 <= k < |p| ==> Lexable(h, p[k])
    requires forall k :: 0 <= k < |ls| && ls[k].Comma? ==> ls[k].ch == ',' || ls[k].ch == ';'
    ensures forall k :: 0 <= k < |ls| ==> Lexable(h, ls[k])
  {
    forall k | 0 <= k < |ls| ensures Lexable(h, ls[k]) { assert Alike(ls[k], p[k]); }
  }

  /** Lexing written-out lexemes gives tokens that spell what is printed alike, and then the end. */
  lemma RenderedSpells(h: Host, ls: seq<Lexeme>, gaps: seq<string>, p: seq<Lexeme>) returns (ts: seq<Token>)
    requires (forall k :: 0 <= k < |ls| ==> Lexable(h, ls[k])) && |gaps| == |ls| + 1 && Spaced(h, ls, gaps)
    requires AllAlike(ls, p) && p != []
    ensures var text := Render(ls, gaps); LexFrom(h, text, 0) == Ok(ts) && !Blank(h, text)
    ensures EndsOnce(ts) && Spells(ts, 0, p) && |p| < |ts| && ts[|p|].lexeme == End && Ends(ts[|p|].lexeme, LOr)
  {
    hide LexFrom, EndsOnce, Blank, Render, Lexable, Spaced;
    var text := Render(ls, gaps);
    LexRendered(h, ls, gaps, 0);
    ts := LexFrom(h, text, 0).value;
    if Blank(h, text) { BlankLexes(h, text); }
    forall k | 0 <= k < |p| ensures Alike(ts[k].lexeme, p[k]) { assert Alike(ls[k], p[k]); }
  }

  lemma ReadBackParses(h: Host, text: string, ts: seq<Token>, n: Node, next: nat)
    requires !Blank(h, text) && LexFrom(h, text, 0) == Ok(ts) && EndsOnce(ts) && next < |ts| && ts[next].lexeme == End
    requires ReadBack(ParseLevel(h, ts, 0, LOr), n, next)
    ensures var r := Parse(h, text); r.Ok? && Strip(r.value) == Strip(n)
  {
    hide LexFrom, ParseLevel, EndsOnce, Blank, Strip, WellFormed;
  }

  /** One space between lexemes. */
  function SingleGaps(count: nat): (gaps: seq<string>)
    ensures |gaps| == count + 1
  {
    seq(count + 1, i => if i == 0 || i == count then "" else " ")
  }

  /** A single space keeps any two lexemes apart. */
  lemma {:induction false} SingleSpaced(h: Host, ls: seq<Lexeme>, gaps: seq<string>)
    requires |gaps| == |ls| + 1 && (gaps[0] == "" || gaps[0] == " ") && gaps[|ls|] == ""
    requires forall k :: 0 < k < |ls| ==> gaps[k] == " "
    ensures Spaced(h, ls, gaps)
  {
    if ls != [] {
      var rest := Render(ls[1..], gaps[1..]);
      assert gaps[1..][0] == gaps[1];
      if |ls| > 1 { assert rest[0] == ' '; }
      SingleSpaced(h, ls[1..], gaps[1..]);
    }
  }

  /** A formula for a tree: fewest parentheses, one space between lexemes. */
  ghost function FormulaOf(h: Host, n: Node): string
    requires Printable(h, n)
  {
    Render(Print(h, n, LOr), SingleGaps(|Print(h, n, LOr)|))
  }

  lemma FormulaRoundTrip(h: Host, n: Node)
    requires Printable(h, n)
    ensures var r := Parse(h, FormulaOf(h, n)); r.Ok? && Strip(r.value) == Strip(n)
  {
    var ls := Print(h, n, LOr);
    SingleSpaced(h, ls, SingleGaps(|ls|));
    PrintLexable(h, n, LOr);
    hide Print, Printable, Parse, Spaced, Render, Strip, Lexable;
    CommasLexable(h, ls);
    ParsePrinted(h, n, ls, SingleGaps(|ls|));
  }

  /** The grammar is unambiguous: no two trees are written the same way, not even up to the
      separators between arguments. */
  lemma PrintingIsInjective(h: Host, m: Node, n: Node)
    requires Printable(h, m) && Printable(h, n) && AllAlike(Print(h, m, LOr), Print(h, n, LOr))
    ensures Strip(m) == Strip(n)
  {
    hide Print, Printable, Parse, Spaced, Render, Strip, Lexable;
    var ls := Print(h, m, LOr);
    FormulaRoundTrip(h, m);
    PrintLexable(h, m, LOr);
    SingleSpaced(h, ls, SingleGaps(|ls|));
    CommasLexable(h, ls);
    ParsePrinted(h, n, ls, SingleGaps(|ls|));
  }

  lemma CommasLexable(h: Host, ls: seq<Lexeme>)
    requires forall k :: 0 <= k < |ls| ==> Lexable(h, ls[k])
    ensures forall k :: 0 <= k < |ls| && ls[k].Comma? ==> ls[k].ch == ',' || ls[k].ch == ';'
  {
  }
}
