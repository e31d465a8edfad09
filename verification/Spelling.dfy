/** How formulas are spelled: the text of every token, and that lexing finds these tokens and no others. */
module Spelling {
  import opened Common
  import opened Formula
  import opened Lexer

  /** The sign of an operator. */
  function SignOf(op: Operator): string {
    match op
    case Plus => "+" case Minus => "-" case Star => "*" case Slash => "/" case Ampersand => "&"
    case Equal => "=" case DoubleEqual => "==" case NotEqual => "<>" case BangEqual => "!="
    case Less => "<" case LessEqual => "<=" case Greater => ">" case GreaterEqual => ">="
  }

  /** A character that would make another sign of this one. */
  predicate Continues(op: Operator, c: char) {
    match op
    case Less => c == '>' || c == '='
    case Greater | Equal => c == '='
    case _ => false
  }

  /** The text with each of its quotes doubled. */
  function Doubling(t: string, quote: char): string {
    if t == "" then "" else (if t[0] == quote then [quote, quote] else [t[0]]) + Doubling(t[1..], quote)
  }

  predicate IsQuoted(text: string, t: string, quote: char) { text == [quote] + (Doubling(t, quote) + [quote]) }

  /** Digits with at most one point among them, which does not stand alone. */
  predicate IsNumeral(h: Host, t: string) {
    && t != "" && (IsDigit(h, t[0]) || (t[0] == '.' && |t| > 1 && IsDigit(h, t[1])))
    && (forall i :: 0 <= i < |t| ==> IsDigit(h, t[i]) || t[i] == '.')
    && forall i, j :: 0 <= i < j < |t| && t[i] == '.' ==> t[j] != '.'
  }

  /** A letter or an underscore, and then letters, digits and underscores. */
  predicate IsWord(h: Host, t: string) {
    && t != "" && (IsLetter(h, t[0]) || t[0] == '_') && !IsDigit(h, t[0])
    && forall i :: 0 <= i < |t| ==> IsLetter(h, t[i]) || IsDigit(h, t[i]) || t[i] == '_'
  }

  /** The token is spelled by this text, in front of that: as much of both as could belong to it. */
  predicate Spelt(h: Host, l: Lexeme, text: string, rest: string) {
    match l
    case End => false
    case LParen => text == "("
    case RParen => text == ")"
    case Comma(c) => text == [c] && (c == ',' || c == ';')
    case Sign(op) => text == SignOf(op) && (rest == "" || !Continues(op, rest[0]))
    case Literal(t) =>
      (IsQuoted(text, t, '"') || IsQuoted(text, t, '\'')) && (rest == "" || rest[0] != text[0])
    case Numeral(t) =>
      && text == t && IsNumeral(h, t) && !IsSpace(h, t[0])
      && (rest == "" || (!IsDigit(h, rest[0]) && (rest[0] == '.' ==> '.' in t)))
    case Word(t) =>
      && text == t && IsWord(h, t) && !IsSpace(h, t[0])
      && (rest == "" || !(IsLetter(h, rest[0]) || IsDigit(h, rest[0]) || rest[0] == '_'))
  }

  /** The characters of each kind that ASCII has; of the others the library decides. */
  lemma CharacterKinds(h: Host, c: char)
    requires c < '\U{80}'
    ensures IsSpace(h, c) <==> c == ' ' || c == '\t' || c == '\n' || c == '\U{B}' || c == '\U{C}' || c == '\r'
    ensures IsDigit(h, c) <==> '0' <= c <= '9'
    ensures IsLetter(h, c) <==> 'A' <= c <= 'Z' || 'a' <= c <= 'z'
  {
  }

  // ─── Numbers and words ───

  predicate NumeralFront(h: Host, s: string, n: nat, seenDot: bool)
    requires n <= |s|
  {
    && (forall i :: 0 <= i < n ==> IsDigit(h, s[i]) || (s[i] == '.' && !seenDot))
    && (forall i, j :: 0 <= i < j < n && s[i] == '.' ==> s[j] != '.')
    && (n < |s| ==> !IsDigit(h, s[n]) && (s[n] == '.' ==> seenDot || exists i :: 0 <= i < n && s[i] == '.'))
  }

  lemma {:induction false} NumeralWidthMeans(h: Host, s: string, n: nat, seenDot: bool)
    requires n <= |s|
    ensures NumeralFront(h, s, n, seenDot) <==> n == NumeralWidth(h, s, seenDot)
  {
    if s != "" {
      var dot := s[0] == '.';
      assert dot ==> !IsDigit(h, s[0]);
      hide IsDigit;
      if n == 0 {
        assert NumeralFront(h, s, n, seenDot) <==> n == NumeralWidth(h, s, seenDot);
      } else if IsDigit(h, s[0]) || (dot && !seenDot) {
        NumeralWidthMeans(h, s[1..], n - 1, seenDot || dot);
        NumeralFrontTail(h, s, n, seenDot);
      }
    }
  }

  lemma NumeralFrontTail(h: Host, s: string, n: nat, seenDot: bool)
    requires 0 < n <= |s| && (IsDigit(h, s[0]) || (s[0] == '.' && !seenDot)) && (s[0] == '.' ==> !IsDigit(h, s[0]))
    ensures NumeralFront(h, s, n, seenDot) <==> NumeralFront(h, s[1..], n - 1, seenDot || s[0] == '.')
  {
    hide IsDigit;
    var t, seen := s[1..], seenDot || s[0] == '.';
    assert forall i :: 0 <= i < |t| ==> t[i] == s[i + 1];
    if NumeralFront(h, t, n - 1, seen) {
      forall i | 0 <= i < n ensures IsDigit(h, s[i]) || (s[i] == '.' && !seenDot) {
        if i > 0 { assert t[i - 1] == s[i]; }
      }
      forall i, j | 0 <= i < j < n && s[i] == '.' ensures s[j] != '.' {
        assert t[j - 1] == s[j];
        if i > 0 { assert t[i - 1] == s[i]; }
      }
      if n < |s| { assert t[n - 1] == s[n]; }
    }
    if NumeralFront(h, s, n, seenDot) {
      forall i | 0 <= i < n - 1 ensures IsDigit(h, t[i]) || (t[i] == '.' && !seen) {
        assert s[0] == '.' ==> s[i + 1] != '.';
      }
      if n < |s| && s[n] == '.' && !seen {
        var i :| 0 <= i < n && s[i] == '.';
        assert t[i - 1] == '.';
      }
    }
  }

  lemma {:induction false} WordWidthMeans(h: Host, s: string, n: nat)
    requires n <= |s|
    ensures (forall i :: 0 <= i < n ==> IsWordChar(h, s[i])) && (n < |s| ==> !IsWordChar(h, s[n])) <==>
      n == WordWidth(h, s)
  {
    hide IsWordChar;
    if n > 0 && IsWordChar(h, s[0]) {
      WordWidthMeans(h, s[1..], n - 1);
      assert forall i :: 0 < i < |s| ==> s[i] == s[1..][i - 1];
    }
  }

  // ─── Quoted texts ───

  /** The text with its quotes doubled, and the quote that closes it, stand in front. */
  predicate QuotedFront(s: string, quote: char, t: string, w: nat) {
    w <= |s| && s[..w] == Doubling(t, quote) + [quote] && (w < |s| ==> s[w] != quote)
  }

  lemma {:induction false} QuotedReads(s: string, quote: char, t: string, w: nat)
    requires QuotedFront(s, quote, t, w)
    ensures QuotedRest(s, quote) == Some(Quoted(t, w))
  {
    if t == "" {
      assert s[..w] == [quote] && s[0] == s[..w][0];
    } else {
      var d := Doubling(t[1..], quote);
      assert t == [t[0]] + t[1..];
      if t[0] == quote {
        assert s[..w] == [quote, quote] + (d + [quote]);
        assert s[0] == s[..w][0] && s[1] == s[..w][1];
        assert s[2..][..w - 2] == s[..w][2..] == d + [quote];
        QuotedReads(s[2..], quote, t[1..], w - 2);
      } else {
        assert s[..w] == [t[0]] + (d + [quote]);
        assert s[0] == s[..w][0];
        assert s[1..][..w - 1] == s[..w][1..] == d + [quote];
        QuotedReads(s[1..], quote, t[1..], w - 1);
      }
    }
  }

  lemma {:induction false} ReadIsQuoted(s: string, quote: char)
    ensures var q := QuotedRest(s, quote); q.Some? ==> QuotedFront(s, quote, q.value.text, q.value.width)
  {
    if s != "" {
      QuotedUnfolds(s, quote);
      if s[0] == quote && |s| >= 2 && s[1] == quote {
        ReadIsQuoted(s[2..], quote);
        if QuotedRest(s[2..], quote).Some? { QuotedLonger(s, quote, QuotedRest(s[2..], quote).value, 2); }
      } else if s[0] != quote {
        ReadIsQuoted(s[1..], quote);
        if QuotedRest(s[1..], quote).Some? { QuotedLonger(s, quote, QuotedRest(s[1..], quote).value, 1); }
      }
    }
  }

  lemma QuotedLonger(s: string, quote: char, q: Quoted, k: nat)
    requires 0 < k <= |s| && QuotedFront(s[k..], quote, q.text, q.width)
    requires if s[0] == quote then k == 2 && s[1] == quote else k == 1
    ensures QuotedFront(s, quote, [s[0]] + q.text, q.width + k)
  {
    var t := [s[0]] + q.text;
    assert t[1..] == q.text;
    assert s[..q.width + k] == s[..k] + s[k..][..q.width];
    assert s[..k] == if s[0] == quote then [quote, quote] else [s[0]];
    assert Doubling(t, quote) == s[..k] + Doubling(q.text, quote);
  }

  // ─── Tokens ───

  lemma SignsMean(s: string, op: Operator)
    requires s != ""
    ensures MatchOperator(s) == Some(op) <==>
      var sign := SignOf(op); sign <= s && (|s| > |sign| ==> !Continues(op, s[|sign|]))
    ensures SignOf(op) == OperatorText(op)
  {
  }

  /** The text begins with this token, of this many characters. */
  predicate Begins(h: Host, s: string, l: Lexeme, w: nat) { 1 <= w <= |s| && Spelt(h, l, s[..w], s[w..]) }

  lemma SignBegins(h: Host, s: string, op: Operator, w: nat)
    requires s != ""
    ensures Begins(h, s, Sign(op), w) <==> MatchOperator(s) == Some(op) && w == |SignOf(op)|
  {
    SignsMean(s, op);
    var n := |SignOf(op)|;
    if n <= |s| { assert SignOf(op) <= s <==> s[..n] == SignOf(op); }
    if w < |s| { assert s[w..][0] == s[w]; }
    hide MatchOperator, OperatorText;
  }

  lemma NumeralBegins(h: Host, s: string, t: string, w: nat)
    requires s != ""
    ensures Begins(h, s, Numeral(t), w) <==>
      !IsSpace(h, s[0]) && StartsNumeral(h, s) && w == NumeralWidth(h, s, false) && t == s[..w]
  {
    hide IsSpace;
    if w <= |s| {
      NumeralWidthMeans(h, s, w, false);
      hide IsDigit;
      NumeralFrontIs(h, s, w);
    }
    assert StartsNumeral(h, s) ==> NumeralWidth(h, s, false) >= 1;
  }

  lemma NumeralFrontIs(h: Host, s: string, w: nat)
    requires s != "" && w <= |s|
    ensures 1 <= w && Spelt(h, Numeral(s[..w]), s[..w], s[w..]) <==>
      !IsSpace(h, s[0]) && StartsNumeral(h, s) && w >= 1 && NumeralFront(h, s, w, false)
  {
    hide IsSpace, IsDigit;
    var t, rest := s[..w], s[w..];
    assert forall i :: 0 <= i < w ==> t[i] == s[i];
    if w < |s| { assert rest[0] == s[w]; }
    assert '.' in t <==> exists i :: 0 <= i < w && s[i] == '.';
    if w == 1 && s[0] == '.' && |s| > 1 { assert rest[0] == s[1]; }
  }

  lemma WordBegins(h: Host, s: string, t: string, w: nat)
    requires s != ""
    ensures Begins(h, s, Word(t), w) <==>
      !IsSpace(h, s[0]) && !IsDigit(h, s[0]) && IsWordStart(h, s[0]) && w == WordWidth(h, s) && t == s[..w]
  {
    hide IsSpace, IsDigit, IsLetter;
    if w <= |s| {
      WordWidthMeans(h, s, w);
      if w < |s| { assert s[w..][0] == s[w]; }
      assert forall i :: 0 <= i < w ==> s[..w][i] == s[i];
    }
    assert IsWordStart(h, s[0]) ==> WordWidth(h, s) >= 1;
  }

  lemma LiteralBegins(h: Host, s: string, t: string, w: nat)
    requires s != ""
    ensures Begins(h, s, Literal(t), w) <==>
      (s[0] == '"' || s[0] == '\'') && w >= 1 && QuotedRest(s[1..], s[0]) == Some(Quoted(t, w - 1))
  {
    hide QuotedRest, IsSpace;
    if Begins(h, s, Literal(t), w) {
      assert s[..w][0] == s[0];
      QuoteIs(s, t, w, s[0]);
      QuotedReads(s[1..], s[0], t, w - 1);
    }
    if w >= 1 && QuotedRest(s[1..], s[0]) == Some(Quoted(t, w - 1)) {
      ReadIsQuoted(s[1..], s[0]);
      QuoteIs(s, t, w, s[0]);
    }
  }

  lemma QuoteIs(s: string, t: string, w: nat, quote: char)
    requires s != "" && s[0] == quote && 1 <= w <= |s|
    ensures IsQuoted(s[..w], t, quote) && (w == |s| || s[w..][0] != quote) <==>
      QuotedFront(s[1..], quote, t, w - 1)
  {
    assert s[..w] == [quote] + s[1..][..w - 1];
    assert IsQuoted(s[..w], t, quote) <==> s[1..][..w - 1] == Doubling(t, quote) + [quote] by {
      if IsQuoted(s[..w], t, quote) { assert s[1..][..w - 1] == s[..w][1..]; }
    }
  }

  lemma SignScans(h: Host, s: string, op: Operator, w: nat)
    requires s != ""
    ensures Scan(h, s) == Found(Sign(op), w) <==> Begins(h, s, Sign(op), w)
  {
    SignBegins(h, s, op, w);
    SignsMean(s, op);
    if Begins(h, s, Sign(op), w) { assert s[0] == SignOf(op)[0]; }
    hide MatchOperator, OperatorText, NumeralWidth, WordWidth, QuotedRest;
  }

  lemma MarkScans(h: Host, s: string, l: Lexeme, w: nat)
    requires s != "" && (l.LParen? || l.RParen? || l.Comma? || l.End?)
    ensures Scan(h, s) == Found(l, w) <==> Begins(h, s, l, w)
  {
    if 1 <= w <= |s| { assert s[..w][0] == s[0] && (w == 1 ==> s[..w] == [s[0]]); }
    hide MatchOperator, OperatorText, NumeralWidth, WordWidth, QuotedRest;
  }

  lemma TextScans(h: Host, s: string, l: Lexeme, w: nat)
    requires s != "" && (l.Numeral? || l.Word? || l.Literal?)
    ensures Scan(h, s) == Found(l, w) <==> Begins(h, s, l, w)
  {
    match l {
      case Numeral(t) => NumeralBegins(h, s, t, w);
      case Word(t) => WordBegins(h, s, t, w);
      case Literal(t) =>
        LiteralBegins(h, s, t, w);
        var q := QuotedRest(s[1..], s[0]);
        assert q.Some? ==> "" + q.value.text == q.value.text;
    }
    hide MatchOperator, OperatorText, NumeralWidth, WordWidth, QuotedRest, Spelt;
  }

  /** The lexer's switch finds a token exactly if the text begins with it. */
  lemma ScanMeans(h: Host, s: string, l: Lexeme, w: nat)
    requires s != ""
    ensures Scan(h, s) == Found(l, w) <==> Begins(h, s, l, w)
    ensures Scan(h, s) == Space <==> IsSpace(h, s[0])
  {
    match l
    case Sign(op) => SignScans(h, s, op, w);
    case Numeral(_) | Word(_) | Literal(_) => TextScans(h, s, l, w);
    case _ => MarkScans(h, s, l, w);
  }

  /**
   * The tokens of a text that begins at this place of the formula: white space, and after it a
   * token that stands there, and so on with what follows; at last nothing but white space, and
   * the end.
   */
  ghost predicate Tokens(h: Host, s: string, at: nat, ts: seq<Token>)
    decreases |ts|
  {
    ts != [] && if |ts| == 1 then Blank(h, s) && ts[0] == Token(End, at + |s|)
    else exists gap: nat, w: nat ::
      TokenAfter(h, s, at, ts[0], gap, w) && Tokens(h, s[gap + w..], at + gap + w, ts[1..])
  }

  predicate TokenAfter(h: Host, s: string, at: nat, t: Token, gap: nat, w: nat): (b: bool)
    ensures b ==> w > 0 && gap + w <= |s|
  {
    gap < |s| && Blank(h, s[..gap]) && t.pos == at + gap && Begins(h, s[gap..], t.lexeme, w)
  }

  lemma LexUnfolds(h: Host, s: string, at: nat)
    requires s != ""
    ensures LexFrom(h, s, at) ==
      match Scan(h, s)
      case Space => LexFrom(h, s[1..], at + 1)
      case Found(l, w) => Prepend([Token(l, at)], LexFrom(h, s[w..], at + w))
      case Bad(problem) => Err(Error(at, problem))
  {
    hide Scan;
  }

  /** A gap in front of the tokens. */
  lemma TokensBehind(h: Host, s: string, at: nat, ts: seq<Token>)
    requires s != "" && IsSpace(h, s[0])
    ensures Tokens(h, s, at, ts) <==> Tokens(h, s[1..], at + 1, ts)
  {
    hide Begins, IsSpace;
    if |ts| > 1 {
      if Tokens(h, s, at, ts) {
        var gap: nat, w: nat :| TokenAfter(h, s, at, ts[0], gap, w) && Tokens(h, s[gap + w..], at + gap + w, ts[1..]);
        if gap == 0 { NoTokenInSpace(h, s, ts[0].lexeme, w); }
        GapShorter(h, s, at, ts[0], gap, w);
        assert s[1..][gap - 1 + w..] == s[gap + w..];
        assert TokenAfter(h, s[1..], at + 1, ts[0], gap - 1, w);
      }
      if Tokens(h, s[1..], at + 1, ts) {
        var gap: nat, w: nat :| TokenAfter(h, s[1..], at + 1, ts[0], gap, w)
          && Tokens(h, s[1..][gap + w..], at + 1 + gap + w, ts[1..]);
        GapShorter(h, s, at, ts[0], gap + 1, w);
        assert s[1..][gap + w..] == s[gap + 1 + w..];
        assert TokenAfter(h, s, at, ts[0], gap + 1, w);
      }
    } else {
      assert forall i :: 0 < i < |s| ==> s[i] == s[1..][i - 1];
    }
  }

  lemma GapShorter(h: Host, s: string, at: nat, t: Token, gap: nat, w: nat)
    requires s != "" && IsSpace(h, s[0]) && gap > 0
    ensures TokenAfter(h, s, at, t, gap, w) <==> TokenAfter(h, s[1..], at + 1, t, gap - 1, w)
  {
    hide Begins, IsSpace;
    if gap < |s| {
      assert s[1..][gap - 1..] == s[gap..];
      assert forall i :: 0 < i < gap ==> s[..gap][i] == s[1..][..gap - 1][i - 1];
    }
  }

  lemma NoTokenInSpace(h: Host, s: string, l: Lexeme, w: nat)
    requires s != "" && IsSpace(h, s[0])
    ensures !Begins(h, s[0..], l, w)
  {
    assert s[0..] == s;
    ScanMeans(h, s, l, w);
  }

  /** A token in front of the tokens. */
  lemma TokensFrom(h: Host, s: string, at: nat, l: Lexeme, w: nat, ts: seq<Token>)
    requires s != "" && Begins(h, s, l, w) && !IsSpace(h, s[0])
    ensures Tokens(h, s, at, ts) <==> |ts| > 1 && ts[0] == Token(l, at) && Tokens(h, s[w..], at + w, ts[1..])
  {
    assert s[0..] == s && Blank(h, s[..0]);
    hide Begins, IsSpace;
    assert forall gap :: 0 < gap <= |s| ==> s[..gap][0] == s[0];
    if |ts| > 1 {
      forall gap: nat, v: nat | TokenAfter(h, s, at, ts[0], gap, v)
        ensures gap == 0 && v == w && ts[0] == Token(l, at)
      {
        ScanMeans(h, s, ts[0].lexeme, v);
        ScanMeans(h, s, l, w);
      }
      if ts[0] == Token(l, at) { assert TokenAfter(h, s, at, ts[0], 0, w); }
    }
  }

  lemma NoTokens(h: Host, s: string, at: nat, ts: seq<Token>)
    requires s != "" && !IsSpace(h, s[0]) && forall l, w :: !Begins(h, s, l, w)
    ensures !Tokens(h, s, at, ts)
  {
    hide Begins, IsSpace;
    assert s[0..] == s;
    assert forall gap :: 0 < gap <= |s| ==> s[..gap][0] == s[0];
  }

  lemma TokensOfNothing(h: Host, at: nat, ts: seq<Token>)
    ensures LexFrom(h, "", at) == Ok([Token(End, at)])
    ensures Tokens(h, "", at, ts) <==> ts == [Token(End, at)]
  {
    if |ts| == 1 { assert ts == [ts[0]]; }
  }

  /** Lexing succeeds exactly with the tokens of the text, and there is only one way to see tokens in it. */
  lemma {:induction false} LexMeans(h: Host, s: string, at: nat, ts: seq<Token>)
    ensures LexFrom(h, s, at) == Ok(ts) <==> Tokens(h, s, at, ts)
    decreases |s|
  {
    hide *;
    if s == "" {
      TokensOfNothing(h, at, ts);
    } else {
      LexUnfolds(h, s, at);
      match Scan(h, s) {
        case Space =>
          ScanMeans(h, s, End, 0);
          LexMeans(h, s[1..], at + 1, ts);
          TokensBehind(h, s, at, ts);
        case Found(l, w) =>
          ScanMeans(h, s, l, w);
          TokensFrom(h, s, at, l, w, ts);
          if |ts| > 1 { LexMeans(h, s[w..], at + w, ts[1..]); }
          LexedSome(h, s[w..], at + w);
          Prepended(Token(l, at), LexFrom(h, s[w..], at + w), ts);
        case Bad(_) =>
          forall l, w ensures !Begins(h, s, l, w) { ScanMeans(h, s, l, w); }
          ScanMeans(h, s, End, 0);
          NoTokens(h, s, at, ts);
      }
    }
  }

  lemma LexedSome(h: Host, s: string, at: nat)
    ensures LexFrom(h, s, at).Ok? ==> LexFrom(h, s, at).value != []
  {
    hide LexFrom;
  }

  lemma Prepended(t: Token, r: Result<seq<Token>, Error>, ts: seq<Token>)
    requires r.Ok? ==> r.value != []
    ensures Prepend([t], r) == Ok(ts) <==> |ts| > 1 && ts[0] == t && r == Ok(ts[1..])
  {
    if r.Ok? { assert ([t] + r.value)[1..] == r.value; }
    if |ts| > 1 { assert ts == [ts[0]] + ts[1..]; }
  }
}
