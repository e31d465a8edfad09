/** What the functions of formulas answer for the values of their arguments, said as relations. */
module Functions {
  import opened Common
  import opened Formula
  import opened Evaluator
  import EvaluatorLaws
  import opened Readings
  import opened Operations

  // ─── Arguments as numbers and as texts ───

  ghost predicate AreWorth(h: Host, args: seq<Value>, xs: seq<real>) {
    |xs| == |args| && forall i :: 0 <= i < |args| ==> Worth(h, args[i], xs[i])
  }

  ghost predicate SomeWorth(h: Host, v: Value) { exists x :: Worth(h, v, x) }

  /** The error of the first argument that counts as no number. */
  ghost predicate FirstWorthless(h: Host, args: seq<Value>, at: nat, answer: Answer) {
    exists i :: 0 <= i < |args| && WorthlessAt(h, args, i, at, answer)
  }

  ghost predicate WorthlessAt(h: Host, args: seq<Value>, i: nat, at: nat, answer: Answer)
    requires i < |args|
  {
    (forall j :: 0 <= j < i ==> SomeWorth(h, args[j])) && NoNumber(h, args[i], at, answer)
  }

  lemma {:induction false} NumbersMean(h: Host, args: seq<Value>, at: nat)
    ensures var ns := Numbers(h, args, at);
      && (ns.Ok? ==> AreWorth(h, args, ns.value) && forall i :: 0 <= i < |args| ==> SomeWorth(h, args[i]))
      && (ns.Err? ==> FirstWorthless(h, args, at, Err(ns.error)))
  {
    if args != [] {
      var n, rest := ToNumber(h, args[0], at), Numbers(h, args[1..], at);
      NumbersMean(h, args[1..], at);
      NumberMeans(h, args[0], at);
      hide Worth, Worthless, ToNumber, NoNumber;
      if n.Err? {
        NoNumberMeans(h, args[0], at, Err(n.error));
        assert WorthlessAt(h, args, 0, at, Err(n.error));
      } else {
        assert Worth(h, args[0], n.value) && SomeWorth(h, args[0]);
        if rest.Err? { WorthlessBehind(h, args, at, Err(rest.error)); }
      }
    }
  }

  lemma WorthlessBehind(h: Host, args: seq<Value>, at: nat, answer: Answer)
    requires args != [] && SomeWorth(h, args[0]) && FirstWorthless(h, args[1..], at, answer)
    ensures FirstWorthless(h, args, at, answer)
  {
    hide SomeWorth, NoNumber;
    var i :| 0 <= i < |args[1..]| && WorthlessAt(h, args[1..], i, at, answer);
    assert WorthlessAt(h, args, i + 1, at, answer) by {
      assert forall j :: 0 < j <= i ==> args[j] == args[1..][j - 1];
    }
  }

  /** A value counts as one number at most. */
  lemma WorthOnce(h: Host, v: Value)
    ensures forall x, y :: Worth(h, v, x) && Worth(h, v, y) ==> x == y
    ensures forall at, answer :: NoNumber(h, v, at, answer) ==> !SomeWorth(h, v)
    ensures forall at, a, b :: NoNumber(h, v, at, a) && NoNumber(h, v, at, b) ==> a == b
  {
    NumberMeans(h, v, 0);
    hide Worth, Worthless, ToNumber;
  }

  lemma NumbersOnce(h: Host, args: seq<Value>, xs: seq<real>, ys: seq<real>)
    requires AreWorth(h, args, xs) && AreWorth(h, args, ys)
    ensures xs == ys
  {
    hide Worth;
    forall i | 0 <= i < |xs| ensures xs[i] == ys[i] { WorthOnce(h, args[i]); }
  }

  lemma WorthlessOnce(h: Host, args: seq<Value>, at: nat, a: Answer, b: Answer)
    requires FirstWorthless(h, args, at, a) && FirstWorthless(h, args, at, b)
    ensures a == b
  {
    hide NoNumber, SomeWorth;
    var i :| 0 <= i < |args| && WorthlessAt(h, args, i, at, a);
    var j :| 0 <= j < |args| && WorthlessAt(h, args, j, at, b);
    WorthOnce(h, args[i]);
    WorthOnce(h, args[j]);
  }

  lemma WorthOrNot(h: Host, args: seq<Value>, at: nat, answer: Answer, xs: seq<real>)
    requires FirstWorthless(h, args, at, answer)
    ensures !AreWorth(h, args, xs)
  {
    hide NoNumber, Worth;
    var i :| 0 <= i < |args| && WorthlessAt(h, args, i, at, answer);
    WorthOnce(h, args[i]);
  }

  /** The numbers the arguments count as, or the error of the first that counts as none. */
  lemma NumbersAre(h: Host, args: seq<Value>, at: nat)
    ensures forall xs :: AreWorth(h, args, xs) <==> Numbers(h, args, at) == Ok(xs)
    ensures forall answer: Answer ::
      FirstWorthless(h, args, at, answer) <==> Numbers(h, args, at).Err? && answer == Err(Numbers(h, args, at).error)
  {
    hide *;
    NumbersMean(h, args, at);
    var ns := Numbers(h, args, at);
    forall xs ensures AreWorth(h, args, xs) <==> ns == Ok(xs) {
      if AreWorth(h, args, xs) {
        if ns.Ok? { NumbersOnce(h, args, xs, ns.value); } else { WorthOrNot(h, args, at, Err(ns.error), xs); }
      }
    }
    forall answer: Answer | FirstWorthless(h, args, at, answer) ensures ns.Err? && answer == Err(ns.error) {
      if ns.Ok? { WorthOrNot(h, args, at, answer, ns.value); }
      else { WorthlessOnce(h, args, at, answer, Err(ns.error)); }
    }
  }

  /** The texts of the arguments, one for each. */
  ghost predicate AreWritten(h: Host, args: seq<Value>, texts: seq<string>) {
    |texts| == |args| && forall i :: 0 <= i < |args| ==> Written(h, args[i], texts[i])
  }

  /** The arguments that hold something, in their order. */
  function NotEmpty(args: seq<Value>): (vs: seq<Value>) {
    if args == [] then []
    else if args[0] == Empty then NotEmpty(args[1..])
    else [args[0]] + NotEmpty(args[1..])
  }

  /** Texts put together, with another between any two. */
  function Glue(parts: seq<string>, between: string): string {
    if parts == [] then ""
    else if |parts| == 1 then parts[0]
    else parts[0] + between + Glue(parts[1..], between)
  }

  lemma {:induction false} GlueBehind(parts: seq<string>, between: string, last: string)
    requires parts != []
    ensures Glue(parts + [last], between) == Glue(parts, between) + between + last
  {
    if |parts| > 1 {
      GlueBehind(parts[1..], between, last);
      assert (parts + [last])[1..] == parts[1..] + [last];
    } else {
      assert (parts + [last])[1..] == [last];
    }
  }

  lemma {:induction false} GlueIsJoin(parts: seq<string>, between: string)
    ensures Join(parts, between) == Glue(parts, between)
  {
    if |parts| > 1 {
      var front, last := parts[..|parts| - 1], parts[|parts| - 1];
      assert parts == front + [last];
      GlueIsJoin(front, between);
      GlueBehind(front, between, last);
    }
  }

  lemma WrittenTexts(h: Host, args: seq<Value>, texts: seq<string>)
    ensures AreWritten(h, args, texts) <==>
      |texts| == |args| && forall i :: 0 <= i < |args| ==> texts[i] == ToText(h, args[i])
  {
    hide Written, ToText;
    forall i | 0 <= i < |args| ensures forall s :: Written(h, args[i], s) <==> s == ToText(h, args[i]) {
      TextMeans(h, args[i]);
    }
  }

  lemma {:induction false} AllTextsAre(h: Host, args: seq<Value>, texts: seq<string>)
    requires AreWritten(h, args, texts)
    ensures AllTexts(h, args) == Glue(texts, "")
  {
    hide Written, ToText;
    if args != [] {
      var n := |args| - 1;
      AllTextsAre(h, args[..n], texts[..n]);
      WrittenTexts(h, args, texts);
      assert texts == texts[..n] + [texts[n]];
      if n > 0 { GlueBehind(texts[..n], "", texts[n]); }
    }
  }

  lemma {:induction false} NotEmptyBehind(args: seq<Value>, last: Value)
    ensures NotEmpty(args + [last]) == NotEmpty(args) + (if last == Empty then [] else [last])
  {
    if args != [] {
      NotEmptyBehind(args[1..], last);
      assert (args + [last])[1..] == args[1..] + [last];
    } else {
      assert (args + [last])[1..] == [];
    }
  }

  lemma {:induction false} FilledAre(h: Host, args: seq<Value>)
    ensures AreWritten(h, NotEmpty(args), FilledTexts(h, args))
  {
    hide Written, ToText;
    if args != [] {
      var front, last := args[..|args| - 1], args[|args| - 1];
      assert args == front + [last];
      FilledAre(h, front);
      NotEmptyBehind(front, last);
      TextMeans(h, last);
    }
  }

  lemma WrittenOnce(h: Host, args: seq<Value>, s: seq<string>, t: seq<string>)
    requires AreWritten(h, args, s) && AreWritten(h, args, t)
    ensures s == t
  {
    WrittenTexts(h, args, s);
    WrittenTexts(h, args, t);
    hide AreWritten, ToText;
  }

  // ─── Replacing a text ───

  predicate Occurs(s: string, what: string, k: nat)
    requires k <= |s|
  {
    what <= s[k..]
  }

  /** The searched text begins nowhere in the piece, even with a whole one behind it. */
  predicate Free(piece: string, what: string) {
    forall k :: 0 <= k < |piece| ==> !Occurs(piece + what, what, k)
  }

  predicate FreeAtEnd(piece: string, what: string) {
    forall k :: 0 <= k <= |piece| ==> !Occurs(piece, what, k)
  }

  /** The pieces between the places where the searched text stands, found from the left. */
  predicate Cleft(pieces: seq<string>, what: string) {
    && pieces != []
    && (forall i :: 0 <= i < |pieces| - 1 ==> Free(pieces[i], what))
    && FreeAtEnd(pieces[|pieces| - 1], what)
  }

  function Single(s: string): seq<string> { seq(|s|, i requires 0 <= i < |s| => [s[i]]) }

  /** One text with another put in every place of a third; an empty text stands between any two
      characters and at both ends. */
  ghost predicate Replaced(s: string, what: string, with: string, r: string) {
    if what == "" then r == Glue([""] + Single(s) + [""], with)
    else exists pieces :: Cleft(pieces, what) && s == Glue(pieces, what) && r == Glue(pieces, with)
  }

  lemma OccursBehind(s: string, what: string, k: nat)
    requires 0 < k <= |s|
    ensures Occurs(s[1..], what, k - 1) <==> Occurs(s, what, k)
  {
    assert s[1..][k - 1..] == s[k..];
  }

  lemma {:induction false} FreeStays(piece: string, what: string, rest: string, with: string)
    requires what != "" && Free(piece, what)
    ensures ReplaceText(piece + what + rest, what, with) == piece + with + ReplaceText(rest, what, with)
  {
    hide ReplaceText, Free;
    var s := piece + what + rest;
    if piece == "" {
      assert s == what + rest;
      ReplaceHere(what, rest, with);
    } else {
      FreeTail(piece, what);
      FreeStays(piece[1..], what, rest, with);
      assert s[1..] == piece[1..] + what + rest;
      FreeFront(piece, what, rest);
      ReplaceSteps(s, what, with);
      assert piece == [piece[0]] + piece[1..];
    }
  }

  lemma FreeFront(piece: string, what: string, rest: string)
    requires piece != "" && Free(piece, what)
    ensures !(what <= piece + what + rest)
  {
    assert (piece + what)[0..] == piece + what && !Occurs(piece + what, what, 0);
    assert (piece + what + rest)[..|what|] == (piece + what)[..|what|];
  }

  lemma ReplaceHere(what: string, rest: string, with: string)
    requires what != ""
    ensures ReplaceText(what + rest, what, with) == with + ReplaceText(rest, what, with)
  {
    assert (what + rest)[|what|..] == rest;
  }

  lemma ReplaceSteps(s: string, what: string, with: string)
    requires what != "" && s != "" && !(what <= s)
    ensures ReplaceText(s, what, with) == [s[0]] + ReplaceText(s[1..], what, with)
  {
  }

  lemma FreeTail(piece: string, what: string)
    requires piece != "" && Free(piece, what)
    ensures Free(piece[1..], what)
  {
    assert (piece + what)[1..] == piece[1..] + what;
    forall k | 0 <= k < |piece| - 1 ensures !Occurs(piece[1..] + what, what, k) {
      OccursBehind(piece + what, what, k + 1);
    }
  }

  lemma {:induction false} FreeAtEndStays(piece: string, what: string, with: string)
    requires what != "" && FreeAtEnd(piece, what)
    ensures ReplaceText(piece, what, with) == piece
  {
    if piece != "" {
      assert piece[0..] == piece && !Occurs(piece, what, 0);
      forall k | 0 <= k <= |piece| - 1 ensures !Occurs(piece[1..], what, k) {
        OccursBehind(piece, what, k + 1);
      }
      FreeAtEndStays(piece[1..], what, with);
    }
  }

  lemma {:induction false} CleftReplaced(pieces: seq<string>, what: string, with: string)
    requires what != "" && Cleft(pieces, what)
    ensures ReplaceText(Glue(pieces, what), what, with) == Glue(pieces, with)
    decreases |pieces|
  {
    hide Free, FreeAtEnd, ReplaceText;
    if |pieces| == 1 {
      FreeAtEndStays(pieces[0], what, with);
    } else {
      CleftReplaced(pieces[1..], what, with);
      FreeStays(pieces[0], what, Glue(pieces[1..], what), with);
    }
  }

  /** Every text falls into such pieces. */
  lemma {:induction false} Cleaves(s: string, what: string) returns (pieces: seq<string>)
    requires what != ""
    ensures Cleft(pieces, what) && Glue(pieces, what) == s
  {
    if s == "" {
      pieces := [""];
    } else if what <= s {
      var rest := Cleaves(s[|what|..], what);
      pieces := [""] + rest;
      assert pieces[1..] == rest && s == what + s[|what|..];
    } else {
      var rest := Cleaves(s[1..], what);
      pieces := [[s[0]] + rest[0]] + rest[1..];
      GlueFront([s[0]], rest, what);
      assert s == [s[0]] + s[1..];
      PieceGrows(s, rest, what);
    }
  }

  lemma GlueFront(a: string, parts: seq<string>, between: string)
    requires parts != []
    ensures Glue([a + parts[0]] + parts[1..], between) == a + Glue(parts, between)
  {
    assert ([a + parts[0]] + parts[1..])[1..] == parts[1..];
  }

  lemma PieceGrows(s: string, rest: seq<string>, what: string)
    requires what != "" && s != "" && !(what <= s) && Cleft(rest, what) && Glue(rest, what) == s[1..]
    ensures Cleft([[s[0]] + rest[0]] + rest[1..], what)
  {
    var first := [s[0]] + rest[0];
    if |rest| == 1 {
      assert first == s && s[0..] == s;
      forall k | 0 <= k <= |s| ensures !Occurs(s, what, k) {
        if k > 0 { OccursBehind(s, what, k); }
      }
    } else {
      FreeGrows(s, rest[0], what, Glue(rest[1..], what));
    }
  }

  lemma FreeGrows(s: string, piece: string, what: string, behind: string)
    requires s != "" && !(what <= s) && Free(piece, what) && s[1..] == piece + what + behind
    ensures Free([s[0]] + piece, what)
  {
    var first := [s[0]] + piece;
    assert s == first + what + behind;
    assert (first + what)[1..] == piece + what && (first + what)[0..] == first + what;
    assert s[..|what|] == (first + what)[..|what|];
    forall k | 0 <= k < |first| ensures !Occurs(first + what, what, k) {
      if k > 0 { OccursBehind(first + what, what, k); }
    }
  }

  lemma {:induction false} InterleaveGlued(s: string, with: string)
    ensures Glue(Single(s) + [""], with) == Interleave(s, with)
  {
    if s != "" {
      InterleaveGlued(s[1..], with);
      assert (Single(s) + [""])[1..] == Single(s[1..]) + [""];
    }
  }

  lemma ReplaceMeans(s: string, what: string, with: string, r: string)
    ensures Replaced(s, what, with, r) <==> r == ReplaceAll(s, what, with)
  {
    hide ReplaceText, Interleave, Cleft;
    if what == "" {
      InterleaveGlued(s, with);
      var parts := [""] + Single(s) + [""];
      assert parts[1..] == Single(s) + [""];
    } else {
      var pieces := Cleaves(s, what);
      CleftReplaced(pieces, what, with);
      if Replaced(s, what, with, r) {
        var other :| Cleft(other, what) && s == Glue(other, what) && r == Glue(other, with);
        CleftReplaced(other, what, with);
      }
    }
  }

  // ─── Counts and positions ───

  /** So many of the characters that are there: the whole part of the number, if it is that many. */
  predicate Takes(x: real, available: nat, k: nat) {
    k <= available && (if k == available then available as real <= x else k as real <= x < (k + 1) as real)
  }

  /** The place a position stands for, from 0 on; positions below 2 stand for the first. */
  predicate Place(position: real, k: nat) {
    if k == 0 then position < 2.0 else (k + 1) as real <= position < (k + 2) as real
  }

  /** The characters from a position on: nothing behind the end or for no count, no more than there are. */
  ghost predicate MidOf(s: string, position: real, count: real, v: Value) {
    exists from: nat :: Place(position, from) &&
      if from >= |s| || count <= 0.0 then v == Empty else FrontOf(s[from..], count, v)
  }

  ghost predicate FrontOf(s: string, count: real, v: Value) {
    exists k: nat :: Takes(count, |s|, k) && v == Text(s[..k])
  }

  lemma TruncateMeans(x: real)
    ensures x >= 0.0 ==> Truncate(x) as real <= x < (Truncate(x) + 1) as real
    ensures x < 0.0 ==> Truncate(x) <= 0
  {
  }

  lemma TakesOnce(x: real, available: nat, k: nat)
    requires x >= 0.0
    ensures Takes(x, available, k) <==> k == if Truncate(x) > available then available else Truncate(x)
  {
    TruncateMeans(x);
  }

  lemma PlaceOnce(position: real, k: nat)
    ensures Place(position, k) <==> k == if Truncate(position) - 1 < 0 then 0 else Truncate(position) - 1
  {
    TruncateMeans(position);
  }

  lemma FrontMeans(s: string, count: real, v: Value)
    requires count >= 0.0
    ensures FrontOf(s, count, v) <==> v == Text(s[..if Truncate(count) > |s| then |s| else Truncate(count)])
  {
    TruncateMeans(count);
    forall k: nat ensures Takes(count, |s|, k) <==> k == if Truncate(count) > |s| then |s| else Truncate(count) {
      TakesOnce(count, |s|, k);
    }
    hide Takes, Truncate;
  }

  lemma MiddleFrom(s: string, position: real, count: real, from: nat)
    requires Place(position, from)
    ensures MiddleOf(s, position, count) ==
      if from >= |s| || count <= 0.0 then Empty
      else Text(s[from..][..if Truncate(count) > |s[from..]| then |s[from..]| else Truncate(count)])
  {
    PlaceOnce(position, from);
    TruncateMeans(count);
    hide Place, Truncate;
    if from < |s| && count > 0.0 {
      var k := if Truncate(count) > |s| - from then |s| - from else Truncate(count);
      assert s[from..][..k] == s[from..from + k];
    }
  }

  lemma MiddleMeans(s: string, position: real, count: real, v: Value)
    ensures MidOf(s, position, count, v) <==> v == MiddleOf(s, position, count)
  {
    hide *;
    var from := if Truncate(position) - 1 < 0 then 0 else Truncate(position) - 1;
    PlaceOnce(position, from);
    MiddleFrom(s, position, count, from);
    if from < |s| && count > 0.0 { FrontMeans(s[from..], count, v); }
    forall k: nat ensures Place(position, k) <==> k == from { PlaceOnce(position, k); }
    MidIs(s, position, count, v, from);
  }

  lemma MidIs(s: string, position: real, count: real, v: Value, from: nat)
    requires forall k: nat :: Place(position, k) <==> k == from
    ensures MidOf(s, position, count, v) <==>
      if from >= |s| || count <= 0.0 then v == Empty else FrontOf(s[from..], count, v)
  {
    hide Place, FrontOf;
  }

  // ─── The functions ───

  function SumOf(xs: seq<real>): real { if xs == [] then 0.0 else xs[0] + SumOf(xs[1..]) }

  /** What a function makes of the numbers its arguments count as. */
  predicate OfAll(h: Host, fn: Function, xs: seq<real>, y: real)
    requires xs != []
  {
    match fn
    case Sum => y == SumOf(xs)
    case Average => y * |xs| as real == SumOf(xs)
    case Min => y in xs && forall x :: x in xs ==> y <= x
    case Max => y in xs && forall x :: x in xs ==> x <= y
    case Abs => y >= 0.0 && (y == xs[0] || y == -xs[0])
    case _ => y == h.round(xs[0], if |xs| == 1 then 0.0 else xs[1])
  }

  ghost predicate Altered(h: Host, fn: Function, s: string, t: string) {
    match fn
    case Upper => t == h.toUpper(s)
    case Lower => t == h.toLower(s)
    case _ => Surrounds(h, s, t)
  }

  /** Nothing of nothing, and a text made of the text of anything else. */
  ghost predicate Retold(h: Host, fn: Function, v: Value, answer: Answer) {
    if v == Empty then answer == Ok(Empty)
    else exists s, t :: Written(h, v, s) && Altered(h, fn, s, t) && answer == Ok(Text(t))
  }

  /** So many characters from one end or the other; a negative number is an error. */
  ghost predicate Ended(h: Host, fn: Function, at: nat, v: Value, count: Value, answer: Answer) {
    || NoNumber(h, count, at, answer)
    || exists s, x :: Written(h, v, s) && Worth(h, count, x) &&
         if x < 0.0 then answer == Err(Error(at, NegativeCount))
         else exists k: nat :: Takes(x, |s|, k) && answer == Ok(Text(if fn == Left then s[..k] else s[|s| - k..]))
  }

  /** Nothing of nothing, and a part of the moment anything else stands for. */
  ghost predicate Parted(h: Host, fn: Function, at: nat, v: Value, answer: Answer) {
    if v == Empty then answer == Ok(Empty)
    else if answer.Err? then answer.error.pos == at && Undated(h, v, answer.error.problem)
    else exists t :: Dated(h, v, t) && answer.value == Number(
      match fn case Year => h.year(t) case Month => h.month(t) case _ => h.day(t))
  }

  /** The first argument that is not empty. */
  predicate FirstOf(args: seq<Value>, v: Value) {
    if exists i :: 0 <= i < |args| && args[i] != Empty
    then exists i :: 0 <= i < |args| && args[i] == v && v != Empty && forall j :: 0 <= j < i ==> args[j] == Empty
    else v == Empty
  }

  /** What each function answers for the values of its arguments. */
  ghost predicate Yields(h: Host, fn: Function, at: nat, args: seq<Value>, answer: Answer)
    requires LegalArity(fn, |args|) && fn != If && fn != Case
  {
    match fn
    case Upper | Lower | Trim => Retold(h, fn, args[0], answer)
    case Length => exists s :: Written(h, args[0], s) && IsNumber(answer, |s| as real)
    case Substitute =>
      exists texts, r ::
        AreWritten(h, args, texts) && Replaced(texts[0], texts[1], texts[2], r) && answer == Ok(Text(r))
    case List =>
      if NotEmpty(args) == [] then answer == Ok(Empty)
      else exists texts :: AreWritten(h, NotEmpty(args), texts) && answer == Ok(Text(Glue(texts, "\n")))
    case Concat => exists texts :: AreWritten(h, args, texts) && answer == Ok(Text(Glue(texts, "")))
    case Left | Right => Ended(h, fn, at, args[0], args[1], answer)
    case Middle =>
      || FirstWorthless(h, args[1..], at, answer)
      || exists s, xs :: Written(h, args[0], s) && AreWorth(h, args[1..], xs) &&
           answer.Ok? && MidOf(s, xs[0], xs[1], answer.value)
    case Round | Abs | Sum | Min | Max | Average =>
      || FirstWorthless(h, args, at, answer)
      || exists xs, y :: AreWorth(h, args, xs) && OfAll(h, fn, xs, y) && IsNumber(answer, y)
    case IsEmpty => answer == Ok(Bool(args[0] == Empty))
    case Coalesce => answer.Ok? && FirstOf(args, answer.value)
    case Today => answer == Ok(Time(h.startOfDay(h.now)))
    case Now => answer == Ok(Time(h.now))
    case Year | Month | Day => Parted(h, fn, at, args[0], answer)
  }

  lemma RetoldMeans(h: Host, fn: Function, at: nat, args: seq<Value>, answer: Answer)
    requires fn in {Function.Upper, Function.Lower, Function.Trim} && |args| == 1
    ensures Retold(h, fn, args[0], answer) <==> answer == Apply(h, fn, at, args)
  {
    var s := ToText(h, args[0]);
    TextMeans(h, args[0]);
    forall t ensures Surrounds(h, s, t) <==> t == Common.Trim(h, s) { TrimSurrounds(h, s, t); }
    hide Written, ToText, Surrounds, Common.Trim;
    var t := match fn case Upper => h.toUpper(s) case Lower => h.toLower(s) case _ => Common.Trim(h, s);
    assert Written(h, args[0], s) && Altered(h, fn, s, t);
  }

  lemma TextsMean(h: Host, fn: Function, at: nat, args: seq<Value>, answer: Answer)
    requires fn in {Length, Substitute, Concat} && LegalArity(fn, |args|)
    ensures Yields(h, fn, at, args, answer) <==> answer == Apply(h, fn, at, args)
  {
    var texts := seq(|args|, i requires 0 <= i < |args| => ToText(h, args[i]));
    WrittenTexts(h, args, texts);
    AllTextsAre(h, args, texts);
    forall other | AreWritten(h, args, other) ensures other == texts { WrittenOnce(h, args, texts, other); }
    if fn == Substitute {
      forall r ensures Replaced(texts[0], texts[1], texts[2], r) <==> r == ReplaceAll(texts[0], texts[1], texts[2]) {
        ReplaceMeans(texts[0], texts[1], texts[2], r);
      }
    }
    TextMeans(h, args[0]);
    hide Written, ToText, Replaced, ReplaceAll, AllTexts, Glue, AreWritten;
    assert Written(h, args[0], ToText(h, args[0]));
  }

  lemma ListMeans(h: Host, at: nat, args: seq<Value>, answer: Answer)
    requires LegalArity(List, |args|)
    ensures Yields(h, List, at, args, answer) <==> answer == Apply(h, List, at, args)
  {
    var parts := FilledTexts(h, args);
    FilledAre(h, args);
    GlueIsJoin(parts, "\n");
    assert |parts| == |NotEmpty(args)|;
    forall other | AreWritten(h, NotEmpty(args), other) ensures other == parts {
      WrittenOnce(h, NotEmpty(args), parts, other);
    }
    hide AreWritten, FilledTexts, NotEmpty, Join, Glue;
  }

  lemma EndMeans(h: Host, fn: Function, at: nat, args: seq<Value>, answer: Answer)
    requires fn in {Left, Right} && |args| == 2
    ensures Ended(h, fn, at, args[0], args[1], answer) <==> answer == Apply(h, fn, at, args)
  {
    var s, n := ToText(h, args[0]), ToNumber(h, args[1], at);
    TextMeans(h, args[0]);
    NumberMeans(h, args[1], at);
    NoNumberMeans(h, args[1], at, answer);
    if n.Ok? && n.value >= 0.0 {
      TruncateMeans(n.value);
      forall k: nat
        ensures Takes(n.value, |s|, k) <==> k == if Truncate(n.value) > |s| then |s| else Truncate(n.value)
      {
        TakesOnce(n.value, |s|, k);
      }
    }
    hide Written, ToText, Worth, Worthless, NoNumber, ToNumber, Takes, Truncate;
    assert Written(h, args[0], s) && (n.Ok? ==> Worth(h, args[1], n.value));
  }

  lemma MidMeans(h: Host, at: nat, args: seq<Value>, answer: Answer)
    requires |args| == 3
    ensures Yields(h, Middle, at, args, answer) <==> answer == Apply(h, Middle, at, args)
  {
    var s, ns := ToText(h, args[0]), Numbers(h, args[1..], at);
    TextMeans(h, args[0]);
    NumbersAre(h, args[1..], at);
    if ns.Ok? && answer.Ok? { MiddleMeans(s, ns.value[0], ns.value[1], answer.value); }
    hide Written, ToText, AreWorth, FirstWorthless, Numbers, MidOf, MiddleOf;
    assert Written(h, args[0], s) && (ns.Ok? ==> AreWorth(h, args[1..], ns.value));
  }

  lemma PartMeans(h: Host, fn: Function, at: nat, args: seq<Value>, answer: Answer)
    requires fn in {Year, Month, Day} && |args| == 1
    ensures Parted(h, fn, at, args[0], answer) <==> answer == Apply(h, fn, at, args)
  {
    TimeMeans(h, args[0], at);
    var t := ToTime(h, args[0], at);
    hide Dated, Undated, ToTime;
    assert t.Ok? ==> Dated(h, args[0], t.value);
    assert t.Err? ==> t.error == Error(at, t.error.problem);
    assert answer.Err? ==> answer.error == Error(answer.error.pos, answer.error.problem);
  }

  lemma {:induction false} FirstFilledMeans(args: seq<Value>, v: Value)
    ensures FirstOf(args, v) <==> v == FirstFilled(args)
  {
    if args != [] {
      FirstFilledMeans(args[1..], v);
      if args[0] == Empty { FirstBehind(args, v); }
    }
  }

  lemma FirstBehind(args: seq<Value>, v: Value)
    requires args != [] && args[0] == Empty
    ensures FirstOf(args, v) <==> FirstOf(args[1..], v)
  {
    var rest := args[1..];
    assert forall i :: 0 <= i < |rest| ==> rest[i] == args[i + 1];
    if i :| 0 <= i < |args| && args[i] != Empty { assert rest[i - 1] != Empty; }
    if i :| 0 <= i < |rest| && rest[i] == v && v != Empty && forall j :: 0 <= j < i ==> rest[j] == Empty {
      assert args[i + 1] == v;
      assert forall j :: 0 < j < i + 1 ==> args[j] == rest[j - 1];
    }
    if i :| 0 <= i < |args| && args[i] == v && v != Empty && forall j :: 0 <= j < i ==> args[j] == Empty {
      assert rest[i - 1] == v;
      assert forall j :: 0 <= j < i - 1 ==> rest[j] == args[j + 1];
    }
  }

  lemma {:induction false} SumBehind(xs: seq<real>, x: real)
    ensures SumOf(xs + [x]) == SumOf(xs) + x
  {
    if xs != [] {
      SumBehind(xs[1..], x);
      assert (xs + [x])[1..] == xs[1..] + [x];
    } else {
      assert (xs + [x])[1..] == [];
    }
  }

  lemma {:induction false} TotalIsSum(xs: seq<real>)
    ensures Total(xs) == SumOf(xs)
  {
    if xs != [] {
      var front, last := xs[..|xs| - 1], xs[|xs| - 1];
      assert xs == front + [last];
      TotalIsSum(front);
      SumBehind(front, last);
    }
  }

  lemma Quotient(y: real, n: real, sum: real)
    requires n > 0.0
    ensures y * n == sum <==> y == sum / n
  {
    assert sum / n * n == sum;
    if y * n == sum { assert (y - sum / n) * n == 0.0; }
  }

  /** The number a function answers with. */
  function NumberOf(h: Host, fn: Function, xs: seq<real>): real
    requires xs != []
  {
    match fn
    case Sum => Total(xs)
    case Average => Total(xs) / |xs| as real
    case Min => Least(xs)
    case Max => Greatest(xs)
    case Abs => if xs[0] < 0.0 then -xs[0] else xs[0]
    case _ => h.round(xs[0], if |xs| == 2 then xs[1] else 0.0)
  }

  lemma ExtremesMean(h: Host, fn: Function, xs: seq<real>, y: real)
    requires xs != [] && (fn == Min || fn == Max)
    ensures OfAll(h, fn, xs, y) <==> y == NumberOf(h, fn, xs)
  {
    EvaluatorLaws.LeastIsLeast(xs);
    hide Total, SumOf, Least, Greatest;
    if fn == Min && OfAll(h, fn, xs, y) { assert y <= Least(xs) <= y; }
    if fn == Max && OfAll(h, fn, xs, y) { assert y >= Greatest(xs) >= y; }
  }

  lemma AverageMeans(h: Host, xs: seq<real>, y: real)
    requires xs != []
    ensures OfAll(h, Average, xs, y) <==> y == NumberOf(h, Average, xs)
  {
    hide SumOf, Total;
    TotalIsSum(xs);
    Quotient(y, |xs| as real, SumOf(xs));
  }

  lemma OfAllMeans(h: Host, fn: Function, xs: seq<real>, y: real)
    requires xs != [] && fn in {Round, Abs, Sum, Min, Max, Average} && LegalArity(fn, |xs|)
    ensures OfAll(h, fn, xs, y) <==> y == NumberOf(h, fn, xs)
  {
    if fn == Average { AverageMeans(h, xs, y); }
    else if fn == Min || fn == Max { ExtremesMean(h, fn, xs, y); }
    else if fn == Sum { TotalIsSum(xs); }
  }

  lemma NumbersApplied(h: Host, fn: Function, at: nat, args: seq<Value>)
    requires fn in {Round, Abs, Sum, Min, Max, Average} && LegalArity(fn, |args|)
    ensures Apply(h, fn, at, args) ==
      match Numbers(h, args, at)
      case Err(e) => Err(e)
      case Ok(xs) => Ok(Number(NumberOf(h, fn, xs)))
  {
    hide ToNumber, Total, Least, Greatest;
    if fn == Abs {
      assert Numbers(h, args[1..], at) == Ok([]);
      assert ToNumber(h, args[0], at).Ok? ==> Numbers(h, args, at).value[0] == ToNumber(h, args[0], at).value;
    }
  }

  lemma NumberFunctionMeans(h: Host, fn: Function, at: nat, args: seq<Value>, answer: Answer)
    requires fn in {Round, Abs, Sum, Min, Max, Average} && LegalArity(fn, |args|)
    ensures Yields(h, fn, at, args, answer) <==> answer == Apply(h, fn, at, args)
  {
    hide AreWorth, FirstWorthless, Numbers, NumberOf, OfAll, Apply;
    var ns := Numbers(h, args, at);
    NumbersAre(h, args, at);
    NumbersApplied(h, fn, at, args);
    if ns.Ok? {
      assert AreWorth(h, args, ns.value);
      forall y ensures OfAll(h, fn, ns.value, y) <==> y == NumberOf(h, fn, ns.value) { OfAllMeans(h, fn, ns.value, y); }
      assert OfAll(h, fn, ns.value, NumberOf(h, fn, ns.value));
    } else {
      assert FirstWorthless(h, args, at, answer) <==> answer == Err(ns.error);
    }
  }

  /** What a function answers for values is what is said of it, and nothing else. */
  lemma FunctionMeans(h: Host, fn: Function, at: nat, args: seq<Value>, answer: Answer)
    requires LegalArity(fn, |args|) && fn != If && fn != Case
    ensures Yields(h, fn, at, args, answer) <==> answer == Apply(h, fn, at, args)
  {
    hide Retold, Ended, Parted, FirstOf, FirstFilled, Written, Worth, AreWritten, AreWorth, FirstWorthless, NotEmpty,
         OfAll, Numbers, MidOf, Replaced, MapText, DatePart, OfNumber, OfNumbers, CountOf;
    match fn
    case Upper | Lower | Trim => RetoldMeans(h, fn, at, args, answer);
    case Length | Substitute | Concat => TextsMean(h, fn, at, args, answer);
    case List => ListMeans(h, at, args, answer);
    case Left | Right => EndMeans(h, fn, at, args, answer);
    case Middle => MidMeans(h, at, args, answer);
    case Round | Abs | Sum | Min | Max | Average => NumberFunctionMeans(h, fn, at, args, answer);
    case Coalesce => if answer.Ok? { FirstFilledMeans(args, answer.value); }
    case Year | Month | Day => PartMeans(h, fn, at, args, answer);
    case _ =>
  }
}
