/** Operators typed into a field: what is typed for a criterion is read back as that criterion. */
module FindTyped {
  import opened Common
  import opened Find

  const SIGNS: set<string> := {"==", "=", ">=", "<=", ">", "<", "!="}

  /** How a criterion is typed. */
  function Typed(c: FindCriterion): string {
    match c.operator
    case "IS_EMPTY" => "="
    case "IS_NOT_EMPTY" => "*"
    case "RANGE" => Printed(c.value) + "..." + Printed(c.valueTo)
    case "LIKE" => Printed(c.value)
    case _ => c.operator + Printed(c.value)
  }

  /** The text would be read as an operator and its value, or as a range. */
  predicate ReadsAsSign(s: string) {
    "=" <= s || "!" <= s || ">" <= s || "<" <= s || s == "*" || Contains(s, "...")
  }

  /** The criterion is one that can be typed: its values do not run into its operator, hold no
      operator of their own, and have no white space around them. */
  predicate Typeable(h: Host, c: FindCriterion) {
    && !Contains(Typed(c), "//") && c.value.Some? && Trim(h, c.value.value) == c.value.value
    && c.relationship == "" && c.occurrence == ""
    && match c.operator
       case "IS_EMPTY" | "IS_NOT_EMPTY" => c.value.value == "" && c.valueTo.None?
       case "RANGE" =>
         c.valueTo.Some? && Trim(h, c.valueTo.value) == c.valueTo.value && !Contains(c.value.value + "..", "...")
       case "LIKE" => c.valueTo.None? && c.value.value != "" && !ReadsAsSign(c.value.value)
       case _ =>
         && c.operator in SIGNS && c.valueTo.None? && !Contains(Typed(c), "...")
         && (c.operator == "=" ==> c.value.value != "")
         && (c.operator in {"=", ">", "<"} ==> !("=" <= c.value.value))
  }

  predicate HasWildcard(s: string) { exists i :: 0 <= i < |s| && s[i] in {'*', '@', '?'} }

  function WildChar(ch: char): char { if ch == '*' then '%' else if ch == '@' || ch == '?' then '_' else ch }

  /** The pattern SQL knows for a text with wildcards. */
  function Pattern(s: string): (p: string)
    ensures |p| == |s| && forall i :: 0 <= i < |s| ==> p[i] == WildChar(s[i])
  {
    seq(|s|, i requires 0 <= i < |s| => WildChar(s[i]))
  }

  /** A text with wildcards stands for its pattern, a plain one for a containment; any other
      criterion is read as it is. */
  function ReadBack(c: FindCriterion): FindCriterion {
    if c.operator != "LIKE" || c.value.None? then c
    else c.(value := Some(if HasWildcard(c.value.value) then Pattern(c.value.value) else "%" + c.value.value + "%"))
  }

  function TodayFor(h: Host, v: Option<string>): Option<string> {
    if v == Some("//") then Some(h.formatDate(h.now)) else v
  }

  /** The criterion with today's date for every value that is two slashes. */
  function Today(h: Host, c: FindCriterion): FindCriterion {
    c.(value := TodayFor(h, c.value), valueTo := TodayFor(h, c.valueTo))
  }

  // ─── Wildcards ───

  lemma {:induction false} ReplacedChars(s: string, what: char, with: char)
    ensures var r := ReplaceText(s, [what], [with]);
      |r| == |s| && forall i :: 0 <= i < |s| ==> r[i] == if s[i] == what then with else s[i]
  {
    if s != "" {
      ReplacedChars(s[1..], what, with);
      assert [what] <= s <==> s[0] == what;
      assert forall i :: 0 < i < |s| ==> s[i] == s[1..][i - 1];
    }
  }

  lemma WildcardsReplaced(s: string)
    ensures ReplaceAll(ReplaceAll(ReplaceAll(s, "*", "%"), "@", "_"), "?", "_") == Pattern(s)
  {
    ReplacedChars(s, '*', '%');
    var a := ReplaceText(s, "*", "%");
    ReplacedChars(a, '@', '_');
    var b := ReplaceText(a, "@", "_");
    ReplacedChars(b, '?', '_');
    hide ReplaceText;
  }

  lemma HoldsChar(s: string, ch: char)
    ensures Contains(s, [ch]) <==> exists i :: 0 <= i < |s| && s[i] == ch
  {
    hide IndexOf;
    if i :| 0 <= i < |s| && s[i] == ch { assert StandsAt(s, [ch], i); }
    if IndexOf(s, [ch]).Some? {
      var i := IndexOf(s, [ch]).value;
      assert StandsAt(s, [ch], i) && s[i..][0] == s[i];
    }
  }

  lemma LikeDated(h: Host, field: string, v: string)
    requires v != "" && !ReadsAsSign(v)
    ensures ParseDated(h, field, v)
      == Criterion(field, "LIKE", Some(if HasWildcard(v) then Pattern(v) else "%" + v + "%"), None)
  {
    HoldsChar(v, '*');
    HoldsChar(v, '@');
    HoldsChar(v, '?');
    WildcardsReplaced(v);
    var wild := Contains(v, "*") || Contains(v, "@") || Contains(v, "?");
    assert wild <==> HasWildcard(v);
    hide Contains, HasWildcard, ReplaceAll, Pattern;
    assert "==" <= v ==> "=" <= v;
    assert ">=" <= v ==> ">" <= v;
    assert "<=" <= v ==> "<" <= v;
    assert "!=" <= v ==> "!" <= v;
    NoRange(v);
  }

  lemma NoRange(v: string)
    ensures Contains(v, "...") <==> IndexOf(v, "...").Some?
  {
  }

  // ─── Signs and ranges ───

  lemma TrimmedEnds(h: Host, s: string)
    requires Trim(h, s) == s && s != ""
    ensures !IsSpace(h, s[0]) && !IsSpace(h, s[|s| - 1])
  {
  }

  lemma EndsTrimmed(h: Host, s: string)
    requires s != "" && !IsSpace(h, s[0]) && !IsSpace(h, s[|s| - 1])
    ensures Trim(h, s) == s
  {
  }

  lemma EqualsDated(h: Host, field: string, sign: string, v: string)
    requires sign in {"==", "="} && IndexOf(sign + v, "...").None? && Trim(h, v) == v
    requires sign == "=" ==> v != "" && !("=" <= v)
    ensures ParseDated(h, field, sign + v) == Criterion(field, sign, Some(v), None)
  {
    var t := sign + v;
    assert t[0] == sign[0] && t[|sign|..] == v;
    assert |t| > 1 ==> t[1] == if |sign| == 1 then v[0] else sign[1];
    hide Trim, IndexOf, Contains;
  }

  lemma OrderDated(h: Host, field: string, sign: string, v: string)
    requires sign in {">", "<"} && IndexOf(sign + v, "...").None? && Trim(h, v) == v && !("=" <= v)
    ensures ParseDated(h, field, sign + v) == Criterion(field, sign, Some(v), None)
  {
    var t := sign + v;
    assert t[0] == sign[0] && t[|sign|..] == v;
    assert |t| > 1 ==> t[1] == v[0];
    hide Trim, IndexOf, Contains;
  }

  lemma TwoSignsDated(h: Host, field: string, sign: string, v: string)
    requires sign in {">=", "<=", "!="} && IndexOf(sign + v, "...").None? && Trim(h, v) == v
    ensures ParseDated(h, field, sign + v) == Criterion(field, sign, Some(v), None)
  {
    var t := sign + v;
    assert t[0] == sign[0] && t[|sign|..] == v;
    assert t[1] == sign[1];
    hide Trim, IndexOf, Contains;
  }

  lemma SignShape(h: Host, c: FindCriterion)
    requires Typeable(h, c) && c.operator in SIGNS
    ensures c.value.Some? && c.operator in {"==", "=", ">=", "<=", ">", "<", "!="}
    ensures var v := c.value.value;
      && Typed(c) == c.operator + v && c == Criterion(c.field, c.operator, Some(v), None)
      && !Contains(c.operator + v, "//") && IndexOf(c.operator + v, "...").None? && Trim(h, v) == v
      && (c.operator == "=" ==> v != "") && (c.operator in {"=", ">", "<"} ==> !("=" <= v))
  {
    hide Trim, IndexOf, ReadsAsSign;
    assert |c.operator| <= 2;
    assert |"IS_EMPTY"| > 2 && |"IS_NOT_EMPTY"| > 2 && |"RANGE"| > 2 && |"LIKE"| > 2;
  }

  lemma SignDated(h: Host, c: FindCriterion)
    requires Typeable(h, c) && c.operator in SIGNS
    ensures Trim(h, Typed(c)) == Typed(c) != "" && ParseDated(h, c.field, Typed(c)) == c
  {
    hide *;
    SignShape(h, c);
    SignTrimmed(h, c.operator, c.value.value);
    if c.operator in {"==", "="} { EqualsDated(h, c.field, c.operator, c.value.value); }
    else if c.operator in {">", "<"} { OrderDated(h, c.field, c.operator, c.value.value); }
    else { TwoSignsDated(h, c.field, c.operator, c.value.value); }
  }

  /** An exclamation mark alone stands for `!=`. */
  lemma ShortNotEqual(h: Host, c: FindCriterion)
    requires Typeable(h, c) && c.operator == "!=" && !("=" <= c.value.value) && !Contains("!" + c.value.value, "...")
    ensures ParseTyped(h, c.field, "!" + c.value.value) == c
  {
    var v := c.value.value;
    var t := "!" + v;
    SignShape(h, c);
    NoDates(v);
    if v != "" { TrimmedEnds(h, v); }
    EndsTrimmed(h, t);
    assert t[0] == '!' && t[1..] == v && (|t| > 1 ==> t[1] == v[0]);
    hide Trim, IndexOf, ReplaceAll, Typed, Typeable;
  }

  lemma NoDates(v: string)
    ensures Contains("!" + v, "//") ==> Contains("!=" + v, "//")
    ensures "!" + v != "//"
  {
    hide IndexOf;
    assert ("!" + v)[0] == '!' && ("!" + v)[1..] == v && "!=" + v == "!=" + ("" + v);
    assert ("!" + v)[0..] == "!" + v && !StandsAt("!" + v, "//", 0);
    if IndexOf("!" + v, "//").Some? {
      var i := IndexOf("!" + v, "//").value;
      assert v[i - 1..] == ("!" + v)[i..];
      assert StandsAt(v, "//", i - 1);
    }
    ContainsMore("!=", v, "//");
  }

  lemma SignTrimmed(h: Host, sign: string, v: string)
    requires sign in SIGNS && (v == "//" || v == "" || Trim(h, v) == v)
    ensures Trim(h, sign + v) == sign + v && sign + v != ""
  {
    if v != "" { PartEnds(h, v); }
    EndsTrimmed(h, sign + v);
  }

  lemma RangeIndex(v: string, w: string)
    requires !Contains(v + "..", "...")
    ensures IndexOf(v + "..." + w, "...") == Some(|v|)
  {
    var t := v + "..." + w;
    assert t[|v|..][..3] == "...";
    assert StandsAt(t, "...", |v|);
    forall i: nat | i < |v| ensures !StandsAt(t, "...", i) {
      assert !StandsAt(v + "..", "...", i);
      assert t[i..][..3] == (v + "..")[i..][..3];
    }
  }

  lemma RangeDated(h: Host, c: FindCriterion)
    requires Typeable(h, c) && c.operator == "RANGE"
    ensures ParseDated(h, c.field, Typed(c)) == c
  {
    var v, w := c.value.value, c.valueTo.value;
    var t := Typed(c);
    RangeIndex(v, w);
    assert t[..|v|] == v && t[|v| + 3..] == w;
    hide Trim, Contains, IndexOf, ReplaceAll, Typed;
  }

  // ─── Today's date ───

  lemma ContainsMore(a: string, b: string, what: string)
    ensures Contains(a, what) || Contains(b, what) ==> Contains(a + b, what)
  {
    hide IndexOf;
    if IndexOf(a, what).Some? {
      var i := IndexOf(a, what).value;
      assert (a + b)[i..][..|what|] == a[i..][..|what|] == what;
      assert StandsAt(a + b, what, i);
    } else if IndexOf(b, what).Some? {
      var i := IndexOf(b, what).value;
      assert (a + b)[|a| + i..] == b[i..];
      assert StandsAt(a + b, what, |a| + i);
    }
  }

  lemma NoneInFront(s: string, rest: string)
    requires s != "" && !Contains(s, "//") && (rest == "" || rest[0] != '/' || s[|s| - 1] != '/')
    ensures !("//" <= s + rest)
  {
    assert s[0..] == s && !StandsAt(s, "//", 0);
    hide IndexOf, Contains;
    var all := s + rest;
    assert |s| > 1 ==> all[0] == s[0] && all[1] == s[1];
    assert |s| == 1 && |all| > 1 ==> all[0] == s[0] && all[1] == rest[0];
  }

  lemma ReplaceOne(s: string, with: string)
    requires s != "" && !("//" <= s)
    ensures ReplaceText(s, "//", with) == [s[0]] + ReplaceText(s[1..], "//", with)
  {
  }

  /** What holds no two slashes stays as it is, in front of something that does not begin with one. */
  lemma {:induction false} ReplaceSkips(s: string, rest: string, with: string)
    requires !Contains(s, "//") && (rest == "" || s == "" || rest[0] != '/' || s[|s| - 1] != '/')
    ensures ReplaceText(s + rest, "//", with) == s + ReplaceText(rest, "//", with)
  {
    hide *;
    var all, r := s + rest, ReplaceText(rest, "//", with);
    if s == "" {
      assert all == rest && s + r == r;
    } else {
      NoneInFront(s, rest);
      assert s == [s[0]] + s[1..];
      ContainsMore([s[0]], s[1..], "//");
      ReplaceOne(all, with);
      ReplaceSkips(s[1..], rest, with);
      assert all[0] == s[0] && all[1..] == s[1..] + rest;
      assert s + r == [s[0]] + (s[1..] + r);
    }
  }

  lemma ReplaceHere(rest: string, with: string)
    ensures ReplaceText("//" + rest, "//", with) == with + ReplaceText(rest, "//", with)
  {
    assert ("//" + rest)[2..] == rest;
  }

  lemma ContainsItself(what: string)
    ensures Contains(what, what)
  {
    assert what[0..] == what;
  }

  /** A value of a criterion, or its date, after other text. */
  lemma EndEntered(h: Host, a: string, v: string)
    requires !Contains(a + TodayFor(h, Some(v)).value, "//") && (a == "" || a[|a| - 1] != '/')
    ensures ReplaceText(a + v, "//", h.formatDate(h.now)) == a + TodayFor(h, Some(v)).value
  {
    var d := h.formatDate(h.now);
    ContainsMore(a, TodayFor(h, Some(v)).value, "//");
    ReplaceSkips(a, v, d);
    if v == "//" {
      ReplaceHere("", d);
      assert "//" + "" == "//" && d + "" == d;
    } else {
      ReplaceSkips(v, "", d);
      assert v + "" == v;
    }
  }

  lemma SignEntered(h: Host, sign: string, v: string)
    requires sign in SIGNS && !Contains(sign + TodayFor(h, Some(v)).value, "//")
    ensures WithToday(h, sign + v) == sign + TodayFor(h, Some(v)).value
  {
    hide ReplaceText, Contains;
    EndEntered(h, sign, v);
    ContainsItself("//");
    ContainsMore(sign, "//", "//");
    assert (sign + v)[0] == sign[0] && "//"[0] != sign[0];
  }

  lemma RangeEntered(h: Host, v: string, w: string)
    requires !Contains(TodayFor(h, Some(v)).value + "..." + TodayFor(h, Some(w)).value, "//")
    ensures WithToday(h, v + "..." + w) == TodayFor(h, Some(v)).value + "..." + TodayFor(h, Some(w)).value
  {
    hide ReplaceText, Contains;
    var d, v', w' := h.formatDate(h.now), TodayFor(h, Some(v)).value, TodayFor(h, Some(w)).value;
    var t := v + "..." + w;
    assert v' + "..." + w' == v' + ("..." + w') && t == v + ("..." + w);
    ContainsMore(v', "..." + w', "//");
    EndEntered(h, "...", w);
    if v == "//" {
      ReplaceHere("..." + w, d);
      ContainsMore("//", "..." + w, "//");
    } else {
      ReplaceSkips(v, "..." + w, d);
    }
    assert ReplaceText(t, "//", d) == v' + "..." + w';
    ContainsItself("//");
    assert |t| >= 3;
    if w == "//" { ContainsMore(v + "...", "//", "//"); }
  }

  /** The dates are entered, and nothing else changes. */
  lemma DatesEntered(h: Host, c: FindCriterion)
    requires Typeable(h, Today(h, c))
    ensures WithToday(h, Typed(c)) == Typed(Today(h, c))
  {
    hide Trim, Contains, IndexOf, ReplaceAll, ReadsAsSign;
    ContainsItself("//");
    match c.operator
    case "RANGE" => RangeEntered(h, c.value.value, c.valueTo.value);
    case "LIKE" =>
    case "IS_EMPTY" =>
    case "IS_NOT_EMPTY" =>
    case _ => SignEntered(h, c.operator, c.value.value);
  }

  /** A value as it is typed has no white space around it. */
  lemma PartEnds(h: Host, v: string)
    requires v == "//" || Trim(h, v) == v
    ensures v != "" ==> !IsSpace(h, v[0]) && !IsSpace(h, v[|v| - 1])
  {
    if v != "" && v != "//" { TrimmedEnds(h, v); }
  }

  lemma RangeTrimmed(h: Host, v: string, w: string)
    requires (v == "//" || Trim(h, v) == v) && (w == "//" || Trim(h, w) == w)
    ensures var t := v + "..." + w; Trim(h, t) == t != ""
  {
    PartEnds(h, v);
    PartEnds(h, w);
    var t := v + "..." + w;
    assert !IsSpace(h, '.') && t[0] == (if v != "" then v[0] else '.');
    assert t[|t| - 1] == if w != "" then w[|w| - 1] else '.';
    hide Trim, IsSpace;
    EndsTrimmed(h, t);
  }

  lemma TypedTrimmed(h: Host, c: FindCriterion)
    requires Typeable(h, Today(h, c))
    ensures Trim(h, Typed(c)) == Typed(c) != ""
  {
    hide Trim, Contains, IndexOf, ReadsAsSign, IsSpace;
    match c.operator
    case "RANGE" => RangeTrimmed(h, c.value.value, c.valueTo.value);
    case "LIKE" =>
      PartEnds(h, c.value.value);
      EndsTrimmed(h, c.value.value);
    case "IS_EMPTY" =>
      SignTrimmed(h, "=", "");
      assert "=" + "" == "=";
    case "IS_NOT_EMPTY" => StarTrimmed(h);
    case _ =>
      SignTrimmed(h, c.operator, c.value.value);
  }

  lemma StarTrimmed(h: Host)
    ensures Trim(h, "*") == "*"
  {
    EndsTrimmed(h, "*");
  }

  lemma TypedDated(h: Host, c: FindCriterion)
    requires Typeable(h, c)
    ensures ParseDated(h, c.field, Typed(c)) == ReadBack(c)
  {
    match c.operator
    case "RANGE" => RangeDated(h, c);
    case "LIKE" =>
      LikeDated(h, c.field, c.value.value);
      hide ParseDated, Pattern, HasWildcard, Contains, Trim;
    case "IS_EMPTY" =>
      assert !StandsAt("=", "...", 0) && !StandsAt("=", "...", 1);
    case "IS_NOT_EMPTY" =>
      assert !StandsAt("*", "...", 0) && !StandsAt("*", "...", 1);
    case _ => SignDated(h, c);
  }

  /** What is typed for a criterion is read as that criterion, with today's date for two slashes;
      text with wildcards as its pattern, and plain text as the containment of the text. */
  lemma TypedIsRead(h: Host, c: FindCriterion)
    requires Typeable(h, Today(h, c))
    ensures ParseTyped(h, c.field, Typed(c)) == ReadBack(Today(h, c))
  {
    hide *;
    TypedTrimmed(h, c);
    DatesEntered(h, c);
    TypedDated(h, Today(h, c));
    TypedIs(h, c);
  }

  lemma TypedIs(h: Host, c: FindCriterion)
    requires Trim(h, Typed(c)) == Typed(c) != ""
    ensures ParseTyped(h, c.field, Typed(c)) == ParseDated(h, c.field, WithToday(h, Typed(c)))
    ensures Today(h, c).field == c.field
  {
    hide Trim, ParseDated, WithToday, Typed;
  }

  // ─── Operators in the value of a criterion ───

  /** The text speaks in signs: it begins with one, or holds a range, a wildcard or two slashes. */
  predicate Signals(t: string) {
    || (t != "" && t[0] in {'=', '!', '>', '<'})
    || HasWildcard(t)
    || exists i :: 0 <= i <= |t| && (StandsAt(t, "...", i) || StandsAt(t, "//", i))
  }

  lemma HoldsText(s: string, what: string)
    ensures Contains(s, what) <==> exists i :: 0 <= i <= |s| && StandsAt(s, what, i)
  {
    hide StandsAt;
    var at := IndexOf(s, what);
    if at.Some? { assert StandsAt(s, what, at.value); }
  }

  lemma SignalsHolds(t: string)
    ensures HoldsOperator(t) <==> Signals(t)
  {
    HoldsChar(t, '*');
    HoldsChar(t, '@');
    HoldsChar(t, '?');
    HoldsText(t, "...");
    HoldsText(t, "//");
    hide Contains, StandsAt;
  }

  /**
   * What a criterion stands for whose value is typed for another: that other one, on the field
   * and the relationship of the first, if the text speaks in signs, and itself if it does not.
   */
  lemma EnteredMeans(h: Host, c: FindCriterion, typed: FindCriterion)
    requires c.operator == "" || c.operator == "LIKE"
    requires Typeable(h, Today(h, typed)) && typed.field == c.field
    requires c.value.Some? && Surrounds(h, c.value.value, Typed(typed))
    ensures Effective(h, c) ==
      if Signals(Typed(typed)) then
        ReadBack(Today(h, typed)).(relationship := c.relationship, occurrence := c.occurrence)
      else c
  {
    TrimSurrounds(h, c.value.value, Typed(typed));
    SignalsHolds(Typed(typed));
    TypedIsRead(h, typed);
    hide Trim, HoldsOperator, Signals, ParseTyped, Surrounds, Typeable, Today, ReadBack, Typed;
  }

  /** A criterion with an operator of its own, without a value, or with plain text stands for itself. */
  lemma PlainMeans(h: Host, c: FindCriterion, t: string)
    requires c.value.Some? ==> Surrounds(h, c.value.value, t)
    requires c.operator in {"", "LIKE"} && c.value.Some? ==> !Signals(t)
    ensures Effective(h, c) == c
  {
    SignalsHolds(t);
    if c.value.Some? { TrimSurrounds(h, c.value.value, t); }
    hide Trim, HoldsOperator, Signals, ParseTyped, Surrounds;
  }
}
