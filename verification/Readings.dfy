/**
 * What a value counts as where a number, a text, a condition or a moment is wanted, and how an
 * answer is stored: said as relations, and met by the conversions of the evaluator.
 */
module Readings {
  import opened Common
  import opened Formula
  import opened Evaluator
  import Numerals

  // ─── Numbers ───

  /** The value counts as this number. */
  ghost predicate Worth(h: Host, v: Value, x: real) {
    match v
    case Empty => x == 0.0
    case Number(n) => x == n
    case Bool(b) => x == if b then 1.0 else 0.0
    case Text(s) => exists t :: Surrounds(h, s, t) && h.parseFloat(t) == Some(x)
    case Time(_) => false
  }

  /** The value counts as no number, for this reason. */
  ghost predicate Worthless(h: Host, v: Value, why: Problem) {
    if v.Time? then why == DateAsNumber
    else v.Text? && why == NotANumber && exists t :: Surrounds(h, v.text, t) && h.parseFloat(t).None?
  }

  lemma NumberMeans(h: Host, v: Value, at: nat)
    ensures forall x :: Worth(h, v, x) <==> ToNumber(h, v, at) == Ok(x)
    ensures forall why :: Worthless(h, v, why) <==> ToNumber(h, v, at) == Err(Error(at, why))
    ensures ToNumber(h, v, at).Err? ==> Worthless(h, v, ToNumber(h, v, at).error.problem)
    ensures ToNumber(h, v, at).Err? ==> ToNumber(h, v, at).error.pos == at
  {
    if v.Text? {
      var s := v.text;
      forall t ensures Surrounds(h, s, t) <==> t == Common.Trim(h, s) { TrimSurrounds(h, s, t); }
    }
    hide Surrounds, Common.Trim;
  }

  // ─── Texts ───

  const DIGITS: string := "0123456789"

  /** The decimal digits of a number, without a zero in front. */
  predicate Decimal(s: string, k: nat)
    decreases k
  {
    if k < 10 then s == [DIGITS[k]]
    else |s| > 1 && s[|s| - 1] == DIGITS[k % 10] && Decimal(s[..|s| - 1], k / 10)
  }

  const MOST: real := 1000000000000000.0

  /** A whole number short of 10^15 is written in digits, any other as the library writes it. */
  ghost predicate NumberWritten(h: Host, n: real, s: string) {
    if n.Floor as real == n && -MOST < n < MOST then
      if n >= 0.0 then Decimal(s, n.Floor) else s != "" && s[0] == '-' && Decimal(s[1..], -n.Floor)
    else s == h.formatFloat(n)
  }

  /** The value is written as this text; a moment at midnight as a date, with the time otherwise. */
  ghost predicate Written(h: Host, v: Value, s: string) {
    match v
    case Empty => s == ""
    case Number(n) => NumberWritten(h, n, s)
    case Text(t) => s == t
    case Bool(b) => s == if b then "true" else "false"
    case Time(t) => s == if h.atMidnight(t) then h.formatDate(t) else h.formatTimestamp(t)
  }

  lemma {:induction false} DigitsMean(k: nat, s: string)
    ensures Decimal(s, k) <==> s == Numerals.DigitsOf(k)
    decreases k
  {
    if k >= 10 {
      var d := Numerals.DigitsOf(k);
      assert d[..|d| - 1] == Numerals.DigitsOf(k / 10);
      if |s| > 1 {
        DigitsMean(k / 10, s[..|s| - 1]);
        assert s == s[..|s| - 1] + [s[|s| - 1]];
      }
    }
  }

  lemma NumberTextMeans(h: Host, n: real, s: string)
    ensures NumberWritten(h, n, s) <==> s == FormatNumber(h, n)
  {
    hide Decimal, Numerals.DigitsOf;
    if n.Floor as real == n {
      if n.Floor >= 0 { DigitsMean(n.Floor, s); }
      else if s != "" {
        DigitsMean(-n.Floor, s[1..]);
        assert s == [s[0]] + s[1..];
      }
    }
  }

  lemma TextMeans(h: Host, v: Value)
    ensures forall s :: Written(h, v, s) <==> s == ToText(h, v)
  {
    if v.Number? {
      forall s ensures NumberWritten(h, v.num, s) <==> s == FormatNumber(h, v.num) { NumberTextMeans(h, v.num, s); }
    }
    hide NumberWritten, FormatNumber;
  }

  // ─── Conditions ───

  /** The value counts as true: true itself, a number but zero, text but white space, any moment
      but the zero time. */
  predicate Holds(h: Host, v: Value) {
    || v == Bool(true)
    || (v.Number? && (v.num < 0.0 || v.num > 0.0))
    || (v.Text? && exists i :: 0 <= i < |v.text| && !IsSpace(h, v.text[i]))
    || (v.Time? && v.when != 0)
  }

  lemma TruthMeans(h: Host, v: Value)
    ensures Holds(h, v) <==> Truth(h, v)
  {
    if v.Text? { assert Common.Trim(h, v.text) == "" <==> Blank(h, v.text); }
  }

  // ─── Moments ───

  /** The value stands for this moment. */
  ghost predicate Dated(h: Host, v: Value, t: Moment) {
    v == Time(t) || (v.Text? && exists s :: Surrounds(h, v.text, s) && h.parseTime(s) == Some(t))
  }

  /** The value stands for no moment, for this reason. */
  ghost predicate Undated(h: Host, v: Value, why: Problem) {
    if v.Empty? then why == EmptyDate
    else why == NotADate && !v.Time? && (v.Text? ==> exists s :: Surrounds(h, v.text, s) && h.parseTime(s).None?)
  }

  lemma TimeMeans(h: Host, v: Value, at: nat)
    ensures forall t :: Dated(h, v, t) <==> ToTime(h, v, at) == Ok(t)
    ensures forall why :: Undated(h, v, why) <==> ToTime(h, v, at) == Err(Error(at, why))
    ensures ToTime(h, v, at).Err? ==> Undated(h, v, ToTime(h, v, at).error.problem)
    ensures ToTime(h, v, at).Err? ==> ToTime(h, v, at).error.pos == at
  {
    if v.Text? {
      var s := v.text;
      forall t ensures Surrounds(h, s, t) <==> t == Common.Trim(h, s) { TrimSurrounds(h, s, t); }
    }
    hide Surrounds, Common.Trim;
  }

  // ─── What is read from and stored in a record ───

  /** What a formula finds in a field: nothing where the record has no such field, NULL or an
      empty text, and what is stored otherwise. */
  predicate Found(r: Record, name: string, v: Value) {
    if name in r && r[name] != Null && r[name] != StoredText("") then
      match v
      case Empty => false
      case Number(n) => r[name] == StoredNumber(n)
      case Text(s) => r[name] == StoredText(s)
      case Bool(b) => r[name] == StoredBool(b)
      case Time(t) => r[name] == StoredTime(t)
    else v == Empty
  }

  lemma FieldMeans(r: Record, name: string, v: Value)
    ensures Found(r, name, v) <==> v == FromStored(ReadField(r, name))
  {
  }

  /**
   * What is stored of an answer: nothing of nothing, and of anything else what it counts as in
   * the kind of the field; a date is stored as a date and a timestamp with its time, in text.
   */
  ghost predicate Filed(h: Host, v: Value, at: nat, result: ResultType, s: Result<Stored, Error>) {
    if v == Empty then s == Ok(Null)
    else match result
      case AsText => s.Ok? && s.value.StoredText? && Written(h, v, s.value.text)
      case AsNumber =>
        if s.Ok? then s.value.StoredNumber? && Worth(h, v, s.value.num)
        else s.error.pos == at && Worthless(h, v, s.error.problem)
      case AsBoolean => s == Ok(StoredBool(Holds(h, v)))
      case AsDate =>
        if s.Ok? then exists t :: Dated(h, v, t) && s.value == StoredText(h.formatDate(t))
        else s.error.pos == at && Undated(h, v, s.error.problem)
      case AsTimestamp =>
        if s.Ok? then exists t :: Dated(h, v, t) && s.value == StoredText(h.formatTimestamp(t))
        else s.error.pos == at && Undated(h, v, s.error.problem)
  }

  lemma StoreMeans(h: Host, v: Value, at: nat, result: ResultType, s: Result<Stored, Error>)
    ensures Filed(h, v, at, result, s) <==> s == Store(h, v, at, result)
  {
    NumberMeans(h, v, at);
    TextMeans(h, v);
    TruthMeans(h, v);
    TimeMeans(h, v, at);
    hide Written, Worth, Worthless, Holds, Dated, Undated, ToNumber, ToText, Truth, ToTime;
  }
}
