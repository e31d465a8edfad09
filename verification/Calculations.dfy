/** data/calculations.go: what a table computes over its records. */
module Calculations {
  import opened Common
  import opened Formula
  import opened Evaluator
  import opened EvaluatorLaws
  import opened Sorting
  import opened Order
  import Parser

  /** What is computed for a field, and as what. */
  datatype Calculation = Calculation(field: string, expr: Node, result: ResultType)

  /** A calculation column of the catalog: its name, its formula and its result type. */
  datatype Column = Column(name: string, formula: string, result: ResultType)

  datatype Failure = Failure(field: string, error: Error)

  datatype Applied = Applied(record: Record, failure: Option<Failure>)

  function FieldsOf(cs: seq<Calculation>): (fs: set<string>)
    ensures forall i :: 0 <= i < |cs| ==> cs[i].field in fs
  {
    set i | 0 <= i < |cs| :: cs[i].field
  }

  predicate AllWellFormed(cs: seq<Calculation>) {
    forall i :: 0 <= i < |cs| ==> WellFormed(cs[i].expr)
  }

  /** No field twice, and each after those its formula needs. */
  ghost predicate InOrder(cs: seq<Calculation>) {
    && AllWellFormed(cs)
    && (forall i, j :: 0 <= i < j < |cs| ==> cs[i].field != cs[j].field)
    && forall i, f :: 0 <= i < |cs| && f in Fields(cs[i].expr) && f in FieldsOf(cs) ==>
         exists j :: 0 <= j < i && cs[j].field == f
  }

  /** No formula reads the id. */
  predicate NoneReadsId(cs: seq<Calculation>) {
    forall i :: 0 <= i < |cs| ==> "id" !in Fields(cs[i].expr)
  }

  /** The calculations from `i` on, each one seeing the answers of those before it. */
  function ApplyFrom(h: Host, cs: seq<Calculation>, i: nat, r: Record): Applied
    requires i <= |cs| && AllWellFormed(cs)
    decreases |cs| - i
  {
    if i == |cs| then Applied(r, None)
    else match Evaluate(h, cs[i].expr, r, cs[i].result)
      case Err(e) => Applied(r, Some(Failure(cs[i].field, e)))
      case Ok(answer) => ApplyFrom(h, cs, i + 1, r[cs[i].field := answer])
  }

  /** The field holds what its formula works out to over the very record it is in. */
  predicate Holds(h: Host, c: Calculation, r: Record)
    requires WellFormed(c.expr)
  {
    c.field in r && Evaluate(h, c.expr, r, c.result) == Ok(r[c.field])
  }

  ghost predicate Consistent(h: Host, cs: seq<Calculation>, r: Record)
    requires AllWellFormed(cs)
  {
    forall i :: 0 <= i < |cs| ==> Holds(h, cs[i], r)
  }

  /** The records agree on everything that is not calculated. */
  predicate SameBase(a: Record, b: Record, calculated: set<string>) {
    a - calculated == b - calculated
  }

  lemma SameBaseReads(a: Record, b: Record, calculated: set<string>, f: string)
    requires SameBase(a, b, calculated) && f !in calculated
    ensures (f in a <==> f in b) && ReadField(a, f) == ReadField(b, f)
  {
    assert f in a <==> f in a - calculated;
    assert f in b <==> f in b - calculated;
    assert f in a ==> (a - calculated)[f] == a[f];
    assert f in b ==> (b - calculated)[f] == b[f];
  }

  lemma SameBaseUpdate(a: Record, b: Record, calculated: set<string>, f: string, v: Stored)
    requires SameBase(a, b, calculated) && f in calculated
    ensures SameBase(a[f := v], b, calculated)
  {
    assert a[f := v] - calculated == a - calculated;
  }

  /** The first `i` fields hold. */
  ghost predicate HoldUpTo(h: Host, cs: seq<Calculation>, i: nat, r: Record)
    requires i <= |cs| && AllWellFormed(cs)
  {
    forall j :: 0 <= j < i ==> Holds(h, cs[j], r)
  }

  /** A later field is read by no earlier formula, and not by its own. */
  lemma NotReadBefore(cs: seq<Calculation>, j: nat, i: nat)
    requires InOrder(cs) && j <= i < |cs|
    ensures cs[i].field !in Fields(cs[j].expr)
  {
    assert cs[i].field in FieldsOf(cs);
  }

  lemma StepHolds(h: Host, cs: seq<Calculation>, i: nat, r: Record, answer: Stored)
    requires InOrder(cs) && i < |cs| && HoldUpTo(h, cs, i, r)
    requires Evaluate(h, cs[i].expr, r, cs[i].result) == Ok(answer)
    ensures HoldUpTo(h, cs, i + 1, r[cs[i].field := answer])
  {
    var r' := r[cs[i].field := answer];
    forall j | 0 <= j < i + 1 ensures Holds(h, cs[j], r') {
      NotReadBefore(cs, j, i);
      EvaluateFrame(h, cs[j].expr, r, r', cs[j].result);
    }
  }

  /** Running the formulas in order makes every field hold and touches nothing else. */
  lemma {:induction false} ApplyHolds(h: Host, cs: seq<Calculation>, i: nat, r: Record)
    requires InOrder(cs) && i <= |cs| && HoldUpTo(h, cs, i, r)
    ensures var a := ApplyFrom(h, cs, i, r);
      && SameBase(a.record, r, FieldsOf(cs))
      && (a.failure.None? ==> Consistent(h, cs, a.record))
    decreases |cs| - i
  {
    if i < |cs| {
      var answer := Evaluate(h, cs[i].expr, r, cs[i].result);
      if answer.Ok? {
        var r' := r[cs[i].field := answer.value];
        StepHolds(h, cs, i, r, answer.value);
        SameBaseUpdate(r, r, FieldsOf(cs), cs[i].field, answer.value);
        ApplyHolds(h, cs, i + 1, r');
      }
    }
  }

  /** The records agree on the base fields and on the calculations before `i`. */
  ghost predicate AgreeUpTo(cs: seq<Calculation>, i: nat, a: Record, b: Record)
    requires i <= |cs|
  {
    && SameBase(a, b, FieldsOf(cs))
    && forall j :: 0 <= j < i ==>
         && cs[j].field in a && cs[j].field in b
         && a[cs[j].field] == b[cs[j].field]
  }

  lemma AgreeReads(h: Host, cs: seq<Calculation>, i: nat, a: Record, b: Record)
    requires InOrder(cs) && i < |cs| && AgreeUpTo(cs, i, a, b)
    ensures Evaluate(h, cs[i].expr, a, cs[i].result) == Evaluate(h, cs[i].expr, b, cs[i].result)
  {
    forall f | f in Fields(cs[i].expr) ensures ReadField(a, f) == ReadField(b, f) {
      if f in FieldsOf(cs) {
        var j :| 0 <= j < i && cs[j].field == f;
      } else {
        SameBaseReads(a, b, FieldsOf(cs), f);
      }
    }
    EvaluateFrame(h, cs[i].expr, a, b, cs[i].result);
  }

  lemma AgreeStep(cs: seq<Calculation>, i: nat, a: Record, b: Record, answer: Stored)
    requires InOrder(cs) && i < |cs| && AgreeUpTo(cs, i, a, b)
    ensures AgreeUpTo(cs, i + 1, a[cs[i].field := answer], b[cs[i].field := answer])
  {
    var f := cs[i].field;
    SameBaseUpdate(a, b, FieldsOf(cs), f, answer);
    SameBaseUpdate(b, a[f := answer], FieldsOf(cs), f, answer);
    assert forall j :: 0 <= j < i ==> cs[j].field != f;
  }

  lemma AgreeAll(cs: seq<Calculation>, a: Record, b: Record)
    requires AgreeUpTo(cs, |cs|, a, b)
    ensures a == b
  {
    var calculated := FieldsOf(cs);
    forall f ensures (f in a <==> f in b) && (f in a ==> a[f] == b[f]) {
      if f in calculated {
        var j :| 0 <= j < |cs| && cs[j].field == f;
      } else {
        SameBaseReads(a, b, calculated, f);
      }
    }
  }

  /** What was sent for a calculation field never matters: neither to the record nor to an error. */
  lemma {:induction false} ApplyIgnoresSent(h: Host, cs: seq<Calculation>, i: nat, a: Record, b: Record)
    requires InOrder(cs) && i <= |cs| && AgreeUpTo(cs, i, a, b)
    ensures var x, y := ApplyFrom(h, cs, i, a), ApplyFrom(h, cs, i, b);
      x.failure == y.failure && (x.failure.None? ==> x.record == y.record)
    decreases |cs| - i
  {
    if i == |cs| {
      AgreeAll(cs, a, b);
    } else {
      AgreeReads(h, cs, i, a, b);
      var answer := Evaluate(h, cs[i].expr, a, cs[i].result);
      if answer.Ok? {
        AgreeStep(cs, i, a, b, answer.value);
        ApplyIgnoresSent(h, cs, i + 1, a[cs[i].field := answer.value], b[cs[i].field := answer.value]);
      }
    }
  }

  /** A record in which every field holds is what running the formulas comes to. */
  lemma {:induction false} ApplyReaches(h: Host, cs: seq<Calculation>, i: nat, r: Record, s: Record)
    requires InOrder(cs) && i <= |cs| && AgreeUpTo(cs, i, r, s) && Consistent(h, cs, s)
    ensures ApplyFrom(h, cs, i, r) == Applied(s, None)
    decreases |cs| - i
  {
    if i == |cs| {
      AgreeAll(cs, r, s);
    } else {
      AgreeReads(h, cs, i, r, s);
      assert Holds(h, cs[i], s);
      var f := cs[i].field;
      AgreeStep(cs, i, r, s, s[f]);
      assert s[f := s[f]] == s;
      ApplyReaches(h, cs, i + 1, r[f := s[f]], s);
    }
  }

  /** A record over the same base fields in which every calculation field holds. */
  ghost predicate IsExtension(h: Host, cs: seq<Calculation>, base: Record, s: Record)
    requires AllWellFormed(cs)
  {
    SameBase(s, base, FieldsOf(cs)) && Consistent(h, cs, s)
  }

  /**
   * The fixed point. Running the formulas in order succeeds exactly when the base record
   * has an extension in which every calculation field equals its formula over that very
   * record, and its result is that extension, the only one there is.
   */
  lemma FixedPoint(h: Host, cs: seq<Calculation>, base: Record)
    requires InOrder(cs)
    ensures var a := ApplyFrom(h, cs, 0, base);
      && (a.failure.None? <==> exists s :: IsExtension(h, cs, base, s))
      && (a.failure.None? ==> forall s :: IsExtension(h, cs, base, s) <==> s == a.record)
  {
    ApplyHolds(h, cs, 0, base);
    var a := ApplyFrom(h, cs, 0, base);
    assert a.failure.None? ==> IsExtension(h, cs, base, a.record);
    forall s | IsExtension(h, cs, base, s) ensures a == Applied(s, None) {
      ApplyReaches(h, cs, 0, base, s);
    }
  }

  // ─── From the catalog to calculations in order ───

  /** The columns whose formula parses; the others are passed over. */
  function ParsedColumns(h: Host, columns: seq<Column>): (parsed: map<string, Calculation>)
    ensures forall f :: f in parsed ==> parsed[f].field == f && WellFormed(parsed[f].expr)
  {
    if columns == [] then map[]
    else
      var front, last := ParsedColumns(h, columns[..|columns| - 1]), columns[|columns| - 1];
      match Parser.Parse(h, last.formula)
      case Err(_) => front
      case Ok(expr) => front[last.name := Calculation(last.name, expr, last.result)]
  }

  ghost function MentionsOf(parsed: map<string, Calculation>): (m: Reads)
    ensures m.Keys == parsed.Keys
  {
    map f | f in parsed :: SortedSet(Fields(parsed[f].expr))
  }

  function InThatOrder(parsed: map<string, Calculation>, order: seq<string>): (cs: seq<Calculation>)
    requires forall f :: f in order ==> f in parsed
    ensures |cs| == |order| && forall i :: 0 <= i < |cs| ==> cs[i] == parsed[order[i]]
  {
    seq(|order|, i requires 0 <= i < |order| => parsed[order[i]])
  }

  /** tableCalculations: what the formulas that parse come to, sorted for computing. */
  ghost function TableCalculationsOf(h: Host, columns: seq<Column>): Result<seq<Calculation>, seq<string>> {
    var parsed := ParsedColumns(h, columns);
    OrderCorrect(MentionsOf(parsed));
    match OrderOf(MentionsOf(parsed))
    case Err(ring) => Err(ring)
    case Ok(order) => Ok(InThatOrder(parsed, order))
  }

  /** The table's calculations come out complete and in order, or in a ring that is really there. */
  lemma TableCalculationsInOrder(h: Host, columns: seq<Column>)
    ensures var parsed := ParsedColumns(h, columns);
      match TableCalculationsOf(h, columns)
      case Ok(cs) =>
        && InOrder(cs) && FieldsOf(cs) == parsed.Keys
        && forall i :: 0 <= i < |cs| ==> cs[i] == parsed[cs[i].field]
      case Err(ring) => ClosedWalk(GraphOf(MentionsOf(parsed)), ring)
  {
    hide OrderOf, GraphOf, ClosedWalk, Acyclic, IsOrderFor, ParsedColumns, MentionsOf, InOrder, OrderFits;
    hide FieldsOf, WellFormed;
    var parsed := ParsedColumns(h, columns);
    var mentions := MentionsOf(parsed);
    OrderCorrect(mentions);
    if OrderOf(mentions).Ok? {
      var order := OrderOf(mentions).value;
      OrderForFits(parsed, order);
      OrderedCalculations(parsed, order);
    }
  }

  lemma OrderedFields(parsed: map<string, Calculation>, order: seq<string>)
    requires forall f :: f in parsed ==> parsed[f].field == f
    requires forall f :: f in order <==> f in parsed
    ensures FieldsOf(InThatOrder(parsed, order)) == parsed.Keys
    ensures forall i :: 0 <= i < |order| ==> InThatOrder(parsed, order)[i].field == order[i]
  {
    var cs := InThatOrder(parsed, order);
    assert forall i :: 0 <= i < |cs| ==> order[i] in parsed && cs[i].field == order[i];
    forall f | f in parsed ensures f in FieldsOf(cs) {
      var i :| 0 <= i < |order| && order[i] == f;
      assert cs[i].field == f;
    }
  }

  /** The order lists the parsed columns, each after those its formula mentions. */
  ghost predicate OrderFits(parsed: map<string, Calculation>, order: seq<string>) {
    && Distinct(order) && (forall f :: f in order <==> f in parsed)
    && forall i :: 0 <= i < |order| ==> MentionedBefore(parsed, order, i)
  }

  ghost predicate MentionedBefore(parsed: map<string, Calculation>, order: seq<string>, i: nat)
    requires i < |order| && order[i] in parsed
  {
    forall f :: f in parsed && f in Fields(parsed[order[i]].expr) ==>
      exists j :: 0 <= j < i && order[j] == f
  }

  lemma OrderForFits(parsed: map<string, Calculation>, order: seq<string>)
    requires IsOrderFor(MentionsOf(parsed), order)
    ensures OrderFits(parsed, order)
  {
    forall i | 0 <= i < |order| ensures MentionedBefore(parsed, order, i) {
      forall f | f in parsed && f in Fields(parsed[order[i]].expr)
        ensures exists j :: 0 <= j < i && order[j] == f
      {
        assert f in MentionsOf(parsed)[order[i]];
        assert f in order[..i];
      }
    }
  }

  lemma OrderedCalculations(parsed: map<string, Calculation>, order: seq<string>)
    requires forall f :: f in parsed ==> parsed[f].field == f && WellFormed(parsed[f].expr)
    requires OrderFits(parsed, order)
    ensures var cs := InThatOrder(parsed, order);
      && InOrder(cs) && FieldsOf(cs) == parsed.Keys
      && forall i :: 0 <= i < |cs| ==> cs[i].field in parsed && cs[i] == parsed[cs[i].field]
  {
    var cs := InThatOrder(parsed, order);
    OrderedFields(parsed, order);
    hide Fields, WellFormed, FieldsOf;
    forall i, f | 0 <= i < |cs| && f in Fields(cs[i].expr) && f in FieldsOf(cs)
      ensures exists j :: 0 <= j < i && cs[j].field == f
    {
      assert MentionedBefore(parsed, order, i);
      var j :| 0 <= j < i && order[j] == f;
      assert cs[j].field == f;
    }
  }

  // ─── The methods ───

  /** A record that a method fills in. */
  class RecordInHand {
    var fields: Record

    constructor (fields: Record)
      ensures this.fields == fields
    {
      this.fields := fields;
    }
  }

  method LoadCalculations(h: Host, columns: seq<Column>)
    returns (parsed: map<string, Calculation>)
    ensures parsed == ParsedColumns(h, columns)
  {
    parsed := map[];
    for i := 0 to |columns|
      invariant parsed == ParsedColumns(h, columns[..i])
    {
      assert columns[..i + 1][..i] == columns[..i];
      var expr := Parser.ParseFormula(h, columns[i].formula);
      if expr.Ok? {
        parsed := parsed[columns[i].name := Calculation(columns[i].name, expr.value, columns[i].result)];
      }
    }
    assert columns[..|columns|] == columns;
  }

  /** Expr.Fields: the names a formula reads, in ascending order. */
  method FieldNames(n: Node) returns (names: seq<string>)
    ensures names == SortedSet(Fields(n))
  {
    var collector := new Parser.FieldCollector();
    collector.Collect(n);
    names := [];
    var left := collector.seen;
    while left != {}
      invariant left <= Fields(n)
      invariant Distinct(names) && forall f :: f in names <==> f in Fields(n) - left
      decreases left
    {
      var f :| f in left;
      assert forall g :: g in names + [f] <==> g in names || g == f;
      names := names + [f];
      left := left - {f};
    }
    SortCanonical(names, SortedSet(Fields(n)));
    SortOfSorted(Fields(n));
    names := Sort(names);
  }

  method Mentions(parsed: map<string, Calculation>) returns (mentions: Reads)
    ensures mentions == MentionsOf(parsed)
  {
    hide SortedSet, Fields;
    mentions := map[];
    var left := parsed.Keys;
    while left != {}
      invariant left <= parsed.Keys && mentions.Keys == parsed.Keys - left
      invariant forall f :: f in mentions ==> mentions[f] == SortedSet(Fields(parsed[f].expr))
      decreases left
    {
      var f :| f in left;
      var names := FieldNames(parsed[f].expr);
      mentions := mentions[f := names];
      left := left - {f};
    }
  }

  /** tableCalculations. */
  method TableCalculations(h: Host, columns: seq<Column>) returns (r: Result<seq<Calculation>, seq<string>>)
    ensures r == TableCalculationsOf(h, columns)
  {
    hide GraphOf, ClosedWalk, Acyclic, MentionsOf, ParsedColumns, OrderOf;
    var parsed := LoadCalculations(h, columns);
    var mentions := Mentions(parsed);
    OrderCorrect(mentions);
    var order := OrderFields(mentions);
    r := if order.Err? then Err(order.error) else Ok(InThatOrder(parsed, order.value));
  }

  /** applyCalculationsTo. */
  method ApplyCalculationsTo(h: Host, cs: seq<Calculation>, record: RecordInHand)
    returns (failure: Option<Failure>)
    requires AllWellFormed(cs)
    modifies record
    ensures Applied(record.fields, failure) == ApplyFrom(h, cs, 0, old(record.fields))
  {
    for i := 0 to |cs|
      invariant ApplyFrom(h, cs, i, record.fields) == ApplyFrom(h, cs, 0, old(record.fields))
    {
      var answer := Evaluate(h, cs[i].expr, record.fields, cs[i].result);
      if answer.Err? {
        return Some(Failure(cs[i].field, answer.error));
      }
      record.fields := record.fields[cs[i].field := answer.value];
    }
    return None;
  }

  /** What recalculateForUpdate leaves in an update: the answers of the calculations from `i` on,
      each computed over the record with the update laid over it. */
  function AnswersFrom(h: Host, cs: seq<Calculation>, i: nat, current: Record, updates: Record): Applied
    requires i <= |cs| && AllWellFormed(cs)
    decreases |cs| - i
  {
    if i == |cs| then Applied(updates, None)
    else match Evaluate(h, cs[i].expr, current + updates, cs[i].result)
      case Err(e) => Applied(updates, Some(Failure(cs[i].field, e)))
      case Ok(answer) => AnswersFrom(h, cs, i + 1, current, updates[cs[i].field := answer])
  }

  lemma MergedUpdate(current: Record, updates: Record, f: string, v: Stored)
    ensures (current + updates)[f := v] == current + updates[f := v]
    ensures updates[f := v].Keys == updates.Keys + {f}
  {
  }

  lemma {:induction false} AnswersMerged(h: Host, cs: seq<Calculation>, i: nat, current: Record, updates: Record)
    requires i <= |cs| && AllWellFormed(cs)
    ensures var a := AnswersFrom(h, cs, i, current, updates);
      Applied(current + a.record, a.failure) == ApplyFrom(h, cs, i, current + updates)
    decreases |cs| - i
  {
    hide Evaluate;
    if i < |cs| {
      var answer := Evaluate(h, cs[i].expr, current + updates, cs[i].result);
      if answer.Ok? {
        MergedUpdate(current, updates, cs[i].field, answer.value);
        AnswersMerged(h, cs, i + 1, current, updates[cs[i].field := answer.value]);
      }
    }
  }

  lemma {:induction false} AnswersNamed(h: Host, cs: seq<Calculation>, i: nat, current: Record, updates: Record)
    requires i <= |cs| && AllWellFormed(cs)
    ensures var a := AnswersFrom(h, cs, i, current, updates);
      && updates.Keys <= a.record.Keys <= updates.Keys + FieldsOf(cs)
      && (a.failure.None? ==> forall k :: i <= k < |cs| ==> cs[k].field in a.record)
    decreases |cs| - i
  {
    hide Evaluate, FieldsOf;
    if i < |cs| {
      var answer := Evaluate(h, cs[i].expr, current + updates, cs[i].result);
      if answer.Ok? { AnswersNamed(h, cs, i + 1, current, updates[cs[i].field := answer.value]); }
    }
  }

  /** The record with the answers laid over it is what running the formulas over the merged record
      comes to, and if none fails the update has gained exactly the calculation fields. */
  lemma AnswersAreApplied(h: Host, cs: seq<Calculation>, current: Record, updates: Record)
    requires AllWellFormed(cs)
    ensures var a := AnswersFrom(h, cs, 0, current, updates);
      && Applied(current + a.record, a.failure) == ApplyFrom(h, cs, 0, current + updates)
      && updates.Keys <= a.record.Keys <= updates.Keys + FieldsOf(cs)
      && (a.failure.None? ==> a.record.Keys == updates.Keys + FieldsOf(cs))
  {
    hide AnswersFrom, ApplyFrom, AllWellFormed;
    AnswersMerged(h, cs, 0, current, updates);
    AnswersNamed(h, cs, 0, current, updates);
  }

  lemma FieldsOfNone(cs: seq<Calculation>)
    requires cs == []
    ensures FieldsOf(cs) == {}
  {
  }

  lemma FieldsOfPrefix(cs: seq<Calculation>, i: nat)
    requires i < |cs|
    ensures FieldsOf(cs[..i + 1]) == FieldsOf(cs[..i]) + {cs[i].field}
  {
    var prefix := cs[..i + 1];
    forall f | f in FieldsOf(cs[..i]) ensures f in FieldsOf(prefix) {
      var j :| 0 <= j < i && cs[..i][j].field == f;
      assert prefix[j].field == f;
    }
    assert prefix[i] == cs[i];
  }

  /** The loop of recalculateForUpdate: the answers go into the merged record and into the updates. */
  method RecalculateForUpdate(h: Host, cs: seq<Calculation>, current: Record, updates: RecordInHand)
    returns (failure: Option<Failure>)
    requires AllWellFormed(cs)
    modifies updates
    ensures Applied(updates.fields, failure) == AnswersFrom(h, cs, 0, current, old(updates.fields))
  {
    hide Evaluate;
    var merged := current + updates.fields;
    for i := 0 to |cs|
      invariant merged == current + updates.fields
      invariant AnswersFrom(h, cs, i, current, updates.fields) == AnswersFrom(h, cs, 0, current, old(updates.fields))
    {
      var answer := Evaluate(h, cs[i].expr, merged, cs[i].result);
      if answer.Err? {
        return Some(Failure(cs[i].field, answer.error));
      }
      MergedUpdate(current, updates.fields, cs[i].field, answer.value);
      merged := merged[cs[i].field := answer.value];
      updates.fields := updates.fields[cs[i].field := answer.value];
    }
    return None;
  }
}
