/** What a find finds: the condition and its values against the meaning of the requests. */
module FindLaws {
  import opened Common
  import opened Evaluator
  import opened Relationships
  import opened Sql
  import opened Find

  // ─── The meaning of a criterion ───

  function TextOf(e: Engine, v: Stored): Stored
    requires !v.Null?
    ensures TextOf(e, v).StoredText?
  {
    TextForm(e, v)
  }

  /** The text a criterion was sent with; one without a value is compared with the text `<nil>`. */
  function Sent(value: Option<string>): string {
    if value.Some? then value.value else "<nil>"
  }

  /** The criterion compares as a number: its value is one, or both ends of its range are. */
  predicate ComparesNumbers(h: Host, c: FindCriterion) {
    if c.operator == "RANGE" then h.parseFloat(Sent(c.value)).Some? && h.parseFloat(Sent(c.valueTo)).Some?
    else c.operator in {">", "<", ">=", "<="} && h.parseFloat(Sent(c.value)).Some?
  }

  /** Operators that mean something for a field that holds nothing. */
  predicate NullSafe(operator: string) { operator in {"IS_EMPTY", "IS_NOT_EMPTY", "!="} }

  /** The field holds nothing the criterion could be compared with. */
  predicate Undecided(h: Host, e: Engine, c: FindCriterion, v: Stored) {
    !NullSafe(c.operator) && (v.Null? || (ComparesNumbers(h, c) && e.asNumber(TextOf(e, v).text).None?))
  }

  predicate SameText(e: Engine, a: string, b: string) {
    e.cat.holds(Eq, StoredText(e.lower(a)), StoredText(e.lower(b)))
  }

  predicate DifferentText(e: Engine, a: string, b: string) {
    e.cat.holds(Ne, StoredText(e.lower(a)), StoredText(e.lower(b)))
  }

  /** What the criterion compares a field with something in it by: its number or its text. */
  function Compared(h: Host, e: Engine, c: FindCriterion, v: Stored): Stored
    requires !v.Null? && !Undecided(h, e, c, v) && !NullSafe(c.operator)
  {
    if ComparesNumbers(h, c) then StoredNumber(e.asNumber(TextOf(e, v).text).value) else TextOf(e, v)
  }

  function Bound(h: Host, c: FindCriterion, value: Option<string>): Stored
    requires ComparesNumbers(h, c) ==> h.parseFloat(Sent(value)).Some?
  {
    if ComparesNumbers(h, c) then StoredNumber(h.parseFloat(Sent(value)).value) else StoredText(Sent(value))
  }

  /** What the operator promises of a field whose verdict is decided. */
  predicate Matches(h: Host, e: Engine, c: FindCriterion, v: Stored)
    requires !Undecided(h, e, c, v)
  {
    match c.operator
    case "IS_EMPTY" => v.Null? || e.cat.holds(Eq, TextOf(e, v), StoredText(""))
    case "IS_NOT_EMPTY" => !v.Null? && e.cat.holds(Ne, TextOf(e, v), StoredText(""))
    case "!=" => v.Null? || DifferentText(e, TextOf(e, v).text, Sent(c.value))
    case "=" | "==" => SameText(e, TextOf(e, v).text, Sent(c.value))
    case "RANGE" =>
      && e.cat.holds(Ge, Compared(h, e, c, v), Bound(h, c, c.value))
      && e.cat.holds(Le, Compared(h, e, c, v), Bound(h, c, c.valueTo))
    case ">" => e.cat.holds(Gt, Compared(h, e, c, v), Bound(h, c, c.value))
    case "<" => e.cat.holds(Lt, Compared(h, e, c, v), Bound(h, c, c.value))
    case ">=" => e.cat.holds(Ge, Compared(h, e, c, v), Bound(h, c, c.value))
    case "<=" => e.cat.holds(Le, Compared(h, e, c, v), Bound(h, c, c.value))
    case "LIKE" => e.like(TextOf(e, v).text, Sent(c.value))
    case _ => e.like(TextOf(e, v).text, "%" + Sent(c.value) + "%")
  }

  function Verdict(h: Host, e: Engine, c: FindCriterion, v: Stored): Logic {
    if Undecided(h, e, c, v) then Unknown else Definitely(Matches(h, e, c, v))
  }

  /** The placeholders from `at` on take these values. */
  predicate Holding(values: seq<Stored>, at: nat, these: seq<Stored>) {
    1 <= at && at - 1 + |these| <= |values| && values[at - 1..at - 1 + |these|] == these
  }

  /** The values of the terms a criterion is written with. */
  lemma TermValues(h: Host, p: Place, column: Term, c: FindCriterion, at: nat)
    requires column.Column? && Holding(p.values, at, CriterionClause(h, column, c, at).values)
    ensures var vs, v := CriterionClause(h, column, c, at).values, ValueOf(p, column);
      && ValueOf(p, CastToText(column)) == TextForm(p.e, v)
      && (v.Null? ==> ValueOf(p, Lower(CastToText(column))).Null? && ValueOf(p, NumericValue(column)).Null?)
      && (!v.Null? ==>
          && ValueOf(p, Lower(CastToText(column))) == StoredText(p.e.lower(TextOf(p.e, v).text))
          && ValueOf(p, NumericValue(column)) ==
               (match p.e.asNumber(TextOf(p.e, v).text) case Some(n) => StoredNumber(n) case None => Null))
      && (|vs| > 0 ==> ValueOf(p, Placeholder(at)) == vs[0])
      && (|vs| > 1 ==> ValueOf(p, Placeholder(at + 1)) == vs[1])
      && (|vs| > 0 && vs[0].StoredText? ==> ValueOf(p, Lower(Placeholder(at))) == StoredText(p.e.lower(vs[0].text)))
  {
    var r := CriterionClause(h, column, c, at);
    hide CriterionClause;
    if |r.values| > 0 { assert p.values[at - 1..at - 1 + |r.values|][0] == ValueOf(p, Placeholder(at)); }
    if |r.values| > 1 { assert p.values[at - 1..at - 1 + |r.values|][1] == ValueOf(p, Placeholder(at + 1)); }
  }

  /** Ranges and comparisons. */
  lemma OrderMeans(h: Host, p: Place, column: Term, c: FindCriterion, at: nat)
    requires column.Column? && Holding(p.values, at, CriterionClause(h, column, c, at).values)
    requires c.operator in {"RANGE", ">", "<", ">=", "<="}
    ensures Judge(p, CriterionClause(h, column, c, at).condition) == Verdict(h, p.e, c, ValueOf(p, column))
  {
    TermValues(h, p, column, c, at);
    hide ValueOf, TextForm, Holding;
  }

  /** Criteria that ask for nothing or something in a field, or for a difference: two conditions joined. */
  lemma PairMeans(h: Host, p: Place, column: Term, c: FindCriterion, at: nat)
    requires column.Column? && Holding(p.values, at, CriterionClause(h, column, c, at).values)
    requires c.operator in {"IS_EMPTY", "IS_NOT_EMPTY", "!="}
    ensures Judge(p, CriterionClause(h, column, c, at).condition) == Verdict(h, p.e, c, ValueOf(p, column))
  {
    TermValues(h, p, column, c, at);
    var r := CriterionClause(h, column, c, at).condition;
    hide ValueOf, TextForm, Holding;
    var cs := r.cs;
    JudgeTwo(p, cs[0], cs[1]);
  }

  /** Criteria that compare texts or patterns: one condition. */
  lemma SingleMeans(h: Host, p: Place, column: Term, c: FindCriterion, at: nat)
    requires column.Column? && Holding(p.values, at, CriterionClause(h, column, c, at).values)
    requires c.operator !in {"IS_EMPTY", "IS_NOT_EMPTY", "!=", "RANGE", ">", "<", ">=", "<="}
    ensures Judge(p, CriterionClause(h, column, c, at).condition) == Verdict(h, p.e, c, ValueOf(p, column))
  {
    TermValues(h, p, column, c, at);
    hide ValueOf, TextForm, Holding;
  }

  /** The condition of a criterion comes to its verdict on what the column holds. */
  lemma CriterionMeans(h: Host, p: Place, column: Term, c: FindCriterion, at: nat)
    requires column.Column? && Holding(p.values, at, CriterionClause(h, column, c, at).values)
    ensures Judge(p, CriterionClause(h, column, c, at).condition) == Verdict(h, p.e, c, ValueOf(p, column))
  {
    hide *;
    if c.operator in {"RANGE", ">", "<", ">=", "<="} {
      OrderMeans(h, p, column, c, at);
    } else if c.operator in {"IS_EMPTY", "IS_NOT_EMPTY", "!="} {
      PairMeans(h, p, column, c, at);
    } else {
      SingleMeans(h, p, column, c, at);
    }
  }

  // ─── The meaning of a find ───

  /** Some record related to this one meets the criterion. */
  ghost predicate RelatedMeets(h: Host, e: Engine, db: Db, c: FindCriterion, t: Target, own: Record) {
    var key := ReadField(own, t.sourceColumn);
    && !key.Null? && e.cat.holds(Ne, TextOf(e, key), StoredText(""))
    && exists k :: k in db && RelatedRowMeets(h, e, c, t, key, k.table, db[k])
  }

  predicate RelatedRowMeets(h: Host, e: Engine, c: FindCriterion, t: Target, key: Stored, table: string, row: Record) {
    && table == t.table && Relates(e.cat, t.op, ReadField(row, t.targetColumn), key)
    && Verdict(h, e, c, ReadField(row, c.field)).Yes?
  }

  lemma RelatedRowJudged(s: Search, p: Place, c: FindCriterion, t: Target, at: nat, table: string)
    requires Holding(p.values, at, CriterionClause(s.h, Column(Related, c.field), c, at).values)
    ensures var child, parent := Column(Related, t.targetColumn), Column(Owner.Own, t.sourceColumn);
      var inner := CriterionClause(s.h, Column(Related, c.field), c, at).condition;
      table == t.table && Judge(p, All([Test(t.op, child, parent), inner])).Yes? <==>
        RelatedRowMeets(s.h, p.e, c, t, ReadField(p.own, t.sourceColumn), table, p.related)
  {
    var inner := CriterionClause(s.h, Column(Related, c.field), c, at).condition;
    CriterionMeans(s.h, p, Column(Related, c.field), c, at);
    hide CriterionClause, Verdict, Holding;
    JudgeTwo(p, Test(t.op, Column(Related, t.targetColumn), Column(Owner.Own, t.sourceColumn)), inner);
  }

  lemma RelatedMeans(s: Search, p: Place, c: FindCriterion, at: nat)
    requires RelatedClause(s.h, c, s.targets, at).Ok?
    requires Holding(p.values, at, RelatedClause(s.h, c, s.targets, at).value.values)
    ensures KeyOf(s.h, c) in s.targets
    ensures Judge(p, RelatedClause(s.h, c, s.targets, at).value.condition)
         == Definitely(RelatedMeets(s.h, p.e, p.db, c, s.targets[KeyOf(s.h, c)], p.own))
  {
    var t := s.targets[KeyOf(s.h, c)];
    var parent, child := Column(Owner.Own, t.sourceColumn), Column(Related, t.targetColumn);
    var inner := CriterionClause(s.h, Column(Related, c.field), c, at).condition;
    var met := All([Test(t.op, child, parent), inner]);
    forall k | k in p.db
      ensures k.table == t.table && Judge(p.(related := p.db[k]), met).Yes? <==>
        RelatedRowMeets(s.h, p.e, c, t, ReadField(p.own, t.sourceColumn), k.table, p.db[k])
    {
      RelatedRowJudged(s, p.(related := p.db[k]), c, t, at, k.table);
    }
    assert ValueOf(p, CastToText(parent)) == TextForm(p.e, ReadField(p.own, t.sourceColumn));
    hide CriterionClause, RelatedRowMeets, Holding;
    JudgeThree(p, IsNotNull(parent), Test(Ne, CastToText(parent), Literal("")), Exists(t.table, met));
  }

  lemma JudgeThree(p: Place, a: Condition, b: Condition, c: Condition)
    ensures JudgeAll(p, [a, b, c]) == Both(Both(Judge(p, a), Judge(p, b)), Judge(p, c))
  {
    JudgeTwo(p, a, b);
    assert [a, b, c][..2] == [a, b];
  }

  /** What one criterion of a request says of a record. */
  ghost function Says(s: Search, e: Engine, db: Db, c: FindCriterion, own: Record): Logic {
    var f := Effective(s.h, c);
    var key := TargetKey(Trim(s.h, f.relationship), Trim(s.h, f.occurrence));
    if key.relationship == "" then Verdict(s.h, e, f, ReadField(own, f.field))
    else if key !in s.targets then No
    else Definitely(RelatedMeets(s.h, e, db, f, s.targets[key], own))
  }

  lemma ClauseMeans(s: Search, p: Place, c: FindCriterion, at: nat)
    requires ClauseOf(s, c, at).Ok? && Holding(p.values, at, ClauseOf(s, c, at).value.values)
    ensures Judge(p, ClauseOf(s, c, at).value.condition) == Says(s, p.e, p.db, c, p.own)
  {
    var f := Effective(s.h, c);
    hide CriterionClause, RelatedMeets, Verdict, Effective;
    if IsRelated(s.h, f) { RelatedMeans(s, p, f, at); }
    else { CriterionMeans(s.h, p, Column(Owner.Own, f.field), f, at); }
  }

  /** The request names at least one field. */
  predicate Counts(r: FindRequest) { exists c :: c in r.criteria && c.field != "" }

  /** Every criterion of the request is met. */
  ghost predicate Meets(s: Search, e: Engine, db: Db, criteria: seq<FindCriterion>, own: Record) {
    forall c :: c in criteria && c.field != "" ==> Says(s, e, db, c, own).Yes?
  }

  /** Some criterion of the request is definitely not met. */
  ghost predicate Fails(s: Search, e: Engine, db: Db, criteria: seq<FindCriterion>, own: Record) {
    exists c :: c in criteria && c.field != "" && Says(s, e, db, c, own).No?
  }

  /** The meaning of a find: some including request is met, or there is none, and every
      omitting request definitely fails. */
  ghost predicate FoundBy(s: Search, e: Engine, db: Db, requests: seq<FindRequest>, own: Record) {
    && (AnyIncludes(requests) ==> SomeIncluded(s, e, db, requests, own))
    && AllOmitsFail(s, e, db, requests, own)
  }

  predicate AnyIncludes(requests: seq<FindRequest>) { exists r :: r in requests && Counts(r) && !r.omit }

  predicate AnyOmits(requests: seq<FindRequest>) { exists r :: r in requests && Counts(r) && r.omit }

  ghost predicate SomeIncluded(s: Search, e: Engine, db: Db, requests: seq<FindRequest>, own: Record) {
    exists r :: r in requests && Counts(r) && !r.omit && Meets(s, e, db, r.criteria, own)
  }

  ghost predicate AllOmitsFail(s: Search, e: Engine, db: Db, requests: seq<FindRequest>, own: Record) {
    forall r :: r in requests && Counts(r) && r.omit ==> Fails(s, e, db, r.criteria, own)
  }

  lemma HoldingParts(values: seq<Stored>, at: nat, a: seq<Stored>, b: seq<Stored>)
    requires Holding(values, at, a + b)
    ensures Holding(values, at, a) && Holding(values, at + |a|, b)
  {
    var both := values[at - 1..at - 1 + |a + b|];
    assert both[..|a|] == a && both[|a|..] == b;
    assert values[at - 1..at - 1 + |a|] == both[..|a|];
    assert values[at - 1 + |a|..at - 1 + |a| + |b|] == both[|a|..];
  }

  lemma LastOf<T>(front: seq<T>, last: T)
    ensures forall x :: x in front + [last] <==> x in front || x == last
  {
  }

  /** What one more criterion means. */
  lemma OneMoreCriterion(s: Search, e: Engine, db: Db, front: seq<FindCriterion>, c: FindCriterion, own: Record)
    ensures var all, says := front + [c], Says(s, e, db, c, own);
      && (Meets(s, e, db, all, own) <==> Meets(s, e, db, front, own) && (c.field != "" ==> says.Yes?))
      && (Fails(s, e, db, all, own) <==> Fails(s, e, db, front, own) || (c.field != "" && says.No?))
  {
    hide Says;
    LastOf(front, c);
  }

  /** The conditions of a request mean what its criteria mean. */
  ghost predicate ClausesMean(s: Search, p: Place, all: seq<Condition>, criteria: seq<FindCriterion>) {
    && (all == [] <==> forall c :: c in criteria ==> c.field == "")
    && (JudgeAll(p, all).Yes? <==> Meets(s, p.e, p.db, criteria, p.own))
    && (JudgeAll(p, all).No? <==> Fails(s, p.e, p.db, criteria, p.own))
  }

  lemma NoCriteria(s: Search, p: Place, at: nat)
    ensures RequestClauses(s, [], at) == Ok(Clauses([], [])) && ClausesMean(s, p, [], [])
  {
  }

  lemma MoreCriteria(s: Search, p: Place, all: seq<Condition>, condition: Condition, front: seq<FindCriterion>,
                     c: FindCriterion)
    requires ClausesMean(s, p, all, front)
    requires c.field != "" ==> Judge(p, condition) == Says(s, p.e, p.db, c, p.own)
    ensures ClausesMean(s, p, if c.field == "" then all else all + [condition], front + [c])
  {
    OneMoreCriterion(s, p.e, p.db, front, c, p.own);
    JudgePush(p, all, condition);
    LastOf(front, c);
    hide Meets, Fails, Judge, JudgeAll, JudgeAny, Says;
  }

  lemma {:induction false} RequestMeans(s: Search, p: Place, criteria: seq<FindCriterion>, at: nat)
    requires RequestClauses(s, criteria, at).Ok?
    requires Holding(p.values, at, RequestClauses(s, criteria, at).value.values)
    ensures ClausesMean(s, p, RequestClauses(s, criteria, at).value.conditions, criteria)
  {
    hide *;
    if criteria == [] {
      NoCriteria(s, p, at);
    } else {
      RequestUnfolds(s, criteria, at);
      var front, c := criteria[..|criteria| - 1], criteria[|criteria| - 1];
      var before := RequestClauses(s, front, at).value;
      if c.field == "" {
        RequestMeans(s, p, front, at);
        MoreCriteria(s, p, before.conditions, All([]), front, c);
      } else {
        var clause := ClauseOf(s, c, at + |before.values|).value;
        HoldingParts(p.values, at, before.values, clause.values);
        RequestMeans(s, p, front, at);
        ClauseMeans(s, p, c, at + |before.values|);
        MoreCriteria(s, p, before.conditions, clause.condition, front, c);
      }
    }
  }

  /** What one more request adds to a query. */
  lemma WithRequestMeans(p: Place, q: Query, omit: bool, clauses: Clauses)
    ensures var n, all := WithRequest(q, omit, clauses), JudgeAll(p, clauses.conditions);
      var counts := clauses.conditions != [];
      && (n.including != [] <==> q.including != [] || (counts && !omit))
      && (n.omitting != [] <==> q.omitting != [] || (counts && omit))
      && (JudgeAny(p, n.including).Yes? <==> JudgeAny(p, q.including).Yes? || (counts && !omit && all.Yes?))
      && (JudgeAny(p, n.omitting).No? <==> JudgeAny(p, q.omitting).No? && (counts && omit ==> all.No?))
  {
    hide Judge, JudgeAny, JudgeAll;
    JudgeOfAll(p, clauses.conditions);
    JudgePush(p, q.including, All(clauses.conditions));
    JudgePush(p, q.omitting, All(clauses.conditions));
  }

  lemma ClausesMeant(s: Search, p: Place, all: seq<Condition>, r: FindRequest)
    requires ClausesMean(s, p, all, r.criteria)
    ensures all == [] <==> !Counts(r)
    ensures JudgeAll(p, all).Yes? <==> Meets(s, p.e, p.db, r.criteria, p.own)
    ensures JudgeAll(p, all).No? <==> Fails(s, p.e, p.db, r.criteria, p.own)
  {
    hide JudgeAll, Meets, Fails;
  }

  /** What one more request means. */
  lemma OneMoreRequest(s: Search, e: Engine, db: Db, front: seq<FindRequest>, r: FindRequest, own: Record)
    ensures var all, counts := front + [r], Counts(r);
      && (AnyIncludes(all) <==> AnyIncludes(front) || (counts && !r.omit))
      && (AnyOmits(all) <==> AnyOmits(front) || (counts && r.omit))
      && (SomeIncluded(s, e, db, all, own) <==>
          SomeIncluded(s, e, db, front, own) || (counts && !r.omit && Meets(s, e, db, r.criteria, own)))
      && (AllOmitsFail(s, e, db, all, own) <==>
          AllOmitsFail(s, e, db, front, own) && (counts && r.omit ==> Fails(s, e, db, r.criteria, own)))
  {
    hide Counts, Meets, Fails;
    LastOf(front, r);
  }

  /** A query means what its requests mean. */
  ghost predicate QueryMeans(s: Search, p: Place, q: Query, requests: seq<FindRequest>) {
    && (q.including != [] <==> AnyIncludes(requests))
    && (q.omitting != [] <==> AnyOmits(requests))
    && (JudgeAny(p, q.including).Yes? <==> SomeIncluded(s, p.e, p.db, requests, p.own))
    && (JudgeAny(p, q.omitting).No? <==> AllOmitsFail(s, p.e, p.db, requests, p.own))
  }

  lemma NoRequests(s: Search, p: Place)
    ensures Queries(s, []) == Ok(Query([], [], [])) && QueryMeans(s, p, Query([], [], []), [])
  {
  }

  lemma MoreRequests(s: Search, p: Place, q: Query, clauses: Clauses, front: seq<FindRequest>, r: FindRequest)
    requires QueryMeans(s, p, q, front)
    requires clauses.conditions == [] <==> !Counts(r)
    requires JudgeAll(p, clauses.conditions).Yes? <==> Meets(s, p.e, p.db, r.criteria, p.own)
    requires JudgeAll(p, clauses.conditions).No? <==> Fails(s, p.e, p.db, r.criteria, p.own)
    ensures QueryMeans(s, p, WithRequest(q, r.omit, clauses), front + [r])
  {
    WithRequestMeans(p, q, r.omit, clauses);
    OneMoreRequest(s, p.e, p.db, front, r, p.own);
    hide Counts, Meets, Fails, AnyIncludes, AnyOmits, SomeIncluded, AllOmitsFail, WithRequest, JudgeAny, JudgeAll;
  }

  lemma {:induction false} QueriesMean(s: Search, p: Place, requests: seq<FindRequest>)
    requires Queries(s, requests).Ok? && Holding(p.values, 1, Queries(s, requests).value.values)
    ensures QueryMeans(s, p, Queries(s, requests).value, requests)
  {
    hide *;
    if requests == [] {
      NoRequests(s, p);
    } else {
      QueryUnfolds(s, requests);
      var front, r := requests[..|requests| - 1], requests[|requests| - 1];
      var q := Queries(s, front).value;
      var clauses := RequestClauses(s, r.criteria, |q.values| + 1).value;
      HoldingParts(p.values, 1, q.values, clauses.values);
      QueriesMean(s, p, front);
      RequestMeans(s, p, r.criteria, |q.values| + 1);
      ClausesMeant(s, p, clauses.conditions, r);
      MoreRequests(s, p, q, clauses, front, r);
    }
  }

  /** The row is in the result of a query with this WHERE clause. */
  ghost predicate Selects(p: Place, clause: Option<Condition>) {
    clause.None? || Judge(p, clause.value).Yes?
  }

  lemma WhereMeans(p: Place, including: seq<Condition>, omitting: seq<Condition>)
    ensures Selects(p, Where(including, omitting)) <==>
      && (including == [] || JudgeAny(p, including).Yes?)
      && (omitting == [] || JudgeAny(p, omitting).No?)
  {
    var a, b := Any(including), Not(Any(omitting));
    JudgeTwo(p, a, b);
    JudgeOne(p, a);
    JudgeOne(p, b);
    assert Judge(p, a) == JudgeAny(p, including) && Judge(p, b) == Negated(JudgeAny(p, omitting));
    assert [a] + [b] == [a, b] && [a] + [] == [a] && [] + [b] == [b];
    var parts := (if including != [] then [a] else []) + (if omitting != [] then [b] else []);
    assert parts != [] ==> Judge(p, All(parts)) == JudgeAll(p, parts);
  }

  /** The condition of a find selects exactly the records the requests find. */
  lemma FindMeans(s: Search, p: Place, requests: seq<FindRequest>)
    requires BuildFind(s, requests).Ok? && p.values == BuildFind(s, requests).value.values
    ensures Selects(p, BuildFind(s, requests).value.clause) <==> FoundBy(s, p.e, p.db, requests, p.own)
  {
    var q := Queries(s, requests).value;
    assert p.values[0..|p.values|] == q.values;
    QueriesMean(s, p, requests);
    WhereMeans(p, q.including, q.omitting);
    hide Queries, Where, Selects, Says;
    assert q.omitting == [] ==> AllOmitsFail(s, p.e, p.db, requests, p.own);
  }

  // ─── Omitting as subtraction ───

  /** What the requests promise: what some including request finds, without what an omitting
      request finds. */
  ghost predicate Promised(s: Search, e: Engine, db: Db, requests: seq<FindRequest>, own: Record) {
    && (AnyIncludes(requests) ==> SomeIncluded(s, e, db, requests, own))
    && forall r :: r in requests && Counts(r) && r.omit ==> !Meets(s, e, db, r.criteria, own)
  }

  /** A criterion on a field of the record itself that has nothing it could be compared with. */
  predicate Open(s: Search, e: Engine, c: FindCriterion, own: Record) {
    var f := Effective(s.h, c);
    c.field != "" && !IsRelated(s.h, f) && Undecided(s.h, e, f, ReadField(own, f.field))
  }

  /** An omitting request that neither finds the record nor rules it out: the fields it could
      be compared on say nothing, and nothing else fails. */
  ghost predicate LeavesOpen(s: Search, e: Engine, db: Db, r: FindRequest, own: Record) {
    && r.omit && (exists c :: c in r.criteria && Open(s, e, c, own))
    && forall c :: c in r.criteria && c.field != "" && !Open(s, e, c, own) ==> Says(s, e, db, c, own).Yes?
  }

  lemma OpenIsUnknown(s: Search, e: Engine, db: Db, c: FindCriterion, own: Record)
    ensures c.field != "" ==> (Open(s, e, c, own) <==> Says(s, e, db, c, own).Unknown?)
  {
    hide RelatedMeets, Matches, Undecided, Effective;
  }

  /** A request that finds neither nor rules out is one that leaves the record open. */
  lemma UndecidedRequest(s: Search, e: Engine, db: Db, r: FindRequest, own: Record)
    requires r.omit
    ensures LeavesOpen(s, e, db, r, own) <==> !Meets(s, e, db, r.criteria, own) && !Fails(s, e, db, r.criteria, own)
    ensures Counts(r) ==> !(Meets(s, e, db, r.criteria, own) && Fails(s, e, db, r.criteria, own))
  {
    hide Says, Open;
    forall c | c in r.criteria ensures c.field != "" ==> (Open(s, e, c, own) <==> Says(s, e, db, c, own).Unknown?) {
      OpenIsUnknown(s, e, db, c, own);
    }
    if LeavesOpen(s, e, db, r, own) {
      var c :| c in r.criteria && Open(s, e, c, own);
      OpenIsNamed(s, e, c, own);
    }
  }

  lemma OpenIsNamed(s: Search, e: Engine, c: FindCriterion, own: Record)
    requires Open(s, e, c, own)
    ensures c.field != ""
  {
  }

  /** A find keeps its promise for a record exactly unless the record is promised and some
      omitting request leaves it open: such a record is left out. */
  lemma OmitIsSubtraction(s: Search, e: Engine, db: Db, requests: seq<FindRequest>, own: Record)
    ensures FoundBy(s, e, db, requests, own) ==> Promised(s, e, db, requests, own)
    ensures (FoundBy(s, e, db, requests, own) <==> Promised(s, e, db, requests, own)) <==>
      !(Promised(s, e, db, requests, own) && exists r :: r in requests && LeavesOpen(s, e, db, r, own))
  {
    forall r | r in requests && r.omit
      ensures LeavesOpen(s, e, db, r, own) <==> !Meets(s, e, db, r.criteria, own) && !Fails(s, e, db, r.criteria, own)
      ensures Counts(r) ==> !(Meets(s, e, db, r.criteria, own) && Fails(s, e, db, r.criteria, own))
    {
      UndecidedRequest(s, e, db, r, own);
    }
    forall r | r in requests && LeavesOpen(s, e, db, r, own) ensures Counts(r) {
      var c :| c in r.criteria && Open(s, e, c, own);
    }
    hide Meets, Fails, LeavesOpen, Counts, SomeIncluded;
  }

  /** Every criterion of every omitting request is one that is never undecided. */
  predicate OmitsNullSafe(h: Host, requests: seq<FindRequest>) {
    forall r, c :: r in requests && r.omit && c in r.criteria ==>
      IsRelated(h, c) || NullSafe(Effective(h, c).operator)
  }

  ghost function Included(s: Search, e: Engine, db: Db, requests: seq<FindRequest>): set<Key> {
    set k | k in db && k.table == s.table && (AnyIncludes(requests) ==> SomeIncluded(s, e, db, requests, db[k]))
  }

  ghost function Omitted(s: Search, e: Engine, db: Db, requests: seq<FindRequest>): set<Key> {
    set k | k in db && k.table == s.table &&
      exists r :: r in requests && Counts(r) && r.omit && Meets(s, e, db, r.criteria, db[k])
  }

  /** The found set of a query: the rows of the table searched that its WHERE clause selects. */
  ghost function FoundSet(table: string, e: Engine, db: Db, q: FindSql): set<Key> {
    set k | k in db && k.table == table && Selects(Place(e, db, q.values, db[k], map[]), q.clause)
  }

  /** Where omitting requests ask only for what is never undecided, a find is the union of what
      its including requests find, all records if there are none, less the union of what its
      omitting requests find. */
  lemma FoundSetIsDifference(s: Search, e: Engine, db: Db, requests: seq<FindRequest>)
    requires BuildFind(s, requests).Ok? && OmitsNullSafe(s.h, requests)
    ensures FoundSet(s.table, e, db, BuildFind(s, requests).value)
         == Included(s, e, db, requests) - Omitted(s, e, db, requests)
  {
    var q := BuildFind(s, requests).value;
    forall k | k in db
      ensures Selects(Place(e, db, q.values, db[k], map[]), q.clause) <==> Promised(s, e, db, requests, db[k])
    {
      FindMeans(s, Place(e, db, q.values, db[k], map[]), requests);
      NothingOpen(s, e, db, requests, db[k]);
      OmitIsSubtraction(s, e, db, requests, db[k]);
      hide FoundBy, Promised, BuildFind, LeavesOpen, Selects;
    }
    hide BuildFind, Selects, Meets, SomeIncluded, Counts;
  }

  lemma NothingOpen(s: Search, e: Engine, db: Db, requests: seq<FindRequest>, own: Record)
    requires OmitsNullSafe(s.h, requests)
    ensures forall r :: r in requests ==> !LeavesOpen(s, e, db, r, own)
  {
    hide Says, Effective;
  }
}
