/** Which value a placeholder takes: by its number, and by its position. */
module FindNumbering {
  import opened Common
  import opened Relationships
  import opened Sql
  import opened Find

  /** The criterion brings a value of its own. */
  predicate TakesValue(h: Host, c: FindCriterion) {
    c.field != "" && Effective(h, c).operator !in {"IS_EMPTY", "IS_NOT_EMPTY"}
  }

  predicate TakesValues(h: Host, r: FindRequest) { SomeTakes(h, r.criteria) }

  predicate OmitTakesValues(h: Host, requests: seq<FindRequest>) {
    exists r :: r in requests && r.omit && TakesValues(h, r)
  }

  /** No omitting request that takes values comes before an including one that does. */
  predicate InOrder(h: Host, requests: seq<FindRequest>) {
    forall i, j :: 0 <= i < j < |requests| && requests[i].omit && TakesValues(h, requests[i]) && !requests[j].omit ==>
      !TakesValues(h, requests[j])
  }

  lemma HolesPush(cs: seq<Condition>, c: Condition)
    ensures HolesOf(cs + [c]) == HolesOf(cs) + Holes(c)
  {
    assert (cs + [c])[..|cs|] == cs;
  }

  lemma HolesTwo(a: Condition, b: Condition)
    ensures HolesOf([a, b]) == Holes(a) + Holes(b)
  {
    HolesPush([], a);
    HolesPush([a], b);
    assert [] + [a] == [a] && [a] + [b] == [a, b];
  }

  lemma TermHolesAre(column: Term, at: nat)
    requires column.Column?
    ensures TermHoles(column) == [] && TermHoles(CastToText(column)) == [] && TermHoles(NumericValue(column)) == []
    ensures TermHoles(Lower(CastToText(column))) == [] && TermHoles(Literal("")) == []
    ensures TermHoles(Placeholder(at)) == TermHoles(Lower(Placeholder(at))) == [at] == Upwards(at, 1)
    ensures TermHoles(Placeholder(at + 1)) == [at + 1]
    ensures [] + [at] + [at + 1] == Upwards(at, 2) && Upwards(at, 0) == []
  {
    assert TermHoles(CastToText(column)) == TermHoles(column);
  }

  lemma CriterionHoles(h: Host, column: Term, c: FindCriterion, at: nat)
    requires column.Column?
    ensures var r := CriterionClause(h, column, c, at);
      && Holes(r.condition) == Upwards(at, |r.values|)
      && (r.values != [] <==> c.operator !in {"IS_EMPTY", "IS_NOT_EMPTY"})
  {
    TermHolesAre(column, at);
    hide TermHoles, Upwards;
    match CriterionClause(h, column, c, at).condition
    case Any(cs) => HolesTwo(cs[0], cs[1]);
    case All(cs) => HolesTwo(cs[0], cs[1]);
    case _ =>
  }

  lemma HolesThree(a: Condition, b: Condition, c: Condition)
    ensures HolesOf([a, b, c]) == Holes(a) + Holes(b) + Holes(c)
  {
    HolesTwo(a, b);
    HolesPush([a, b], c);
    assert [a, b] + [c] == [a, b, c];
  }

  /** Reaching through a relationship adds no placeholder. */
  lemma ThroughHoles(t: Target, inner: Condition)
    ensures var parent, child := Column(Owner.Own, t.sourceColumn), Column(Related, t.targetColumn);
      Holes(All([IsNotNull(parent), Test(Ne, CastToText(parent), Literal("")),
                 Exists(t.table, All([Test(t.op, child, parent), inner]))])) == Holes(inner)
  {
    var parent, child := Column(Owner.Own, t.sourceColumn), Column(Related, t.targetColumn);
    var joins, present := Test(t.op, child, parent), IsNotNull(parent);
    var holds := Test(Ne, CastToText(parent), Literal(""));
    TermHolesAre(parent, 0);
    HolesTwo(joins, inner);
    HolesThree(present, holds, Exists(t.table, All([joins, inner])));
    hide TermHoles, HolesOf;
  }

  lemma RelatedHoles(s: Search, c: FindCriterion, at: nat)
    requires RelatedClause(s.h, c, s.targets, at).Ok?
    ensures var r := RelatedClause(s.h, c, s.targets, at).value;
      && Holes(r.condition) == Upwards(at, |r.values|)
      && (r.values != [] <==> c.operator !in {"IS_EMPTY", "IS_NOT_EMPTY"})
  {
    CriterionHoles(s.h, Column(Related, c.field), c, at);
    ThroughHoles(s.targets[KeyOf(s.h, c)], CriterionClause(s.h, Column(Related, c.field), c, at).condition);
    hide CriterionClause, Holes, Upwards;
  }

  lemma ClauseHoles(s: Search, c: FindCriterion, at: nat)
    requires ClauseOf(s, c, at).Ok?
    ensures var r := ClauseOf(s, c, at).value;
      && Holes(r.condition) == Upwards(at, |r.values|)
      && (c.field != "" ==> (r.values != [] <==> TakesValue(s.h, c)))
  {
    var f := Effective(s.h, c);
    hide CriterionClause, RelatedClause, Effective;
    if IsRelated(s.h, f) { RelatedHoles(s, f, at); } else { CriterionHoles(s.h, Column(Owner.Own, f.field), f, at); }
  }

  predicate SomeTakes(h: Host, criteria: seq<FindCriterion>) { exists c :: c in criteria && TakesValue(h, c) }

  lemma OneMoreTakes(h: Host, front: seq<FindCriterion>, c: FindCriterion)
    ensures SomeTakes(h, front + [c]) <==> SomeTakes(h, front) || TakesValue(h, c)
    ensures c.field == "" ==> !TakesValue(h, c)
  {
    hide Effective;
    assert forall x :: x in front + [c] <==> x in front || x == c;
  }

  lemma NoCriteriaHoles(s: Search, at: nat)
    ensures RequestClauses(s, [], at) == Ok(Clauses([], [])) && HolesOf([]) == Upwards(at, 0) && !SomeTakes(s.h, [])
  {
  }

  lemma MoreHoles(all: Clauses, clause: Clause, at: nat)
    requires HolesOf(all.conditions) == Upwards(at, |all.values|)
    requires Holes(clause.condition) == Upwards(at + |all.values|, |clause.values|)
    ensures HolesOf(all.conditions + [clause.condition]) == Upwards(at, |all.values + clause.values|)
    ensures all.values + clause.values != [] <==> all.values != [] || clause.values != []
  {
    HolesPush(all.conditions, clause.condition);
    UpwardsSplit(at, |all.values|, |clause.values|);
    hide Upwards, Holes, HolesOf;
  }

  /** A request's placeholders are numbered on from where it starts. */
  lemma {:induction false} RequestHoles(s: Search, criteria: seq<FindCriterion>, at: nat)
    requires RequestClauses(s, criteria, at).Ok?
    ensures var all := RequestClauses(s, criteria, at).value;
      && HolesOf(all.conditions) == Upwards(at, |all.values|)
      && (all.values != [] <==> SomeTakes(s.h, criteria))
      && (all.conditions == [] ==> all.values == [])
  {
    hide *;
    if criteria == [] {
      NoCriteriaHoles(s, at);
    } else {
      RequestUnfolds(s, criteria, at);
      var front, c := criteria[..|criteria| - 1], criteria[|criteria| - 1];
      RequestHoles(s, front, at);
      OneMoreTakes(s.h, front, c);
      var before := RequestClauses(s, front, at).value;
      if c.field != "" {
        ClauseHoles(s, c, at + |before.values|);
        MoreHoles(before, ClauseOf(s, c, at + |before.values|).value, at);
      }
    }
  }

  /** Together they are the numbers from 1 to the count. */
  ghost predicate Counted(a: seq<nat>, b: seq<nat>, count: nat) {
    multiset(a + b) == multiset(Upwards(1, count))
  }

  /** The numbers of the placeholders of including and of omitting requests, in the order in
      which they are written. */
  ghost predicate Numbered(h: Host, requests: seq<FindRequest>, a: seq<nat>, b: seq<nat>, count: nat) {
    && |a + b| == count && (forall i :: i in b ==> i <= count)
    && (b != [] <==> OmitTakesValues(h, requests))
    && (a + b == Upwards(1, count) <==> InOrder(h, requests))
  }

  lemma OrderOneMore(h: Host, front: seq<FindRequest>, r: FindRequest)
    ensures OmitTakesValues(h, front + [r]) <==> OmitTakesValues(h, front) || (r.omit && TakesValues(h, r))
    ensures InOrder(h, front + [r]) <==>
      InOrder(h, front) && !(OmitTakesValues(h, front) && !r.omit && TakesValues(h, r))
  {
    hide TakesValues;
    var all := front + [r];
    assert forall i :: 0 <= i < |front| ==> all[i] == front[i];
    assert forall x :: x in all <==> x in front || x == r;
    if OmitTakesValues(h, front) && !r.omit && TakesValues(h, r) {
      var x :| x in front && x.omit && TakesValues(h, x);
      var i :| 0 <= i < |front| && front[i] == x;
      assert all[i] == x && all[|front|] == r;
    }
  }

  lemma OmitAdds(h: Host, requests: seq<FindRequest>, r: FindRequest, a: seq<nat>, b: seq<nat>, count: nat, more: nat)
    requires Numbered(h, requests, a, b, count) && r.omit && (more > 0 <==> TakesValues(h, r))
    ensures Numbered(h, requests + [r], a, b + Upwards(count + 1, more), count + more)
  {
    hide TakesValues, InOrder, OmitTakesValues;
    OrderOneMore(h, requests, r);
    UpwardsSplit(1, count, more);
    var m := Upwards(count + 1, more);
    assert a + (b + m) == (a + b) + m;
    Joined(a + b, m, 1);
  }

  /** Once values of an omitting request stand last, higher numbers before them are out of order. */
  lemma HigherBefore(a: seq<nat>, m: seq<nat>, b: seq<nat>, count: nat)
    requires b != [] && m != [] && |(a + m) + b| == count + |m| && forall i :: i in b ==> i <= count
    ensures (a + m) + b != Upwards(1, count + |m|)
  {
    var all := (a + m) + b;
    assert all[|all| - 1] == b[|b| - 1] && b[|b| - 1] in b;
    assert Upwards(1, count + |m|)[|all| - 1] == count + |m|;
  }

  lemma IncludeAdds(h: Host, requests: seq<FindRequest>, r: FindRequest, a: seq<nat>, b: seq<nat>, count: nat,
                    more: nat)
    requires Numbered(h, requests, a, b, count) && !r.omit && (more > 0 <==> TakesValues(h, r))
    ensures Numbered(h, requests + [r], a + Upwards(count + 1, more), b, count + more)
  {
    hide TakesValues, InOrder, OmitTakesValues, Upwards;
    OrderOneMore(h, requests, r);
    var m := Upwards(count + 1, more);
    if b == [] {
      assert (a + m) + b == a + m && a + b == a;
      UpwardsSplit(1, count, more);
      Joined(a, m, 1);
    } else if more == 0 {
      assert (a + m) + b == a + b;
    } else {
      HigherBefore(a, m, b, count);
    }
  }

  lemma MoreCounted(a: seq<nat>, b: seq<nat>, count: nat, more: nat)
    requires Counted(a, b, count)
    ensures var m := Upwards(count + 1, more); Counted(a + m, b, count + more) && Counted(a, b + m, count + more)
  {
    UpwardsSplit(1, count, more);
    var m := Upwards(count + 1, more);
    hide Upwards;
    assert multiset((a + m) + b) == multiset((a + b) + m) == multiset(a + (b + m));
  }

  lemma NoneNumbered(s: Search)
    ensures Queries(s, []) == Ok(Query([], [], [])) && Numbered(s.h, [], HolesOf([]), HolesOf([]), 0)
    ensures Counted(HolesOf([]), HolesOf([]), 0)
  {
  }

  lemma AllHoles(cs: seq<Condition>)
    ensures Holes(All(cs)) == HolesOf(cs) && HolesOf([]) == []
  {
  }

  lemma QueryNumbers(s: Search, q: Query, front: seq<FindRequest>, r: FindRequest, clauses: Clauses)
    requires Numbered(s.h, front, HolesOf(q.including), HolesOf(q.omitting), |q.values|)
    requires Counted(HolesOf(q.including), HolesOf(q.omitting), |q.values|)
    requires HolesOf(clauses.conditions) == Upwards(|q.values| + 1, |clauses.values|)
    requires clauses.values != [] <==> TakesValues(s.h, r)
    requires clauses.conditions == [] ==> clauses.values == []
    ensures var n := WithRequest(q, r.omit, clauses);
      && Numbered(s.h, front + [r], HolesOf(n.including), HolesOf(n.omitting), |n.values|)
      && Counted(HolesOf(n.including), HolesOf(n.omitting), |n.values|)
  {
    hide Numbered, Counted, TakesValues, Holes, HolesOf, Upwards;
    var a, b, mine := HolesOf(q.including), HolesOf(q.omitting), All(clauses.conditions);
    var more := |clauses.values|;
    MoreCounted(a, b, |q.values|, more);
    AllHoles(clauses.conditions);
    if clauses.conditions == [] {
      assert a + [] == a && b + [] == b;
    }
    if r.omit {
      OmitAdds(s.h, front, r, a, b, |q.values|, more);
      HolesPush(q.omitting, mine);
    } else {
      IncludeAdds(s.h, front, r, a, b, |q.values|, more);
      HolesPush(q.including, mine);
    }
  }

  lemma {:induction false} QueriesNumber(s: Search, requests: seq<FindRequest>)
    requires Queries(s, requests).Ok?
    ensures var q := Queries(s, requests).value;
      && Numbered(s.h, requests, HolesOf(q.including), HolesOf(q.omitting), |q.values|)
      && Counted(HolesOf(q.including), HolesOf(q.omitting), |q.values|)
  {
    hide *;
    if requests == [] {
      NoneNumbered(s);
    } else {
      QueryUnfolds(s, requests);
      var front, r := requests[..|requests| - 1], requests[|requests| - 1];
      var q := Queries(s, front).value;
      var clauses := RequestClauses(s, r.criteria, |q.values| + 1).value;
      QueriesNumber(s, front);
      RequestHoles(s, r.criteria, |q.values| + 1);
      RequestTakes(s.h, r);
      QueryNumbers(s, q, front, r, clauses);
    }
  }

  lemma RequestTakes(h: Host, r: FindRequest)
    ensures TakesValues(h, r) <==> SomeTakes(h, r.criteria)
  {
  }

  lemma WhereHoles(including: seq<Condition>, omitting: seq<Condition>)
    ensures var w := Where(including, omitting);
      if w.None? then including == [] && omitting == []
      else Holes(w.value) == HolesOf(including) + HolesOf(omitting)
  {
    hide HolesOf, TermHoles;
    var a, b := Any(including), Not(Any(omitting));
    HolesTwo(a, b);
    HolesOne(a);
    HolesOne(b);
    NoHoles();
    assert [a] + [b] == [a, b] && [a] + [] == [a] && [] + [b] == [b];
  }

  lemma HolesOne(a: Condition)
    ensures HolesOf([a]) == Holes(a)
  {
    HolesPush([], a);
    assert [] + [a] == [a];
  }

  lemma NoHoles()
    ensures HolesOf([]) == []
  {
  }

  /** The placeholders of a find are numbered from 1 to the number of its values, each number
      once. They stand in the order of their numbers, so that reading them by position changes
      no number, exactly if no omitting request with values comes before an including one with
      values. */
  lemma PlaceholdersAligned(s: Search, requests: seq<FindRequest>)
    requires BuildFind(s, requests).Ok?
    ensures var q := BuildFind(s, requests).value;
      && (q.clause.None? ==> q.values == [])
      && (q.clause.Some? ==>
          && multiset(Holes(q.clause.value)) == multiset(Upwards(1, |q.values|))
          && (Renumber(q.clause.value, 1) == q.clause.value <==> InOrder(s.h, requests)))
  {
    var q := Queries(s, requests).value;
    QueriesNumber(s, requests);
    WhereHoles(q.including, q.omitting);
    hide Queries, Where, InOrder, Holes, OmitTakesValues;
    if Where(q.including, q.omitting).Some? { Renumbers(Where(q.including, q.omitting).value, 1); }
    else { NothingNumbered(q); }
  }

  lemma NothingNumbered(q: Query)
    requires q.including == [] && q.omitting == []
    requires Counted(HolesOf(q.including), HolesOf(q.omitting), |q.values|)
    ensures q.values == []
  {
    assert |multiset(Upwards(1, |q.values|))| == |q.values|;
  }
}
