/** The methods of the find translator, which number placeholders and collect values as they go. */
module FindMethods {
  import opened Common
  import opened Evaluator
  import opened Relationships
  import opened Sql
  import opened Find
  import opened FindRelated

  lemma {:induction false} RequestStops(s: Search, criteria: seq<FindCriterion>, at: nat, n: nat)
    requires n <= |criteria| && RequestClauses(s, criteria[..n], at).Err?
    ensures RequestClauses(s, criteria, at) == RequestClauses(s, criteria[..n], at)
  {
    hide ClauseOf;
    if n < |criteria| {
      assert criteria[..|criteria| - 1][..n] == criteria[..n];
      RequestStops(s, criteria[..|criteria| - 1], at, n);
    } else {
      assert criteria[..n] == criteria;
    }
  }

  lemma {:induction false} QueriesStop(s: Search, requests: seq<FindRequest>, n: nat)
    requires n <= |requests| && Queries(s, requests[..n]).Err?
    ensures Queries(s, requests) == Queries(s, requests[..n])
  {
    hide RequestClauses;
    if n < |requests| {
      assert requests[..|requests| - 1][..n] == requests[..n];
      QueriesStop(s, requests[..|requests| - 1], n);
    } else {
      assert requests[..n] == requests;
    }
  }

  lemma {:induction false} ResolveStops(cat: Catalog, table: string, criteria: seq<FindCriterion>,
                                        more: seq<FindCriterion>)
    requires ResolveAll(cat, table, criteria).Err?
    ensures ResolveAll(cat, table, criteria + more) == ResolveAll(cat, table, criteria)
  {
    hide WithTarget;
    if more == [] {
      assert criteria + more == criteria;
    } else {
      assert (criteria + more)[..|criteria + more| - 1] == criteria + more[..|more| - 1];
      ResolveStops(cat, table, criteria, more[..|more| - 1]);
    }
  }

  /** The criteria of the first requests are the first of all the criteria. */
  lemma {:induction false} CriteriaBefore(requests: seq<FindRequest>, n: nat) returns (rest: seq<FindCriterion>)
    requires n < |requests|
    ensures AllCriteria(requests) == AllCriteria(requests[..n]) + requests[n].criteria + rest
  {
    var last := |requests| - 1;
    if n == last {
      rest := [];
    } else {
      assert requests[..last][..n] == requests[..n] && requests[..last][n] == requests[n];
      rest := CriteriaBefore(requests[..last], n);
      rest := rest + requests[last].criteria;
    }
  }

  lemma ResolveStep(cat: Catalog, table: string, before: seq<FindCriterion>, criteria: seq<FindCriterion>, j: nat)
    requires j < |criteria| && ResolveAll(cat, table, before + criteria[..j]).Ok?
    ensures ResolveAll(cat, table, before + criteria[..j + 1]) ==
      WithTarget(cat, table, criteria[j], ResolveAll(cat, table, before + criteria[..j]).value)
  {
    hide *;
    ResolvePush(cat, table, before + criteria[..j], criteria[j]);
    assert before + criteria[..j + 1] == (before + criteria[..j]) + [criteria[j]];
  }

  lemma ResolvePush(cat: Catalog, table: string, front: seq<FindCriterion>, c: FindCriterion)
    requires ResolveAll(cat, table, front).Ok?
    ensures ResolveAll(cat, table, front + [c]) == WithTarget(cat, table, c, ResolveAll(cat, table, front).value)
  {
    hide WithTarget;
    assert (front + [c])[..|front|] == front;
  }

  /** The first relationship that leads nowhere decides. */
  lemma ResolveFails(cat: Catalog, table: string, requests: seq<FindRequest>, i: nat, j: nat)
    requires i < |requests| && j < |requests[i].criteria|
    requires ResolveAll(cat, table, AllCriteria(requests[..i]) + requests[i].criteria[..j + 1]).Err?
    ensures ResolveAll(cat, table, AllCriteria(requests))
         == ResolveAll(cat, table, AllCriteria(requests[..i]) + requests[i].criteria[..j + 1])
  {
    hide ResolveAll, AllCriteria;
    var rest := CriteriaBefore(requests, i);
    var before, criteria := AllCriteria(requests[..i]), requests[i].criteria;
    ResolveStops(cat, table, before + criteria[..j + 1], criteria[j + 1..] + rest);
    assert AllCriteria(requests) == (before + criteria[..j + 1]) + (criteria[j + 1..] + rest);
  }

  lemma NextRequest(requests: seq<FindRequest>, i: nat)
    requires i < |requests|
    ensures AllCriteria(requests[..i + 1]) == AllCriteria(requests[..i]) + requests[i].criteria
  {
    TakeNext(requests, i);
  }

  /** resolveFindRelations. */
  method ResolveRelations(cat: Catalog, table: string, requests: seq<FindRequest>)
    returns (r: Result<Targets, FindError>)
    ensures r == ResolveAll(cat, table, AllCriteria(requests))
  {
    var targets: Targets := map[];
    assert requests[..0] == [];
    for i := 0 to |requests|
      invariant ResolveAll(cat, table, AllCriteria(requests[..i])) == Ok(targets)
    {
      hide Resolve, ResolveAll, AllCriteria;
      ghost var before, criteria := AllCriteria(requests[..i]), requests[i].criteria;
      assert before + criteria[..0] == before;
      for j := 0 to |requests[i].criteria|
        invariant ResolveAll(cat, table, before + criteria[..j]) == Ok(targets)
      {
        ResolveStep(cat, table, before, criteria, j);
        var c := requests[i].criteria[j];
        var key := KeyOf(cat.h, c);
        if IsRelated(cat.h, c) && key !in targets {
          var t := Resolve(cat, table, key);
          if t.Err? {
            ResolveFails(cat, table, requests, i, j);
            return Err(t.error);
          }
          targets := targets[key := t.value];
        }
      }
      NextRequest(requests, i);
      assert criteria[..|criteria|] == criteria;
    }
    assert requests[..|requests|] == requests;
    return Ok(targets);
  }

  /** The number of the next placeholder and the values so far. */
  class ClauseBuilder {
    const s: Search
    var idx: nat
    var values: seq<Stored>

    constructor (s: Search)
      ensures this.s == s && idx == 1 && values == []
    {
      this.s, idx, values := s, 1, [];
    }

    method Place() returns (t: Term)
      modifies `idx
      ensures t == Placeholder(old(idx)) && idx == old(idx) + 1
    {
      t := Placeholder(idx);
      idx := idx + 1;
    }

    /** What a criterion adds: its condition is returned, its values and placeholders are counted. */
    ghost predicate Added(before: seq<Stored>, from: nat, r: Clause)
      reads this
    {
      values == before + r.values && idx == from + |r.values|
    }

    /** criterionClause. */
    method Criterion(column: Term, c: FindCriterion) returns (condition: Condition)
      modifies `idx, `values
      ensures condition == CriterionClause(s.h, column, c, old(idx)).condition
      ensures Added(old(values), old(idx), CriterionClause(s.h, column, c, old(idx)))
    {
      var text := Printed(c.value);
      match c.operator {
        case "IS_EMPTY" =>
          condition := Any([IsNull(column), Test(Eq, CastToText(column), Literal(""))]);
        case "IS_NOT_EMPTY" =>
          condition := All([IsNotNull(column), Test(Ne, CastToText(column), Literal(""))]);
        case "RANGE" =>
          condition := Range(column, c);
        case "LIKE" =>
          var p := Place();
          condition := Like(column, p);
          values := values + [StoredText(text)];
        case "=" | "==" =>
          var p := Place();
          condition := Test(Eq, Lower(CastToText(column)), Lower(p));
          values := values + [StoredText(text)];
        case "!=" =>
          var p := Place();
          condition := Any([IsNull(column), Test(Ne, Lower(CastToText(column)), Lower(p))]);
          values := values + [StoredText(text)];
        case ">" | "<" | ">=" | "<=" =>
          var num := s.h.parseFloat(text);
          var p := Place();
          if num.Some? {
            condition := Test(SqlSign(c.operator), NumericValue(column), p);
            values := values + [StoredNumber(num.value)];
          } else {
            condition := Test(SqlSign(c.operator), CastToText(column), p);
            values := values + [StoredText(text)];
          }
        case _ =>
          var p := Place();
          condition := Like(column, p);
          values := values + [StoredText("%" + text + "%")];
      }
    }

    method Range(column: Term, c: FindCriterion) returns (condition: Condition)
      requires c.operator == "RANGE"
      modifies `idx, `values
      ensures condition == CriterionClause(s.h, column, c, old(idx)).condition
      ensures Added(old(values), old(idx), CriterionClause(s.h, column, c, old(idx)))
    {
      var low, high := s.h.parseFloat(Printed(c.value)), s.h.parseFloat(Printed(c.valueTo));
      var p := Place();
      var q := Place();
      if low.Some? && high.Some? {
        condition := Between(NumericValue(column), p, q);
        values := values + [StoredNumber(low.value), StoredNumber(high.value)];
      } else {
        condition := Between(CastToText(column), p, q);
        values := values + [StoredText(Printed(c.value)), StoredText(Printed(c.valueTo))];
      }
    }

    /** relatedCriterionClause. */
    method RelatedCriterion(c: FindCriterion) returns (r: Result<Condition, FindError>)
      modifies `idx, `values
      ensures var spec := RelatedClause(s.h, c, s.targets, old(idx));
        if spec.Ok? then r == Ok(spec.value.condition) && Added(old(values), old(idx), spec.value)
        else r == Err(spec.error)
    {
      hide CriterionClause;
      if KeyOf(s.h, c) !in s.targets {
        return Err(NoRelationship);
      }
      var target := s.targets[KeyOf(s.h, c)];
      if c.field !in target.fields {
        return Err(UnknownField(target.table, c.field));
      }
      var parent, child := Column(Owner.Own, target.sourceColumn), Column(Related, target.targetColumn);
      var inner := Criterion(Column(Related, c.field), c);
      return Ok(All([IsNotNull(parent), Test(Ne, CastToText(parent), Literal("")),
                     Exists(target.table, All([Test(target.op, child, parent), inner]))]));
    }

    /** One criterion of a request that names a field. */
    method OneClause(c: FindCriterion) returns (r: Result<Condition, FindError>)
      modifies `idx, `values
      ensures var spec := ClauseOf(s, c, old(idx));
        if spec.Ok? then r == Ok(spec.value.condition) && Added(old(values), old(idx), spec.value)
        else r == Err(spec.error)
    {
      hide CriterionClause, RelatedClause, ParseTyped, HoldsOperator;
      var crit := c;
      if (c.operator == "" || c.operator == "LIKE") && c.value.Some? {
        var typed := Trim(s.h, c.value.value);
        if HoldsOperator(typed) {
          crit := ParseTyped(s.h, c.field, typed).(relationship := c.relationship, occurrence := c.occurrence);
        }
      }
      if IsRelated(s.h, crit) {
        r := RelatedCriterion(crit);
        return;
      }
      if crit.field !in s.fields {
        return Err(UnknownField(s.table, crit.field));
      }
      var condition := Criterion(Column(Owner.Own, crit.field), crit);
      return Ok(condition);
    }

    /** The criteria of one request. */
    method Request(criteria: seq<FindCriterion>) returns (r: Result<seq<Condition>, FindError>)
      modifies `idx, `values
      ensures var spec := RequestClauses(s, criteria, old(idx));
        if spec.Ok? then
          r == Ok(spec.value.conditions) && values == old(values) + spec.value.values
          && idx == old(idx) + |spec.value.values|
        else r == Err(spec.error)
    {
      hide ClauseOf;
      var conditions := [];
      ghost var added := [];
      ghost var start := idx;
      for i := 0 to |criteria|
        invariant RequestClauses(s, criteria[..i], start) == Ok(Clauses(conditions, added))
        invariant values == old(values) + added && idx == start + |added|
      {
        TakeNext(criteria, i);
        if criteria[i].field == "" {
          continue;
        }
        ghost var spec := ClauseOf(s, criteria[i], idx);
        var clause := OneClause(criteria[i]);
        if clause.Err? {
          RequestStops(s, criteria, start, i + 1);
          return Err(clause.error);
        }
        conditions := conditions + [clause.value];
        added := added + spec.value.values;
      }
      assert criteria[..|criteria|] == criteria;
      return Ok(conditions);
    }

    /** buildFindClauses. */
    method Build(requests: seq<FindRequest>) returns (r: Result<FindSql, FindError>)
      requires idx == 1 && values == []
      modifies `idx, `values
      ensures r == BuildFind(s, requests)
    {
      hide RequestClauses;
      var including, omitting := [], [];
      for i := 0 to |requests|
        invariant Queries(s, requests[..i]) == Ok(Query(including, omitting, values))
        invariant idx == |values| + 1
      {
        TakeNext(requests, i);
        ghost var spec := RequestClauses(s, requests[i].criteria, idx);
        var conditions := Request(requests[i].criteria);
        if conditions.Err? {
          QueriesStop(s, requests, i + 1);
          return Err(conditions.error);
        }
        if conditions.value != [] {
          var joined := All(conditions.value);
          if requests[i].omit {
            omitting := omitting + [joined];
          } else {
            including := including + [joined];
          }
        }
      }
      assert requests[..|requests|] == requests;
      return Ok(FindSql(Where(including, omitting), values));
    }
  }
}
