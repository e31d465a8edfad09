/** data/service.go and data/related.go: turning find requests into one condition and its values. */
module Find {
  import opened Common
  import opened Evaluator
  import opened Relationships
  import opened Sql

  /** A criterion as it arrives. A value is the text it prints as, or missing. */
  datatype FindCriterion = FindCriterion(
    field: string, operator: string, value: Option<string>, valueTo: Option<string>,
    relationship: string, occurrence: string)

  datatype FindRequest = FindRequest(criteria: seq<FindCriterion>, omit: bool)

  datatype FindError =
    | UnknownField(table: string, field: string) | NoTable | NoRecord | NoRelationship | BadRelation(e: RelationError)

  /** What a missing value prints as. */
  function Printed(v: Option<string>): string {
    match v case None => "<nil>" case Some(s) => s
  }

  // ─── Operators typed into a field ───

  predicate StandsAt(s: string, what: string, i: nat)
    requires i <= |s|
  {
    what <= s[i..]
  }

  /** strings.Index: the first place where the text stands. */
  function IndexOf(s: string, what: string): (at: Option<nat>)
    ensures at.Some? ==> at.value + |what| <= |s| && StandsAt(s, what, at.value)
    ensures forall i: nat :: i <= |s| && (at.None? || i < at.value) ==> !StandsAt(s, what, i)
  {
    assert s[0..] == s;
    if what <= s then Some(0)
    else if s == "" then None
    else
      assert forall i: nat :: 1 <= i <= |s| ==> s[1..][i - 1..] == s[i..];
      assert forall i: nat :: 1 <= i <= |s| ==> StandsAt(s, what, i) == StandsAt(s[1..], what, i - 1);
      match IndexOf(s[1..], what)
      case None => None
      case Some(i) => Some(i + 1)
  }

  predicate Contains(s: string, what: string) { IndexOf(s, what).Some? }

  function Criterion(field: string, operator: string, value: Option<string>, valueTo: Option<string>): FindCriterion {
    FindCriterion(field, operator, value, valueTo, "", "")
  }

  /** The text with today's date for every `//` in it. */
  function WithToday(h: Host, typed: string): string {
    if typed == "//" then h.formatDate(h.now)
    else if Contains(typed, "//") then ReplaceAll(typed, "//", h.formatDate(h.now))
    else typed
  }

  /** ParseFile4BaseFindCriteria. */
  function ParseTyped(h: Host, field: string, raw: string): (c: FindCriterion)
    ensures c.field == field
  {
    if Trim(h, raw) == "" then Criterion(field, "", None, None) else ParseDated(h, field, WithToday(h, Trim(h, raw)))
  }

  function ParseDated(h: Host, field: string, typed: string): (c: FindCriterion)
    ensures c.field == field
  {
    var at := IndexOf(typed, "...");
    if at.Some? then
      Criterion(field, "RANGE", Some(Trim(h, typed[..at.value])), Some(Trim(h, typed[at.value + 3..])))
    else if typed == "=" then Criterion(field, "IS_EMPTY", Some(""), None)
    else if "==" <= typed then Criterion(field, "==", Some(Trim(h, typed[2..])), None)
    else if "=" <= typed then Criterion(field, "=", Some(Trim(h, typed[1..])), None)
    else if typed == "*" then Criterion(field, "IS_NOT_EMPTY", Some(""), None)
    else if ">=" <= typed then Criterion(field, ">=", Some(Trim(h, typed[2..])), None)
    else if "<=" <= typed then Criterion(field, "<=", Some(Trim(h, typed[2..])), None)
    else if ">" <= typed then Criterion(field, ">", Some(Trim(h, typed[1..])), None)
    else if "<" <= typed then Criterion(field, "<", Some(Trim(h, typed[1..])), None)
    else if "!=" <= typed then Criterion(field, "!=", Some(Trim(h, typed[2..])), None)
    else if "!" <= typed then Criterion(field, "!=", Some(Trim(h, typed[1..])), None)
    else if Contains(typed, "*") || Contains(typed, "@") || Contains(typed, "?") then
      Criterion(field, "LIKE", Some(ReplaceAll(ReplaceAll(ReplaceAll(typed, "*", "%"), "@", "_"), "?", "_")), None)
    else Criterion(field, "LIKE", Some("%" + typed + "%"), None)
  }

  predicate HoldsOperator(s: string) {
    || "=" <= s || "!" <= s || ">" <= s || "<" <= s || Contains(s, "...") || Contains(s, "*")
    || Contains(s, "@") || Contains(s, "?") || Contains(s, "//")
  }

  /** The criterion that is translated: an operator typed into the value comes first. */
  function Effective(h: Host, c: FindCriterion): (e: FindCriterion)
    ensures e.field == c.field && e.relationship == c.relationship && e.occurrence == c.occurrence
  {
    if (c.operator == "" || c.operator == "LIKE") && c.value.Some? && HoldsOperator(Trim(h, c.value.value)) then
      ParseTyped(h, c.field, Trim(h, c.value.value)).(relationship := c.relationship, occurrence := c.occurrence)
    else c
  }

  predicate IsRelated(h: Host, c: FindCriterion) { Trim(h, c.relationship) != "" }

  // ─── One criterion ───

  /** A condition with the values its placeholders take. */
  datatype Clause = Clause(condition: Condition, values: seq<Stored>)

  function SqlSign(operator: string): Comparison {
    match operator
    case ">" => Gt
    case "<" => Lt
    case ">=" => Ge
    case _ => Le
  }

  /** criterionClause: the condition on the column, its first placeholder numbered `at`. */
  function CriterionClause(h: Host, column: Term, c: FindCriterion, at: nat): (r: Clause)
    ensures |r.values| <= 2
  {
    var text, text' := Printed(c.value), Printed(c.valueTo);
    match c.operator
    case "IS_EMPTY" => Clause(Any([IsNull(column), Test(Eq, CastToText(column), Literal(""))]), [])
    case "IS_NOT_EMPTY" => Clause(All([IsNotNull(column), Test(Ne, CastToText(column), Literal(""))]), [])
    case "RANGE" =>
      (match (h.parseFloat(text), h.parseFloat(text'))
       case (Some(n), Some(n')) =>
         Clause(Between(NumericValue(column), Placeholder(at), Placeholder(at + 1)),
                [StoredNumber(n), StoredNumber(n')])
       case _ =>
         Clause(Between(CastToText(column), Placeholder(at), Placeholder(at + 1)),
                [StoredText(text), StoredText(text')]))
    case "LIKE" => Clause(Like(column, Placeholder(at)), [StoredText(text)])
    case "=" | "==" => Clause(Test(Eq, Lower(CastToText(column)), Lower(Placeholder(at))), [StoredText(text)])
    case "!=" =>
      Clause(Any([IsNull(column), Test(Ne, Lower(CastToText(column)), Lower(Placeholder(at)))]), [StoredText(text)])
    case ">" | "<" | ">=" | "<=" =>
      (match h.parseFloat(text)
       case Some(n) => Clause(Test(SqlSign(c.operator), NumericValue(column), Placeholder(at)), [StoredNumber(n)])
       case None => Clause(Test(SqlSign(c.operator), CastToText(column), Placeholder(at)), [StoredText(text)]))
    case _ => Clause(Like(column, Placeholder(at)), [StoredText("%" + text + "%")])
  }

  // ─── Criteria on related records ───

  /** relatedFindTarget: where the related records are and how they compare. */
  datatype Target = Target(
    table: string, sourceColumn: string, targetColumn: string, op: Comparison, fields: set<string>)

  /** relatedFindKey. */
  datatype TargetKey = TargetKey(relationship: string, occurrence: string)

  function KeyOf(h: Host, c: FindCriterion): TargetKey {
    TargetKey(Trim(h, c.relationship), Trim(h, c.occurrence))
  }

  function FindRelationship(rels: seq<Relationship>, id: string): (r: Option<Relationship>)
    ensures r.Some? ==> r.value in rels && r.value.id == id
    ensures r.None? <==> forall x :: x in rels ==> x.id != id
  {
    if rels == [] then None else if rels[0].id == id then Some(rels[0]) else FindRelationship(rels[1..], id)
  }

  function Resolve(cat: Catalog, table: string, key: TargetKey): Result<Target, FindError> {
    match FindRelationship(cat.relationships, key.relationship)
    case None => Err(NoRelationship)
    case Some(r) =>
      match Sides(r, table, key.occurrence)
      case Err(e) => Err(BadRelation(e))
      case Ok(ends) =>
        match SqlOperator(cat.h, r.operator)
        case Err(e) => Err(BadRelation(e))
        case Ok(op) =>
          if ends.target.tableName !in cat.tables then Err(NoTable)
          else
            Ok(Target(ends.target.tableName, ends.source.column, ends.target.column, op,
                      cat.tables[ends.target.tableName]))
  }

  type Targets = map<TargetKey, Target>

  /** relatedCriterionClause: some record related to the one searched meets the criterion. */
  function RelatedClause(h: Host, c: FindCriterion, targets: Targets, at: nat): Result<Clause, FindError> {
    if KeyOf(h, c) !in targets then Err(NoRelationship)
    else
      var target := targets[KeyOf(h, c)];
      if c.field !in target.fields then Err(UnknownField(target.table, c.field))
      else
        var parent, child := Column(Owner.Own, target.sourceColumn), Column(Related, target.targetColumn);
        var inner := CriterionClause(h, Column(Related, c.field), c, at);
        Ok(Clause(All([IsNotNull(parent), Test(Ne, CastToText(parent), Literal("")),
                       Exists(target.table, All([Test(target.op, child, parent), inner.condition]))]), inner.values))
  }

  // ─── All the requests ───

  /** The table searched, its fields, and the relationships the criteria reach through. */
  datatype Search = Search(h: Host, table: string, fields: set<string>, targets: Targets)

  /** One criterion of a request. */
  function ClauseOf(s: Search, c: FindCriterion, at: nat): Result<Clause, FindError> {
    var e := Effective(s.h, c);
    if IsRelated(s.h, e) then RelatedClause(s.h, e, s.targets, at)
    else if e.field !in s.fields then Err(UnknownField(s.table, e.field))
    else Ok(CriterionClause(s.h, Column(Owner.Own, e.field), e, at))
  }

  /** The criteria of one request, which all have to hold, and their values. */
  datatype Clauses = Clauses(conditions: seq<Condition>, values: seq<Stored>)

  /** The criteria up to the last; one that names no field is skipped. */
  function RequestClauses(s: Search, criteria: seq<FindCriterion>, at: nat): Result<Clauses, FindError> {
    if criteria == [] then Ok(Clauses([], []))
    else
      var front, c := RequestClauses(s, criteria[..|criteria| - 1], at), criteria[|criteria| - 1];
      if front.Err? || c.field == "" then front
      else match ClauseOf(s, c, at + |front.value.values|)
        case Err(e) => Err(e)
        case Ok(clause) => Ok(Clauses(front.value.conditions + [clause.condition], front.value.values + clause.values))
  }

  /** What a request has on the one without its last criterion. */
  lemma RequestUnfolds(s: Search, criteria: seq<FindCriterion>, at: nat)
    requires criteria != [] && RequestClauses(s, criteria, at).Ok?
    ensures var front, c := criteria[..|criteria| - 1], criteria[|criteria| - 1];
      && criteria == front + [c] && RequestClauses(s, front, at).Ok?
      && var before := RequestClauses(s, front, at).value;
      && var all := RequestClauses(s, criteria, at).value;
      && (c.field == "" ==> all == before)
      && (c.field != "" ==>
          && ClauseOf(s, c, at + |before.values|).Ok?
          && var clause := ClauseOf(s, c, at + |before.values|).value;
          all == Clauses(before.conditions + [clause.condition], before.values + clause.values))
  {
    hide ClauseOf;
  }

  /** What including and what omitting requests come to, and the values of both. */
  datatype Query = Query(including: seq<Condition>, omitting: seq<Condition>, values: seq<Stored>)

  /** buildFindClauses before it joins the clauses. Placeholders are numbered from 1 as they come. */
  function Queries(s: Search, requests: seq<FindRequest>): Result<Query, FindError> {
    if requests == [] then Ok(Query([], [], []))
    else
      var front, r := Queries(s, requests[..|requests| - 1]), requests[|requests| - 1];
      if front.Err? then front
      else match RequestClauses(s, r.criteria, |front.value.values| + 1)
        case Err(e) => Err(e)
        case Ok(clauses) => Ok(WithRequest(front.value, r.omit, clauses))
  }

  function WithRequest(q: Query, omit: bool, clauses: Clauses): Query {
    var values := q.values + clauses.values;
    if clauses.conditions == [] then q.(values := values)
    else if omit then q.(omitting := q.omitting + [All(clauses.conditions)], values := values)
    else q.(including := q.including + [All(clauses.conditions)], values := values)
  }

  /** What a query for all the requests has on the one for all but the last. */
  lemma QueryUnfolds(s: Search, requests: seq<FindRequest>)
    requires requests != [] && Queries(s, requests).Ok?
    ensures var front, r := requests[..|requests| - 1], requests[|requests| - 1];
      && requests == front + [r] && Queries(s, front).Ok?
      && var q := Queries(s, front).value;
      && RequestClauses(s, r.criteria, |q.values| + 1).Ok?
      && var clauses := RequestClauses(s, r.criteria, |q.values| + 1).value;
      && Queries(s, requests).value == WithRequest(q, r.omit, clauses)
      && Queries(s, requests).value.values == q.values + clauses.values
  {
    hide RequestClauses;
  }

  /** buildFindWhere. */
  function Where(including: seq<Condition>, omitting: seq<Condition>): Option<Condition> {
    var parts := (if including != [] then [Any(including)] else [])
      + (if omitting != [] then [Not(Any(omitting))] else []);
    if parts == [] then None else Some(All(parts))
  }

  /** The WHERE clause and the values of its placeholders. */
  datatype FindSql = FindSql(clause: Option<Condition>, values: seq<Stored>)

  /** buildFindClauses. */
  function BuildFind(s: Search, requests: seq<FindRequest>): Result<FindSql, FindError> {
    match Queries(s, requests)
    case Err(e) => Err(e)
    case Ok(q) => Ok(FindSql(Where(q.including, q.omitting), q.values))
  }
}
