/** A find on a related field against the read of the related records. */
module FindRelated {
  import opened Common
  import opened Evaluator
  import opened Relationships
  import opened Sql
  import opened Find
  import opened FindLaws
  import Cascade

  /** RelatedRows, before its page is cut out: the ids of the records related to this one. */
  function RelatedRows(cat: Catalog, db: Db, table: string, id: string, relationship: string,
                       occurrence: string): Result<set<string>, FindError>
  {
    match FindRelationship(cat.relationships, relationship)
    case None => Err(NoRelationship)
    case Some(r) =>
      match Sides(r, table, occurrence)
      case Err(e) => Err(BadRelation(e))
      case Ok(ends) =>
        match SqlOperator(cat.h, r.operator)
        case Err(e) => Err(BadRelation(e))
        case Ok(op) => RowsOf(cat, db, id, ends, op)
  }

  function RowsOf(cat: Catalog, db: Db, id: string, ends: Ends, op: Comparison): Result<set<string>, FindError> {
    if ends.target.tableName !in cat.tables then Err(NoTable)
    else if ends.target.column !in cat.tables[ends.target.tableName] then
      Err(UnknownField(ends.target.tableName, ends.target.column))
    else if ends.source.tableName !in cat.tables then Err(NoTable)
    else if ends.source.column !in cat.tables[ends.source.tableName] then
      Err(UnknownField(ends.source.tableName, ends.source.column))
    else if Key(ends.source.tableName, id) !in db then Err(NoRecord)
    else
      var key := ReadField(db[Key(ends.source.tableName, id)], ends.source.column);
      Ok(if EmptyMatchValue(cat.h, key) then {}
         else RelatedIds(cat, db, ends.target.tableName, ends.target.column, op, key))
  }

  /** Text with something other than white space in it, and the text of a value that is no
      text, differ from the empty text. */
  ghost predicate TellsEmpty(e: Engine) {
    && (forall t: string :: Trim(e.cat.h, t) != "" ==> e.cat.holds(Ne, StoredText(t), StoredText("")))
    && (forall v: Stored :: !v.Null? && !v.StoredText? ==> e.cat.holds(Ne, StoredText(e.asText(v)), StoredText("")))
  }

  /** A match value of white space alone, which the engine tells from the empty text. */
  predicate BlankKey(e: Engine, key: Stored) {
    key.StoredText? && Trim(e.cat.h, key.text) == "" && e.cat.holds(Ne, key, StoredText(""))
  }

  /** Some record compares with the match value and meets the criterion. */
  ghost predicate SomeRow(h: Host, e: Engine, db: Db, c: FindCriterion, t: Target, key: Stored) {
    exists k :: k in db && RelatedRowMeets(h, e, c, t, key, k.table, db[k])
  }

  /** Some of the related records meets the criterion. */
  ghost predicate SomeListed(h: Host, e: Engine, db: Db, c: FindCriterion, table: string, rows: set<string>) {
    exists x :: x in rows && Key(table, x) in db && Verdict(h, e, c, ReadField(db[Key(table, x)], c.field)).Yes?
  }

  /**
   * What a criterion reaches through: a relationship of that name that leads from the table,
   * and the comparison its sign stands for.
   */
  lemma ResolvedMeans(cat: Catalog, table: string, key: TargetKey, t: Target)
    requires Resolve(cat, table, key) == Ok(t)
    ensures t.table in cat.tables && t.fields == cat.tables[t.table]
    ensures exists r, source, target ::
      && r in cat.relationships && r.id == key.relationship && Leading(r, table, key.occurrence, source, target)
      && t.table == target.tableName && t.sourceColumn == source.column && t.targetColumn == target.column
      && MeansBy(cat.h, r.operator, t.op)
  {
    var r := FindRelationship(cat.relationships, key.relationship).value;
    var ends := Sides(r, table, key.occurrence).value;
    SidesMean(r, table, key.occurrence, ends.source, ends.target);
    SignMeans(cat.h, r.operator, t.op);
    hide MeansBy, SqlOperator, Sides;
  }

  /** The two ways to the related records start from the same target. */
  lemma SameTarget(cat: Catalog, db: Db, table: string, id: string, key: TargetKey)
    requires RelatedRows(cat, db, table, id, key.relationship, key.occurrence).Ok?
    ensures Resolve(cat, table, key).Ok?
    ensures var t := Resolve(cat, table, key).value;
      && Key(table, id) in db
      && var value := ReadField(db[Key(table, id)], t.sourceColumn);
      RelatedRows(cat, db, table, id, key.relationship, key.occurrence).value ==
        if EmptyMatchValue(cat.h, value) then {} else RelatedIds(cat, db, t.table, t.targetColumn, t.op, value)
  {
    hide RelatedIds, EmptyMatchValue, SqlOperator, FindRelationship;
  }

  lemma ListedRows(h: Host, e: Engine, db: Db, c: FindCriterion, t: Target, key: Stored)
    ensures SomeListed(h, e, db, c, t.table, RelatedIds(e.cat, db, t.table, t.targetColumn, t.op, key)) <==>
      SomeRow(h, e, db, c, t, key)
  {
    hide Verdict, RelatedIds, Relates;
    var rows := RelatedIds(e.cat, db, t.table, t.targetColumn, t.op, key);
    forall x ensures x in rows <==>
      Key(t.table, x) in db && Relates(e.cat, t.op, ReadField(db[Key(t.table, x)], t.targetColumn), key)
    {
      RelatedMember(e.cat, db, t.table, t.targetColumn, t.op, key, x);
    }
    if SomeRow(h, e, db, c, t, key) {
      var k :| k in db && RelatedRowMeets(h, e, c, t, key, k.table, db[k]);
      assert k == Key(t.table, k.id) && k.id in rows;
    }
    if SomeListed(h, e, db, c, t.table, rows) {
      var x :| x in rows && Key(t.table, x) in db && Verdict(h, e, c, ReadField(db[Key(t.table, x)], c.field)).Yes?;
      assert RelatedRowMeets(h, e, c, t, key, Key(t.table, x).table, db[Key(t.table, x)]);
    }
  }

  lemma NothingListed(h: Host, e: Engine, db: Db, c: FindCriterion, table: string)
    ensures !SomeListed(h, e, db, c, table, {})
  {
    hide Verdict;
  }

  lemma MeetsIsRow(h: Host, e: Engine, db: Db, c: FindCriterion, t: Target, own: Record)
    ensures var key := ReadField(own, t.sourceColumn);
      RelatedMeets(h, e, db, c, t, own) <==>
        !key.Null? && e.cat.holds(Ne, TextOf(e, key), StoredText("")) && SomeRow(h, e, db, c, t, key)
  {
    hide RelatedRowMeets;
  }

  /** A value that is not empty is told from the empty text, and one that is empty is not, or is blank. */
  lemma EmptyOrTold(e: Engine, key: Stored)
    requires TellsEmpty(e)
    ensures BlankKey(e, key) ==> EmptyMatchValue(e.cat.h, key)
    ensures (!key.Null? && e.cat.holds(Ne, TextOf(e, key), StoredText(""))) <==>
      !EmptyMatchValue(e.cat.h, key) || BlankKey(e, key)
  {
    hide Trim;
  }

  /**
   * A criterion on a related field finds a record exactly if the read of the related records
   * lists one that meets it, unless the match value is white space alone and there is a
   * record that compares with it and meets the criterion: the read lists nothing then.
   */
  lemma RelatedFindAgrees(h: Host, e: Engine, db: Db, table: string, id: string, c: FindCriterion)
    requires TellsEmpty(e)
    requires RelatedRows(e.cat, db, table, id, KeyOf(h, c).relationship, KeyOf(h, c).occurrence).Ok?
    ensures Resolve(e.cat, table, KeyOf(h, c)).Ok? && Key(table, id) in db
    ensures var t := Resolve(e.cat, table, KeyOf(h, c)).value;
      var own := db[Key(table, id)];
      var rows := RelatedRows(e.cat, db, table, id, KeyOf(h, c).relationship, KeyOf(h, c).occurrence).value;
      var key := ReadField(own, t.sourceColumn);
      (RelatedMeets(h, e, db, c, t, own) <==> SomeListed(h, e, db, c, t.table, rows)) <==>
        !(BlankKey(e, key) && SomeRow(h, e, db, c, t, key))
  {
    SameTarget(e.cat, db, table, id, KeyOf(h, c));
    var t := Resolve(e.cat, table, KeyOf(h, c)).value;
    var key := ReadField(db[Key(table, id)], t.sourceColumn);
    ListedRows(h, e, db, c, t, key);
    NothingListed(h, e, db, c, t.table);
    EmptyOrTold(e, key);
    MeetsIsRow(h, e, db, c, t, db[Key(table, id)]);
    hide *;
  }

  /** The children a cascade reads are the first page of the related records. */
  lemma ChildrenAreRelated(cat: Catalog, db: Db, key: Key, r: Relationship)
    requires FindRelationship(cat.relationships, r.id) == Some(r)
    requires r.left.tableName == key.table && r.right.occurrenceId != ""
    requires Cascade.ReadChildren(cat, db, key, r).Ids?
    ensures RelatedRows(cat, db, key.table, key.id, r.id, r.right.occurrenceId).Ok?
    ensures var all := cat.arrange(r, db, RelatedRows(cat, db, key.table, key.id, r.id, r.right.occurrenceId).value);
      Cascade.ReadChildren(cat, db, key, r).ids == if |all| <= cat.pageSize then all else all[..cat.pageSize]
  {
    assert Sides(r, key.table, r.right.occurrenceId) == Ok(Ends(r.left, r.right));
  }

  // ─── The relationships of all the criteria ───

  function WithTarget(cat: Catalog, table: string, c: FindCriterion, targets: Targets): Result<Targets, FindError> {
    var key := KeyOf(cat.h, c);
    if !IsRelated(cat.h, c) || key in targets then Ok(targets)
    else match Resolve(cat, table, key)
      case Err(e) => Err(e)
      case Ok(t) => Ok(targets[key := t])
  }

  /** resolveFindRelations: the targets of all the criteria, one after another. */
  function ResolveAll(cat: Catalog, table: string, criteria: seq<FindCriterion>): Result<Targets, FindError> {
    if criteria == [] then Ok(map[])
    else
      var front := ResolveAll(cat, table, criteria[..|criteria| - 1]);
      if front.Err? then front else WithTarget(cat, table, criteria[|criteria| - 1], front.value)
  }

  function AllCriteria(requests: seq<FindRequest>): seq<FindCriterion> {
    if requests == [] then []
    else AllCriteria(requests[..|requests| - 1]) + requests[|requests| - 1].criteria
  }

  /** Every relationship a criterion reaches through is resolved, and to what it leads to;
      the translation fails if one of them leads nowhere. */
  lemma {:induction false} TargetsResolve(cat: Catalog, table: string, criteria: seq<FindCriterion>)
    ensures var r := ResolveAll(cat, table, criteria);
      if r.Ok? then
        && (forall c :: c in criteria && IsRelated(cat.h, c) ==> KeyOf(cat.h, c) in r.value)
        && (forall k :: k in r.value ==> Resolve(cat, table, k) == Ok(r.value[k]))
      else exists c :: c in criteria && IsRelated(cat.h, c) && Resolve(cat, table, KeyOf(cat.h, c)) == Err(r.error)
  {
    hide Resolve, KeyOf, IsRelated;
    if criteria != [] {
      var front, c := criteria[..|criteria| - 1], criteria[|criteria| - 1];
      assert criteria == front + [c];
      assert forall x :: x in criteria <==> x in front || x == c;
      TargetsResolve(cat, table, front);
    }
  }
}
