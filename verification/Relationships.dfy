/** data/related.go: relationships, their sides, and the records they relate. */
module Relationships {
  import opened Common
  import opened Evaluator

  datatype Comparison = Eq | Ne | Lt | Le | Gt | Ge

  datatype Side = Side(occurrenceId: string, occurrenceName: string, tableName: string, column: string)

  datatype Relationship = Relationship(
    id: string, name: string, operator: string, left: Side, right: Side, cascadeDelete: bool)

  datatype RelationError = NotReached | OccurrenceNotNamed | NoSuchSide | UnsupportedOperator

  /** A record of the database: its table and its id. */
  datatype Key = Key(table: string, id: string)

  type Db = map<Key, Record>

  /**
   * The catalog, and what this model leaves to the database engine: how it compares two
   * values that are not NULL, and in which order it returns the rows of a query that
   * names none (`arrange` may depend on everything there is).
   */
  datatype Catalog = Catalog(
    h: Host,
    tables: map<string, set<string>>,
    relationships: seq<Relationship>,
    holds: (Comparison, Stored, Stored) -> bool,
    arrange: (Relationship, Db, set<string>) -> seq<string>,
    pageSize: nat
  )

  /** The signs the relationship graph stores, as SQL comparisons. */
  function SqlOperator(h: Host, sign: string): Result<Comparison, RelationError> {
    match Common.Trim(h, sign)
    case "=" | "==" => Ok(Eq)
    case "<>" | "!=" => Ok(Ne)
    case "<" => Ok(Lt)
    case "<=" => Ok(Le)
    case ">" => Ok(Gt)
    case ">=" => Ok(Ge)
    case other =>
      if other == "\U{2260}" then Ok(Ne)
      else if other == "\U{2264}" then Ok(Le)
      else if other == "\U{2265}" then Ok(Ge)
      else Err(UnsupportedOperator)
  }

  /** The ways a comparison may be written in the relationship graph. */
  predicate StandsFor(word: string, op: Comparison) {
    match op
    case Eq => word == "=" || word == "=="
    case Ne => word == "<>" || word == "!=" || word == "\U{2260}"
    case Lt => word == "<"
    case Le => word == "<=" || word == "\U{2264}"
    case Gt => word == ">"
    case Ge => word == ">=" || word == "\U{2265}"
  }

  /** The sign is one of these, with white space around it or not. */
  ghost predicate MeansBy(h: Host, sign: string, op: Comparison) {
    exists word :: StandsFor(word, op) && Surrounds(h, sign, word)
  }

  /** A sign is accepted exactly if it is written in one of these ways, and as that comparison. */
  lemma SignMeans(h: Host, sign: string, op: Comparison)
    ensures SqlOperator(h, sign) == Ok(op) <==> MeansBy(h, sign, op)
    ensures SqlOperator(h, sign).Ok? || SqlOperator(h, sign) == Err(UnsupportedOperator)
  {
    var trimmed := Common.Trim(h, sign);
    TrimSurrounds(h, sign, trimmed);
    hide Surrounds, Common.Trim;
    if MeansBy(h, sign, op) {
      var word :| StandsFor(word, op) && Surrounds(h, sign, word);
      TrimSurrounds(h, sign, word);
    }
    if SqlOperator(h, sign) == Ok(op) { assert StandsFor(trimmed, op); }
  }

  /** The value there is to compare, if any: neither NULL nor, as a text, of white space alone. */
  predicate HasMatch(h: Host, v: Stored) {
    !v.Null? && (v.StoredText? ==> exists i :: 0 <= i < |v.text| && !IsSpace(h, v.text[i]))
  }

  /**
   * A record is related to another: that one holds a match value, this one something that
   * is not NULL, and the two compare as the sign of the relationship says.
   */
  ghost predicate HangsOn(cat: Catalog, from: Record, fromColumn: string, sign: string, to: Record, toColumn: string) {
    && fromColumn in from && HasMatch(cat.h, from[fromColumn])
    && toColumn in to && !to[toColumn].Null?
    && exists op :: MeansBy(cat.h, sign, op) && cat.holds(op, to[toColumn], from[fromColumn])
  }

  datatype Ends = Ends(source: Side, target: Side)

  /** The two ends, told apart by where one comes from and goes to. */
  function Sides(r: Relationship, fromTable: string, occurrence: string): (e: Result<Ends, RelationError>)
    ensures e.Ok? ==> e.value.source.tableName == fromTable && {e.value.source, e.value.target} == {r.left, r.right}
  {
    var chosen :=
      if occurrence == "" then
        if r.left.tableName == fromTable && r.right.tableName == fromTable then Err(OccurrenceNotNamed)
        else if r.left.tableName == fromTable then Ok(Ends(r.left, r.right))
        else if r.right.tableName == fromTable then Ok(Ends(r.right, r.left))
        else Err(NotReached)
      else if occurrence == r.right.occurrenceId || occurrence == r.right.occurrenceName then Ok(Ends(r.left, r.right))
      else if occurrence == r.left.occurrenceId || occurrence == r.left.occurrenceName then Ok(Ends(r.right, r.left))
      else Err(NoSuchSide);
    if chosen.Ok? && chosen.value.source.tableName != fromTable then Err(NotReached) else chosen
  }

  predicate NamedBy(side: Side, occurrence: string) {
    occurrence != "" && (occurrence == side.occurrenceId || occurrence == side.occurrenceName)
  }

  /**
   * From a table to an occurrence: the relationship is followed to the side that is named,
   * the right one first, or without a name away from the table, if that is no choice.
   */
  predicate Leading(r: Relationship, fromTable: string, occurrence: string, source: Side, target: Side) {
    && source.tableName == fromTable
    && if occurrence == "" then
         (source, target) in {(r.left, r.right), (r.right, r.left)}
         && (r.left.tableName != fromTable || r.right.tableName != fromTable)
       else if NamedBy(r.right, occurrence) then target == r.right && source == r.left
       else NamedBy(r.left, occurrence) && target == r.left && source == r.right
  }

  lemma SidesMean(r: Relationship, fromTable: string, occurrence: string, source: Side, target: Side)
    ensures Sides(r, fromTable, occurrence) == Ok(Ends(source, target)) <==>
      Leading(r, fromTable, occurrence, source, target)
  {
  }

  /** A match value that matches nothing: NULL, or text of white space alone. */
  predicate EmptyMatchValue(h: Host, v: Stored) {
    v.Null? || (v.StoredText? && Common.Trim(h, v.text) == "")
  }

  lemma MatchValue(h: Host, v: Stored)
    ensures HasMatch(h, v) <==> !EmptyMatchValue(h, v)
  {
    if v.StoredText? { assert Common.Trim(h, v.text) == "" <==> Blank(h, v.text); }
  }

  /** The comparison of a WHERE clause: a NULL on either side never makes it true. */
  predicate Relates(cat: Catalog, op: Comparison, target: Stored, key: Stored) {
    !target.Null? && !key.Null? && cat.holds(op, target, key)
  }

  /** The ids of a table whose records hold something in `column` that compares with the key. */
  function RelatedIds(cat: Catalog, db: Db, table: string, column: string, op: Comparison, key: Stored): set<string> {
    set k | k in db && k.table == table && Relates(cat, op, ReadField(db[k], column), key) :: k.id
  }

  lemma RelatedMember(cat: Catalog, db: Db, table: string, column: string, op: Comparison, key: Stored, id: string)
    ensures id in RelatedIds(cat, db, table, column, op, key) <==>
      Key(table, id) in db && Relates(cat, op, ReadField(db[Key(table, id)], column), key)
  {
  }

  /** The list enumerates the set. */
  ghost predicate Enumerates(list: seq<string>, s: set<string>) {
    Distinct(list) && forall x :: x in list <==> x in s
  }

  /** The engine returns every matching row once, in whatever order. */
  ghost predicate FairEngine(cat: Catalog) {
    cat.pageSize > 0 && forall r, db, s :: Enumerates(cat.arrange(r, db, s), s)
  }
}
