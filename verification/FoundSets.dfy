/** Exports and reports over what a find finds: data/import.go and data/summary.go on data/service.go. */
module FoundSets {
  import opened Common
  import opened Evaluator
  import opened Relationships
  import opened Sql
  import opened Find
  import opened FindLaws
  import opened FindRelated
  import FindMethods
  import Summary
  import Tables

  /** The requests as one query: the relationships are resolved, and then the criteria translated. */
  function Translated(cat: Catalog, table: string, fields: set<string>,
                      requests: seq<FindRequest>): Result<FindSql, FindError> {
    match ResolveAll(cat, table, AllCriteria(requests))
    case Err(e) => Err(e)
    case Ok(targets) => BuildFind(Search(cat.h, table, fields, targets), requests)
  }

  method TranslateFind(cat: Catalog, table: string, fields: set<string>, requests: seq<FindRequest>)
    returns (r: Result<FindSql, FindError>)
    ensures r == Translated(cat, table, fields, requests)
  {
    var targets := FindMethods.ResolveRelations(cat, table, requests);
    if targets.Err? {
      return Err(targets.error);
    }
    var builder := new FindMethods.ClauseBuilder(Search(cat.h, table, fields, targets.value));
    r := builder.Build(requests);
  }

  /** The engine runs queries on the table: it returns the ids of the found set, each once, in
      an order of its own. */
  ghost predicate RunsOn(run: FindSql -> seq<string>, table: string, e: Engine, db: Db) {
    forall q :: Distinct(run(q)) && forall id :: id in run(q) <==> Key(table, id) in FoundSet(table, e, db, q)
  }

  ghost function SearchFor(cat: Catalog, table: string, fields: set<string>, requests: seq<FindRequest>): Search
    requires Translated(cat, table, fields, requests).Ok?
  {
    Search(cat.h, table, fields, ResolveAll(cat, table, AllCriteria(requests)).value)
  }

  /** What is found is what the requests find. */
  lemma FoundIsMeant(e: Engine, db: Db, table: string, fields: set<string>, requests: seq<FindRequest>, id: string)
    requires Translated(e.cat, table, fields, requests).Ok?
    ensures var q := Translated(e.cat, table, fields, requests).value;
      var s := SearchFor(e.cat, table, fields, requests);
      Key(table, id) in FoundSet(table, e, db, q) <==>
        Key(table, id) in db && FoundBy(s, e, db, requests, db[Key(table, id)])
  {
    var q, s := Translated(e.cat, table, fields, requests).value, SearchFor(e.cat, table, fields, requests);
    var k := Key(table, id);
    hide BuildFind, FoundBy, Selects, ResolveAll;
    if k in db { FindMeans(s, Place(e, db, q.values, db[k], map[]), requests); }
  }

  ghost function IdsFound(table: string, e: Engine, db: Db, q: FindSql): set<string> {
    set k | k in FoundSet(table, e, db, q) :: k.id
  }

  lemma NoRequests(cat: Catalog, table: string, fields: set<string>)
    ensures Translated(cat, table, fields, []) == Ok(FindSql(None, []))
  {
  }

  function Elements(list: seq<string>): set<string> { set x | x in list }

  lemma ReturnedIsFound(run: FindSql -> seq<string>, table: string, e: Engine, db: Db, q: FindSql)
    requires RunsOn(run, table, e, db)
    ensures Elements(run(q)) == IdsFound(table, e, db, q) && |run(q)| == |FoundSet(table, e, db, q)|
  {
    hide Selects;
    var found := FoundSet(table, e, db, q);
    forall id ensures id in run(q) <==> id in IdsFound(table, e, db, q) {
      if id in run(q) { assert Key(table, id) in found; }
      if id in IdsFound(table, e, db, q) {
        var k :| k in found && k.id == id;
        assert k == Key(table, id);
      }
    }
    hide FoundSet;
    KeysCounted(table, run(q), found);
  }

  lemma {:induction false} KeysCounted(table: string, ids: seq<string>, keys: set<Key>)
    requires Distinct(ids) && forall id :: id in ids <==> Key(table, id) in keys
    requires forall k :: k in keys ==> k.table == table
    ensures |ids| == |keys|
  {
    if ids == [] {
      assert forall k :: k in keys ==> k == Key(table, k.id);
      assert keys == {};
    } else {
      var front, last := ids[..|ids| - 1], ids[|ids| - 1];
      assert ids == front + [last] && last !in front;
      forall id ensures id in front <==> Key(table, id) in keys - {Key(table, last)} {
        assert id in ids <==> id in front || id == last;
      }
      KeysCounted(table, front, keys - {Key(table, last)});
    }
  }

  /** exportRows by id: the whole found set of the requests, each record once, or why it cannot. */
  method ExportRows(e: Engine, ghost db: Db, table: string, fields: set<string>, requests: seq<FindRequest>,
                    run: FindSql -> seq<string>) returns (r: Result<seq<string>, FindError>)
    requires RunsOn(run, table, e, db)
    ensures var q := Translated(e.cat, table, fields, requests);
      r == if q.Err? then Err(q.error) else Ok(Tables.InIdOrder(IdsFound(table, e, db, q.value), false))
  {
    var q := FindSql(None, []);
    NoRequests(e.cat, table, fields);
    if requests != [] {
      var translated := TranslateFind(e.cat, table, fields, requests);
      if translated.Err? {
        return Err(translated.error);
      }
      q := translated.value;
    }
    ReturnedIsFound(run, table, e, db, q);
    hide *;
    var ids := run(q);
    var found := Elements(ids);
    var all := Tables.Table.ExportRows(found);
    return Ok(all);
  }

  /** An export lists a record exactly if the requests find it, and once. */
  lemma ExportIsFind(e: Engine, db: Db, table: string, fields: set<string>, requests: seq<FindRequest>)
    requires Translated(e.cat, table, fields, requests).Ok?
    ensures var q, s := Translated(e.cat, table, fields, requests).value, SearchFor(e.cat, table, fields, requests);
      var ids := Tables.InIdOrder(IdsFound(table, e, db, q), false);
      && Distinct(ids)
      && forall id :: id in ids <==> Key(table, id) in db && FoundBy(s, e, db, requests, db[Key(table, id)])
  {
    var q := Translated(e.cat, table, fields, requests).value;
    var found := FoundSet(table, e, db, q);
    Tables.InIdOrderOnce(IdsFound(table, e, db, q), false);
    hide Translated, SearchFor, FoundBy, Tables.InIdOrder, Distinct;
    forall id ensures id in IdsFound(table, e, db, q) <==> Key(table, id) in found {
      hide Selects;
      if id in IdsFound(table, e, db, q) { var k :| k in found && k.id == id; assert k == Key(table, id); }
    }
    forall id ensures Key(table, id) in found <==>
      Key(table, id) in db && FoundBy(SearchFor(e.cat, table, fields, requests), e, db, requests, db[Key(table, id)])
    {
      FoundIsMeant(e, db, table, fields, requests, id);
    }
  }

  // ─── Reports ───

  datatype ReportError = BadSummary(summary: Summary.SummaryError) | BadFind(find: FindError)

  function RowsOf(db: Db, table: string, ids: seq<string>): (rows: seq<Record>)
    requires forall id :: id in ids ==> Key(table, id) in db
    ensures |rows| == |ids| && forall i :: 0 <= i < |ids| ==> rows[i] == db[Key(table, ids[i])]
  {
    seq(|ids|, i requires 0 <= i < |ids| => db[Key(table, ids[i])])
  }

  lemma ReturnedAreRows(run: FindSql -> seq<string>, table: string, e: Engine, db: Db)
    requires RunsOn(run, table, e, db)
    ensures forall q, id :: id in run(q) ==> Key(table, id) in db
  {
    hide Selects;
  }

  /** Summarize: what the request asks for is checked, the find translated, and the figures are
      those of the records found. */
  method Summarize(e: Engine, db: Db, table: string, fields: set<string>, requests: seq<FindRequest>,
                   run: FindSql -> seq<string>, figures: Summary.Engine,
                   all: map<string, Summary.Spec>, asked: seq<string>, groupBy: seq<string>)
    returns (r: Result<Summary.SummaryResult, ReportError>)
    requires RunsOn(run, table, e, db)
    ensures var wanted, q := Summary.Wanted(fields, all, asked, groupBy), Translated(e.cat, table, fields, requests);
      if wanted.Err? then r == Err(BadSummary(wanted.error))
      else if q.Err? then r == Err(BadFind(q.error))
      else
        r.Ok? && fresh(r.value) && (forall id :: id in run(q.value) ==> Key(table, id) in db)
        && exists names: seq<string> ::
          (Summary.NamesOf(names, wanted.value)
           && Summary.Reports(r.value.count, r.value.grand, r.value.groups[..], figures, wanted.value, names, groupBy,
                              RowsOf(db, table, run(q.value))))
  {
    ReturnedAreRows(run, table, e, db);
    hide *;
    var wanted, names := Summary.ReadRequest(fields, all, asked, groupBy);
    if wanted.Err? {
      return Err(BadSummary(wanted.error));
    }
    var q := TranslateFind(e.cat, table, fields, requests);
    if q.Err? {
      return Err(BadFind(q.error));
    }
    var result := Summary.Report(figures, wanted.value, names, groupBy, RowsOf(db, table, run(q.value)));
    return Ok(result);
  }

  /** The rows of a report are the records its requests find, each once: its count is their number. */
  lemma ReportIsOfFind(e: Engine, db: Db, table: string, fields: set<string>, requests: seq<FindRequest>,
                       run: FindSql -> seq<string>)
    requires RunsOn(run, table, e, db) && Translated(e.cat, table, fields, requests).Ok?
    ensures var q, s := Translated(e.cat, table, fields, requests).value, SearchFor(e.cat, table, fields, requests);
      var found := set k | k in db && k.table == table && FoundBy(s, e, db, requests, db[k]);
      && Distinct(run(q)) && (forall id :: id in run(q) <==> Key(table, id) in found)
      && |RowsOf(db, table, run(q))| == |found|
  {
    var q, s := Translated(e.cat, table, fields, requests).value, SearchFor(e.cat, table, fields, requests);
    var found := set k | k in db && k.table == table && FoundBy(s, e, db, requests, db[k]);
    ReturnedIsFound(run, table, e, db, q);
    ReturnedAreRows(run, table, e, db);
    forall k ensures k in found <==> k in FoundSet(table, e, db, q) {
      if k.table == table {
        assert k == Key(table, k.id);
        FoundIsMeant(e, db, table, fields, requests, k.id);
      }
      hide FoundBy, Selects;
    }
    assert found == FoundSet(table, e, db, q);
  }
}
