/** The methods of the cascading delete, over a database and the set of records on their way out. */
module CascadeMethods {
  import opened Common
  import opened Evaluator
  import opened Relationships
  import opened Cascade

  /** The map of records already being deleted. */
  class SeenSet {
    var keys: set<Key>

    constructor ()
      ensures keys == {}
    {
      keys := {};
    }
  }

  class Database {
    const cat: Catalog
    var rows: Db

    constructor (cat: Catalog, rows: Db)
      ensures this.cat == cat && this.rows == rows
    {
      this.cat, this.rows := cat, rows;
    }

    /** RelatedRows as the cascade calls it. */
    method RelatedRows(key: Key, r: Relationship) returns (c: Children)
      ensures c == ReadChildren(cat, rows, key, r)
    {
      var op := SqlOperator(cat.h, r.operator);
      if op.Err? {
        return Failed(BadOperator);
      }
      if r.right.tableName !in cat.tables || r.right.column !in cat.tables[r.right.tableName] {
        return Unreachable;
      }
      if r.left.tableName !in cat.tables || r.left.column !in cat.tables[r.left.tableName] {
        return Unreachable;
      }
      if key !in rows {
        return Failed(RecordNotFound);
      }
      var matchValue := ReadField(rows[key], r.left.column);
      var found := {};
      if !EmptyMatchValue(cat.h, matchValue) {
        found := RelatedIds(cat, rows, r.right.tableName, r.right.column, op.value, matchValue);
      }
      var all := cat.arrange(r, rows, found);
      return Ids(if |all| <= cat.pageSize then all else all[..cat.pageSize]);
    }

    /** DeleteRow. */
    method Delete(key: Key) returns (error: Option<DeleteError>)
      requires FairEngine(cat)
      modifies `rows
      ensures var o := DeleteRow(cat, old(rows), {}, key); rows == o.db && error == o.error
    {
      var seen := new SeenSet();
      error := DeleteSeen(key, seen);
    }

    /** deleteRow. */
    method DeleteSeen(key: Key, seen: SeenSet) returns (error: Option<DeleteError>)
      requires FairEngine(cat)
      modifies `rows, seen
      ensures Outcome(rows, seen.keys, error) == DeleteRow(cat, old(rows), old(seen.keys), key)
      decreases Left(rows, seen.keys), if key in rows then 0 else 4
    {
      if key.table !in cat.tables {
        return Some(TableNotFound);
      }
      if key in seen.keys {
        return None;
      }
      EnterLeft(rows, seen.keys, key);
      seen.keys := seen.keys + {key};
      error := CascadeDelete(key, seen);
      if error.Some? {
        return;
      }
      if key !in rows {
        return Some(RecordNotFound);
      }
      rows := rows - {key};
    }

    /** cascadeDelete: one relationship of the table after another. */
    method CascadeDelete(key: Key, seen: SeenSet) returns (error: Option<DeleteError>)
      requires FairEngine(cat)
      modifies `rows, seen
      ensures Outcome(rows, seen.keys, error)
           == CascadeAll(cat, old(rows), old(seen.keys), key, Cascading(cat, key.table, cat.relationships))
      decreases Left(rows, seen.keys), 3
    {
      hide Cascading, CascadeRel, FairEngine;
      var rels := Cascading(cat, key.table, cat.relationships);
      ghost var rows0, seen0 := rows, seen.keys;
      error := None;
      assert rels[0..] == rels;
      for i := 0 to |rels|
        invariant error == None && Shrinks(rows0, seen0, Outcome(rows, seen.keys, None))
        invariant CascadeAll(cat, rows, seen.keys, key, rels[i..]) == CascadeAll(cat, rows0, seen0, key, rels)
      {
        assert rels[i..][1..] == rels[i + 1..];
        ShrinksLeft(rows0, seen0, Outcome(rows, seen.keys, None));
        ghost var before := Outcome(rows, seen.keys, None);
        error := DeleteThrough(key, rels[i], seen);
        ShrinksTwice(rows0, seen0, before, Outcome(rows, seen.keys, None));
        if error.Some? {
          return;
        }
      }
    }

    /** The paging loop of cascadeDelete over one relationship. */
    method DeleteThrough(key: Key, r: Relationship, seen: SeenSet) returns (error: Option<DeleteError>)
      requires FairEngine(cat)
      modifies `rows, seen
      ensures Outcome(rows, seen.keys, error) == CascadeRel(cat, old(rows), old(seen.keys), key, r)
      ensures Shrinks(old(rows), old(seen.keys), Outcome(rows, seen.keys, None))
      decreases Left(rows, seen.keys), 2
    {
      hide FairEngine, DeleteChildren, ReadChildren, Known;
      ghost var rows0, seen0 := rows, seen.keys;
      while true
        invariant Shrinks(rows0, seen0, Outcome(rows, seen.keys, None))
        invariant CascadeRel(cat, rows, seen.keys, key, r) == CascadeRel(cat, rows0, seen0, key, r)
        decreases Left(rows, seen.keys)
      {
        var children := RelatedRows(key, r);
        if children.Unreachable? {
          return None;
        }
        if children.Failed? {
          return Some(children.error);
        }
        ReadKnown(cat, rows, seen.keys, key, r);
        ShrinksLeft(rows0, seen0, Outcome(rows, seen.keys, None));
        ghost var before := Outcome(rows, seen.keys, None);
        var deleted: nat;
        deleted, error := DeletePage(r.right.tableName, children.ids, seen);
        ShrinksTwice(rows0, seen0, before, Outcome(rows, seen.keys, None));
        if error.Some? || deleted == 0 {
          return;
        }
        NewlySeen(before.db, before.seen, Outcome(rows, seen.keys, None));
        ShrinksLeft(before.db, before.seen, Outcome(rows, seen.keys, None));
      }
    }

    /** The loop over one page of children. */
    method DeletePage(table: string, ids: seq<string>, seen: SeenSet) returns (deleted: nat, error: Option<DeleteError>)
      requires FairEngine(cat) && Known(rows, seen.keys, table, ids)
      modifies `rows, seen
      ensures Outcome(rows, seen.keys, error) == DeleteChildren(cat, old(rows), old(seen.keys), table, ids)
      ensures Shrinks(old(rows), old(seen.keys), Outcome(rows, seen.keys, None))
      ensures error.None? ==> (deleted == 0 <==> seen.keys == old(seen.keys))
      decreases Left(rows, seen.keys), 1
    {
      hide FairEngine, DeleteRow;
      ghost var rows0, seen0 := rows, seen.keys;
      deleted, error := 0, None;
      assert ids[0..] == ids;
      for i := 0 to |ids|
        invariant error == None && Shrinks(rows0, seen0, Outcome(rows, seen.keys, None))
        invariant Known(rows, seen.keys, table, ids[i..])
        invariant DeleteChildren(cat, rows, seen.keys, table, ids[i..]) == DeleteChildren(cat, rows0, seen0, table, ids)
        invariant deleted == 0 <==> seen.keys == seen0
      {
        assert ids[i..][1..] == ids[i + 1..];
        if ids[i] == "" || Key(table, ids[i]) in seen.keys {
          continue;
        }
        ShrinksLeft(rows0, seen0, Outcome(rows, seen.keys, None));
        ghost var before := Outcome(rows, seen.keys, None);
        error := DeleteSeen(Key(table, ids[i]), seen);
        ShrinksTwice(rows0, seen0, before, Outcome(rows, seen.keys, None));
        if error.Some? {
          return;
        }
        deleted := deleted + 1;
      }
    }
  }
}
