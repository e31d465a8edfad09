/**
 * data/service.go and data/related.go: deleting a record and, down every chain of
 * relationships that ask for it, what hangs on it.
 */
module Cascade {
  import opened Common
  import opened Evaluator
  import opened Relationships

  datatype DeleteError = TableNotFound | RecordNotFound | BadOperator

  datatype Outcome = Outcome(db: Db, seen: set<Key>, error: Option<DeleteError>)

  /** What reading the children of a record through a relationship comes to. */
  datatype Children = Unreachable | Failed(error: DeleteError) | Ids(ids: seq<string>)

  /** cascadingRelationships: those that lead from the table and delete what they lead to. */
  function Cascading(cat: Catalog, table: string, rels: seq<Relationship>): (c: seq<Relationship>)
    ensures forall r :: r in c <==> r in rels && r.cascadeDelete && r.left.tableName == table
  {
    if rels == [] then []
    else
      var front, last := Cascading(cat, table, rels[..|rels| - 1]), rels[|rels| - 1];
      assert rels == rels[..|rels| - 1] + [last];
      if last.cascadeDelete && last.left.tableName == table then front + [last] else front
  }

  /** The relationship still leads from a field there is to a field there is. */
  predicate Leads(cat: Catalog, r: Relationship) {
    && r.right.tableName in cat.tables && r.right.column in cat.tables[r.right.tableName]
    && r.left.tableName in cat.tables && r.left.column in cat.tables[r.left.tableName]
  }

  function ChildIds(cat: Catalog, db: Db, parent: Record, r: Relationship): set<string>
    requires SqlOperator(cat.h, r.operator).Ok?
  {
    var key := ReadField(parent, r.left.column);
    if EmptyMatchValue(cat.h, key) then {}
    else RelatedIds(cat, db, r.right.tableName, r.right.column, SqlOperator(cat.h, r.operator).value, key)
  }

  /** RelatedRows as the cascade calls it: the first page of the children. */
  function ReadChildren(cat: Catalog, db: Db, key: Key, r: Relationship): Children {
    if SqlOperator(cat.h, r.operator).Err? then Failed(BadOperator)
    else if !Leads(cat, r) then Unreachable
    else if key !in db then Failed(RecordNotFound)
    else
      var all := cat.arrange(r, db, ChildIds(cat, db, db[key], r));
      Ids(if |all| <= cat.pageSize then all else all[..cat.pageSize])
  }

  // ─── The specification of the cascade ───

  /** Records only go, and each that goes is seen. */
  ghost predicate Shrinks(db: Db, seen: set<Key>, o: Outcome) {
    && o.db.Keys <= db.Keys && (forall k :: k in o.db ==> o.db[k] == db[k])
    && seen <= o.seen <= seen + db.Keys && db.Keys - o.db.Keys <= o.seen
  }

  /** The children are there or on their way out. */
  ghost predicate Known(db: Db, seen: set<Key>, table: string, ids: seq<string>) {
    forall id :: id in ids ==> Key(table, id) in db || Key(table, id) in seen
  }

  ghost function Left(db: Db, seen: set<Key>): nat { |db.Keys - seen| }

  lemma ShrinksLeft(db: Db, seen: set<Key>, o: Outcome)
    requires Shrinks(db, seen, o)
    ensures Left(o.db, o.seen) <= Left(db, seen)
    ensures (exists k :: k in db && k !in seen && k in o.seen) ==> Left(o.db, o.seen) < Left(db, seen)
  {
    var before, after := db.Keys - seen, o.db.Keys - o.seen;
    assert before == after + (before - after);
    if k :| k in db && k !in seen && k in o.seen {
      assert k in before - after;
    }
  }

  lemma EnterLeft(db: Db, seen: set<Key>, key: Key)
    requires key !in seen
    ensures if key in db then Left(db, seen + {key}) < Left(db, seen) else Left(db, seen + {key}) == Left(db, seen)
  {
    if key in db { ShrinksLeft(db, seen, Outcome(db, seen + {key}, None)); }
    else { assert db.Keys - (seen + {key}) == db.Keys - seen; }
  }

  lemma NewlySeen(db: Db, seen: set<Key>, o: Outcome)
    requires Shrinks(db, seen, o) && o.seen != seen
    ensures exists k :: k in db && k !in seen && k in o.seen
  {
    assert o.seen == seen + (o.seen - seen);
    var k :| k in o.seen - seen;
  }

  /** What a read returns are children, records of the right side each. */
  lemma ReadKnown(cat: Catalog, db: Db, seen: set<Key>, key: Key, r: Relationship)
    requires FairEngine(cat) && ReadChildren(cat, db, key, r).Ids?
    ensures var ids := ReadChildren(cat, db, key, r).ids;
      && Known(db, seen, r.right.tableName, ids)
      && forall id :: id in ids ==>
           var k := Key(r.right.tableName, id);
           k in db && key in db && IsChild(cat, db[key], db[k], r)
  {
    var ids := ReadChildren(cat, db, key, r).ids;
    assert Enumerates(cat.arrange(r, db, ChildIds(cat, db, db[key], r)), ChildIds(cat, db, db[key], r));
    forall id | id in ids ensures Key(r.right.tableName, id) in db {
      ChildMember(cat, db, db[key], r, id);
    }
    forall id | id in ids ensures IsChild(cat, db[key], db[Key(r.right.tableName, id)], r) {
      ChildMember(cat, db, db[key], r, id);
    }
  }

  /** A child is a record of the right side that compares with a match value that is not empty. */
  lemma ChildMember(cat: Catalog, db: Db, parent: Record, r: Relationship, id: string)
    requires SqlOperator(cat.h, r.operator).Ok?
    ensures var k := Key(r.right.tableName, id);
      id in ChildIds(cat, db, parent, r) <==> k in db && IsChild(cat, parent, db[k], r)
  {
    RelatedMember(cat, db, r.right.tableName, r.right.column, SqlOperator(cat.h, r.operator).value,
                  ReadField(parent, r.left.column), id);
  }

  predicate IsChild(cat: Catalog, parent: Record, child: Record, r: Relationship)
    requires SqlOperator(cat.h, r.operator).Ok?
  {
    var key := ReadField(parent, r.left.column);
    && !EmptyMatchValue(cat.h, key)
    && Relates(cat, SqlOperator(cat.h, r.operator).value, ReadField(child, r.right.column), key)
  }

  lemma ShrinksTwice(db: Db, seen: set<Key>, o: Outcome, p: Outcome)
    requires Shrinks(db, seen, o) && Shrinks(o.db, o.seen, p)
    ensures Shrinks(db, seen, p)
  {
  }

  /** deleteRow. A record that is not there is an error, and nothing is deleted. */
  function DeleteRow(cat: Catalog, db: Db, seen: set<Key>, key: Key): (o: Outcome)
    requires FairEngine(cat)
    ensures if key in db || key in seen then Shrinks(db, seen, o) else o.db == db && o.error.Some?
    ensures o.error.None? ==> key in o.seen
    decreases Left(db, seen), if key in db then 0 else 4
  {
    if key.table !in cat.tables then Outcome(db, seen, Some(TableNotFound))
    else if key in seen then Outcome(db, seen, None)
    else
      EnterLeft(db, seen, key);
      var below := CascadeAll(cat, db, seen + {key}, key, Cascading(cat, key.table, cat.relationships));
      if below.error.Some? then below
      else if key !in below.db then below.(error := Some(RecordNotFound))
      else Outcome(below.db - {key}, below.seen, None)
  }

  /** cascadeDelete: one relationship after another. */
  function CascadeAll(cat: Catalog, db: Db, seen: set<Key>, key: Key, rels: seq<Relationship>): (o: Outcome)
    requires FairEngine(cat)
    ensures Shrinks(db, seen, o) && (key !in db ==> o.db == db && o.seen == seen)
    decreases Left(db, seen), 3, |rels|
  {
    if rels == [] then Outcome(db, seen, None)
    else
      var first := CascadeRel(cat, db, seen, key, rels[0]);
      if first.error.Some? then first
      else
        ShrinksLeft(db, seen, first);
        CascadeAll(cat, first.db, first.seen, key, rels[1..])
  }

  /** Reads a page of children, deletes it, and reads again until there is nothing left to delete. */
  function CascadeRel(cat: Catalog, db: Db, seen: set<Key>, key: Key, r: Relationship): (o: Outcome)
    requires FairEngine(cat)
    ensures Shrinks(db, seen, o) && (key !in db ==> o.db == db && o.seen == seen)
    decreases Left(db, seen), 2
  {
    match ReadChildren(cat, db, key, r)
    case Unreachable => Outcome(db, seen, None)
    case Failed(e) => Outcome(db, seen, Some(e))
    case Ids(ids) =>
      ReadKnown(cat, db, seen, key, r);
      var page := DeleteChildren(cat, db, seen, r.right.tableName, ids);
      if page.error.Some? || page.seen == seen then page
      else
        ShrinksLeft(db, seen, page);
        NewlySeen(db, seen, page);
        CascadeRel(cat, page.db, page.seen, key, r)
  }

  /** The loop over one page. What it deletes shows in what was seen. */
  function DeleteChildren(cat: Catalog, db: Db, seen: set<Key>, table: string, ids: seq<string>): (o: Outcome)
    requires FairEngine(cat) && Known(db, seen, table, ids)
    ensures Shrinks(db, seen, o)
    decreases Left(db, seen), 1, |ids|
  {
    if ids == [] then Outcome(db, seen, None)
    else if ids[0] == "" || Key(table, ids[0]) in seen then DeleteChildren(cat, db, seen, table, ids[1..])
    else
      var first := DeleteRow(cat, db, seen, Key(table, ids[0]));
      if first.error.Some? then first
      else
        ShrinksLeft(db, seen, first);
        DeleteChildren(cat, first.db, first.seen, table, ids[1..])
  }

  // ─── What a cascade may reach ───

  /**
   * Deleting `x` asks for the deletion of `y`: a relationship that cascades leads from the
   * table of the one to that of the other, both match fields are there, and `y` hangs on `x`.
   */
  ghost predicate Takes(cat: Catalog, db: Db, x: Key, y: Key, r: Relationship) {
    && r.cascadeDelete && r.left.tableName == x.table && r.right.tableName == y.table
    && x.table in cat.tables && r.left.column in cat.tables[x.table]
    && y.table in cat.tables && r.right.column in cat.tables[y.table]
    && x in db && y in db && y.id != ""
    && HangsOn(cat, db[x], r.left.column, r.operator, db[y], r.right.column)
  }

  /** What the page of related rows is read by is what the relationship means. */
  lemma ChildHangs(cat: Catalog, parent: Record, child: Record, r: Relationship)
    ensures HangsOn(cat, parent, r.left.column, r.operator, child, r.right.column) <==>
      SqlOperator(cat.h, r.operator).Ok? && IsChild(cat, parent, child, r)
  {
    var op := SqlOperator(cat.h, r.operator);
    forall o ensures op == Ok(o) <==> MeansBy(cat.h, r.operator, o) { SignMeans(cat.h, r.operator, o); }
    MatchValue(cat.h, ReadField(parent, r.left.column));
    hide MeansBy, SqlOperator, HasMatch, EmptyMatchValue;
    if op.Ok? { assert MeansBy(cat.h, r.operator, op.value); }
  }

  lemma Taken(cat: Catalog, db: Db, x: Key, y: Key, r: Relationship)
    ensures Takes(cat, db, x, y, r) <==>
      && x in db && y in db && y.id != ""
      && r.cascadeDelete && r.left.tableName == x.table && r.right.tableName == y.table
      && SqlOperator(cat.h, r.operator).Ok? && Leads(cat, r)
      && IsChild(cat, db[x], db[y], r)
  {
    if x in db && y in db { ChildHangs(cat, db[x], db[y], r); }
    hide HangsOn, IsChild, SqlOperator;
  }

  /**
   * What a cascade reads. It fails where the sign is none it knows, finds nothing to follow
   * where a table or a match field is gone, and otherwise reads records the parent asks for,
   * each once: a page at most, and all there are when they fill less than a page.
   */
  lemma ReadMeans(cat: Catalog, db: Db, key: Key, r: Relationship)
    requires FairEngine(cat) && r.cascadeDelete && r.left.tableName == key.table
    ensures match ReadChildren(cat, db, key, r)
      case Failed(e) =>
        if e == BadOperator then !exists op :: MeansBy(cat.h, r.operator, op) else e == RecordNotFound && key !in db
      case Unreachable => !Present(cat, r.left) || !Present(cat, r.right)
      case Ids(ids) =>
        && Distinct(ids) && |ids| <= cat.pageSize
        && (forall id :: id in ids && id != "" ==> Takes(cat, db, key, Key(r.right.tableName, id), r))
        && (|ids| < cat.pageSize ==> forall y :: Takes(cat, db, key, y, r) ==> y.id in ids)
  {
    hide *;
    ReadFails(cat, db, key, r);
    var read := ReadChildren(cat, db, key, r);
    if read.Ids? {
      ReadPage(cat, db, key, r);
      forall id: string | id != ""
        ensures Takes(cat, db, key, Key(r.right.tableName, id), r) <==> id in ChildIds(cat, db, db[key], r)
      {
        Taken(cat, db, key, Key(r.right.tableName, id), r);
        ChildMember(cat, db, db[key], r, id);
      }
      forall y | Takes(cat, db, key, y, r) && |read.ids| < cat.pageSize ensures y.id in read.ids {
        TakenNamed(cat, db, key, y, r);
      }
    }
  }

  /** The table of a side is there, and has its column. */
  predicate Present(cat: Catalog, side: Side) {
    side.tableName in cat.tables && side.column in cat.tables[side.tableName]
  }

  lemma TakenNamed(cat: Catalog, db: Db, x: Key, y: Key, r: Relationship)
    requires Takes(cat, db, x, y, r)
    ensures y == Key(r.right.tableName, y.id) && y.id != ""
  {
    hide HangsOn;
  }

  lemma ReadFails(cat: Catalog, db: Db, key: Key, r: Relationship)
    ensures match ReadChildren(cat, db, key, r)
      case Failed(e) =>
        if e == BadOperator then !exists op :: MeansBy(cat.h, r.operator, op) else e == RecordNotFound && key !in db
      case Unreachable => !Present(cat, r.left) || !Present(cat, r.right)
      case Ids(ids) => SqlOperator(cat.h, r.operator).Ok? && Leads(cat, r) && key in db
  {
    forall op ensures SqlOperator(cat.h, r.operator) == Ok(op) <==> MeansBy(cat.h, r.operator, op) {
      SignMeans(cat.h, r.operator, op);
    }
    hide MeansBy, SqlOperator, ChildIds;
  }

  lemma ReadPage(cat: Catalog, db: Db, key: Key, r: Relationship)
    requires FairEngine(cat) && ReadChildren(cat, db, key, r).Ids?
    ensures var ids := ReadChildren(cat, db, key, r).ids;
      && Distinct(ids) && |ids| <= cat.pageSize
      && (forall id :: id in ids ==> id in ChildIds(cat, db, db[key], r))
      && (|ids| < cat.pageSize ==> forall id :: id in ChildIds(cat, db, db[key], r) ==> id in ids)
  {
    hide ChildIds, SqlOperator, Leads;
    var children := ChildIds(cat, db, db[key], r);
    assert Enumerates(cat.arrange(r, db, children), children);
  }

  ghost predicate Edge(cat: Catalog, db: Db, x: Key, y: Key) {
    exists r :: r in cat.relationships && Takes(cat, db, x, y, r)
  }

  ghost predicate IsPath(cat: Catalog, db: Db, p: seq<Key>) {
    p != [] && forall i :: 0 <= i < |p| - 1 ==> Edge(cat, db, p[i], p[i + 1])
  }

  ghost predicate IsPathTo(cat: Catalog, db: Db, p: seq<Key>, root: Key, k: Key) {
    IsPath(cat, db, p) && p[0] == root && p[|p| - 1] == k
  }

  ghost predicate Reachable(cat: Catalog, db: Db, root: Key, k: Key) {
    exists p :: IsPathTo(cat, db, p, root, k)
  }

  function Elements(p: seq<Key>): set<Key> { set k | k in p }

  /** The records on the path that the last of them asks for through the relationship. */
  ghost function OnTheWay(cat: Catalog, db: Db, p: seq<Key>, r: Relationship): set<Key>
    requires p != []
  {
    set k | k in p && Takes(cat, db, p[|p| - 1], k, r)
  }

  /** All the records the last record of the path asks for through the relationship. */
  ghost function AskedFor(cat: Catalog, db: Db, p: seq<Key>, r: Relationship): set<Key>
    requires p != []
  {
    set k | k in db && Takes(cat, db, p[|p| - 1], k, r)
  }

  /**
   * No page can consist of records on their way out while others wait behind it: where a
   * record relates to more records than fit a page, fewer than a page of them stand on
   * any one path of the cascade down to it.
   */
  ghost predicate Roomy(cat: Catalog, db: Db, root: Key) {
    forall p, r :: r in cat.relationships && IsPath(cat, db, p) && p[0] == root && Distinct(p) ==>
      |AskedFor(cat, db, p, r)| <= cat.pageSize || |OnTheWay(cat, db, p, r)| < cat.pageSize
  }

  ghost predicate Named(db: Db) { forall k :: k in db ==> k.id != "" }

  /** A walk cannot leave a set of records that takes all it asks for along. */
  lemma {:induction false} PathStays(cat: Catalog, db: Db, p: seq<Key>, s: set<Key>)
    requires IsPath(cat, db, p) && p[0] in s
    requires forall x, y :: x in s && Edge(cat, db, x, y) ==> y in s
    ensures p[|p| - 1] in s
  {
    if |p| > 1 {
      assert Edge(cat, db, p[0], p[1]);
      assert forall i :: 0 <= i < |p| - 2 ==> Edge(cat, db, p[1..][i], p[1..][i + 1]);
      PathStays(cat, db, p[1..], s);
    }
  }

  // ─── What every step of a cascade keeps ───

  /** A cascade: the catalog, the database it started on and the record it started from. */
  datatype Start = Start(cat: Catalog, db: Db, root: Key)

  /** Only records reachable from the root have been touched, and nothing else has changed. */
  ghost predicate Sound(c: Start, db: Db, seen: set<Key>) {
    && db.Keys <= c.db.Keys && (forall k :: k in db ==> db[k] == c.db[k])
    && c.db.Keys - db.Keys <= seen <= c.db.Keys
    && forall k :: k in seen ==> Reachable(c.cat, c.db, c.root, k)
  }

  /** The records on their way out form a path down from the root. */
  ghost predicate Standing(c: Start, db: Db, seen: set<Key>, stack: seq<Key>) {
    && seen * db.Keys == Elements(stack) && Distinct(stack)
    && (stack != [] ==> IsPath(c.cat, c.db, stack) && stack[0] == c.root)
  }

  /** What the records that are gone asked for is gone or on its way out. */
  ghost predicate Followed(c: Start, db: Db, seen: set<Key>) {
    forall x, y :: x in c.db && x !in db && Edge(c.cat, c.db, x, y) ==> y in seen
  }

  ghost predicate Inv(c: Start, db: Db, seen: set<Key>, stack: seq<Key>) {
    && Sound(c, db, seen) && Standing(c, db, seen, stack)
    && (Roomy(c.cat, c.db, c.root) ==> Followed(c, db, seen))
  }

  ghost predicate Fair(c: Start) { FairEngine(c.cat) && Named(c.db) }

  /** Every relationship that cascades compares in a way the program knows. */
  ghost predicate Supported(cat: Catalog) {
    forall r :: r in cat.relationships && r.cascadeDelete ==> exists op :: MeansBy(cat.h, r.operator, op)
  }

  /** The outcome of a step below `stack`. */
  ghost predicate Keeps(c: Start, stack: seq<Key>, o: Outcome) {
    && Sound(c, o.db, o.seen)
    && (o.error.None? ==> Inv(c, o.db, o.seen, stack))
    && (o.error.Some? ==> o.error == Some(BadOperator) && !Supported(c.cat))
  }

  /** All that `key` asks for through the relationship is gone or on its way out. */
  ghost predicate Asked(c: Start, seen: set<Key>, key: Key, r: Relationship) {
    forall y :: Takes(c.cat, c.db, key, y, r) ==> y in seen
  }

  ghost predicate Below(c: Start, stack: seq<Key>, key: Key) {
    if stack == [] then key == c.root else Edge(c.cat, c.db, stack[|stack| - 1], key)
  }

  lemma ElementsPush(stack: seq<Key>, key: Key)
    ensures Elements(stack + [key]) == Elements(stack) + {key}
  {
  }

  lemma Enter(c: Start, db: Db, seen: set<Key>, stack: seq<Key>, key: Key)
    requires Inv(c, db, seen, stack) && key in db && key !in seen && Below(c, stack, key)
    ensures Inv(c, db, seen + {key}, stack + [key])
  {
    hide Roomy;
    var path := stack + [key];
    assert Reachable(c.cat, c.db, c.root, key) by {
      assert IsPathTo(c.cat, c.db, path, c.root, key) by {
        forall i | 0 <= i < |path| - 1 ensures Edge(c.cat, c.db, path[i], path[i + 1]) {
          assert i + 1 < |stack| ==> Edge(c.cat, c.db, stack[i], stack[i + 1]);
        }
      }
    }
    ElementsPush(stack, key);
    assert (seen + {key}) * db.Keys == seen * db.Keys + {key};
  }

  lemma Leave(c: Start, db: Db, seen: set<Key>, stack: seq<Key>, key: Key)
    requires Inv(c, db, seen, stack + [key])
    requires Roomy(c.cat, c.db, c.root) ==> forall y :: Edge(c.cat, c.db, key, y) ==> y in seen
    ensures key in db && Inv(c, db - {key}, seen, stack)
  {
    hide Roomy, Edge, Reachable;
    var path := stack + [key];
    ElementsPush(stack, key);
    assert path[|stack|] == key && forall i :: 0 <= i < |stack| ==> path[i] == stack[i];
    assert key !in Elements(stack);
    assert seen * (db - {key}).Keys == seen * db.Keys - {key} == Elements(stack);
  }

  lemma EdgesAsked(c: Start, seen: set<Key>, key: Key, rels: seq<Relationship>)
    requires rels == Cascading(c.cat, key.table, c.cat.relationships)
    requires forall r :: r in rels ==> Asked(c, seen, key, r)
    ensures forall y :: Edge(c.cat, c.db, key, y) ==> y in seen
  {
    forall y | Edge(c.cat, c.db, key, y) ensures y in seen {
      var r :| r in c.cat.relationships && Takes(c.cat, c.db, key, y, r);
      assert Asked(c, seen, key, r);
    }
  }

  lemma {:induction false} DeleteRowKeeps(c: Start, db: Db, seen: set<Key>, stack: seq<Key>, key: Key)
    requires Fair(c) && Inv(c, db, seen, stack) && (key in db || key in seen)
    requires key.table in c.cat.tables && Below(c, stack, key)
    ensures Keeps(c, stack, DeleteRow(c.cat, db, seen, key))
    decreases Left(db, seen), 0
  {
    hide Sound, Standing, Followed, Roomy, FairEngine, Named, Asked, Edge, Shrinks, CascadeAll, Supported, Below;
    if key !in seen {
      EnterLeft(db, seen, key);
      Enter(c, db, seen, stack, key);
      var rels := Cascading(c.cat, key.table, c.cat.relationships);
      CascadeAllKeeps(c, db, seen + {key}, stack + [key], key, rels);
      var below := CascadeAll(c.cat, db, seen + {key}, key, rels);
      if below.error.None? {
        if Roomy(c.cat, c.db, c.root) { EdgesAsked(c, below.seen, key, rels); }
        Leave(c, below.db, below.seen, stack, key);
      }
    }
  }

  lemma {:induction false} CascadeAllKeeps(c: Start, db: Db, seen: set<Key>, stack: seq<Key>, key: Key,
                                           rels: seq<Relationship>)
    requires Fair(c) && Inv(c, db, seen, stack) && stack != [] && stack[|stack| - 1] == key
    requires forall r :: r in rels ==> r in Cascading(c.cat, key.table, c.cat.relationships)
    ensures var o := CascadeAll(c.cat, db, seen, key, rels);
      && Keeps(c, stack, o)
      && (o.error.None? && Roomy(c.cat, c.db, c.root) ==> forall r :: r in rels ==> Asked(c, o.seen, key, r))
    decreases Left(db, seen), 3, |rels|
  {
    hide Sound, Standing, Followed, Roomy, FairEngine, Named, CascadeRel, Supported, Takes;
    if rels != [] {
      CascadeRelKeeps(c, db, seen, stack, key, rels[0]);
      var first := CascadeRel(c.cat, db, seen, key, rels[0]);
      if first.error.None? {
        ShrinksLeft(db, seen, first);
        CascadeAllKeeps(c, first.db, first.seen, stack, key, rels[1..]);
      }
    }
  }

  lemma {:induction false} CascadeRelKeeps(c: Start, db: Db, seen: set<Key>, stack: seq<Key>, key: Key, r: Relationship)
    requires Fair(c) && Inv(c, db, seen, stack) && stack != [] && stack[|stack| - 1] == key
    requires r in Cascading(c.cat, key.table, c.cat.relationships)
    ensures var o := CascadeRel(c.cat, db, seen, key, r);
      && Keeps(c, stack, o)
      && (o.error.None? && Roomy(c.cat, c.db, c.root) ==> Asked(c, o.seen, key, r))
    decreases Left(db, seen), 2
  {
    hide Sound, Standing, Followed, Roomy, FairEngine, Named, DeleteChildren, Known, Edge, Takes, Supported,
         ReadChildren;
    OnStack(c, db, seen, stack, key);
    var children := ReadChildren(c.cat, db, key, r);
    if children.Ids? {
      var table := r.right.tableName;
      ReadKnown(c.cat, db, seen, key, r);
      ChildrenBelow(c, db, seen, stack, key, r);
      DeleteChildrenKeeps(c, db, seen, stack, key, table, children.ids);
      var page := DeleteChildren(c.cat, db, seen, table, children.ids);
      if page.error.None? {
        if page.seen == seen {
          if Roomy(c.cat, c.db, c.root) { PageCovers(c, db, seen, stack, key, r); }
        } else {
          ShrinksLeft(db, seen, page);
          NewlySeen(db, seen, page);
          CascadeRelKeeps(c, page.db, page.seen, stack, key, r);
        }
      }
    } else if children.Unreachable? {
      NothingAsked(c, db, seen, key, r);
    } else {
      OnlySigns(c, db, key, r);
    }
  }

  lemma OnlySigns(c: Start, db: Db, key: Key, r: Relationship)
    requires r in Cascading(c.cat, key.table, c.cat.relationships) && key in db
    requires ReadChildren(c.cat, db, key, r).Failed?
    ensures ReadChildren(c.cat, db, key, r).error == BadOperator && !Supported(c.cat)
  {
    hide ReadChildren, MeansBy;
    ReadFails(c.cat, db, key, r);
  }

  lemma NothingAsked(c: Start, db: Db, seen: set<Key>, key: Key, r: Relationship)
    requires ReadChildren(c.cat, db, key, r).Unreachable?
    ensures Asked(c, seen, key, r)
  {
  }

  lemma {:induction false} DeleteChildrenKeeps(c: Start, db: Db, seen: set<Key>, stack: seq<Key>, key: Key,
                                               table: string, ids: seq<string>)
    requires Fair(c) && Inv(c, db, seen, stack) && stack != [] && stack[|stack| - 1] == key
    requires Known(db, seen, table, ids) && table in c.cat.tables
    requires forall id :: id in ids ==> id != "" && Edge(c.cat, c.db, key, Key(table, id))
    ensures var o := DeleteChildren(c.cat, db, seen, table, ids);
      && Keeps(c, stack, o)
      && (o.error.None? ==> forall id :: id in ids ==> Key(table, id) in o.seen)
    decreases Left(db, seen), 1, |ids|
  {
    hide Sound, Standing, Followed, Roomy, FairEngine, Named, DeleteRow, Edge, Supported;
    if ids != [] {
      var child := Key(table, ids[0]);
      if child in seen {
        DeleteChildrenKeeps(c, db, seen, stack, key, table, ids[1..]);
      } else {
        DeleteRowKeeps(c, db, seen, stack, child);
        var first := DeleteRow(c.cat, db, seen, child);
        if first.error.None? {
          ShrinksLeft(db, seen, first);
          DeleteChildrenKeeps(c, first.db, first.seen, stack, key, table, ids[1..]);
        }
      }
    }
  }

  lemma OnStack(c: Start, db: Db, seen: set<Key>, stack: seq<Key>, key: Key)
    requires Inv(c, db, seen, stack) && stack != [] && stack[|stack| - 1] == key
    ensures key in db && db[key] == c.db[key]
  {
    assert key in Elements(stack);
  }

  /** A child read from the database as it is now is one by the database as it was. */
  lemma ChildTaken(c: Start, db: Db, seen: set<Key>, key: Key, r: Relationship, id: string)
    requires Named(c.db) && Sound(c, db, seen) && key in db
    requires r in Cascading(c.cat, key.table, c.cat.relationships)
    requires SqlOperator(c.cat.h, r.operator).Ok? && Leads(c.cat, r)
    ensures id in ChildIds(c.cat, db, db[key], r) <==>
      Key(r.right.tableName, id) in db && Takes(c.cat, c.db, key, Key(r.right.tableName, id), r)
  {
    hide Takes, IsChild, SqlOperator, ChildIds, Leads, Reachable;
    ChildMember(c.cat, db, db[key], r, id);
    Taken(c.cat, c.db, key, Key(r.right.tableName, id), r);
  }

  lemma ChildrenBelow(c: Start, db: Db, seen: set<Key>, stack: seq<Key>, key: Key, r: Relationship)
    requires Fair(c) && Inv(c, db, seen, stack) && key in db
    requires r in Cascading(c.cat, key.table, c.cat.relationships)
    requires ReadChildren(c.cat, db, key, r).Ids?
    ensures var ids := ReadChildren(c.cat, db, key, r).ids;
      && (forall id :: id in ids ==> id in ChildIds(c.cat, db, db[key], r))
      && (forall id :: id in ids ==> id != "" && Edge(c.cat, c.db, key, Key(r.right.tableName, id)))
      && r.right.tableName in c.cat.tables
  {
    var ids := ReadChildren(c.cat, db, key, r).ids;
    assert Enumerates(c.cat.arrange(r, db, ChildIds(c.cat, db, db[key], r)), ChildIds(c.cat, db, db[key], r));
    forall id | id in ids ensures id != "" && Edge(c.cat, c.db, key, Key(r.right.tableName, id)) {
      ChildTaken(c, db, seen, key, r, id);
    }
  }

  function Keys(table: string, ids: seq<string>): set<Key> { set id | id in ids :: Key(table, id) }

  lemma KeysCount(table: string, ids: seq<string>)
    requires Distinct(ids)
    ensures |Keys(table, ids)| == |ids|
  {
    if ids != [] {
      var n := |ids| - 1;
      KeysCount(table, ids[..n]);
      assert ids == ids[..n] + [ids[n]];
      assert Keys(table, ids) == Keys(table, ids[..n]) + {Key(table, ids[n])};
    }
  }

  lemma SubsetCount(a: set<Key>, b: set<Key>)
    requires a <= b
    ensures |a| <= |b|
  {
    assert b == a + (b - a);
  }

  /** Where there is room, a page of nothing but records on their way out is the last page. */
  lemma PageCovers(c: Start, db: Db, seen: set<Key>, stack: seq<Key>, key: Key, r: Relationship)
    requires Fair(c) && Inv(c, db, seen, stack) && stack != [] && stack[|stack| - 1] == key && key in db
    requires Roomy(c.cat, c.db, c.root) && r in Cascading(c.cat, key.table, c.cat.relationships)
    requires ReadChildren(c.cat, db, key, r).Ids?
    requires forall id :: id in ReadChildren(c.cat, db, key, r).ids ==> Key(r.right.tableName, id) in seen
    ensures Asked(c, seen, key, r)
  {
    var table := r.right.tableName;
    var all := c.cat.arrange(r, db, ChildIds(c.cat, db, db[key], r));
    var page := ReadChildren(c.cat, db, key, r).ids;
    assert Enumerates(all, ChildIds(c.cat, db, db[key], r));
    forall id | id in all ensures Key(table, id) in db && Takes(c.cat, c.db, key, Key(table, id), r) {
      ChildTaken(c, db, seen, key, r, id);
    }
    if |all| > c.cat.pageSize {
      KeysCount(table, all);
      SubsetCount(Keys(table, all), AskedFor(c.cat, c.db, stack, r));
      KeysCount(table, page);
      assert Keys(table, page) <= seen * db.Keys == Elements(stack);
      SubsetCount(Keys(table, page), OnTheWay(c.cat, c.db, stack, r));
      assert false;
    }
    forall y | Takes(c.cat, c.db, key, y, r) ensures y in seen {
      ChildTaken(c, db, seen, key, r, y.id);
    }
  }

  // ─── DeleteRow from outside ───

  lemma Begins(c: Start)
    requires c.root in c.db
    ensures Inv(c, c.db, {}, [])
  {
  }

  lemma AllSeenAreGone(c: Start, db: Db, seen: set<Key>)
    requires Inv(c, db, seen, [])
    ensures forall k :: k in seen ==> k in c.db && k !in db
  {
    hide Roomy, Reachable, Followed;
    assert Elements([]) == {};
    forall k | k in seen ensures k !in db {
      assert k in db ==> k in seen * db.Keys;
    }
  }

  /** Whatever its outcome, a cascade removes only what is reachable from its root and changes
      nothing else; when it succeeds the root is gone, and it fails for nothing but the sign of
      a cascading relationship. */
  lemma CascadeSound(c: Start)
    requires Fair(c) && c.root in c.db && c.root.table in c.cat.tables
    ensures var o := DeleteRow(c.cat, c.db, {}, c.root);
      && (forall k :: k in o.db ==> k in c.db && o.db[k] == c.db[k])
      && (forall k :: k in c.db && k !in o.db ==> Reachable(c.cat, c.db, c.root, k))
      && (o.error.None? ==> c.root !in o.db)
      && (o.error.Some? ==> o.error == Some(BadOperator) && !Supported(c.cat))
  {
    hide Roomy, Reachable, FairEngine, Followed, DeleteRow, Supported;
    Begins(c);
    DeleteRowKeeps(c, c.db, {}, [], c.root);
    var o := DeleteRow(c.cat, c.db, {}, c.root);
    if o.error.None? { AllSeenAreGone(c, o.db, o.seen); }
  }

  lemma {:induction false} UnknownSignStops(cat: Catalog, db: Db, seen: set<Key>, key: Key, rels: seq<Relationship>,
                                            r: Relationship)
    requires FairEngine(cat) && r in rels && !exists op :: MeansBy(cat.h, r.operator, op)
    ensures CascadeAll(cat, db, seen, key, rels).error.Some?
    decreases |rels|
  {
    if rels[0] == r {
      var op := SqlOperator(cat.h, r.operator);
      if op.Ok? { SignMeans(cat.h, r.operator, op.value); }
    } else {
      assert r in rels[1..];
      var first := CascadeRel(cat, db, seen, key, rels[0]);
      UnknownSignStops(cat, first.db, first.seen, key, rels[1..], r);
    }
  }

  /** An unknown sign on a cascading relationship of its table does fail the deletion of a record. */
  lemma UnknownSignFails(c: Start, r: Relationship)
    requires Fair(c) && c.root in c.db && c.root.table in c.cat.tables
    requires r in c.cat.relationships && r.cascadeDelete && r.left.tableName == c.root.table
    requires !exists op :: MeansBy(c.cat.h, r.operator, op)
    ensures DeleteRow(c.cat, c.db, {}, c.root).error == Some(BadOperator)
  {
    hide MeansBy, CascadeAll, Roomy, Reachable, Followed, FairEngine, Supported;
    var rels := Cascading(c.cat, c.root.table, c.cat.relationships);
    UnknownSignStops(c.cat, c.db, {} + {c.root}, c.root, rels, r);
    CascadeSound(c);
  }

  /**
   * The cascading delete. Where there is room, a successful cascade removes exactly the
   * records reachable from its root through cascading relationships, rings or not, and
   * leaves all others as they are.
   */
  lemma CascadeExact(c: Start)
    requires Fair(c) && c.root in c.db && c.root.table in c.cat.tables
    requires Roomy(c.cat, c.db, c.root)
    requires DeleteRow(c.cat, c.db, {}, c.root).error.None?
    ensures var o := DeleteRow(c.cat, c.db, {}, c.root);
      && (forall k :: k in o.db <==> k in c.db && !Reachable(c.cat, c.db, c.root, k))
      && (forall k :: k in o.db ==> o.db[k] == c.db[k])
  {
    hide Roomy, FairEngine, DeleteRow;
    Begins(c);
    DeleteRowKeeps(c, c.db, {}, [], c.root);
    CascadeSound(c);
    var o := DeleteRow(c.cat, c.db, {}, c.root);
    AllSeenAreGone(c, o.db, o.seen);
    var gone := c.db.Keys - o.db.Keys;
    forall x, y | x in gone && Edge(c.cat, c.db, x, y) ensures y in gone {
      assert y in o.seen && y in c.db;
    }
    forall k | Reachable(c.cat, c.db, c.root, k) ensures k !in o.db {
      var p :| IsPathTo(c.cat, c.db, p, c.root, k);
      PathStays(c.cat, c.db, p, gone);
    }
  }

  /** There is room when no path down from the root has as many records as a page. */
  lemma ShortPathsAreRoomy(cat: Catalog, db: Db, root: Key)
    requires forall p :: IsPath(cat, db, p) && p[0] == root && Distinct(p) ==> |p| < cat.pageSize
    ensures Roomy(cat, db, root)
  {
    forall p, r | r in cat.relationships && IsPath(cat, db, p) && p[0] == root && Distinct(p)
      ensures |OnTheWay(cat, db, p, r)| < cat.pageSize
    {
      PathCount(p);
      SubsetCount(OnTheWay(cat, db, p, r), Elements(p));
    }
  }

  lemma PathCount(p: seq<Key>)
    ensures |Elements(p)| <= |p|
  {
    if p != [] {
      var n := |p| - 1;
      PathCount(p[..n]);
      assert p == p[..n] + [p[n]];
      ElementsPush(p[..n], p[n]);
    }
  }

  /** There is room, however long the chains, when no record has more than a page of children
      through one relationship. */
  lemma FewChildrenAreRoomy(cat: Catalog, db: Db, root: Key)
    requires forall x, r :: x in db && r in cat.relationships ==>
      |set k | k in db && Takes(cat, db, x, k, r)| <= cat.pageSize
    ensures Roomy(cat, db, root)
  {
    forall p, r | r in cat.relationships && IsPath(cat, db, p)
      ensures |AskedFor(cat, db, p, r)| <= cat.pageSize
    {
      var x := p[|p| - 1];
      var asked := AskedFor(cat, db, p, r);
      assert asked == set k | k in db && Takes(cat, db, x, k, r);
      if x !in db { assert asked == {}; }
    }
  }
}
