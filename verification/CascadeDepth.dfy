/**
 * Why CascadeExact asks for room: whatever the page size, there is a chain of just that many
 * records whose cascade succeeds and leaves a record behind that it was asked to delete.
 */
module CascadeDepth {
  import opened Common
  import opened Evaluator
  import opened Sorting
  import opened Relationships
  import opened Cascade

  function Id(i: nat): (id: string)
    ensures |id| == i + 1
  {
    seq(i + 1, _ => 'a')
  }

  function K(i: nat): Key { Key("t", Id(i)) }

  function IdList(n: nat): (ids: seq<string>)
    ensures |ids| == n && forall i :: 0 <= i < n ==> ids[i] == Id(i)
  {
    seq(n, i requires 0 <= i < n => Id(i))
  }

  /** A record asks for every record whose position is not above its limit. */
  const CHAIN := Relationship("r", "chain", "<=", Side("l", "l", "t", "limit"), Side("c", "c", "t", "position"), true)

  /** An engine that compares numbers and returns rows in the order of their ids. */
  ghost function Sorted(h: Host, size: nat): Catalog {
    Catalog(h, map["t" := {"id", "position", "limit"}], [CHAIN],
            (op: Comparison, a: Stored, b: Stored) => op == Le && a.StoredNumber? && b.StoredNumber? && a.num <= b.num,
            (r: Relationship, db: Db, s: set<string>) => SortedSet(s), size)
  }

  /** The record at position `i`: it asks for the next one and those before it; the last asks for the first. */
  function Row(size: nat, i: nat): Record {
    map["position" := StoredNumber(i as real), "limit" := StoredNumber(if i < size then (i + 1) as real else 0.0)]
  }

  /** The first `n` records of the chain and the one at position `size`. */
  function Rows(size: nat, n: nat): (db: Db)
    requires n <= size
    ensures forall k :: k in db <==> exists i: nat :: (i < n || i == size) && k == K(i)
    ensures forall i: nat :: i < n || i == size ==> K(i) in db && db[K(i)] == Row(size, i)
  {
    map k | k in (set i: nat | 0 <= i <= size && (i < n || i == size) :: K(i)) :: Row(size, |k.id| - 1)
  }

  function Upto(n: nat): (s: set<Key>)
    ensures forall k :: k in s <==> exists i: nat :: i < n && k == K(i)
  {
    set i: nat | 0 <= i < n :: K(i)
  }

  lemma IdsDiffer(i: nat, j: nat)
    ensures Id(i) == Id(j) <==> i == j
    ensures K(i) == K(j) <==> i == j
  {
    assert |Id(i)| == i + 1 && |Id(j)| == j + 1;
  }

  lemma {:induction false} IdsAscend(i: nat, j: nat)
    requires i <= j
    ensures AtMost(Id(i), Id(j))
  {
    if i > 0 {
      assert Id(i)[1..] == Id(i - 1) && Id(j)[1..] == Id(j - 1);
      IdsAscend(i - 1, j - 1);
    } else if j > 0 {
      assert Id(0)[1..] == "";
    } else {
      CompareEqual(Id(0), Id(0));
    }
  }

  lemma SortedIds(s: set<string>, n: nat)
    requires forall x :: x in s <==> exists i: nat :: i < n && x == Id(i)
    ensures SortedSet(s) == IdList(n)
  {
    forall i, j | 0 <= i < j < n ensures AtMost(Id(i), Id(j)) && Id(i) != Id(j) {
      IdsAscend(i, j);
      IdsDiffer(i, j);
    }
    forall x ensures x in IdList(n) <==> x in s {
      if x in s {
        var i: nat :| i < n && x == Id(i);
        assert IdList(n)[i] == x;
      }
    }
    SameElementsSameMultiset(SortedSet(s), IdList(n));
    SortedUnique(SortedSet(s), IdList(n));
  }

  lemma SortedIsFair(h: Host, size: nat)
    requires size > 0
    ensures FairEngine(Sorted(h, size))
  {
  }

  lemma AtMostSign(h: Host)
    ensures SqlOperator(h, "<=") == Ok(Le)
  {
    assert TrimLeft(h, "<=") == "<=";
    assert TrimRight(h, "<=") == "<=";
  }

  lemma ChainIsChild(h: Host, size: nat, i: nat, j: nat)
    requires i < size
    ensures SqlOperator(h, CHAIN.operator) == Ok(Le)
    ensures IsChild(Sorted(h, size), Row(size, i), Row(size, j), CHAIN) <==> j <= i + 1
  {
    AtMostSign(h);
  }

  /** The number of children the record at `i` has while the first `n` are there. */
  function ChildCount(size: nat, n: nat, i: nat): nat {
    if i + 1 < n then i + 2 else if n == size then size + 1 else n
  }

  lemma ChainChild(h: Host, size: nat, n: nat, i: nat, x: string)
    requires i < n <= size && SqlOperator(h, CHAIN.operator).Ok?
    ensures x in ChildIds(Sorted(h, size), Rows(size, n), Row(size, i), CHAIN) <==>
      exists j: nat :: j < ChildCount(size, n, i) && x == Id(j)
  {
    var cat, db := Sorted(h, size), Rows(size, n);
    ChildMember(cat, db, Row(size, i), CHAIN, x);
    hide IsChild, Sorted, ChildIds, Rows, Row, Id, SqlOperator, ChildCount;
    if x in ChildIds(cat, db, Row(size, i), CHAIN) {
      var j: nat :| (j < n || j == size) && Key("t", x) == K(j);
      ChainIsChild(h, size, i, j);
      ChildSlot(size, n, i, j);
    }
    if j: nat :| j < ChildCount(size, n, i) && x == Id(j) {
      ChildSlot(size, n, i, j);
      assert Key("t", x) == K(j) && K(j) in db;
      ChainIsChild(h, size, i, j);
    }
  }

  lemma ChildSlot(size: nat, n: nat, i: nat, j: nat)
    requires i < n <= size
    ensures j < ChildCount(size, n, i) <==> (j < n || j == size) && j <= i + 1
  {
  }

  lemma ChildrenSorted(h: Host, size: nat, n: nat, i: nat)
    requires i < n <= size && SqlOperator(h, CHAIN.operator) == Ok(Le)
    ensures SortedSet(ChildIds(Sorted(h, size), Rows(size, n), Row(size, i), CHAIN))
         == IdList(ChildCount(size, n, i))
  {
    hide ChildIds, Sorted, Rows, Row, IdList, SortedSet;
    var children := ChildIds(Sorted(h, size), Rows(size, n), Row(size, i), CHAIN);
    forall x ensures x in children <==> exists j: nat :: j < ChildCount(size, n, i) && x == Id(j) {
      ChainChild(h, size, n, i, x);
    }
    SortedIds(children, ChildCount(size, n, i));
  }

  lemma ReadSorted(cat: Catalog, db: Db, key: Key, ids: seq<string>)
    requires SqlOperator(cat.h, CHAIN.operator).Ok? && Leads(cat, CHAIN) && key in db
    requires cat.arrange(CHAIN, db, ChildIds(cat, db, db[key], CHAIN)) == ids
    ensures ReadChildren(cat, db, key, CHAIN) == Ids(if |ids| <= cat.pageSize then ids else ids[..cat.pageSize])
  {
    hide ChildIds, Leads, SqlOperator;
  }

  /** The page of children the record at `i` reads. */
  lemma ChainPage(h: Host, size: nat, n: nat, i: nat)
    requires i < n <= size && size > 0
    ensures ReadChildren(Sorted(h, size), Rows(size, n), K(i), CHAIN)
         == Ids(IdList(if ChildCount(size, n, i) <= size then ChildCount(size, n, i) else size))
  {
    hide *;
    var cat, db := Sorted(h, size), Rows(size, n);
    var ids := IdList(ChildCount(size, n, i));
    SortedCatalog(h, size);
    Arranges(h, size, db, ChildIds(cat, db, Row(size, i), CHAIN));
    ChildrenSorted(h, size, n, i);
    assert K(i) in db && db[K(i)] == Row(size, i);
    ReadSorted(cat, db, K(i), ids);
    PageOfIds(size, n, i);
  }

  lemma Arranges(h: Host, size: nat, db: Db, s: set<string>)
    ensures Sorted(h, size).arrange(CHAIN, db, s) == SortedSet(s)
  {
  }

  lemma SortedCatalog(h: Host, size: nat)
    ensures var cat := Sorted(h, size);
      && cat.h == h && SqlOperator(h, CHAIN.operator) == Ok(Le) && Leads(cat, CHAIN)
      && cat.pageSize == size && "t" in cat.tables && CHAIN in cat.relationships
      && Cascading(cat, "t", cat.relationships) == [CHAIN]
  {
    AtMostSign(h);
  }

  lemma PageOfIds(size: nat, n: nat, i: nat)
    requires i < n <= size
    ensures var count := ChildCount(size, n, i); var ids := IdList(count);
      (if |ids| <= size then ids else ids[..size]) == IdList(if count <= size then count else size)
  {
  }

  lemma {:induction false} SkipSeen(cat: Catalog, db: Db, seen: set<Key>, ids: seq<string>)
    requires FairEngine(cat) && Known(db, seen, "t", ids) && forall id :: id in ids ==> Key("t", id) in seen
    ensures DeleteChildren(cat, db, seen, "t", ids) == Outcome(db, seen, None)
  {
    if ids != [] { SkipSeen(cat, db, seen, ids[1..]); }
  }

  /** Skipping records on their way out, a page comes down to its last record. */
  lemma {:induction false} SkipToLast(cat: Catalog, db: Db, seen: set<Key>, ids: seq<string>, last: string)
    requires FairEngine(cat) && Known(db, seen, "t", ids + [last]) && forall id :: id in ids ==> Key("t", id) in seen
    requires last != "" && Key("t", last) !in seen
    requires DeleteRow(cat, db, seen, Key("t", last)).error.None? && Key("t", last) in db
    ensures DeleteChildren(cat, db, seen, "t", ids + [last]) == DeleteRow(cat, db, seen, Key("t", last))
  {
    hide DeleteRow;
    if ids == [] {
      assert ids + [last] == [last] && [last][1..] == [];
    } else {
      assert (ids + [last])[1..] == ids[1..] + [last] && (ids + [last])[0] == ids[0];
      SkipToLast(cat, db, seen, ids[1..], last);
    }
  }

  /** Every record of the chain from `i` on is deleted, but not the one behind the chain. */
  lemma {:induction false} ChainCascades(h: Host, size: nat, i: nat)
    requires i < size && FairEngine(Sorted(h, size))
    ensures DeleteRow(Sorted(h, size), Rows(size, size), Upto(i), K(i)) == Outcome(Rows(size, i), Upto(size), None)
    decreases size - i
  {
    hide *;
    var cat := Sorted(h, size);
    SortedCatalog(h, size);
    IndexFacts(size, i);
    ThroughChain(h, size, i);
    DeleteUnfolds(cat, Rows(size, size), Upto(i), K(i), Rows(size, i + 1), Upto(size));
  }

  /** The page the record at `i` reads while the first `n` are there. */
  lemma PageOf(h: Host, size: nat, n: nat, i: nat, seen: set<Key>, count: nat)
    requires i < n <= size && FairEngine(Sorted(h, size))
    requires count == if ChildCount(size, n, i) <= size then ChildCount(size, n, i) else size
    ensures ReadChildren(Sorted(h, size), Rows(size, n), K(i), CHAIN) == Ids(IdList(count))
    ensures Known(Rows(size, n), seen, "t", IdList(count))
  {
    ChainPage(h, size, n, i);
    ReadKnown(Sorted(h, size), Rows(size, n), seen, K(i), CHAIN);
    hide ReadChildren, Sorted, Rows, Row, K, IdList, ChildCount, FairEngine, Known;
  }

  /** What the record at `i` takes along. */
  lemma {:induction false} ThroughChain(h: Host, size: nat, i: nat)
    requires i < size && FairEngine(Sorted(h, size))
    ensures CascadeRel(Sorted(h, size), Rows(size, size), Upto(i + 1), K(i), CHAIN)
         == Outcome(Rows(size, i + 1), Upto(size), None)
    decreases size - i, 1
  {
    hide *;
    var cat, db := Sorted(h, size), Rows(size, size);
    Counts(size, i);
    if i + 1 < size {
      var later := Rows(size, i + 1);
      PageOf(h, size, size, i, Upto(i + 1), i + 2);
      PageOf(h, size, i + 1, i, Upto(size), i + 1);
      NextPage(h, size, i);
      SeenIds(size, i + 1);
      SkipSeen(cat, later, Upto(size), IdList(i + 1));
      IndexFacts(size, i + 1);
      TwoPages(cat, db, Upto(i + 1), K(i), IdList(i + 2), later, Upto(size), IdList(i + 1));
    } else {
      PageOf(h, size, size, i, Upto(size), size);
      SeenIds(size, size);
      SkipSeen(cat, db, Upto(size), IdList(size));
      OnePage(cat, db, Upto(size), K(i), IdList(size));
    }
  }

  /** A page of records on their way out, and the next of the chain behind them. */
  lemma {:induction false} NextPage(h: Host, size: nat, i: nat)
    requires i + 1 < size && FairEngine(Sorted(h, size))
    requires Known(Rows(size, size), Upto(i + 1), "t", IdList(i + 2))
    ensures DeleteChildren(Sorted(h, size), Rows(size, size), Upto(i + 1), "t", IdList(i + 2))
         == Outcome(Rows(size, i + 1), Upto(size), None)
    decreases size - i, 0
  {
    hide *;
    IndexFacts(size, i + 1);
    ChainCascades(h, size, i + 1);
    IdListPush(i + 1);
    SeenIds(i + 1, i + 1);
    SkipToLast(Sorted(h, size), Rows(size, size), Upto(i + 1), IdList(i + 1), Id(i + 1));
  }

  lemma IndexFacts(size: nat, i: nat)
    requires i < size
    ensures K(i) in Rows(size, size) && K(i) !in Upto(i) && K(i).table == "t" && K(i) == Key("t", Id(i)) && Id(i) != ""
    ensures Upto(i) + {K(i)} == Upto(i + 1)
    ensures K(i) in Rows(size, i + 1) && Rows(size, i + 1) - {K(i)} == Rows(size, i)
    ensures i + 1 < size ==> Upto(size) != Upto(i + 1)
  {
    hide Rows, Upto, Row, Id;
    EnterUpto(i);
    LeaveRows(size, i);
    if i + 1 < size { EnterUpto(i + 1); }
  }

  lemma EnterUpto(i: nat)
    ensures K(i) !in Upto(i) && Upto(i) + {K(i)} == Upto(i + 1) && Id(i) != ""
  {
    forall j: nat ensures K(j) == K(i) <==> j == i { IdsDiffer(i, j); }
    hide K, Id;
    forall k ensures k in Upto(i) + {K(i)} <==> k in Upto(i + 1) {
      if k in Upto(i + 1) { var j: nat :| j < i + 1 && k == K(j); }
    }
  }

  lemma LeaveRows(size: nat, i: nat)
    requires i < size
    ensures Rows(size, i + 1) - {K(i)} == Rows(size, i)
  {
    var after, rows := Rows(size, i + 1) - {K(i)}, Rows(size, i);
    forall k ensures k in after <==> k in rows { LeavesKey(size, i, k); }
    forall k | k in after ensures after[k] == rows[k] { LeavesKey(size, i, k); }
  }

  lemma LeavesKey(size: nat, i: nat, k: Key)
    requires i < size
    ensures k in Rows(size, i) <==> k in Rows(size, i + 1) && k != K(i)
    ensures k in Rows(size, i) ==> Rows(size, i)[k] == Rows(size, i + 1)[k]
  {
    forall j: nat ensures K(j) == K(i) <==> j == i { IdsDiffer(i, j); }
    hide K, Id, Row, Rows;
    if k in Rows(size, i + 1) {
      var j: nat :| (j < i + 1 || j == size) && k == K(j);
    }
  }

  lemma Counts(size: nat, i: nat)
    requires i < size
    ensures if i + 1 < size then ChildCount(size, size, i) == i + 2 && ChildCount(size, i + 1, i) == i + 1
            else ChildCount(size, size, i) == size + 1
  {
  }

  lemma IdListPush(n: nat)
    ensures IdList(n + 1) == IdList(n) + [Id(n)]
  {
  }

  lemma SeenIds(m: nat, n: nat)
    requires n <= m
    ensures forall id :: id in IdList(n) ==> Key("t", id) in Upto(m)
  {
    forall id | id in IdList(n) ensures Key("t", id) in Upto(m) {
      var j :| 0 <= j < n && IdList(n)[j] == id;
      assert K(j) == Key("t", id);
    }
  }

  lemma OnePage(cat: Catalog, db: Db, seen: set<Key>, key: Key, ids: seq<string>)
    requires FairEngine(cat) && ReadChildren(cat, db, key, CHAIN) == Ids(ids) && Known(db, seen, "t", ids)
    requires DeleteChildren(cat, db, seen, "t", ids) == Outcome(db, seen, None)
    ensures CascadeRel(cat, db, seen, key, CHAIN) == Outcome(db, seen, None)
  {
    hide ReadChildren, DeleteChildren;
  }

  lemma TwoPages(cat: Catalog, db: Db, seen: set<Key>, key: Key, ids: seq<string>, db': Db, seen': set<Key>,
                 ids': seq<string>)
    requires FairEngine(cat) && ReadChildren(cat, db, key, CHAIN) == Ids(ids) && Known(db, seen, "t", ids)
    requires DeleteChildren(cat, db, seen, "t", ids) == Outcome(db', seen', None) && seen' != seen
    requires ReadChildren(cat, db', key, CHAIN) == Ids(ids') && Known(db', seen', "t", ids')
    requires DeleteChildren(cat, db', seen', "t", ids') == Outcome(db', seen', None)
    ensures CascadeRel(cat, db, seen, key, CHAIN) == Outcome(db', seen', None)
  {
    OnePage(cat, db', seen', key, ids');
    hide ReadChildren, DeleteChildren;
  }

  lemma DeleteUnfolds(cat: Catalog, db: Db, seen: set<Key>, key: Key, db': Db, seen': set<Key>)
    requires FairEngine(cat) && key.table in cat.tables && key !in seen
    requires Cascading(cat, key.table, cat.relationships) == [CHAIN]
    requires CascadeRel(cat, db, seen + {key}, key, CHAIN) == Outcome(db', seen', None) && key in db'
    ensures DeleteRow(cat, db, seen, key) == Outcome(db' - {key}, seen', None)
  {
    hide CascadeRel, Cascading;
    assert [CHAIN][1..] == [];
    assert CascadeAll(cat, db, seen + {key}, key, [CHAIN]) == Outcome(db', seen', None);
  }

  lemma ChainEdge(h: Host, size: nat, i: nat)
    requires i < size
    ensures Edge(Sorted(h, size), Rows(size, size), K(i), K(i + 1))
  {
    hide *;
    var cat, db := Sorted(h, size), Rows(size, size);
    SortedCatalog(h, size);
    ChainIsChild(h, size, i, i + 1);
    ChainRows(size, i);
    Taken(cat, db, K(i), K(i + 1), CHAIN);
    EdgeBy(cat, db, K(i), K(i + 1), CHAIN);
  }

  lemma ChainRows(size: nat, i: nat)
    requires i < size
    ensures var db := Rows(size, size);
      && K(i) in db && db[K(i)] == Row(size, i) && K(i + 1) in db && db[K(i + 1)] == Row(size, i + 1)
      && K(i).table == "t" && K(i + 1).table == "t" && K(i + 1).id != ""
      && CHAIN.cascadeDelete && CHAIN.left.tableName == "t" && CHAIN.right.tableName == "t"
  {
    hide Row;
  }

  lemma EdgeBy(cat: Catalog, db: Db, x: Key, y: Key, r: Relationship)
    requires r in cat.relationships && Takes(cat, db, x, y, r)
    ensures Edge(cat, db, x, y)
  {
    hide Takes;
  }

  /** A cascade that succeeds and leaves behind a record it reaches, for any page size. */
  lemma DeepCascadeMisses(h: Host, size: nat)
    requires size > 0
    ensures var c := Start(Sorted(h, size), Rows(size, size), K(0));
      && Fair(c) && c.root in c.db && c.root.table in c.cat.tables
      && DeleteRow(c.cat, c.db, {}, c.root).error.None?
      && Reachable(c.cat, c.db, c.root, K(size))
      && K(size) in DeleteRow(c.cat, c.db, {}, c.root).db
  {
    hide *;
    SortedIsFair(h, size);
    SortedCatalog(h, size);
    ChainCascades(h, size, 0);
    IndexFacts(size, 0);
    ChainPath(h, size);
    FirstAndLast(size);
    ChainNamed(h, size);
  }

  lemma FirstAndLast(size: nat)
    ensures Upto(0) == {} && K(size) in Rows(size, 0)
  {
  }

  lemma ChainNamed(h: Host, size: nat)
    requires FairEngine(Sorted(h, size))
    ensures Fair(Start(Sorted(h, size), Rows(size, size), K(0)))
  {
    hide FairEngine;
  }

  lemma ChainPath(h: Host, size: nat)
    ensures Reachable(Sorted(h, size), Rows(size, size), K(0), K(size))
  {
    hide Edge, Rows, Sorted, K;
    var cat, db := Sorted(h, size), Rows(size, size);
    var p := seq(size + 1, i requires 0 <= i < size + 1 => K(i));
    forall i | 0 <= i < size ensures Edge(cat, db, p[i], p[i + 1]) { ChainEdge(h, size, i); }
    assert IsPathTo(cat, db, p, K(0), K(size));
  }
}
