/** The methods of data/service.go, data/calculations.go and data/import.go over one stored table. */
module Tables {
  import opened Common
  import opened Evaluator
  import opened Sorting
  import opened Calculations
  import opened Records
  import opened Order
  import Operations

  /** A page of a list: what LIMIT and OFFSET leave of it. */
  function Page<T>(list: seq<T>, offset: nat, limit: nat): (page: seq<T>)
    ensures |page| <= limit
  {
    if offset >= |list| then []
    else if offset + limit <= |list| then list[offset..offset + limit]
    else list[offset..]
  }

  function Reverse(list: seq<string>): (r: seq<string>)
    ensures |r| == |list| && forall i :: 0 <= i < |list| ==> r[i] == list[|list| - 1 - i]
  {
    if list == [] then [] else Reverse(list[1..]) + [list[0]]
  }

  /** The ids a request finds, in the order of the ids. */
  ghost function InIdOrder(found: set<string>, descending: bool): seq<string> {
    if descending then Reverse(SortedSet(found)) else SortedSet(found)
  }

  lemma ReverseMembers(list: seq<string>)
    ensures forall x :: x in Reverse(list) <==> x in list
    ensures Distinct(list) ==> Distinct(Reverse(list))
  {
    forall x | x in list ensures x in Reverse(list) {
      var i :| 0 <= i < |list| && list[i] == x;
      assert Reverse(list)[|list| - 1 - i] == x;
    }
  }

  lemma InIdOrderOnce(found: set<string>, descending: bool)
    ensures var ids := InIdOrder(found, descending);
      Distinct(ids) && |ids| == |found| && forall id :: id in ids <==> id in found
  {
    hide Ascending, Distinct, Reverse;
    ReverseMembers(SortedSet(found));
  }

  /** The ids come in their order, or the other way round, by the first character that tells them apart. */
  lemma IdsInOrder(found: set<string>, descending: bool, i: nat, j: nat)
    requires i < j < |InIdOrder(found, descending)|
    ensures var ids := InIdOrder(found, descending);
      if descending then Operations.Earlier(ids[j], ids[i]) else Operations.Earlier(ids[i], ids[j])
  {
    hide Operations.Earlier, Ascending, Distinct, Reverse, AtMost;
    var ids, sorted := InIdOrder(found, descending), SortedSet(found);
    if descending { SortedEarlier(sorted, |ids| - 1 - j, |ids| - 1 - i); } else { SortedEarlier(sorted, i, j); }
  }

  lemma SortedEarlier(s: seq<string>, i: nat, j: nat)
    requires Ascending(s) && Distinct(s) && i < j < |s|
    ensures Operations.Earlier(s[i], s[j])
  {
    assert AtMost(s[i], s[j]);
    Operations.OrderOfTexts(s[i], s[j]);
    hide Operations.Earlier, CompareText;
  }

  /** The pages of a list from `offset` on, put together until one is not full. */
  function PagesFrom<T>(list: seq<T>, offset: nat, limit: nat): seq<T>
    requires limit > 0
    decreases |list| - offset
  {
    var page := Page(list, offset, limit);
    if |page| < limit then page else page + PagesFrom(list, offset + limit, limit)
  }

  lemma {:induction false} PagesAreAll<T>(list: seq<T>, offset: nat, limit: nat)
    requires limit > 0 && offset <= |list|
    ensures PagesFrom(list, offset, limit) == list[offset..]
    decreases |list| - offset
  {
    if offset + limit <= |list| {
      PagesAreAll(list, offset + limit, limit);
    }
  }

  /** Paging by id ends, and its pages put together have every record found, each once. */
  lemma ListedOnce(found: set<string>, descending: bool, limit: nat)
    requires limit > 0
    ensures var ids := PagesFrom(InIdOrder(found, descending), 0, limit);
      && ids == InIdOrder(found, descending) && Distinct(ids) && |ids| == |found|
      && forall id :: id in ids <==> id in found
  {
    InIdOrderOnce(found, descending);
    PagesAreAll(InIdOrder(found, descending), 0, limit);
    hide InIdOrder, Distinct;
  }

  /** Nothing in the update is unwritable, and it changes calculation fields only. */
  lemma AnswersWritable(s: Schema, cs: seq<Calculation>, updates: Record)
    requires Sound(s) && HasCalculations(s, cs) && cs != [] && updates.Keys == FieldsOf(cs)
    ensures Writable(s, updates) == updates && updates != map[] && updates.Keys - {"id"} <= s.fields
  {
    hide TableCalculationsOf;
    CalculationsSound(s, cs);
    assert cs[0].field in updates;
  }

  lemma SameBaseExtension(h: Host, cs: seq<Calculation>, a: Record, b: Record, r: Record)
    requires AllWellFormed(cs) && SameBase(a, b, FieldsOf(cs)) && OnlyExtension(h, cs, a, r)
    ensures OnlyExtension(h, cs, b, r)
  {
    forall t | IsExtension(h, cs, b, t) ensures t == r {
      assert IsExtension(h, cs, a, t);
    }
  }

  lemma RowReplaced(s: Schema, cs: seq<Calculation>, rows: map<string, Record>, id: string, row: Record)
    requires ValidRows(s, rows) && AllWellFormed(cs) && id in rows
    requires OnlyExtension(s.h, cs, rows[id], row) && row.Keys == s.fields && ReadField(row, "id") == StoredText(id)
    ensures Recomputed(s, cs, rows, rows[id := row], {id}) && ValidRows(s, rows[id := row])
  {
    hide OnlyExtension, AllWellFormed;
  }

  /** Recomputing one row: it becomes the one extension of itself, whatever its calculation fields held. */
  lemma RowRecomputed(s: Schema, cs: seq<Calculation>, rows: map<string, Record>, id: string, answers: Record)
    requires Sound(s) && ValidRows(s, rows) && HasCalculations(s, cs) && AllWellFormed(cs) && cs != []
    requires id in rows && answers.Keys == FieldsOf(cs) && Updated(s, rows, id, answers).Ok?
    ensures var row := Updated(s, rows, id, answers).value;
      && OnlyExtension(s.h, cs, rows[id], row)
      && row.Keys == s.fields && ReadField(row, "id") == StoredText(id)
  {
    hide TableCalculationsOf, Updated, OnlyExtension, AllWellFormed;
    AnswersWritable(s, cs, answers);
    UpdatedHolds(s, rows, id, answers, cs);
    assert (rows[id] + answers) - FieldsOf(cs) == rows[id] - FieldsOf(cs);
    SameBaseExtension(s.h, cs, rows[id] + answers, rows[id], Updated(s, rows, id, answers).value);
  }

  function Elements(list: seq<string>): set<string> { set x | x in list }

  /** The rows with those ids were recomputed, the others left alone. */
  ghost predicate Recomputed(s: Schema, cs: seq<Calculation>, before: map<string, Record>, after: map<string, Record>,
                             ids: set<string>)
    requires AllWellFormed(cs)
  {
    && ids <= before.Keys && after.Keys == before.Keys
    && forall id :: id in before ==>
         if id in ids then OnlyExtension(s.h, cs, before[id], after[id]) else after[id] == before[id]
  }

  /** The first `written` records in descending order of id were recomputed, and all of them
      when the recalculation got to the end. */
  ghost predicate RecomputedPrefix(s: Schema, cs: seq<Calculation>, before: map<string, Record>,
                                   after: map<string, Record>, written: nat, finished: bool)
    requires AllWellFormed(cs)
  {
    var ids := InIdOrder(before.Keys, true);
    && written <= |ids| && (finished ==> written == |ids|)
    && Recomputed(s, cs, before, after, Elements(ids[..written]))
  }

  lemma PrefixRecomputed(s: Schema, cs: seq<Calculation>, before: map<string, Record>,
                         after: map<string, Record>, written: nat, finished: bool)
    requires AllWellFormed(cs) && written <= |InIdOrder(before.Keys, true)|
    requires finished ==> written == |InIdOrder(before.Keys, true)|
    requires Recomputed(s, cs, before, after, Elements(InIdOrder(before.Keys, true)[..written]))
    ensures RecomputedPrefix(s, cs, before, after, written, finished)
  {
  }

  /** A recalculation that finished reports the number of records, and left every formula satisfied. */
  lemma RecalculatedAll(s: Schema, cs: seq<Calculation>, before: map<string, Record>,
                        after: map<string, Record>, written: nat)
    requires AllWellFormed(cs) && RecomputedPrefix(s, cs, before, after, written, true)
    ensures written == |before| && after.Keys == before.Keys
    ensures forall id :: id in before ==> OnlyExtension(s.h, cs, before[id], after[id])
  {
    hide Recomputed, OnlyExtension, InIdOrder, Distinct;
    var ids := InIdOrder(before.Keys, true);
    InIdOrderOnce(before.Keys, true);
    assert ids[..written] == ids;
    RecomputedEvery(s, cs, before, after, Elements(ids));
  }

  lemma RecomputedEvery(s: Schema, cs: seq<Calculation>, before: map<string, Record>,
                        after: map<string, Record>, ids: set<string>)
    requires AllWellFormed(cs) && Recomputed(s, cs, before, after, ids) && ids == before.Keys
    ensures |ids| == |before| && after.Keys == before.Keys
    ensures forall id :: id in before ==> OnlyExtension(s.h, cs, before[id], after[id])
  {
    hide OnlyExtension;
  }

  lemma RecomputedNone(s: Schema, cs: seq<Calculation>, rows: map<string, Record>, ids: seq<string>)
    requires AllWellFormed(cs)
    ensures Recomputed(s, cs, rows, rows, Elements(ids[..0]))
  {
    hide OnlyExtension;
    assert Elements(ids[..0]) == {};
  }

  lemma NotYet(ids: seq<string>, n: nat)
    requires Distinct(ids) && n < |ids|
    ensures ids[n] !in Elements(ids[..n]) && Elements(ids[..n + 1]) == Elements(ids[..n]) + {ids[n]}
  {
    assert ids[..n + 1] == ids[..n] + [ids[n]];
  }

  lemma RecomputedMore(s: Schema, cs: seq<Calculation>, first: map<string, Record>,
                       before: map<string, Record>, after: map<string, Record>, ids: seq<string>, n: nat)
    requires AllWellFormed(cs) && Distinct(ids) && n < |ids| && ids[n] in first
    requires Recomputed(s, cs, first, before, Elements(ids[..n]))
    requires Recomputed(s, cs, before, after, {ids[n]})
    ensures Recomputed(s, cs, first, after, Elements(ids[..n + 1]))
  {
    hide OnlyExtension, Elements;
    NotYet(ids, n);
  }

  lemma SameKeys(s: Schema, cs: seq<Calculation>, before: map<string, Record>, after: map<string, Record>,
                 ids: set<string>)
    requires AllWellFormed(cs) && Recomputed(s, cs, before, after, ids)
    ensures after.Keys == before.Keys
  {
  }

  lemma PageIs<T>(list: seq<T>, offset: nat)
    requires offset <= |list|
    ensures var page := Page(list, offset, MAX_PAGE_SIZE);
      && offset + |page| <= |list| && (|page| < MAX_PAGE_SIZE ==> offset + |page| == |list|)
      && (|page| == 0 ==> offset == |list|)
      && forall i :: 0 <= i < |page| ==> page[i] == list[offset + i]
  {
  }

  lemma ApplyNothing(h: Host, r: Record)
    ensures ApplyFrom(h, [], 0, r) == Applied(r, None) && FieldsOf([]) == {}
  {
  }

  /** One table of the database. */
  class Table {
    const s: Schema
    var rows: map<string, Record>

    constructor (s: Schema)
      ensures this.s == s && rows == map[]
    {
      this.s, rows := s, map[];
    }

    method GetRow(id: string) returns (r: Result<Record, DataError>)
      ensures r == if id in rows then Ok(rows[id]) else Err(RecordNotFound)
    {
      r := if id in rows then Ok(rows[id]) else Err(RecordNotFound);
    }

    method InsertRow(record: RecordInHand, freshId: string) returns (r: Result<Record, DataError>)
      modifies `rows, record
      ensures r == Inserted(s, old(rows), old(record.fields), freshId)
      ensures rows == Step(s, old(rows), Insert(old(record.fields), freshId))
      ensures record.fields == InsertInHand(s, old(record.fields), freshId)
      ensures r.Ok? ==> record.fields == r.value
    {
      hide TableCalculationsOf, InOrder, AllWellFormed, ApplyFrom, FieldsOf, OnlyExtension;
      if !(record.fields.Keys <= s.fields) {
        return Err(UnknownField);
      }
      record.fields := s.constants + record.fields;
      if IsBlankId(ReadField(record.fields, "id")) {
        record.fields := record.fields["id" := StoredText(freshId)];
      }
      record.fields := record.fields - s.summaries;
      var calculations := TableCalculations(s.h, s.columns);
      if calculations.Err? {
        return Err(RingOfFormulas(calculations.error));
      }
      LoadedInOrder(s, calculations.value);
      var failure := ApplyCalculationsTo(s.h, calculations.value, record);
      if failure.Some? {
        return Err(CannotCompute(failure.value));
      }
      var id := IdOf(s, record.fields);
      if !s.accepts(id, record.fields) {
        return Err(Refused);
      }
      if id in rows {
        return Err(DuplicateId);
      }
      rows := rows[id := StoredRow(s, record.fields)];
      return Ok(record.fields);
    }

    method UpdateRow(id: string, updates: RecordInHand) returns (r: Result<Record, DataError>)
      modifies `rows, updates
      ensures r == Updated(s, old(rows), id, old(updates.fields))
      ensures rows == Step(s, old(rows), Update(id, old(updates.fields)))
      ensures rows == if r.Ok? then old(rows)[id := r.value] else old(rows)
      ensures updates.fields == UpdateInHand(s, old(rows), id, old(updates.fields))
      ensures r.Ok? ==> id in old(rows) && r.value == old(rows)[id] + updates.fields
    {
      hide TableCalculationsOf, InOrder, AllWellFormed, UpdatedWith, AnswersFrom;
      updates.fields := updates.fields - {"id"};
      if !(updates.fields.Keys <= s.fields) {
        return Err(UnknownField);
      }
      updates.fields := updates.fields - s.summaries;
      if updates.fields == map[] {
        r := GetRow(id);
        assert r.Ok? ==> rows[id := rows[id]] == rows && rows[id] + updates.fields == rows[id];
        return;
      }
      var calculations := TableCalculations(s.h, s.columns);
      if calculations.Err? {
        return Err(RingOfFormulas(calculations.error));
      }
      LoadedInOrder(s, calculations.value);
      r := WriteRow(id, updates, calculations.value);
    }

    /** The rest of UpdateRow: the answers are added to what is set, and the row is written. */
    method WriteRow(id: string, updates: RecordInHand, cs: seq<Calculation>) returns (r: Result<Record, DataError>)
      requires AllWellFormed(cs)
      modifies `rows, updates
      ensures r == UpdatedWith(s, old(rows), id, old(updates.fields), cs)
      ensures rows == if r.Ok? then old(rows)[id := r.value] else old(rows)
      ensures updates.fields == if id !in old(rows) then old(updates.fields)
        else AnswersFrom(s.h, cs, 0, old(rows)[id], old(updates.fields)).record
      ensures r.Ok? ==> id in old(rows) && r.value == old(rows)[id] + updates.fields
    {
      ghost var given := updates.fields;
      ghost var current := if id in rows then rows[id] else map[];
      AnswersAreApplied(s.h, cs, current, given);
      hide AllWellFormed;
      if cs != [] {
        var row := GetRow(id);
        if row.Err? {
          return row;
        }
        hide ApplyFrom, AnswersFrom, FieldsOf;
        var failure := RecalculateForUpdate(s.h, cs, row.value, updates);
        if failure.Some? {
          return Err(CannotCompute(failure.value));
        }
      } else {
        ApplyNothing(s.h, current + given);
      }
      hide ApplyFrom, AnswersFrom, FieldsOf;
      ghost var applied := ApplyFrom(s.h, cs, 0, current + given).record;
      assert updates.fields == map f | f in given.Keys + FieldsOf(cs) && f in applied :: applied[f];
      if !s.accepts(id, updates.fields) {
        return Err(Refused);
      }
      if id !in rows {
        return Err(RecordNotFound);
      }
      rows := rows[id := rows[id] + updates.fields];
      r := GetRow(id);
    }

    /** A page of the ids a request finds, in the order of the ids. */
    static method ListIds(found: set<string>, descending: bool, offset: nat, limit: nat) returns (page: seq<string>)
      ensures page == Page(InIdOrder(found, descending), offset, limit)
    {
      var ids: seq<string> := [];
      var left := found;
      while left != {}
        invariant left <= found && Distinct(ids) && forall id :: id in ids <==> id in found - left
        decreases left
      {
        var id :| id in left;
        assert forall x :: x in ids + [id] <==> x in ids || x == id;
        ids := ids + [id];
        left := left - {id};
      }
      SortCanonical(ids, SortedSet(found));
      SortOfSorted(found);
      ids := Sort(ids);
      page := Page(if descending then Reverse(ids) else ids, offset, limit);
    }

    /** The body of the recalculation: the answers are computed over the row and written back. */
    method RecalculateRow(cs: seq<Calculation>, id: string) returns (err: Option<DataError>)
      requires Sound(s) && ValidRows(s, rows) && HasCalculations(s, cs) && cs != [] && id in rows
      requires InOrder(cs) && AllWellFormed(cs)
      modifies `rows
      ensures err.Some? ==> rows == old(rows)
      ensures err.None? ==> Recomputed(s, cs, old(rows), rows, {id}) && ValidRows(s, rows)
    {
      hide *;
      var updates := new RecordInHand(map[]);
      var failure := RecalculateForUpdate(s.h, cs, rows[id], updates);
      if failure.Some? {
        return Some(CannotCompute(failure.value));
      }
      ghost var answers := updates.fields;
      AnswersAreApplied(s.h, cs, rows[id], map[]);
      var r := UpdateRow(id, updates);
      if r.Err? {
        return Some(r.error);
      }
      RowRecomputed(s, cs, old(rows), id, answers);
      RowReplaced(s, cs, old(rows), id, r.value);
      return None;
    }

    /** One page of the recalculation: the `from`-th to the last of its records, in the list of all. */
    method RecalculatePage(cs: seq<Calculation>, page: seq<string>, from: nat, ghost ids: seq<string>,
                           ghost first: map<string, Record>) returns (written: nat, err: Option<DataError>)
      requires Sound(s) && HasCalculations(s, cs) && cs != [] && InOrder(cs) && AllWellFormed(cs)
      requires Distinct(ids) && forall id :: id in ids <==> id in first
      requires from + |page| <= |ids| && forall j :: 0 <= j < |page| ==> page[j] == ids[from + j]
      requires ValidRows(s, rows) && Recomputed(s, cs, first, rows, Elements(ids[..from]))
      modifies `rows
      ensures from <= written <= from + |page| && (err.None? ==> written == from + |page|)
      ensures ValidRows(s, rows) && Recomputed(s, cs, first, rows, Elements(ids[..written]))
    {
      hide TableCalculationsOf, InOrder, AllWellFormed, Sound, ValidRows, Recomputed, Elements;
      written, err := from, None;
      for j := 0 to |page|
        invariant written == from + j && err == None
        invariant ValidRows(s, rows) && Recomputed(s, cs, first, rows, Elements(ids[..written]))
      {
        SameKeys(s, cs, first, rows, Elements(ids[..written]));
        assert page[j] == ids[written];
        ghost var before := rows;
        err := RecalculateRow(cs, page[j]);
        if err.Some? {
          return;
        }
        RecomputedMore(s, cs, first, before, rows, ids, written);
        written := written + 1;
      }
    }

    /** The paging loop of RecalculateTable, in descending order of id. */
    method RecalculateAll(cs: seq<Calculation>) returns (written: nat, err: Option<DataError>)
      requires Sound(s) && HasCalculations(s, cs) && cs != [] && InOrder(cs) && AllWellFormed(cs)
      requires ValidRows(s, rows)
      modifies `rows
      ensures RecomputedPrefix(s, cs, old(rows), rows, written, err.None?)
    {
      hide *;
      ghost var first := rows;
      ghost var ids := InIdOrder(rows.Keys, true);
      InIdOrderOnce(rows.Keys, true);
      RecomputedNone(s, cs, rows, ids);
      hide InIdOrder;
      var offset := 0;
      written, err := 0, None;
      while true
        invariant written == offset <= |ids| && err == None
        invariant ValidRows(s, rows) && Recomputed(s, cs, first, rows, Elements(ids[..offset]))
        decreases |ids| - offset
      {
        SameKeys(s, cs, first, rows, Elements(ids[..offset]));
        var page := ListIds(rows.Keys, true, offset, MAX_PAGE_SIZE);
        PageIs(ids, offset);
        if |page| == 0 {
          break;
        }
        written, err := RecalculatePage(cs, page, offset, ids, first);
        if err.Some? || |page| < MAX_PAGE_SIZE {
          break;
        }
        offset := offset + MAX_PAGE_SIZE;
      }
      PrefixRecomputed(s, cs, first, rows, written, err.None?);
    }

    /**
     * RecalculateTable. Without an error every record was recomputed once and their number
     * is reported; with one, the records reported were, and the others are as before.
     */
    method RecalculateTable() returns (written: nat, err: Option<DataError>)
      requires Sound(s) && ValidRows(s, rows)
      modifies `rows
      ensures match TableCalculationsOf(s.h, s.columns)
        case Err(ring) => err == Some(RingOfFormulas(ring)) && rows == old(rows)
        case Ok(cs) =>
          if cs == [] then err == None && written == 0 && rows == old(rows)
          else AllWellFormed(cs) && RecomputedPrefix(s, cs, old(rows), rows, written, err.None?)
    {
      hide OrderOf, ParsedColumns, InOrder, AllWellFormed, Sound, ValidRows, RecomputedPrefix;
      var calculations := TableCalculations(s.h, s.columns);
      written := 0;
      if calculations.Err? {
        return written, Some(RingOfFormulas(calculations.error));
      }
      var cs := calculations.value;
      if cs == [] {
        return written, None;
      }
      LoadedInOrder(s, cs);
      hide TableCalculationsOf;
      written, err := RecalculateAll(cs);
    }

    /** exportRows: the records found, page after page, sorted by id; here by their ids. */
    static method ExportRows(found: set<string>) returns (all: seq<string>)
      ensures all == InIdOrder(found, false)
    {
      ghost var ids := InIdOrder(found, false);
      hide InIdOrder, Page;
      all := [];
      while true
        invariant |all| <= |ids| && all == ids[..|all|]
        decreases |ids| - |all|
      {
        var page := ListIds(found, false, |all|, MAX_PAGE_SIZE);
        PageIs(ids, |all|);
        all := all + page;
        if |page| < MAX_PAGE_SIZE {
          break;
        }
      }
    }
  }
}
