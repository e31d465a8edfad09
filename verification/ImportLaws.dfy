/** What an import does to a table as a whole. */
module ImportLaws {
  import opened Common
  import opened Evaluator
  import opened EvaluatorLaws
  import opened Calculations
  import opened Import
  import Formula

  // ─── Counting ───

  /** A row updates the record found for it, is passed over, or is added under a new id. */
  ghost predicate RowDoes(j: Job, newId: nat -> string, p: Progress, p': Progress, row: nat, r: Record) {
    var id := if j.opts.action.UpdateMatching? then FindMatching(j, p.rows, r) else "";
    if id in p.rows && id != "" then
      p' == Progress(p.rows[id := UpdatedRow(p.rows[id], r)], p.added, p.updated + 1, p.skipped)
    else if j.opts.action.UpdateMatching? && !j.opts.addUnmatched then
      p' == Progress(p.rows, p.added, p.updated, p.skipped + 1)
    else
      newId(row) !in p.rows
      && p' == Progress(p.rows[newId(row) := AddedRow(j, r, newId(row))], p.added + 1, p.updated, p.skipped)
  }

  lemma RowCases(j: Job, newId: nat -> string, p: Progress, row: nat)
    requires AllWellFormed(j.cs) && ImportRow(j, newId, p, row).Ok?
    ensures RowRecord(j, row).Ok?
    ensures RowDoes(j, newId, p, ImportRow(j, newId, p, row).value, row, RowRecord(j, row).value)
  {
    hide RowRecord, FindMatching, AddedRow, UpdatedRow;
  }

  lemma RowCounts(j: Job, newId: nat -> string, p: Progress, row: nat)
    requires AllWellFormed(j.cs) && ImportRow(j, newId, p, row).Ok?
    ensures var p' := ImportRow(j, newId, p, row).value;
      && p'.added + p'.updated + p'.skipped == p.added + p.updated + p.skipped + 1
      && p.rows.Keys <= p'.rows.Keys && |p'.rows| - p'.added == |p.rows| - p.added
  {
    RowCases(j, newId, p, row);
    hide RowRecord, FindMatching, AddedRow, UpdatedRow, ImportRow;
  }

  /** What is added, updated and passed over is every row, and the table grows by what is added. */
  lemma {:induction false} ImportCounts(j: Job, newId: nat -> string, rows: Rows, n: nat)
    requires AllWellFormed(j.cs) && Imported(j, newId, rows, n).Ok?
    ensures var p := Imported(j, newId, rows, n).value;
      && p.added + p.updated + p.skipped == n
      && rows.Keys <= p.rows.Keys && |p.rows| == |rows| + p.added
  {
    hide ImportRow;
    if n > 0 {
      ImportCounts(j, newId, rows, n - 1);
      RowCounts(j, newId, Imported(j, newId, rows, n - 1).value, n - 1);
    }
  }

  // ─── What is written ───

  function Fields(written: seq<string>): set<string> { set f | f in written }

  lemma {:induction false} ReadFields(j: Job, row: nat, mappings: seq<Mapping>)
    requires Written(j, mappings).Ok? && Read(j, row, mappings).Ok?
    ensures var w, r := Written(j, mappings).value, Read(j, row, mappings).value;
      && r.Keys == Fields(w) && (forall f :: f in w ==> f in j.types)
      && (forall f :: f in w && f in j.types && j.types[f].TextField? ==> r[f].Null? || r[f].StoredText?)
  {
    hide Numbers.NormalizeNumber;
    if mappings != [] {
      ReadFields(j, row, mappings[..|mappings| - 1]);
      var field := FieldOf(j, mappings[|mappings| - 1]);
      var w := Written(j, mappings[..|mappings| - 1]).value;
      assert Fields(w + [field]) == Fields(w) + {field};
    }
  }

  /** The job can be run: its options are in order, and so are its calculations. */
  ghost predicate Ready(j: Job) {
    && Checked(j).Ok? && InOrder(j.cs) && AllWellFormed(j.cs)
    && (forall f :: f in FieldsOf(j.cs) ==> f in j.types && f != "id") && "id" in j.types
  }

  lemma {:induction false} ParsedAreColumns(h: Host, columns: seq<Calculations.Column>)
    ensures forall f :: f in ParsedColumns(h, columns) ==> exists i :: 0 <= i < |columns| && columns[i].name == f
  {
    if columns != [] {
      var front := columns[..|columns| - 1];
      ParsedAreColumns(h, front);
      forall f | f in ParsedColumns(h, columns) ensures exists i :: 0 <= i < |columns| && columns[i].name == f {
        if f in ParsedColumns(h, front) {
          var i :| 0 <= i < |front| && front[i].name == f;
          assert columns[i].name == f;
        } else {
          assert columns[|columns| - 1].name == f;
        }
      }
    }
  }

  /** An import that went through was of a job that can be run. */
  lemma ImportedIsReady(j: Job, columns: seq<Calculations.Column>, newId: nat -> string, rows: Rows)
    requires "id" in j.types
    requires forall i :: 0 <= i < |columns| ==> columns[i].name in j.types && columns[i].name != "id"
    requires ImportOutcome(j, columns, newId, rows).Ok?
    ensures TableCalculationsOf(j.h, columns).Ok?
    ensures var job := j.(cs := TableCalculationsOf(j.h, columns).value);
      Ready(job) && Outcome(job, newId, rows) == ImportOutcome(j, columns, newId, rows)
  {
    hide TableCalculationsOf, Imported, Checked, CheckedOptions, ParsedColumns, InOrder;
    TableCalculationsInOrder(j.h, columns);
    ParsedAreColumns(j.h, columns);
    OrderedWellFormed(TableCalculationsOf(j.h, columns).value);
  }

  /** The record of a row has the mapped fields and the calculated ones. */
  lemma RecordFields(j: Job, row: nat)
    requires Ready(j) && RowRecord(j, row).Ok?
    ensures var w, r := Checked(j).value, RowRecord(j, row).value;
      && r.Keys == Fields(w) + FieldsOf(j.cs) && r.Keys <= j.types.Keys
      && (forall f :: f in w && f in j.types && j.types[f].TextField? ==> r[f].Null? || r[f].StoredText?)
      && Consistent(j.h, j.cs, r)
  {
    var base := Read(j, row, j.opts.mappings).value;
    ReadFields(j, row, j.opts.mappings);
    ApplyHolds(j.h, j.cs, 0, base);
    var r, w := RowRecord(j, row).value, Checked(j).value;
    assert w == Written(j, j.opts.mappings).value;
    assert forall f :: f in w ==> f !in FieldsOf(j.cs);
    hide Read, Written, ApplyFrom, InOrder, Coerce;
    forall f ensures f in r <==> f in Fields(w) || f in FieldsOf(j.cs) {
      if f in FieldsOf(j.cs) { CalculatedIn(j, r, f); } else { SameBaseReads(r, base, FieldsOf(j.cs), f); }
    }
    forall f | f in w ensures ReadField(r, f) == ReadField(base, f) { SameBaseReads(r, base, FieldsOf(j.cs), f); }
  }

  lemma CalculatedIn(j: Job, r: Record, f: string)
    requires AllWellFormed(j.cs) && Consistent(j.h, j.cs, r) && f in FieldsOf(j.cs)
    ensures f in r
  {
    var i :| 0 <= i < |j.cs| && j.cs[i].field == f;
    assert Holds(j.h, j.cs[i], r);
  }

  // ─── Importing the same file again ───

  /** Records are matched on text fields, and not on the id, which an import never writes. */
  predicate MatchesText(j: Job) {
    && j.opts.action.UpdateMatching? && j.opts.addUnmatched
    && forall f :: f in j.opts.matchFields ==> f in j.types && j.types[f].TextField? && f != "id"
  }

  /** The engine casts text to itself and chooses one of the rows it is given. */
  ghost predicate FairEngine(j: Job) {
    && (forall t: string :: j.asText(StoredText(t)) == t)
    && forall rows: Rows, s: set<string> :: s != {} ==> j.pick(rows, s) in s
  }

  /** A record's key is text, something in every field. */
  predicate TextKey(j: Job, r: Record) {
    forall f :: f in j.opts.matchFields ==> f in r && r[f].StoredText? && r[f].text != ""
  }

  lemma {:induction false} MatchFieldsWritten(j: Job, fields: seq<string>, written: seq<string>)
    requires MatchFieldError(j, fields, written).None?
    ensures forall f :: f in fields ==> f in written
  {
    if fields != [] { MatchFieldsWritten(j, fields[1..], written); }
  }

  lemma KeyIsText(j: Job, row: nat)
    requires Ready(j) && MatchesText(j) && RowRecord(j, row).Ok? && !EmptyKey(j, RowRecord(j, row).value)
    ensures TextKey(j, RowRecord(j, row).value)
  {
    RecordFields(j, row);
    MatchFieldsWritten(j, j.opts.matchFields, Checked(j).value);
    var r := RowRecord(j, row).value;
    hide RowRecord, Checked, InOrder;
    forall f | f in j.opts.matchFields ensures f in r && r[f].StoredText? && r[f].text != "" {
      assert Printed(j, ReadField(r, f)) != "";
    }
  }

  /** An update changes a key in letter case at most: who matched the record matches it still. */
  lemma UpdateKeepsMatch(j: Job, row: Record, r: Record, other: Record)
    requires FairEngine(j) && MatchesText(j) && TextKey(j, r) && RowMatches(j, row, r) && RowMatches(j, row, other)
    ensures RowMatches(j, UpdatedRow(row, r), other)
  {
    forall f | f in j.opts.matchFields ensures FieldMatches(j, UpdatedRow(row, r), other, f) {
      assert FieldMatches(j, row, r, f) && FieldMatches(j, row, other, f);
      assert ReadField(UpdatedRow(row, r), f) == r[f];
    }
  }

  ghost predicate HasMatch(j: Job, rows: Rows, r: Record) { exists id :: id in rows && RowMatches(j, rows[id], r) }

  lemma FoundIsMatch(j: Job, rows: Rows, r: Record)
    requires FairEngine(j) && "" !in rows && !EmptyKey(j, r)
    ensures HasMatch(j, rows, r) <==> FindMatching(j, rows, r) != ""
    ensures HasMatch(j, rows, r) ==>
      FindMatching(j, rows, r) in rows && RowMatches(j, rows[FindMatching(j, rows, r)], r)
  {
    hide RowMatches, EmptyKey;
    if id :| id in rows && RowMatches(j, rows[id], r) { assert id in Matching(j, rows, r); }
    if Matching(j, rows, r) != {} { assert j.pick(rows, Matching(j, rows, r)) in Matching(j, rows, r); }
  }

  ghost predicate NewIds(newId: nat -> string) { forall i :: newId(i) != "" }

  lemma AddingKeeps(j: Job, rows: Rows, id: string, r: Record, other: Record)
    requires FairEngine(j) && MatchesText(j) && id !in rows
    ensures var rows' := rows[id := AddedRow(j, r, id)];
      && (HasMatch(j, rows, other) ==> HasMatch(j, rows', other)) && (TextKey(j, r) ==> HasMatch(j, rows', r))
  {
    var rows' := rows[id := AddedRow(j, r, id)];
    if TextKey(j, r) {
      forall f | f in j.opts.matchFields ensures FieldMatches(j, rows'[id], r, f) {
        assert ReadField(rows'[id], f) == r[f];
      }
      assert RowMatches(j, rows'[id], r);
    }
    hide RowMatches, AddedRow, TextKey, FairEngine, MatchesText;
    if HasMatch(j, rows, other) {
      var at :| at in rows && RowMatches(j, rows[at], other);
      assert RowMatches(j, rows'[at], other);
    }
  }

  lemma UpdatingKeeps(j: Job, rows: Rows, id: string, r: Record, other: Record)
    requires FairEngine(j) && MatchesText(j) && TextKey(j, r) && id in rows && RowMatches(j, rows[id], r)
    ensures var rows' := rows[id := UpdatedRow(rows[id], r)];
      (HasMatch(j, rows, other) ==> HasMatch(j, rows', other)) && HasMatch(j, rows', r)
  {
    hide RowMatches, UpdatedRow, TextKey, FairEngine, MatchesText;
    var rows' := rows[id := UpdatedRow(rows[id], r)];
    UpdateKeepsMatch(j, rows[id], r, r);
    assert RowMatches(j, rows'[id], r);
    if HasMatch(j, rows, other) {
      var at :| at in rows && RowMatches(j, rows[at], other);
      if at == id { UpdateKeepsMatch(j, rows[id], r, other); }
      assert RowMatches(j, rows'[at], other);
    }
  }

  /** A row is added if its key is empty or matches no record, and else updates one. */
  ghost predicate Adds(j: Job, rows: Rows, r: Record) { EmptyKey(j, r) || !HasMatch(j, rows, r) }

  /** What a row does where unmatched rows are added. */
  lemma RowAddsOrUpdates(j: Job, newId: nat -> string, p: Progress, row: nat)
    requires AllWellFormed(j.cs) && MatchesText(j) && FairEngine(j) && "" !in p.rows
    requires ImportRow(j, newId, p, row).Ok? && RowRecord(j, row).Ok?
    ensures var p', r := ImportRow(j, newId, p, row).value, RowRecord(j, row).value;
      if Adds(j, p.rows, r) then
        newId(row) !in p.rows
        && p' == Progress(p.rows[newId(row) := AddedRow(j, r, newId(row))], p.added + 1, p.updated, p.skipped)
      else
        var id := FindMatching(j, p.rows, r);
        id in p.rows && RowMatches(j, p.rows[id], r)
        && p' == Progress(p.rows[id := UpdatedRow(p.rows[id], r)], p.added, p.updated + 1, p.skipped)
  {
    RowCases(j, newId, p, row);
    var r := RowRecord(j, row).value;
    if !EmptyKey(j, r) { FoundIsMatch(j, p.rows, r); }
    hide ImportRow, RowRecord, RowMatches, EmptyKey, AddedRow, UpdatedRow, HasMatch, Matching;
  }

  /** What one row does to the matches of records, its own among them. */
  lemma RowKeepsMatches(j: Job, newId: nat -> string, p: Progress, row: nat, other: Record)
    requires Ready(j) && MatchesText(j) && FairEngine(j) && NewIds(newId) && "" !in p.rows
    requires RowRecord(j, row).Ok? && ImportRow(j, newId, p, row).Ok?
    ensures var p', r := ImportRow(j, newId, p, row).value, RowRecord(j, row).value;
      && "" !in p'.rows
      && (HasMatch(j, p.rows, other) ==> HasMatch(j, p'.rows, other))
      && (!EmptyKey(j, r) ==> HasMatch(j, p'.rows, r))
      && (if Adds(j, p.rows, r) then p' == Progress(p'.rows, p.added + 1, p.updated, p.skipped)
          else p' == Progress(p'.rows, p.added, p.updated + 1, p.skipped))
  {
    RowAddsOrUpdates(j, newId, p, row);
    var r := RowRecord(j, row).value;
    if !EmptyKey(j, r) { KeyIsText(j, row); }
    assert newId(row) != "" && (EmptyKey(j, r) ==> Adds(j, p.rows, r));
    hide *;
    if Adds(j, p.rows, r) {
      AddingKeeps(j, p.rows, newId(row), r, other);
    } else {
      UpdatingKeeps(j, p.rows, FindMatching(j, p.rows, r), r, other);
    }
  }

  /** The row, if it has a key, has a record that matches it. */
  ghost predicate Matched(j: Job, rows: Rows, row: nat)
    requires AllWellFormed(j.cs)
  {
    RowRecord(j, row).Ok? && !EmptyKey(j, RowRecord(j, row).value) ==> HasMatch(j, rows, RowRecord(j, row).value)
  }

  ghost predicate AllMatched(j: Job, rows: Rows, n: nat)
    requires AllWellFormed(j.cs)
  {
    forall i: nat :: i < n ==> Matched(j, rows, i)
  }

  /** The rows up to `n` with an empty key. */
  function EmptyKeys(j: Job, n: nat): nat
    requires AllWellFormed(j.cs)
  {
    if n == 0 then 0
    else EmptyKeys(j, n - 1) + if RowRecord(j, n - 1).Ok? && EmptyKey(j, RowRecord(j, n - 1).value) then 1 else 0
  }

  lemma RowKeepsMatched(j: Job, newId: nat -> string, p: Progress, row: nat, i: nat)
    requires Ready(j) && MatchesText(j) && FairEngine(j) && NewIds(newId) && "" !in p.rows
    requires ImportRow(j, newId, p, row).Ok?
    ensures var p' := ImportRow(j, newId, p, row).value;
      "" !in p'.rows && (Matched(j, p.rows, i) || i == row ==> Matched(j, p'.rows, i))
  {
    RowCases(j, newId, p, row);
    hide ImportRow, RowRecord, EmptyKey, HasMatch, RowDoes, Ready, MatchesText, FairEngine, Adds, NewIds;
    if RowRecord(j, i).Ok? { RowKeepsMatches(j, newId, p, row, RowRecord(j, i).value); }
    else { RowKeepsMatches(j, newId, p, row, map[]); }
  }

  lemma RowKeepsAll(j: Job, newId: nat -> string, p: Progress, row: nat, n: nat)
    requires AllWellFormed(j.cs)
    requires Ready(j) && MatchesText(j) && FairEngine(j) && NewIds(newId) && "" !in p.rows
    requires ImportRow(j, newId, p, row).Ok? && AllMatched(j, p.rows, n)
    ensures var p' := ImportRow(j, newId, p, row).value;
      && "" !in p'.rows && AllMatched(j, p'.rows, n) && (row == n ==> AllMatched(j, p'.rows, n + 1))
  {
    hide ImportRow, Matched, Ready, MatchesText, FairEngine, NewIds;
    var p' := ImportRow(j, newId, p, row).value;
    RowKeepsMatched(j, newId, p, row, row);
    forall i: nat | i < n ensures Matched(j, p'.rows, i) { RowKeepsMatched(j, newId, p, row, i); }
  }

  lemma {:induction false} FirstImport(j: Job, newId: nat -> string, rows: Rows, n: nat)
    requires AllWellFormed(j.cs)
    requires Ready(j) && MatchesText(j) && FairEngine(j) && NewIds(newId) && "" !in rows
    requires Imported(j, newId, rows, n).Ok?
    ensures var p := Imported(j, newId, rows, n).value; "" !in p.rows && AllMatched(j, p.rows, n)
  {
    hide ImportRow, RowRecord, EmptyKey, HasMatch, Ready, MatchesText, FairEngine;
    if n > 0 {
      FirstImport(j, newId, rows, n - 1);
      RowKeepsAll(j, newId, Imported(j, newId, rows, n - 1).value, n - 1, n - 1);
    }
  }

  lemma {:induction false} SecondImport(j: Job, newId: nat -> string, rows: Rows, n: nat, all: nat)
    requires AllWellFormed(j.cs)
    requires Ready(j) && MatchesText(j) && FairEngine(j) && NewIds(newId) && "" !in rows && n <= all
    requires AllMatched(j, rows, all) && Imported(j, newId, rows, n).Ok?
    ensures var p := Imported(j, newId, rows, n).value;
      && "" !in p.rows && AllMatched(j, p.rows, all)
      && p.added == EmptyKeys(j, n) && p.skipped == 0 && p.updated == n - EmptyKeys(j, n)
  {
    hide ImportRow, RowRecord, EmptyKey, HasMatch, Ready, MatchesText, FairEngine, Matching;
    if n > 0 {
      SecondImport(j, newId, rows, n - 1, all);
      var p := Imported(j, newId, rows, n - 1).value;
      RowKeepsAll(j, newId, p, n - 1, all);
      RowCases(j, newId, p, n - 1);
      var r := RowRecord(j, n - 1).value;
      RowKeepsMatches(j, newId, p, n - 1, r);
      assert Matched(j, p.rows, n - 1);
      hide AllMatched, RowDoes, Adds;
    }
  }

  /**
   * Importing a file a second time, matching on text fields other than the id and adding what
   * is not matched, adds only the rows whose key is empty: every other row updates a record.
   */
  lemma RepeatAddsEmptyKeys(j: Job, newId: nat -> string, again: nat -> string, rows: Rows)
    requires AllWellFormed(j.cs)
    requires Ready(j) && MatchesText(j) && FairEngine(j) && NewIds(newId) && NewIds(again) && "" !in rows
    requires Outcome(j, newId, rows).Ok? && Outcome(j, again, Outcome(j, newId, rows).value.1).Ok?
    ensures var n := |j.source.rows|;
      var report := Outcome(j, again, Outcome(j, newId, rows).value.1).value.0;
      report.added == EmptyKeys(j, n) && report.skipped == 0 && report.updated == n - EmptyKeys(j, n)
  {
    hide Imported, EmptyKeys, Ready, MatchesText, FairEngine, NewIds, Checked, AllMatched;
    var n := |j.source.rows|;
    FirstImport(j, newId, rows, n);
    SecondImport(j, again, Imported(j, newId, rows, n).value.rows, n, n);
  }

  /** Matched on the id, a row that finds no record is added under an id of its own, and
      still finds none: it is added again every time. */
  lemma IdKeyNeverMatches(j: Job, newId: nat -> string, p: Progress, row: nat)
    requires Ready(j) && j.opts.action.UpdateMatching? && j.opts.addUnmatched && j.opts.matchFields == ["id"]
    requires (forall t: string :: j.asText(StoredText(t)) == t)
    requires ImportRow(j, newId, p, row).Ok? && RowRecord(j, row).Ok?
    requires Matching(j, p.rows, RowRecord(j, row).value) == {}
    requires j.lower(newId(row)) != j.lower(Printed(j, ReadField(RowRecord(j, row).value, "id")))
    ensures var p' := ImportRow(j, newId, p, row).value;
      p'.added == p.added + 1 && Matching(j, p'.rows, RowRecord(j, row).value) == {}
  {
    RowCases(j, newId, p, row);
    var r, p' := RowRecord(j, row).value, ImportRow(j, newId, p, row).value;
    assert FindMatching(j, p.rows, r) == "";
    hide RowRecord, ImportRow, Checked, InOrder;
    assert "id" in j.opts.matchFields && ReadField(AddedRow(j, r, newId(row)), "id") == StoredText(newId(row));
    forall id | id in p'.rows ensures !RowMatches(j, p'.rows[id], r) {
      if id == newId(row) { assert !FieldMatches(j, p'.rows[id], r, "id"); }
      else { assert id !in Matching(j, p.rows, r); }
    }
  }

  // ─── Imports and calculations ───

  /** Every field the formulas read, other than each other, has a column. */
  predicate Covered(j: Job, written: seq<string>) {
    forall i :: 0 <= i < |j.cs| ==>
      forall f :: f in Formula.Fields(j.cs[i].expr) && f !in FieldsOf(j.cs) ==> f in written
  }

  ghost predicate AllConsistent(j: Job, rows: Rows)
    requires AllWellFormed(j.cs)
  {
    forall id :: id in rows ==> Consistent(j.h, j.cs, rows[id])
  }

  /** A record that has all the formulas read and write as this one has it satisfies them too. */
  lemma SameFormulas(j: Job, r: Record, row: Record)
    requires AllWellFormed(j.cs) && Consistent(j.h, j.cs, r)
    requires forall f :: f in FieldsOf(j.cs) ==> f in r && f in row && row[f] == r[f]
    requires forall i, f :: 0 <= i < |j.cs| && f in Formula.Fields(j.cs[i].expr) ==>
      ReadField(row, f) == ReadField(r, f)
    ensures Consistent(j.h, j.cs, row)
  {
    forall i | 0 <= i < |j.cs| ensures Holds(j.h, j.cs[i], row) {
      assert Holds(j.h, j.cs[i], r);
      assert j.cs[i].field in FieldsOf(j.cs);
      EvaluateFrame(j.h, j.cs[i].expr, r, row, j.cs[i].result);
    }
  }

  /** A matching update that covers what the formulas read leaves them satisfied, whatever was there. */
  lemma UpdateKeepsFormulas(j: Job, row: nat, current: Record)
    requires Ready(j) && RowRecord(j, row).Ok? && NoneReadsId(j.cs) && Covered(j, Checked(j).value)
    ensures Consistent(j.h, j.cs, UpdatedRow(current, RowRecord(j, row).value))
  {
    RecordFields(j, row);
    var r := RowRecord(j, row).value;
    hide RowRecord, Checked, InOrder, Consistent;
    var after := UpdatedRow(current, r);
    forall i, f | 0 <= i < |j.cs| && f in Formula.Fields(j.cs[i].expr) ensures ReadField(after, f) == ReadField(r, f) {
      assert f in r && f != "id";
    }
    SameFormulas(j, r, after);
  }

  /** An added record satisfies its formulas, whatever columns there are: a field without one is
      as empty in the record as it was to the formulas. Only the id comes after they are computed. */
  lemma AddKeepsFormulas(j: Job, row: nat, id: string)
    requires Ready(j) && RowRecord(j, row).Ok? && NoneReadsId(j.cs)
    ensures Consistent(j.h, j.cs, AddedRow(j, RowRecord(j, row).value, id))
  {
    RecordFields(j, row);
    var r := RowRecord(j, row).value;
    hide RowRecord, Checked, InOrder, Consistent;
    var after := AddedRow(j, r, id);
    forall i, f | 0 <= i < |j.cs| && f in Formula.Fields(j.cs[i].expr) ensures ReadField(after, f) == ReadField(r, f) {
      assert f != "id";
    }
    SameFormulas(j, r, after);
  }

  /** Where no formula reads the id, an import leaves every formula satisfied in every record,
      provided that, if it updates, it covers what the formulas read. */
  lemma {:induction false} ImportKeepsFormulas(j: Job, newId: nat -> string, rows: Rows, n: nat)
    requires Ready(j) && NoneReadsId(j.cs) && AllConsistent(j, rows)
    requires j.opts.action.UpdateMatching? ==> Covered(j, Checked(j).value)
    requires Imported(j, newId, rows, n).Ok?
    ensures AllConsistent(j, Imported(j, newId, rows, n).value.rows)
  {
    hide ImportRow, RowRecord, Checked, InOrder, Covered, NoneReadsId, Consistent, AddedRow, UpdatedRow, FindMatching;
    if n > 0 {
      ImportKeepsFormulas(j, newId, rows, n - 1);
      var p := Imported(j, newId, rows, n - 1).value;
      RowCases(j, newId, p, n - 1);
      AddKeepsFormulas(j, n - 1, newId(n - 1));
      var id := FindMatching(j, p.rows, RowRecord(j, n - 1).value);
      if j.opts.action.UpdateMatching? && id in p.rows { UpdateKeepsFormulas(j, n - 1, p.rows[id]); }
    }
  }

  /** The only formula of the table is the field `f`. */
  predicate OneField(j: Job, f: string) { |j.cs| == 1 && j.cs[0].expr.FieldNode? && j.cs[0].expr.name == f }

  /** What the formula that is one field comes to over a record. */
  function FieldAnswer(j: Job, r: Record, f: string): Result<Stored, Formula.Error>
    requires OneField(j, f)
  {
    Store(j.h, FromStored(ReadField(r, f)), j.cs[0].expr.at, j.cs[0].result)
  }

  lemma OneFieldRow(j: Job, f: string, row: nat)
    requires Ready(j) && OneField(j, f) && RowRecord(j, row).Ok?
    ensures var r := RowRecord(j, row).value;
      && AllWellFormed(j.cs) && j.cs[0].field in r && FieldAnswer(j, r, f) == Ok(r[j.cs[0].field])
      && f != j.cs[0].field && j.cs[0].field != "id"
      && (f in r <==> f in Checked(j).value)
  {
    RecordFields(j, row);
    var r := RowRecord(j, row).value;
    hide RowRecord, Checked;
    assert Holds(j.h, j.cs[0], r);
    assert Formula.Fields(j.cs[0].expr) == {f} && FieldsOf(j.cs) == {j.cs[0].field};
    NotReadBefore(j.cs, 0, 0);
  }

  /** The cover is needed. Where the only formula is a field, it holds after an update of a record
      exactly if the field has a column and is not the id, or comes to the same in the record as
      in the row. */
  lemma UpdateHoldsIff(j: Job, f: string, row: nat, current: Record)
    requires Ready(j) && OneField(j, f) && RowRecord(j, row).Ok?
    ensures var r := RowRecord(j, row).value;
      Consistent(j.h, j.cs, UpdatedRow(current, r)) <==>
        (f in Checked(j).value && f != "id") || FieldAnswer(j, current, f) == FieldAnswer(j, r, f)
  {
    OneFieldRow(j, f, row);
    var r := RowRecord(j, row).value;
    hide RowRecord, Checked, InOrder;
    var after := UpdatedRow(current, r);
    assert Consistent(j.h, j.cs, after) <==> Holds(j.h, j.cs[0], after);
  }

  /** Where the field has no column, that is exactly if there is nothing in it. */
  lemma UncoveredBreaks(j: Job, f: string, row: nat, current: Record)
    requires Ready(j) && OneField(j, f) && RowRecord(j, row).Ok? && f !in Checked(j).value && f != "id"
    ensures Consistent(j.h, j.cs, UpdatedRow(current, RowRecord(j, row).value))
      <==> FromStored(ReadField(current, f)).Empty?
  {
    OneFieldRow(j, f, row);
    UpdateHoldsIff(j, f, row, current);
    hide RowRecord, Checked, InOrder, Consistent;
  }

  /** No formula may read the id. The one that is the id holds in an added record exactly if the
      file gave the record the very id it was added under, and never where no column goes to the id. */
  lemma AddHoldsIff(j: Job, row: nat, id: string)
    requires Ready(j) && OneField(j, "id") && j.cs[0].result.AsText? && RowRecord(j, row).Ok? && id != ""
    ensures var r := RowRecord(j, row).value;
      && (Consistent(j.h, j.cs, AddedRow(j, r, id)) <==> FieldAnswer(j, r, "id") == Ok(StoredText(id)))
      && ("id" !in Checked(j).value ==> !Consistent(j.h, j.cs, AddedRow(j, r, id)))
  {
    OneFieldRow(j, "id", row);
    RecordFields(j, row);
    var r := RowRecord(j, row).value;
    hide RowRecord, Checked, InOrder;
    var after := AddedRow(j, r, id);
    assert Consistent(j.h, j.cs, after) <==> Holds(j.h, j.cs[0], after);
  }

  // ─── What an import leaves alone ───

  predicate SameApart(j: Job, written: seq<string>, a: Record, b: Record) {
    forall f :: f in a && (f == "id" || (f !in written && f !in FieldsOf(j.cs))) ==> f in b && b[f] == a[f]
  }

  /** Records only gain: none goes, and in none does a field change that has no column and no formula. */
  ghost predicate LeavesAlone(j: Job, written: seq<string>, rows: Rows, rows': Rows) {
    forall id :: id in rows ==> (id in rows' && SameApart(j, written, rows[id], rows'[id]))
  }

  lemma RowLeavesAlone(j: Job, newId: nat -> string, p: Progress, row: nat)
    requires Ready(j) && AllWellFormed(j.cs) && ImportRow(j, newId, p, row).Ok?
    ensures LeavesAlone(j, Checked(j).value, p.rows, ImportRow(j, newId, p, row).value.rows)
  {
    RowCases(j, newId, p, row);
    RecordFields(j, row);
    hide ImportRow, RowRecord, Checked, Consistent, InOrder, FindMatching, AddedRow;
  }

  lemma ImportedUnfolds(j: Job, newId: nat -> string, rows: Rows, n: nat)
    requires AllWellFormed(j.cs) && n > 0 && Imported(j, newId, rows, n).Ok?
    ensures Imported(j, newId, rows, n - 1).Ok?
    ensures ImportRow(j, newId, Imported(j, newId, rows, n - 1).value, n - 1) == Imported(j, newId, rows, n)
  {
    hide ImportRow;
  }

  lemma NothingImported(j: Job, newId: nat -> string, rows: Rows, written: seq<string>)
    requires AllWellFormed(j.cs)
    ensures Imported(j, newId, rows, 0) == Ok(Progress(rows, 0, 0, 0)) && LeavesAlone(j, written, rows, rows)
  {
  }

  /** An import takes no record away and touches no field without a column or a formula, and no id. */
  lemma {:induction false} ImportLeavesAlone(j: Job, newId: nat -> string, rows: Rows, n: nat)
    requires AllWellFormed(j.cs)
    requires Checked(j).Ok? && Ready(j) && Imported(j, newId, rows, n).Ok?
    ensures LeavesAlone(j, Checked(j).value, rows, Imported(j, newId, rows, n).value.rows)
  {
    hide *;
    var written := Checked(j).value;
    if n == 0 {
      NothingImported(j, newId, rows, written);
    } else {
      ImportedUnfolds(j, newId, rows, n);
      ImportLeavesAlone(j, newId, rows, n - 1);
      var p := Imported(j, newId, rows, n - 1).value;
      RowLeavesAlone(j, newId, p, n - 1);
      LeavesAloneTwice(j, written, rows, p.rows, Imported(j, newId, rows, n).value.rows);
    }
  }

  lemma LeavesAloneTwice(j: Job, written: seq<string>, a: Rows, b: Rows, c: Rows)
    requires LeavesAlone(j, written, a, b) && LeavesAlone(j, written, b, c)
    ensures LeavesAlone(j, written, a, c)
  {
  }
}
