/** The methods of an import, which fill in records and a report row by row. */
module ImportMethods {
  import opened Common
  import opened Evaluator
  import opened Calculations
  import opened Import

  lemma {:induction false} WrittenStops(j: Job, mappings: seq<Mapping>, n: nat)
    requires n <= |mappings| && Written(j, mappings[..n]).Err?
    ensures Written(j, mappings) == Written(j, mappings[..n])
  {
    if n < |mappings| {
      assert mappings[..|mappings| - 1][..n] == mappings[..n];
      WrittenStops(j, mappings[..|mappings| - 1], n);
    } else {
      assert mappings[..n] == mappings;
    }
  }

  lemma {:induction false} ReadStops(j: Job, row: nat, mappings: seq<Mapping>, n: nat)
    requires n <= |mappings| && Read(j, row, mappings[..n]).Err?
    ensures Read(j, row, mappings) == Read(j, row, mappings[..n])
  {
    hide Coerce;
    if n < |mappings| {
      assert mappings[..|mappings| - 1][..n] == mappings[..n];
      ReadStops(j, row, mappings[..|mappings| - 1], n);
    } else {
      assert mappings[..n] == mappings;
    }
  }

  lemma {:induction false} ImportStops(j: Job, newId: nat -> string, rows: Rows, n: nat, m: nat)
    requires n <= m && AllWellFormed(j.cs) && Imported(j, newId, rows, n).Err?
    ensures Imported(j, newId, rows, m) == Imported(j, newId, rows, n)
  {
    hide ImportRow;
    if n < m { ImportStops(j, newId, rows, n, m - 1); }
  }

  /** What one more mapping comes to, after the fields written so far. */
  function MappingError(j: Job, m: Mapping, written: seq<string>): Option<ImportError> {
    var field := FieldOf(j, m);
    if field == "" then None
    else if m.column < 0 || m.column >= |j.source.columns| then Some(NoSuchColumn)
    else if field !in j.types then Some(NoSuchField)
    else if field in written then Some(FieldTwice)
    else if j.types[field].SummaryField? then Some(SummaryColumn)
    else None
  }

  lemma WrittenNext(j: Job, mappings: seq<Mapping>, i: nat, written: seq<string>)
    requires i < |mappings| && Written(j, mappings[..i]) == Ok(written)
    ensures var bad, field := MappingError(j, mappings[i], written), FieldOf(j, mappings[i]);
      Written(j, mappings[..i + 1]) ==
        if bad.Some? then Err(bad.value) else Ok(if field == "" then written else written + [field])
  {
    TakeNext(mappings, i);
    hide FieldOf;
  }

  /** The columns of checkImportOptions. */
  method CheckMappings(j: Job) returns (r: Result<seq<string>, ImportError>)
    ensures r == Written(j, j.opts.mappings)
  {
    var written: seq<string> := [];
    var mappings := j.opts.mappings;
    assert mappings[..0] == [] && mappings[..|mappings|] == mappings;
    for i := 0 to |mappings|
      invariant Written(j, mappings[..i]) == Ok(written)
    {
      hide Written, FieldOf;
      WrittenNext(j, mappings, i, written);
      var field := FieldOf(j, mappings[i]);
      if field == "" {
        continue;
      }
      if mappings[i].column < 0 || mappings[i].column >= |j.source.columns| {
        WrittenStops(j, mappings, i + 1);
        return Err(NoSuchColumn);
      }
      if field !in j.types {
        WrittenStops(j, mappings, i + 1);
        return Err(NoSuchField);
      }
      if field in written {
        WrittenStops(j, mappings, i + 1);
        return Err(FieldTwice);
      }
      if j.types[field].SummaryField? {
        WrittenStops(j, mappings, i + 1);
        return Err(SummaryColumn);
      }
      written := written + [field];
    }
    return Ok(written);
  }

  /** The match fields of checkImportOptions. */
  method CheckMatchFields(j: Job, written: seq<string>) returns (e: Option<ImportError>)
    ensures e == MatchFieldError(j, j.opts.matchFields, written)
  {
    var fields := j.opts.matchFields;
    for i := 0 to |fields|
      invariant MatchFieldError(j, fields, written) == MatchFieldError(j, fields[i..], written)
    {
      assert fields[i..][1..] == fields[i + 1..];
      if fields[i] !in j.types {
        return Some(UnknownMatchField);
      }
      if fields[i] !in written {
        return Some(UnmappedMatchField);
      }
    }
    return None;
  }

  /** checkImportOptions. */
  method CheckImportOptions(j: Job) returns (r: Result<seq<string>, ImportError>)
    ensures r == CheckedOptions(j)
  {
    hide Written, MatchFieldError;
    if j.opts.action.OtherAction? {
      return Err(BadAction);
    }
    var mapped := CheckMappings(j);
    if mapped.Err? {
      return mapped;
    }
    var written := mapped.value;
    if written == [] {
      return Err(NothingMapped);
    }
    if j.opts.action.UpdateMatching? {
      if j.opts.matchFields == [] {
        return Err(NoMatchField);
      }
      var bad := CheckMatchFields(j, written);
      if bad.Some? {
        return Err(bad.value);
      }
    }
    return Ok(written);
  }

  /** A calculation field is not written by a column. */
  method CheckCalculated(j: Job, written: seq<string>) returns (ok: bool)
    requires CheckedOptions(j) == Ok(written)
    ensures Checked(j) == if ok then Ok(written) else Err(CalculatedField)
  {
    hide CheckedOptions, FieldsOf;
    FieldsOfNone(j.cs[..0]);
    var calculated: set<string> := {};
    for i := 0 to |j.cs|
      invariant calculated == FieldsOf(j.cs[..i])
    {
      FieldsOfPrefix(j.cs, i);
      calculated := calculated + {j.cs[i].field};
    }
    assert j.cs[..|j.cs|] == j.cs;
    for i := 0 to |written|
      invariant forall f :: f in written[..i] ==> f !in FieldsOf(j.cs)
    {
      if written[i] in calculated {
        return false;
      }
    }
    return true;
  }

  lemma ReadNext(j: Job, row: nat, mappings: seq<Mapping>, i: nat, record: Record)
    requires i < |mappings| && Read(j, row, mappings[..i]) == Ok(record)
    ensures var m, field := mappings[i], FieldOf(j, mappings[i]);
      var value := Coerce(j, TypeOf(j, field), Cell(j.source, row, m.column));
      Read(j, row, mappings[..i + 1]) ==
        if field == "" then Ok(record)
        else if value.None? then Err(BadCell(row, m.column)) else Ok(record[field := value.value])
  {
    TakeNext(mappings, i);
    hide FieldOf, Coerce, TypeOf, Cell;
  }

  /** The mapped cells of a row as a record. */
  method ReadRow(j: Job, row: nat) returns (r: Result<Record, ImportError>)
    ensures r == Read(j, row, j.opts.mappings)
  {
    var record: Record := map[];
    var mappings := j.opts.mappings;
    assert mappings[..0] == [] && mappings[..|mappings|] == mappings;
    for i := 0 to |mappings|
      invariant Read(j, row, mappings[..i]) == Ok(record)
    {
      hide Read, Coerce, FieldOf, TypeOf, Cell;
      ReadNext(j, row, mappings, i, record);
      var field := FieldOf(j, mappings[i]);
      if field == "" {
        continue;
      }
      var value := Coerce(j, TypeOf(j, field), Cell(j.source, row, mappings[i].column));
      if value.None? {
        ReadStops(j, row, mappings, i + 1);
        return Err(BadCell(row, mappings[i].column));
      }
      record := record[field := value.value];
    }
    return Ok(record);
  }

  /** findMatchingRecord. */
  method FindMatchingRecord(j: Job, rows: Rows, r: Record) returns (id: string)
    ensures id == FindMatching(j, rows, r)
  {
    for i := 0 to |j.opts.matchFields|
      invariant forall f :: f in j.opts.matchFields[..i] ==> Printed(j, ReadField(r, f)) != ""
    {
      if Printed(j, ReadField(r, j.opts.matchFields[i])) == "" {
        return "";
      }
    }
    var found := Matching(j, rows, r);
    return if found == {} then "" else j.pick(rows, found);
  }

  class ImportTable {
    var rows: Rows

    constructor (rows: Rows)
      ensures this.rows == rows
    {
      this.rows := rows;
    }

    /** ImportRecords: either every row is imported and reported, or nothing is written. The
        calculations are read after the options are checked; `j` brings none. */
    method ImportRecords(j: Job, columns: seq<Calculations.Column>, newId: nat -> string,
                         commits: bool) returns (r: Result<Report, ImportError>)
      modifies `rows
      ensures var spec := ImportOutcome(j, columns, newId, old(rows));
        && (spec.Ok? && commits ==> r == Ok(spec.value.0) && rows == spec.value.1)
        && (spec.Err? ==> r == Err(spec.error)) && (spec.Ok? && !commits ==> r == Err(NotCommitted))
        && (r.Err? ==> rows == old(rows))
    {
      hide TableCalculationsOf, CheckedOptions, Outcome, AllWellFormed, InOrder;
      var options := CheckImportOptions(j);
      if options.Err? {
        return Err(options.error);
      }
      var loaded := TableCalculations(j.h, columns);
      if loaded.Err? {
        return Err(FormulaRing(loaded.error));
      }
      TableCalculationsInOrder(j.h, columns);
      OrderedWellFormed(loaded.value);
      SameOptions(j, loaded.value);
      r := ImportOrdered(j.(cs := loaded.value), options.value, newId, commits);
    }

    /** The rest of ImportRecords: the check on the calculations, and the transaction. */
    method ImportOrdered(j: Job, written: seq<string>, newId: nat -> string, commits: bool)
      returns (r: Result<Report, ImportError>)
      requires AllWellFormed(j.cs) && CheckedOptions(j) == Ok(written)
      modifies `rows
      ensures var spec := Outcome(j, newId, old(rows));
        && (spec.Ok? && commits ==> r == Ok(spec.value.0) && rows == spec.value.1)
        && (spec.Err? ==> r == Err(spec.error)) && (spec.Ok? && !commits ==> r == Err(NotCommitted))
        && (r.Err? ==> rows == old(rows))
    {
      hide *;
      var allowed := CheckCalculated(j, written);
      OutcomeIs(j, newId, rows);
      if !allowed {
        return Err(CalculatedField);
      }
      var p := Progress(rows, 0, 0, 0);
      for i := 0 to |j.source.rows|
        invariant Imported(j, newId, old(rows), i) == Ok(p)
        invariant rows == old(rows)
      {
        ImportedNext(j, newId, rows, i, p);
        var e := RowResult(j, newId, p.rows, i);
        DoneWithIs(p, e);
        if e.Err? {
          ImportStops(j, newId, rows, i + 1, |j.source.rows|);
          return Err(e.error);
        }
        p := Done(p, e.value);
      }
      if !commits {
        return Err(NotCommitted);
      }
      rows := p.rows;
      return Ok(Report(|j.source.rows|, p.added, p.updated, p.skipped, written));
    }
  }

  /** Whether the options are in order does not depend on the calculations. */
  lemma {:induction false} SameWritten(j: Job, cs: seq<Calculation>, mappings: seq<Mapping>)
    ensures Written(j.(cs := cs), mappings) == Written(j, mappings)
  {
    if mappings != [] { SameWritten(j, cs, mappings[..|mappings| - 1]); }
  }

  lemma {:induction false} SameMatchFields(j: Job, cs: seq<Calculation>, fields: seq<string>, written: seq<string>)
    ensures MatchFieldError(j.(cs := cs), fields, written) == MatchFieldError(j, fields, written)
  {
    if fields != [] { SameMatchFields(j, cs, fields[1..], written); }
  }

  lemma SameOptions(j: Job, cs: seq<Calculation>)
    ensures CheckedOptions(j.(cs := cs)) == CheckedOptions(j)
  {
    hide Written, MatchFieldError;
    SameWritten(j, cs, j.opts.mappings);
    if Written(j, j.opts.mappings).Ok? {
      SameMatchFields(j, cs, j.opts.matchFields, Written(j, j.opts.mappings).value);
    }
  }

  lemma OutcomeIs(j: Job, newId: nat -> string, rows: Rows)
    requires AllWellFormed(j.cs)
    ensures Imported(j, newId, rows, 0) == Ok(Progress(rows, 0, 0, 0))
    ensures var all := Imported(j, newId, rows, |j.source.rows|);
      Outcome(j, newId, rows) ==
        if Checked(j).Err? then Err(Checked(j).error)
        else if all.Err? then Err(all.error)
        else
          var p := all.value;
          Ok((Report(|j.source.rows|, p.added, p.updated, p.skipped, Checked(j).value), p.rows))
  {
    hide Checked, ImportRow;
  }

  lemma ImportedNext(j: Job, newId: nat -> string, rows: Rows, i: nat, p: Progress)
    requires AllWellFormed(j.cs) && Imported(j, newId, rows, i) == Ok(p)
    ensures Imported(j, newId, rows, i + 1) == ImportRow(j, newId, p, i)
  {
    hide ImportRow;
  }

  lemma DoneWithIs(p: Progress, r: Result<Doing, ImportError>)
    ensures DoneWith(p, r) == if r.Err? then Err(r.error) else Ok(Done(p, r.value))
  {
  }

  /** What a row comes to. */
  datatype Doing = Updates(id: string, row: Record) | Adds(id: string, row: Record) | Skips

  function Done(p: Progress, d: Doing): Progress {
    match d
    case Updates(id, row) => p.(rows := p.rows[id := row], updated := p.updated + 1)
    case Adds(id, row) => p.(rows := p.rows[id := row], added := p.added + 1)
    case Skips => p.(skipped := p.skipped + 1)
  }

  function DoneWith(p: Progress, r: Result<Doing, ImportError>): Result<Progress, ImportError> {
    match r
    case Err(e) => Err(e)
    case Ok(d) => Ok(Done(p, d))
  }

  /** The body of the loop over the rows, inside the transaction. */
  method RowResult(j: Job, newId: nat -> string, tx: Rows, row: nat) returns (r: Result<Doing, ImportError>)
    requires AllWellFormed(j.cs)
    ensures forall p: Progress :: p.rows == tx ==> ImportRow(j, newId, p, row) == DoneWith(p, r)
  {
    hide ApplyFrom, Read, FindMatching, AddedRow, UpdatedRow, AllWellFormed;
    var read := ReadRow(j, row);
    if read.Err? {
      return Err(read.error);
    }
    var record := new RecordInHand(read.value);
    var failure := ApplyCalculationsTo(j.h, j.cs, record);
    if failure.Some? {
      return Err(ImportError.CannotCompute(row, failure.value));
    }
    if j.opts.action.UpdateMatching? {
      var id := FindMatchingRecord(j, tx, record.fields);
      if id != "" && id in tx {
        if !j.accepts(tx, id, record.fields) {
          return Err(RefusedRow(row));
        }
        return Ok(Updates(id, UpdatedRow(tx[id], record.fields)));
      }
      if !j.opts.addUnmatched {
        return Ok(Skips);
      }
    }
    var id := newId(row);
    if !j.accepts(tx, id, record.fields["id" := StoredText(id)]) || id in tx {
      return Err(RefusedRow(row));
    }
    return Ok(Adds(id, AddedRow(j, record.fields, id)));
  }
}
