/** data/import.go: bringing the rows of a file into a table. */
module Import {
  import opened Common
  import opened Evaluator
  import opened Calculations
  import opened Records
  import Numbers

  datatype FieldType =
    | TextField | NumberField | BooleanField | DateField | TimestampField | ContainerField | SummaryField

  datatype Action = Add | UpdateMatching | OtherAction

  datatype Mapping = Mapping(column: int, field: string)

  datatype DateOrder = Iso | DayFirst | MonthFirst

  datatype Options = Options(
    action: Action, mappings: seq<Mapping>, matchFields: seq<string>, addUnmatched: bool, dates: DateOrder)

  datatype ImportError =
    | BadAction | NoSuchColumn | NoSuchField | FieldTwice | SummaryColumn | NothingMapped
    | NoMatchField | UnknownMatchField | UnmappedMatchField | CalculatedField
    | BadCell(row: nat, column: int) | CannotCompute(row: nat, failure: Failure) | RefusedRow(row: nat)
    | FormulaRing(fields: seq<string>) | NotCommitted

  type Rows = map<string, Record>

  /** A parsed file: its headings and its cells. */
  datatype Source = Source(columns: seq<string>, rows: seq<seq<string>>)

  /** Table.Cell: a cell that is not there is empty. */
  function Cell(s: Source, row: int, column: int): string {
    if 0 <= row < |s.rows| && 0 <= column < |s.rows[row]| then s.rows[row][column] else ""
  }

  /** How dates, moments and containers are read, which this model does not look into. */
  datatype Readers = Readers(
    date: (DateOrder, string) -> Option<string>, timestamp: string -> Option<string>, base64: string -> bool)

  /**
   * What an import works on. `cs` are the table's calculations in order, once they are read. `accepts` stands for
   * the validation rules and for whether the engine stores the record; `asText`, `lower` and
   * `pick` for how the engine casts to text, lowers case, and chooses one of several rows.
   */
  datatype Job = Job(
    h: Host, readers: Readers, types: map<string, FieldType>, cs: seq<Calculation>,
    accepts: (Rows, string, Record) -> bool,
    asText: Stored -> string, lower: string -> string, pick: (Rows, set<string>) -> string,
    source: Source, opts: Options)

  // ─── Checking the options ───

  function FieldOf(j: Job, m: Mapping): string { Trim(j.h, m.field) }

  /** The fields the mappings up to the last write to, in order. */
  function Written(j: Job, mappings: seq<Mapping>): Result<seq<string>, ImportError> {
    if mappings == [] then Ok([])
    else
      var front, m := Written(j, mappings[..|mappings| - 1]), mappings[|mappings| - 1];
      if front.Err? then front
      else
        var field := FieldOf(j, m);
        if field == "" then front
        else if !(0 <= m.column < |j.source.columns|) then Err(NoSuchColumn)
        else if field !in j.types then Err(NoSuchField)
        else if field in front.value then Err(FieldTwice)
        else if j.types[field].SummaryField? then Err(SummaryColumn)
        else Ok(front.value + [field])
  }

  /** The first match field that cannot be matched on. */
  function MatchFieldError(j: Job, fields: seq<string>, written: seq<string>): Option<ImportError> {
    if fields == [] then None
    else if fields[0] !in j.types then Some(UnknownMatchField)
    else if fields[0] !in written then Some(UnmappedMatchField)
    else MatchFieldError(j, fields[1..], written)
  }

  /** checkImportOptions: the fields that will be written. */
  function CheckedOptions(j: Job): Result<seq<string>, ImportError> {
    if j.opts.action.OtherAction? then Err(BadAction)
    else match Written(j, j.opts.mappings)
      case Err(e) => Err(e)
      case Ok(written) =>
        if written == [] then Err(NothingMapped)
        else if j.opts.action.UpdateMatching? && j.opts.matchFields == [] then Err(NoMatchField)
        else
          var bad := if j.opts.action.UpdateMatching? then MatchFieldError(j, j.opts.matchFields, written) else None;
          if bad.Some? then Err(bad.value) else Ok(written)
  }

  /** The options, and that no column goes to a calculation field. */
  function Checked(j: Job): Result<seq<string>, ImportError> {
    match CheckedOptions(j)
    case Err(e) => Err(e)
    case Ok(written) =>
      if exists f :: f in written && f in FieldsOf(j.cs) then Err(CalculatedField) else Ok(written)
  }

  // ─── One row ───

  /** coerce: the value a cell of text stands for. */
  function Coerce(j: Job, t: FieldType, text: string): Option<Stored> {
    var trimmed := Trim(j.h, text);
    if t.TextField? || t.SummaryField? then Some(if text == "" then Null else StoredText(text))
    else if trimmed == "" then Some(Null)
    else match t
      case NumberField =>
        (match Numbers.NormalizeNumber(j.h, trimmed) case Some(n) => Some(StoredText(n)) case None => None)
      case BooleanField =>
        var word := j.h.toLower(trimmed);
        if word in {"true", "yes", "y", "1", "t"} then Some(StoredBool(true))
        else if word in {"false", "no", "n", "0", "f"} then Some(StoredBool(false))
        else None
      case DateField =>
        (match j.readers.date(j.opts.dates, trimmed) case Some(d) => Some(StoredText(d)) case None => None)
      case TimestampField =>
        (match j.readers.timestamp(trimmed) case Some(d) => Some(StoredText(d)) case None => None)
      case ContainerField => if j.readers.base64(trimmed) then Some(StoredText(trimmed)) else None
      case _ => None
  }

  function TypeOf(j: Job, field: string): FieldType { if field in j.types then j.types[field] else TextField }

  /** The record the mapped cells of a row make. */
  function Read(j: Job, row: nat, mappings: seq<Mapping>): Result<Record, ImportError> {
    if mappings == [] then Ok(map[])
    else
      var front, m := Read(j, row, mappings[..|mappings| - 1]), mappings[|mappings| - 1];
      if front.Err? || FieldOf(j, m) == "" then front
      else match Coerce(j, TypeOf(j, FieldOf(j, m)), Cell(j.source, row, m.column))
        case None => Err(BadCell(row, m.column))
        case Some(v) => Ok(front.value[FieldOf(j, m) := v])
  }

  /** The record of a row, its calculations applied. */
  function RowRecord(j: Job, row: nat): Result<Record, ImportError>
    requires AllWellFormed(j.cs)
  {
    match Read(j, row, j.opts.mappings)
    case Err(e) => Err(e)
    case Ok(r) =>
      var a := ApplyFrom(j.h, j.cs, 0, r);
      match a.failure
      case Some(f) => Err(ImportError.CannotCompute(row, f))
      case None => Ok(a.record)
  }

  // ─── Matching ───

  /** The text a value prints as. */
  function Printed(j: Job, v: Stored): string {
    match v
    case Null => ""
    case StoredText(s) => s
    case StoredBool(b) => if b then "true" else "false"
    case _ => j.asText(v)
  }

  /** A key with nothing in one of its fields matches no record. */
  predicate EmptyKey(j: Job, r: Record) {
    exists f :: f in j.opts.matchFields && Printed(j, ReadField(r, f)) == ""
  }

  predicate FieldMatches(j: Job, row: Record, r: Record, f: string) {
    !ReadField(row, f).Null? && j.lower(j.asText(ReadField(row, f))) == j.lower(Printed(j, ReadField(r, f)))
  }

  predicate RowMatches(j: Job, row: Record, r: Record) {
    forall f :: f in j.opts.matchFields ==> FieldMatches(j, row, r, f)
  }

  function Matching(j: Job, rows: Rows, r: Record): set<string> { set id | id in rows && RowMatches(j, rows[id], r) }

  /** findMatchingRecord: one of the records that match, or none. */
  function FindMatching(j: Job, rows: Rows, r: Record): string {
    if EmptyKey(j, r) || Matching(j, rows, r) == {} then "" else j.pick(rows, Matching(j, rows, r))
  }

  // ─── All the rows ───

  function AddedRow(j: Job, r: Record, id: string): Record { Full(j.types.Keys, r["id" := StoredText(id)]) }

  /** updateInTx: the record's values, but not its id. */
  function UpdatedRow(row: Record, r: Record): Record { row + (r - {"id"}) }

  datatype Progress = Progress(rows: Rows, added: nat, updated: nat, skipped: nat)

  function ImportRow(j: Job, newId: nat -> string, p: Progress, row: nat): Result<Progress, ImportError>
    requires AllWellFormed(j.cs)
  {
    match RowRecord(j, row)
    case Err(e) => Err(e)
    case Ok(r) =>
      var id := if j.opts.action.UpdateMatching? then FindMatching(j, p.rows, r) else "";
      if id in p.rows && id != "" then
        if !j.accepts(p.rows, id, r) then Err(RefusedRow(row))
        else Ok(p.(rows := p.rows[id := UpdatedRow(p.rows[id], r)], updated := p.updated + 1))
      else if j.opts.action.UpdateMatching? && !j.opts.addUnmatched then Ok(p.(skipped := p.skipped + 1))
      else
        var record := r["id" := StoredText(newId(row))];
        if !j.accepts(p.rows, newId(row), record) || newId(row) in p.rows then Err(RefusedRow(row))
        else Ok(p.(rows := p.rows[newId(row) := AddedRow(j, r, newId(row))], added := p.added + 1))
  }

  /** The first `n` rows; row `i`, when it is added, under the id `newId(i)`. */
  function Imported(j: Job, newId: nat -> string, rows: Rows, n: nat): Result<Progress, ImportError>
    requires AllWellFormed(j.cs)
  {
    if n == 0 then Ok(Progress(rows, 0, 0, 0))
    else match Imported(j, newId, rows, n - 1)
      case Err(e) => Err(e)
      case Ok(p) => ImportRow(j, newId, p, n - 1)
  }

  datatype Report = Report(rows: nat, added: nat, updated: nat, skipped: nat, fields: seq<string>)

  /** What the transaction comes to: a report and the new rows, or an error. */
  function Outcome(j: Job, newId: nat -> string, rows: Rows): Result<(Report, Rows), ImportError>
    requires AllWellFormed(j.cs)
  {
    match Checked(j)
    case Err(e) => Err(e)
    case Ok(written) =>
      match Imported(j, newId, rows, |j.source.rows|)
      case Err(e) => Err(e)
      case Ok(p) => Ok((Report(|j.source.rows|, p.added, p.updated, p.skipped, written), p.rows))
  }

  lemma OrderedWellFormed(cs: seq<Calculation>)
    requires InOrder(cs)
    ensures AllWellFormed(cs)
  {
  }

  /** The same, with the calculations read from the table's columns once the options are in order. */
  ghost function ImportOutcome(j: Job, columns: seq<Calculations.Column>, newId: nat -> string,
                               rows: Rows): Result<(Report, Rows), ImportError> {
    if CheckedOptions(j).Err? then Err(CheckedOptions(j).error)
    else match TableCalculationsOf(j.h, columns)
      case Err(ring) => Err(FormulaRing(ring))
      case Ok(cs) =>
        TableCalculationsInOrder(j.h, columns);
        Outcome(j.(cs := cs), newId, rows)
  }
}
