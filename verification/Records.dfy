/** data/service.go and data/calculations.go: writing records so that calculations hold. */
module Records {
  import opened Common
  import opened Evaluator
  import opened EvaluatorLaws
  import opened Calculations

  /** No page has more rows than this. */
  const MAX_PAGE_SIZE: nat := 1000

  datatype DataError =
    | UnknownField
    | RecordNotFound
    | RingOfFormulas(fields: seq<string>)
    | CannotCompute(failure: Failure)
    | Refused
    | DuplicateId

  /**
   * What the catalog says about a table. `accepts` stands for the validation rules,
   * which this model does not look into, and `idText` for the text an id becomes
   * that is sent as something else.
   */
  datatype Schema = Schema(
    h: Host,
    fields: set<string>,
    summaries: set<string>,
    columns: seq<Column>,
    constants: Record,
    accepts: (string, Record) -> bool,
    idText: Stored -> NonEmptyText
  )

  /** Calculation and summary columns are registered fields, and neither is the primary key;
      constants are text. */
  ghost predicate Sound(s: Schema) {
    && "id" in s.fields && "id" !in s.summaries
    && s.summaries <= s.fields && s.constants.Keys <= s.fields
    && (forall f :: f in s.constants ==> s.constants[f].StoredText?)
    && forall i :: 0 <= i < |s.columns| ==>
         s.columns[i].name in s.fields && s.columns[i].name !in s.summaries && s.columns[i].name != "id"
  }

  lemma {:induction false} CalculatedFields(s: Schema, columns: seq<Column>)
    requires forall i :: 0 <= i < |columns| ==>
      columns[i].name in s.fields && columns[i].name !in s.summaries && columns[i].name != "id"
    ensures forall f :: f in ParsedColumns(s.h, columns) ==> f in s.fields && f !in s.summaries && f != "id"
  {
    if columns != [] { CalculatedFields(s, columns[..|columns| - 1]); }
  }

  /** The calculations of the table, when its formulas form no ring. */
  ghost predicate HasCalculations(s: Schema, cs: seq<Calculation>) {
    TableCalculationsOf(s.h, s.columns) == Ok(cs)
  }

  lemma CalculationsSound(s: Schema, cs: seq<Calculation>)
    requires Sound(s) && HasCalculations(s, cs)
    ensures InOrder(cs)
    ensures forall f :: f in FieldsOf(cs) ==> f in s.fields && f !in s.summaries && f != "id"
  {
    hide InOrder, TableCalculationsOf, ParsedColumns, FieldsOf;
    TableCalculationsInOrder(s.h, s.columns);
    CalculatedFields(s, s.columns);
  }

  lemma LoadedInOrder(s: Schema, cs: seq<Calculation>)
    requires HasCalculations(s, cs)
    ensures InOrder(cs) && AllWellFormed(cs)
  {
    hide TableCalculationsOf, ParsedColumns;
    TableCalculationsInOrder(s.h, s.columns);
  }

  /** The row the database holds for a record: every registered field, NULL where nothing was given. */
  function Full(fields: set<string>, r: Record): (row: Record)
    ensures row.Keys == fields
    ensures forall f :: f in fields ==> row[f] == ReadField(r, f)
  {
    map f | f in fields :: ReadField(r, f)
  }

  lemma FullConsistent(s: Schema, cs: seq<Calculation>, r: Record)
    requires InOrder(cs) && FieldsOf(cs) <= s.fields && r.Keys <= s.fields
    ensures Consistent(s.h, cs, r) ==> Consistent(s.h, cs, Full(s.fields, r))
  {
    var row := Full(s.fields, r);
    forall i | 0 <= i < |cs| && Consistent(s.h, cs, r) ensures Holds(s.h, cs[i], row) {
      assert Holds(s.h, cs[i], r);
      assert cs[i].field in FieldsOf(cs);
      EvaluateFrame(s.h, cs[i].expr, r, row, cs[i].result);
    }
  }

  // ─── InsertRow ───

  function IsBlankId(v: Stored): bool { v == Null || v == StoredText("") }

  /** The record as it stands before its calculations are computed: constants entered where
      nothing was given, an id, and no summary values. */
  function Prepared(s: Schema, record: Record, freshId: string): (r: Record)
  {
    var entered := s.constants + record;
    var keyed := if IsBlankId(ReadField(entered, "id")) then entered["id" := StoredText(freshId)] else entered;
    keyed - s.summaries
  }

  function IdOf(s: Schema, r: Record): string {
    match ReadField(r, "id")
    case Null => ""
    case StoredText(id) => id
    case other => s.idText(other)
  }

  /** The row the database holds for an inserted record: its id is text. */
  function StoredRow(s: Schema, r: Record): Record { Full(s.fields, r)["id" := StoredText(IdOf(s, r))] }

  /** What InsertRow returns: the record it stored, or why it stored none. */
  ghost function Inserted(s: Schema, rows: map<string, Record>, record: Record,
                          freshId: string): Result<Record, DataError> {
    if !(record.Keys <= s.fields) then Err(UnknownField)
    else match TableCalculationsOf(s.h, s.columns)
      case Err(ring) => Err(RingOfFormulas(ring))
      case Ok(cs) =>
        LoadedInOrder(s, cs);
        var applied := ApplyFrom(s.h, cs, 0, Prepared(s, record, freshId));
        if applied.failure.Some? then Err(CannotCompute(applied.failure.value))
        else if !s.accepts(IdOf(s, applied.record), applied.record) then Err(Refused)
        else if IdOf(s, applied.record) in rows then Err(DuplicateId)
        else Ok(applied.record)
  }

  /** What InsertRow leaves in the record it was handed: when it stores one, that record. */
  ghost function InsertInHand(s: Schema, record: Record, freshId: string): Record {
    if !(record.Keys <= s.fields) then record
    else match TableCalculationsOf(s.h, s.columns)
      case Err(_) => Prepared(s, record, freshId)
      case Ok(cs) => LoadedInOrder(s, cs); ApplyFrom(s.h, cs, 0, Prepared(s, record, freshId)).record
  }

  /** Rows carry every field and stand under their own id. */
  ghost predicate ValidRows(s: Schema, rows: map<string, Record>) {
    forall id :: id in rows ==> id != "" && rows[id].Keys == s.fields && ReadField(rows[id], "id") == StoredText(id)
  }

  /** An id that is sent is text, or no formula sees that it was not. */
  predicate PlainId(cs: seq<Calculation>, record: Record) {
    ReadField(record, "id").Null? || ReadField(record, "id").StoredText? || NoneReadsId(cs)
  }

  lemma PreparedKeyed(s: Schema, record: Record, freshId: string)
    requires Sound(s) && record.Keys <= s.fields && freshId != ""
    ensures var r := Prepared(s, record, freshId);
      && r.Keys <= s.fields && r.Keys !! s.summaries && IdOf(s, r) != ""
      && (ReadField(record, "id").Null? || ReadField(record, "id").StoredText? ==>
           ReadField(r, "id") == StoredText(IdOf(s, r)))
  {
  }

  /** The one extension of a base record in which every formula holds. */
  ghost predicate OnlyExtension(h: Host, cs: seq<Calculation>, base: Record, r: Record)
    requires AllWellFormed(cs)
  {
    IsExtension(h, cs, base, r) && forall t :: IsExtension(h, cs, base, t) ==> t == r
  }

  /** An inserted record is the one extension of what was sent in which every formula holds, and
      so they hold in the row, unless a formula reads an id that was not text. */
  lemma InsertedHolds(s: Schema, rows: map<string, Record>, record: Record, freshId: string, cs: seq<Calculation>)
    requires Sound(s) && ValidRows(s, rows) && freshId != ""
    requires HasCalculations(s, cs) && AllWellFormed(cs)
    requires Inserted(s, rows, record, freshId).Ok?
    ensures var r := Inserted(s, rows, record, freshId).value;
      && OnlyExtension(s.h, cs, Prepared(s, record, freshId), r)
      && IdOf(s, r) != "" && IdOf(s, r) !in rows
      && StoredRow(s, r).Keys == s.fields && ReadField(StoredRow(s, r), "id") == StoredText(IdOf(s, r))
      && (PlainId(cs, record) ==> Consistent(s.h, cs, StoredRow(s, r)))
  {
    hide TableCalculationsOf, ApplyFrom, Consistent, NoneReadsId;
    CalculationsSound(s, cs);
    var base := Prepared(s, record, freshId);
    PreparedKeyed(s, record, freshId);
    FixedPoint(s.h, cs, base);
    var r := Inserted(s, rows, record, freshId).value;
    SameBaseReads(r, base, FieldsOf(cs), "id");
    forall f | f in r ensures f in s.fields {
      if f !in FieldsOf(cs) { SameBaseReads(r, base, FieldsOf(cs), f); }
    }
    FullConsistent(s, cs, r);
    if NoneReadsId(cs) { RekeyedConsistent(s, cs, Full(s.fields, r), StoredText(IdOf(s, r))); }
    assert "id" in Full(s.fields, r) && ReadField(r, "id") == StoredText(IdOf(s, r)) ==>
      StoredRow(s, r) == Full(s.fields, r);
  }

  lemma RekeyedConsistent(s: Schema, cs: seq<Calculation>, r: Record, id: Stored)
    requires InOrder(cs) && NoneReadsId(cs) && "id" !in FieldsOf(cs)
    ensures Consistent(s.h, cs, r) ==> Consistent(s.h, cs, r["id" := id])
  {
    forall i | 0 <= i < |cs| && Consistent(s.h, cs, r) ensures Holds(s.h, cs[i], r["id" := id]) {
      assert Holds(s.h, cs[i], r) && cs[i].field in FieldsOf(cs);
      EvaluateFrame(s.h, cs[i].expr, r, r["id" := id], cs[i].result);
    }
  }

  /** Values sent for calculation fields influence neither the stored record nor an error. */
  lemma InsertIgnoresCalculated(s: Schema, rows: map<string, Record>, a: Record, b: Record, freshId: string,
                                cs: seq<Calculation>)
    requires Sound(s) && HasCalculations(s, cs) && SameBase(a, b, FieldsOf(cs))
    requires a.Keys <= s.fields && b.Keys <= s.fields
    ensures Inserted(s, rows, a, freshId) == Inserted(s, rows, b, freshId)
  {
    hide TableCalculationsOf;
    CalculationsSound(s, cs);
    var x, y := Prepared(s, a, freshId), Prepared(s, b, freshId);
    SameBaseReads(a, b, FieldsOf(cs), "id");
    forall f | f !in FieldsOf(cs) ensures (f in x <==> f in y) && (f in x ==> x[f] == y[f]) {
      SameBaseReads(a, b, FieldsOf(cs), f);
    }
    assert x - FieldsOf(cs) == y - FieldsOf(cs);
    ApplyIgnoresSent(s.h, cs, 0, x, y);
  }

  // ─── UpdateRow ───

  function Writable(s: Schema, updates: Record): Record { updates - {"id"} - s.summaries }

  /** The row that what an update sets and the answers of the calculations make. */
  function UpdatedWith(s: Schema, rows: map<string, Record>, id: string, given: Record,
                       cs: seq<Calculation>): Result<Record, DataError>
    requires AllWellFormed(cs)
  {
    if cs != [] && id !in rows then Err(RecordNotFound)
    else
      var current := if id in rows then rows[id] else map[];
      var applied := ApplyFrom(s.h, cs, 0, current + given);
      if applied.failure.Some? then Err(CannotCompute(applied.failure.value))
      else
        var written := map f | f in given.Keys + FieldsOf(cs) && f in applied.record :: applied.record[f];
        if !s.accepts(id, written) then Err(Refused)
        else if id !in rows then Err(RecordNotFound)
        else Ok(applied.record)
  }

  /** What UpdateRow makes of a row: the row it holds afterwards, or why it is left alone. */
  ghost function Updated(s: Schema, rows: map<string, Record>, id: string, updates: Record): Result<Record, DataError> {
    var given := Writable(s, updates);
    if !(updates.Keys - {"id"} <= s.fields) then Err(UnknownField)
    else if given == map[] then if id in rows then Ok(rows[id]) else Err(RecordNotFound)
    else match TableCalculationsOf(s.h, s.columns)
      case Err(ring) => Err(RingOfFormulas(ring))
      case Ok(cs) => LoadedInOrder(s, cs); UpdatedWith(s, rows, id, given, cs)
  }

  /** What UpdateRow leaves in the update it was handed: when it writes, what it has written. */
  ghost function UpdateInHand(s: Schema, rows: map<string, Record>, id: string, updates: Record): Record {
    var given := Writable(s, updates);
    if !(updates.Keys - {"id"} <= s.fields) then updates - {"id"}
    else match TableCalculationsOf(s.h, s.columns)
      case Err(_) => given
      case Ok(cs) =>
        LoadedInOrder(s, cs);
        if given == map[] || id !in rows then given else AnswersFrom(s.h, cs, 0, rows[id], given).record
  }

  /** An updated row is the one extension of the row overlaid with the update in which every formula holds. */
  lemma UpdatedHolds(s: Schema, rows: map<string, Record>, id: string, updates: Record, cs: seq<Calculation>)
    requires Sound(s) && ValidRows(s, rows) && HasCalculations(s, cs) && AllWellFormed(cs)
    requires Updated(s, rows, id, updates).Ok? && Writable(s, updates) != map[]
    ensures var row := Updated(s, rows, id, updates).value;
      && id in rows && row.Keys == s.fields && ReadField(row, "id") == StoredText(id)
      && OnlyExtension(s.h, cs, rows[id] + Writable(s, updates), row)
  {
    hide TableCalculationsOf;
    CalculationsSound(s, cs);
    var base := rows[id] + Writable(s, updates);
    FixedPoint(s.h, cs, base);
    var row := Updated(s, rows, id, updates).value;
    SameBaseReads(row, base, FieldsOf(cs), "id");
    forall f ensures f in row <==> f in s.fields {
      if f !in FieldsOf(cs) { SameBaseReads(row, base, FieldsOf(cs), f); }
      else { FieldHeld(s.h, cs, row, f); }
    }
  }

  lemma WithIgnoresCalculated(s: Schema, rows: map<string, Record>, id: string, x: Record, y: Record,
                              cs: seq<Calculation>)
    requires InOrder(cs) && SameBase(x, y, FieldsOf(cs))
    ensures UpdatedWith(s, rows, id, x, cs) == UpdatedWith(s, rows, id, y, cs)
  {
    hide ApplyFrom, FieldsOf, InOrder;
    var current := if id in rows then rows[id] else map[];
    forall f | f !in FieldsOf(cs) ensures (f in x <==> f in y) && (f in x ==> x[f] == y[f]) {
      SameBaseReads(x, y, FieldsOf(cs), f);
    }
    assert (current + x) - FieldsOf(cs) == (current + y) - FieldsOf(cs);
    assert x.Keys + FieldsOf(cs) == y.Keys + FieldsOf(cs);
    ApplyIgnoresSent(s.h, cs, 0, current + x, current + y);
  }

  /** The same of updates: values sent for calculation fields influence neither the row nor an
      error, provided the update sets something without them, or not even with them. */
  lemma UpdateIgnoresCalculated(s: Schema, rows: map<string, Record>, id: string, a: Record, b: Record,
                                cs: seq<Calculation>)
    requires Sound(s) && HasCalculations(s, cs) && SameBase(a, b, FieldsOf(cs))
    requires Writable(s, a) == map[] <==> Writable(s, b) == map[]
    ensures Updated(s, rows, id, a) == Updated(s, rows, id, b)
  {
    hide TableCalculationsOf, UpdatedWith, FieldsOf;
    CalculationsSound(s, cs);
    forall f | f !in FieldsOf(cs) ensures (f in a <==> f in b) && (f in a ==> a[f] == b[f]) {
      SameBaseReads(a, b, FieldsOf(cs), f);
    }
    assert Writable(s, a) - FieldsOf(cs) == Writable(s, b) - FieldsOf(cs);
    WithIgnoresCalculated(s, rows, id, Writable(s, a), Writable(s, b), cs);
  }

  /** An update of calculation fields alone changes nothing in a row whose formulas hold. */
  lemma CalculatedUpdateIsNone(s: Schema, rows: map<string, Record>, id: string, updates: Record,
                               cs: seq<Calculation>)
    requires Sound(s) && HasCalculations(s, cs) && AllWellFormed(cs) && AllHold(s, cs, rows)
    requires updates.Keys <= FieldsOf(cs) && Updated(s, rows, id, updates).Ok?
    ensures id in rows && Updated(s, rows, id, updates).value == rows[id]
  {
    hide TableCalculationsOf, Updated, UpdatedWith, Consistent;
    CalculationsSound(s, cs);
    if Writable(s, updates) == map[] {
      UpdateOfNothing(s, rows, id, updates);
    } else {
      UpdatedHolds(s, rows, id, updates, cs);
      assert (rows[id] + Writable(s, updates)) - FieldsOf(cs) == rows[id] - FieldsOf(cs);
      assert IsExtension(s.h, cs, rows[id] + Writable(s, updates), rows[id]);
    }
  }

  lemma FieldHeld(h: Host, cs: seq<Calculation>, r: Record, f: string)
    requires AllWellFormed(cs) && Consistent(h, cs, r) && f in FieldsOf(cs)
    ensures f in r
  {
    var i :| 0 <= i < |cs| && cs[i].field == f;
    assert Holds(h, cs[i], r);
  }

  // ─── Every run of inserts, updates and deletions ───

  datatype Write =
    | Insert(record: Record, freshId: string)
    | Update(id: string, updates: Record)
    | Delete(id: string)

  ghost function Step(s: Schema, rows: map<string, Record>, w: Write): map<string, Record> {
    match w
    case Insert(record, freshId) =>
      (match Inserted(s, rows, record, freshId)
       case Err(_) => rows
       case Ok(r) => rows[IdOf(s, r) := StoredRow(s, r)])
    case Update(id, updates) =>
      (match Updated(s, rows, id, updates)
       case Err(_) => rows
       case Ok(row) => rows[id := row])
    case Delete(id) => rows - {id}
  }

  ghost function Run(s: Schema, rows: map<string, Record>, ws: seq<Write>): map<string, Record> {
    if ws == [] then rows else Step(s, Run(s, rows, ws[..|ws| - 1]), ws[|ws| - 1])
  }

  predicate Proper(cs: seq<Calculation>, w: Write) { w.Insert? ==> PlainId(cs, w.record) && w.freshId != "" }

  /** Every calculation field of every row equals its formula over that row. */
  ghost predicate AllHold(s: Schema, cs: seq<Calculation>, rows: map<string, Record>)
    requires AllWellFormed(cs)
  {
    ValidRows(s, rows) && forall id :: id in rows ==> Consistent(s.h, cs, rows[id])
  }

  lemma StepHolds(s: Schema, cs: seq<Calculation>, rows: map<string, Record>, w: Write)
    requires Sound(s) && HasCalculations(s, cs) && AllWellFormed(cs)
    requires AllHold(s, cs, rows) && Proper(cs, w)
    ensures AllHold(s, cs, Step(s, rows, w))
  {
    hide TableCalculationsOf, Inserted, Updated, UpdatedWith, ApplyFrom, Consistent, StoredRow, FieldsOf, Writable;
    match w {
      case Insert(record, freshId) =>
        if Inserted(s, rows, record, freshId).Ok? { InsertedHolds(s, rows, record, freshId, cs); }
      case Update(id, updates) =>
        if Updated(s, rows, id, updates).Ok? {
          if Writable(s, updates) != map[] {
            UpdatedHolds(s, rows, id, updates, cs);
          } else {
            UpdateOfNothing(s, rows, id, updates);
          }
        }
      case Delete(id) =>
    }
  }

  lemma UpdateOfNothing(s: Schema, rows: map<string, Record>, id: string, updates: Record)
    requires Writable(s, updates) == map[] && Updated(s, rows, id, updates).Ok?
    ensures id in rows && Updated(s, rows, id, updates).value == rows[id]
  {
  }

  /** Over every run of inserts, updates and deletions, formulas stay satisfied in every row. */
  lemma {:induction false} RunHolds(s: Schema, cs: seq<Calculation>, rows: map<string, Record>, ws: seq<Write>)
    requires Sound(s) && HasCalculations(s, cs) && AllWellFormed(cs)
    requires AllHold(s, cs, rows) && forall i :: 0 <= i < |ws| ==> Proper(cs, ws[i])
    ensures AllHold(s, cs, Run(s, rows, ws))
  {
    if ws != [] {
      RunHolds(s, cs, rows, ws[..|ws| - 1]);
      StepHolds(s, cs, Run(s, rows, ws[..|ws| - 1]), ws[|ws| - 1]);
    }
  }
}
