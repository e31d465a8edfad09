/** What an insert and an update come to, said of the values sent and the formulas of the table alone. */
module Writes {
  import opened Common
  import opened Evaluator
  import opened Calculations
  import opened Records
  import opened TableFormulas

  predicate SomethingIn(v: Stored) { !v.Null? && v != StoredText("") }

  /** What a field that is not calculated is to hold in a new record: what was sent for it, or else
      its constant; the id a new one where neither has anything. */
  function Entry(s: Schema, record: Record, freshId: string, f: string): Option<Stored> {
    var given := if f in record then Some(record[f]) else if f in s.constants then Some(s.constants[f]) else None;
    if f in s.summaries then None
    else if f == "id" && (given.None? || !SomethingIn(given.value)) then Some(StoredText(freshId))
    else given
  }

  /** The record holds what was entered, in every field that is not calculated. */
  ghost predicate Entered(s: Schema, record: Record, freshId: string, t: Record) {
    forall f :: !ComputesField(s.h, s.columns, f) ==> Holding(t, f, Entry(s, record, freshId, f))
  }

  predicate Holding(t: Record, f: string, v: Option<Stored>) {
    if v.None? then f !in t else f in t && t[f] == v.value
  }

  ghost predicate FormulasHold(s: Schema, t: Record) {
    forall i :: 0 <= i < |s.columns| ==> ColumnHolds(s.h, s.columns[i], t)
  }

  /** The record is the one to insert: what was entered, and every formula satisfied, of the fields that have one. */
  ghost predicate ToInsert(s: Schema, record: Record, freshId: string, t: Record) {
    Entered(s, record, freshId, t) && FormulasHold(s, t)
  }

  /** The id a record is stored under, as text. */
  function Filed(s: Schema, t: Record): string {
    if "id" !in t || t["id"].Null? then "" else if t["id"].StoredText? then t["id"].text else s.idText(t["id"])
  }

  ghost predicate Ring(s: Schema) { exists w :: FormulaRing(s.h, s.columns, w) }

  lemma PreparedHolds(s: Schema, record: Record, freshId: string, f: string)
    requires "id" !in s.summaries
    ensures Holding(Prepared(s, record, freshId), f, Entry(s, record, freshId, f))
  {
  }

  lemma HoldingSame(t: Record, base: Record, f: string, v: Option<Stored>)
    requires Holding(base, f, v)
    ensures Holding(t, f, v) <==> SameAt(t, base, f)
  {
  }

  /** Extensions of a base record, said of the table's columns. */
  lemma ExtensionIs(s: Schema, cs: seq<Calculation>, base: Record, t: Record)
    requires DistinctNames(s.columns) && HasCalculations(s, cs) && AllWellFormed(cs)
    ensures IsExtension(s.h, cs, base, t) <==>
      (forall f :: !ComputesField(s.h, s.columns, f) ==> SameAt(t, base, f)) && FormulasHold(s, t)
  {
    LoadedAre(s.h, s.columns, cs);
    ColumnsAreCalculations(s, cs, t);
    SameBaseIs(t, base, FieldsOf(cs));
    hide TableCalculationsOf, FieldsOf, Consistent, ColumnHolds, ComputesField, SameAt, SameBase, DistinctNames;
    hide AllWellFormed, HasCalculations;
  }

  lemma ToInsertIsExtension(s: Schema, cs: seq<Calculation>, record: Record, freshId: string, t: Record)
    requires Sound(s) && DistinctNames(s.columns) && HasCalculations(s, cs) && AllWellFormed(cs)
    ensures ToInsert(s, record, freshId, t) <==> IsExtension(s.h, cs, Prepared(s, record, freshId), t)
  {
    var base := Prepared(s, record, freshId);
    ExtensionIs(s, cs, base, t);
    SummariesHaveNoId(s);
    hide TableCalculationsOf, IsExtension, FormulasHold, ComputesField, SameAt, Holding, Entry, Prepared, Sound;
    forall f ensures Holding(t, f, Entry(s, record, freshId, f)) <==> SameAt(t, base, f) {
      PreparedHolds(s, record, freshId, f);
      HoldingSame(t, base, f, Entry(s, record, freshId, f));
    }
  }

  lemma SummariesHaveNoId(s: Schema)
    requires Sound(s)
    ensures "id" !in s.summaries
  {
  }

  predicate SameAt(a: Record, b: Record, f: string) { (f in a <==> f in b) && (f in a ==> a[f] == b[f]) }

  lemma SameBaseIs(a: Record, b: Record, calculated: set<string>)
    ensures SameBase(a, b, calculated) <==> forall f :: f !in calculated ==> SameAt(a, b, f)
  {
    if SameBase(a, b, calculated) {
      forall f | f !in calculated ensures SameAt(a, b, f) { SameBaseReads(a, b, calculated, f); }
    }
    if forall f :: f !in calculated ==> SameAt(a, b, f) {
      forall f ensures SameAt(a - calculated, b - calculated, f) {
        if f !in calculated { assert SameAt(a, b, f); }
      }
      SameEverywhere(a - calculated, b - calculated);
    }
  }

  lemma SameEverywhere(a: Record, b: Record)
    requires forall f :: SameAt(a, b, f)
    ensures a == b
  {
    forall f ensures (f in a <==> f in b) && (f in a ==> a[f] == b[f]) { assert SameAt(a, b, f); }
  }

  /**
   * An insert: a field that is not there, a ring of formulas, a formula that cannot be computed, a
   * record that is not accepted and an id that is taken are errors, in this order; otherwise the
   * record stored is the one that holds what was entered and satisfies every formula.
   */
  lemma InsertMeans(s: Schema, rows: map<string, Record>, record: Record, freshId: string)
    requires Sound(s) && DistinctNames(s.columns)
    ensures var r := Inserted(s, rows, record, freshId);
      if exists f :: f in record && f !in s.fields then r == Err(UnknownField)
      else if Ring(s) then r.Err? && r.error.RingOfFormulas? && FormulaRing(s.h, s.columns, r.error.fields)
      else if !(exists t :: ToInsert(s, record, freshId, t)) then r.Err? && r.error.CannotCompute?
      else forall t :: ToInsert(s, record, freshId, t) ==>
        r == if !s.accepts(Filed(s, t), t) then Err(Refused)
             else if Filed(s, t) in rows then Err(DuplicateId) else Ok(t)
  {
    RingsRefused(s.h, s.columns);
    hide FormulaRing, TableCalculationsOf;
    if !Ring(s) && record.Keys <= s.fields {
      InsertWithout(s, rows, record, freshId, TableCalculationsOf(s.h, s.columns).value);
    }
  }

  /** What an insert comes to once the calculations are there. */
  lemma InsertedWith(s: Schema, rows: map<string, Record>, record: Record, freshId: string, cs: seq<Calculation>)
    requires HasCalculations(s, cs) && AllWellFormed(cs) && record.Keys <= s.fields
    ensures var r, a := Inserted(s, rows, record, freshId), ApplyFrom(s.h, cs, 0, Prepared(s, record, freshId));
      if a.failure.Some? then r.Err? && r.error.CannotCompute?
      else r == if !s.accepts(Filed(s, a.record), a.record) then Err(Refused)
                else if Filed(s, a.record) in rows then Err(DuplicateId) else Ok(a.record)
  {
    hide TableCalculationsOf, ApplyFrom, Prepared, AllWellFormed;
  }

  lemma InsertWithout(s: Schema, rows: map<string, Record>, record: Record, freshId: string, cs: seq<Calculation>)
    requires Sound(s) && DistinctNames(s.columns) && HasCalculations(s, cs) && record.Keys <= s.fields
    ensures var r := Inserted(s, rows, record, freshId);
      if !(exists t :: ToInsert(s, record, freshId, t)) then r.Err? && r.error.CannotCompute?
      else forall t :: ToInsert(s, record, freshId, t) ==>
        r == if !s.accepts(Filed(s, t), t) then Err(Refused)
             else if Filed(s, t) in rows then Err(DuplicateId) else Ok(t)
  {
    LoadedInOrder(s, cs);
    hide *;
    InsertedWith(s, rows, record, freshId, cs);
    OneToInsert(s, record, freshId, cs);
  }

  /** There is one record to insert, or none, and running the formulas finds it. */
  lemma OneToInsert(s: Schema, record: Record, freshId: string, cs: seq<Calculation>)
    requires Sound(s) && DistinctNames(s.columns) && HasCalculations(s, cs) && InOrder(cs)
    ensures AllWellFormed(cs)
    ensures var a := ApplyFrom(s.h, cs, 0, Prepared(s, record, freshId));
      && (a.failure.None? <==> exists t :: ToInsert(s, record, freshId, t))
      && forall t :: ToInsert(s, record, freshId, t) ==> t == a.record
  {
    OrderedWellFormed(cs);
    hide *;
    var base := Prepared(s, record, freshId);
    var a := ApplyFrom(s.h, cs, 0, base);
    if a.failure.None? {
      RunExtends(s.h, cs, base, a.record);
      ToInsertIsExtension(s, cs, record, freshId, a.record);
    }
    forall t | ToInsert(s, record, freshId, t) ensures a == Applied(t, None) {
      ToInsertIsExtension(s, cs, record, freshId, t);
      RunExtends(s.h, cs, base, t);
    }
  }

  lemma RunExtends(h: Host, cs: seq<Calculation>, base: Record, t: Record)
    requires InOrder(cs)
    ensures IsExtension(h, cs, base, t) <==> ApplyFrom(h, cs, 0, base) == Applied(t, None)
  {
    hide IsExtension, ApplyFrom, InOrder;
    FixedPoint(h, cs, base);
  }

  lemma OrderedWellFormed(cs: seq<Calculation>)
    requires InOrder(cs)
    ensures AllWellFormed(cs)
  {
  }

  // ─── Updates ───

  /** The update sets the field. */
  predicate Sets(s: Schema, updates: Record, f: string) { f in updates && f != "id" && f !in s.summaries }

  /** The row holds what the update sets and what it held before, in every field that is not calculated. */
  ghost predicate Overlaid(s: Schema, before: Record, updates: Record, t: Record) {
    forall f :: !ComputesField(s.h, s.columns, f) ==>
      Holding(t, f, Overlay(s, before, updates, f))
  }

  ghost predicate ToUpdate(s: Schema, before: Record, updates: Record, t: Record) {
    Overlaid(s, before, updates, t) && FormulasHold(s, t)
  }

  /** The part of the new row that is written and checked: what the update sets, and the calculated fields. */
  ghost predicate IsWritten(s: Schema, updates: Record, t: Record, w: Record) {
    forall f :: if f in t && (Sets(s, updates, f) || ComputesField(s.h, s.columns, f))
      then Holding(w, f, Some(t[f])) else f !in w
  }

  /** What a row that is overlaid holds in a field. */
  function Overlay(s: Schema, before: Record, updates: Record, f: string): Option<Stored> {
    if Sets(s, updates, f) then Some(updates[f]) else if f in before then Some(before[f]) else None
  }

  lemma OverlayHolds(s: Schema, before: Record, updates: Record, f: string)
    ensures Holding(before + Writable(s, updates), f, Overlay(s, before, updates, f))
  {
  }

  lemma ToUpdateIsExtension(s: Schema, cs: seq<Calculation>, before: Record, updates: Record, t: Record)
    requires Sound(s) && DistinctNames(s.columns) && HasCalculations(s, cs) && AllWellFormed(cs)
    ensures ToUpdate(s, before, updates, t) <==> IsExtension(s.h, cs, before + Writable(s, updates), t)
  {
    var base := before + Writable(s, updates);
    ExtensionIs(s, cs, base, t);
    hide TableCalculationsOf, IsExtension, FormulasHold, ComputesField, SameAt, Holding, Overlay, Writable, Sound;
    forall f ensures Holding(t, f, Overlay(s, before, updates, f)) <==> SameAt(t, base, f) {
      OverlayHolds(s, before, updates, f);
      HoldingSame(t, base, f, Overlay(s, before, updates, f));
    }
  }

  /**
   * An update: a field that is not there and a ring of formulas are errors; one that sets nothing
   * reads the row; otherwise a row that is not there, a formula that cannot be computed and values
   * that are not accepted are errors, and the row becomes the one that holds what is set over what
   * it held and satisfies every formula.
   */
  lemma UpdateMeans(s: Schema, rows: map<string, Record>, id: string, updates: Record)
    requires Sound(s) && DistinctNames(s.columns)
    ensures var r := Updated(s, rows, id, updates);
      if exists f :: f in updates && f != "id" && f !in s.fields then r == Err(UnknownField)
      else if forall f :: f in updates ==> !Sets(s, updates, f) then
        r == if id in rows then Ok(rows[id]) else Err(RecordNotFound)
      else if Ring(s) then r.Err? && r.error.RingOfFormulas? && FormulaRing(s.h, s.columns, r.error.fields)
      else if id !in rows then r == Err(RecordNotFound) || r == Err(Refused)
      else if !(exists t :: ToUpdate(s, rows[id], updates, t)) then r.Err? && r.error.CannotCompute?
      else forall t, w :: ToUpdate(s, rows[id], updates, t) && IsWritten(s, updates, t, w) ==>
        r == if s.accepts(id, w) then Ok(t) else Err(Refused)
  {
    RingsRefused(s.h, s.columns);
    UpdatedCases(s, rows, id, updates);
    hide FormulaRing, TableCalculationsOf, UpdatedWith, Updated, ToUpdate, IsWritten, Sound, DistinctNames;
    if !Ring(s) { UpdateWithout(s, rows, id, updates, TableCalculationsOf(s.h, s.columns).value); }
  }

  lemma UpdatedCases(s: Schema, rows: map<string, Record>, id: string, updates: Record)
    ensures var r, all := Updated(s, rows, id, updates), TableCalculationsOf(s.h, s.columns);
      if exists f :: f in updates && f != "id" && f !in s.fields then r == Err(UnknownField)
      else if forall f :: f in updates ==> !Sets(s, updates, f) then
        r == if id in rows then Ok(rows[id]) else Err(RecordNotFound)
      else if all.Err? then r == Err(RingOfFormulas(all.error))
      else AllWellFormed(all.value) && r == UpdatedWith(s, rows, id, Writable(s, updates), all.value)
  {
    var given := Writable(s, updates);
    if TableCalculationsOf(s.h, s.columns).Ok? { LoadedInOrder(s, TableCalculationsOf(s.h, s.columns).value); }
    hide TableCalculationsOf, UpdatedWith, AllWellFormed;
    assert given == map[] <==> forall f :: f in updates ==> !Sets(s, updates, f) by { NothingSet(s, updates); }
    assert (updates.Keys - {"id"} <= s.fields) <==> !(exists f :: f in updates && f != "id" && f !in s.fields);
  }

  lemma NothingSet(s: Schema, updates: Record)
    ensures Writable(s, updates) == map[] <==> forall f :: f in updates ==> !Sets(s, updates, f)
  {
    var given := Writable(s, updates);
    assert forall f :: f in given <==> f in updates && Sets(s, updates, f);
    if given.Keys == {} { assert given == map[]; }
  }

  lemma UpdateWithout(s: Schema, rows: map<string, Record>, id: string, updates: Record, cs: seq<Calculation>)
    requires Sound(s) && DistinctNames(s.columns) && HasCalculations(s, cs)
    ensures AllWellFormed(cs)
    ensures var r := UpdatedWith(s, rows, id, Writable(s, updates), cs);
      if id !in rows then r == Err(RecordNotFound) || (cs == [] && r == Err(Refused))
      else if !(exists t :: ToUpdate(s, rows[id], updates, t)) then r.Err? && r.error.CannotCompute?
      else forall t, w :: ToUpdate(s, rows[id], updates, t) && IsWritten(s, updates, t, w) ==>
        r == if s.accepts(id, w) then Ok(t) else Err(Refused)
  {
    LoadedInOrder(s, cs);
    hide *;
    if id in rows {
      UpdatedOf(s, rows, id, Writable(s, updates), cs);
      var base := rows[id] + Writable(s, updates);
      var a := ApplyFrom(s.h, cs, 0, base);
      if a.failure.None? {
        RunExtends(s.h, cs, base, a.record);
        ToUpdateIsExtension(s, cs, rows[id], updates, a.record);
      }
      forall t | ToUpdate(s, rows[id], updates, t) ensures a == Applied(t, None) {
        ToUpdateIsExtension(s, cs, rows[id], updates, t);
        RunExtends(s.h, cs, base, t);
      }
      forall t, w | IsWritten(s, updates, t, w) ensures w == PartOf(t, Writable(s, updates).Keys + FieldsOf(cs)) {
        WrittenIs(s, cs, updates, t, w);
      }
    } else {
      NoRowNoUpdate(s, rows, id, Writable(s, updates), cs);
    }
  }

  function PartOf(t: Record, fields: set<string>): Record { map f | f in fields && f in t :: t[f] }

  lemma NoRowNoUpdate(s: Schema, rows: map<string, Record>, id: string, given: Record, cs: seq<Calculation>)
    requires AllWellFormed(cs) && id !in rows
    ensures var r := UpdatedWith(s, rows, id, given, cs);
      r == Err(RecordNotFound) || (cs == [] && r == Err(Refused))
  {
    hide FieldsOf;
  }

  lemma UpdatedOf(s: Schema, rows: map<string, Record>, id: string, given: Record, cs: seq<Calculation>)
    requires AllWellFormed(cs) && id in rows
    ensures var r, a := UpdatedWith(s, rows, id, given, cs), ApplyFrom(s.h, cs, 0, rows[id] + given);
      if a.failure.Some? then r.Err? && r.error.CannotCompute?
      else r == if s.accepts(id, PartOf(a.record, given.Keys + FieldsOf(cs))) then Ok(a.record) else Err(Refused)
  {
    hide ApplyFrom, FieldsOf, AllWellFormed;
    var a := ApplyFrom(s.h, cs, 0, rows[id] + given);
    assert PartOf(a.record, given.Keys + FieldsOf(cs))
      == map f | f in given.Keys + FieldsOf(cs) && f in a.record :: a.record[f];
  }

  lemma WrittenIs(s: Schema, cs: seq<Calculation>, updates: Record, t: Record, w: Record)
    requires HasCalculations(s, cs) && IsWritten(s, updates, t, w)
    ensures w == PartOf(t, Writable(s, updates).Keys + FieldsOf(cs))
  {
    LoadedAre(s.h, s.columns, cs);
    hide TableCalculationsOf, FieldsOf, ComputesField, DistinctNames, Asked, AskedBy, PartOf, SameAt, Writable, Sets;
    var v := PartOf(t, Writable(s, updates).Keys + FieldsOf(cs));
    forall f ensures SameAt(w, v, f) {
      WrittenAt(s, updates, f);
      PartAt(t, Writable(s, updates).Keys + FieldsOf(cs), w, f);
    }
    SameEverywhere(w, v);
  }

  lemma PartAt(t: Record, fields: set<string>, w: Record, f: string)
    requires if f in t && f in fields then Holding(w, f, Some(t[f])) else f !in w
    ensures SameAt(w, PartOf(t, fields), f)
  {
  }

  lemma WrittenAt(s: Schema, updates: Record, f: string)
    ensures f in Writable(s, updates) <==> Sets(s, updates, f)
  {
  }

  // ─── The table ───

  /** The row holds in every field of the table what the record has, and the id it is filed under as text. */
  ghost predicate RowOf(s: Schema, t: Record, row: Record) {
    forall f :: (f in row <==> f in s.fields || f == "id") && (f in row ==>
      row[f] == if f == "id" then StoredText(Filed(s, t)) else if f in t then t[f] else Null)
  }

  /** The table has this row under this id and the others as they were. */
  ghost predicate With(rows: map<string, Record>, id: string, after: map<string, Record>) {
    id in after && forall k :: (k in after <==> k in rows || k == id) && (k in after && k != id ==> after[k] == rows[k])
  }

  /** What a write does to the table: an insert adds the row of its record, an update puts the new
      row in the place of the old one, a deletion takes one away, and an error changes nothing. */
  lemma StepMeans(s: Schema, rows: map<string, Record>, w: Write)
    ensures var after := Step(s, rows, w);
      match w
      case Insert(record, freshId) =>
        (match Inserted(s, rows, record, freshId)
         case Err(_) => after == rows
         case Ok(t) => With(rows, Filed(s, t), after) && RowOf(s, t, after[Filed(s, t)]))
      case Update(id, updates) =>
        (match Updated(s, rows, id, updates)
         case Err(_) => after == rows
         case Ok(t) => With(rows, id, after) && after[id] == t)
      case Delete(id) => forall k :: (k in after <==> k in rows && k != id) && (k in after ==> after[k] == rows[k])
  {
    hide Inserted, Updated;
    if w.Insert? && Inserted(s, rows, w.record, w.freshId).Ok? {
      StoredIsRow(s, Inserted(s, rows, w.record, w.freshId).value);
      hide StoredRow, RowOf;
    }
  }

  lemma StoredIsRow(s: Schema, t: Record)
    ensures IdOf(s, t) == Filed(s, t) && RowOf(s, t, StoredRow(s, t))
  {
  }
}
