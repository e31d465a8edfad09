/** Imports that leave a formula wrong. */
module ImportExceptions {
  import opened Common
  import opened Evaluator
  import opened Calculations
  import opened Import
  import Formula

  /** A file with one name in it goes to a table of people whose badge is copied from the field `f`. */
  function NameFile(h: Host, readers: Readers, f: string, action: Action): Job {
    Job(h, readers,
        map["id" := TextField, "name" := TextField, "city" := TextField, "badge" := TextField],
        [Calculation("badge", Formula.FieldNode(f, 0), AsText)],
        (rows: Rows, id: string, r: Record) => true,
        (v: Stored) => if v.StoredText? then v.text else "0", (t: string) => t,
        (rows: Rows, s: set<string>) => if "1" in s then "1" else "",
        Source(["Name"], [["Ann"]]), Options(action, [Mapping(0, "name")], ["name"], true, Iso))
  }

  lemma NameTrimmed(h: Host)
    ensures Trim(h, "name") == "name"
  {
    assert !IsSpace(h, 'n') && !IsSpace(h, 'e');
  }

  lemma NameChecked(h: Host, readers: Readers, f: string, action: Action)
    requires !action.OtherAction?
    ensures var j := NameFile(h, readers, f, action);
      FieldsOf(j.cs) == {"badge"} && Checked(j) == Ok(["name"])
  {
    var j := NameFile(h, readers, f, action);
    NameTrimmed(h);
    hide Trim;
    var m := j.opts.mappings;
    assert m[..0] == [] && m[0] == Mapping(0, "name") && [] + ["name"] == ["name"];
    assert Written(j, m) == Ok(["name"]);
    assert j.opts.matchFields[1..] == [] && MatchFieldError(j, ["name"], ["name"]) == None;
    assert j.cs[0].field == "badge";
  }

  /** What NameFile's row makes. */
  function NameRead(): Record { map["name" := StoredText("Ann"), "badge" := Null] }

  lemma NameRow(h: Host, readers: Readers, f: string, action: Action)
    requires f in {"id", "city"} && !action.OtherAction?
    ensures var j := NameFile(h, readers, f, action);
      && j.opts.action == action && |j.source.rows| == 1 && (forall rows, id, r :: j.accepts(rows, id, r))
      && AllWellFormed(j.cs) && Checked(j) == Ok(["name"])
      && RowRecord(j, 0) == Ok(NameRead())
  {
    var j := NameFile(h, readers, f, action);
    NameChecked(h, readers, f, action);
    NameTrimmed(h);
    hide Trim, Checked, FieldsOf;
    var m := j.opts.mappings;
    assert m[..0] == [] && m[0] == Mapping(0, "name");
    var base: Record := map["name" := StoredText("Ann")];
    assert Read(j, 0, m) == Ok(base);
    assert Evaluate(h, j.cs[0].expr, base, AsText) == Ok(Null);
    assert ApplyFrom(h, j.cs, 0, base) == ApplyFrom(h, j.cs, 1, base["badge" := Null]);
  }

  /** The badge of a record with text in the field is right if it is that text. */
  lemma BadgeHolds(h: Host, readers: Readers, f: string, action: Action, r: Record)
    requires f in r && r[f].StoredText? && r[f].text != ""
    ensures var j := NameFile(h, readers, f, action);
      AllWellFormed(j.cs) && (Consistent(h, j.cs, r) <==> "badge" in r && r["badge"] == r[f])
  {
    var cs := NameFile(h, readers, f, action).cs;
    assert Evaluate(h, cs[0].expr, r, AsText) == Ok(r[f]);
    assert Consistent(h, cs, r) <==> Holds(h, cs[0], r);
  }

  /** What a file of one row comes to when its record is added. */
  lemma OneAdded(j: Job, newId: nat -> string, r: Record)
    requires AllWellFormed(j.cs) && Checked(j).Ok? && |j.source.rows| == 1 && j.opts.action.Add?
    requires RowRecord(j, 0) == Ok(r) && forall rows, id, s :: j.accepts(rows, id, s)
    ensures var o := Outcome(j, newId, map[]);
      o.Ok? && o.value.1 == map[newId(0) := AddedRow(j, r, newId(0))]
  {
    hide Checked, RowRecord, AddedRow;
    assert Imported(j, newId, map[], 0) == Ok(Progress(map[], 0, 0, 0));
  }

  /** What a file of one row comes to when it updates a record. */
  lemma OneUpdated(j: Job, newId: nat -> string, rows: Rows, r: Record, id: string)
    requires AllWellFormed(j.cs) && Checked(j).Ok? && |j.source.rows| == 1 && j.opts.action.UpdateMatching?
    requires RowRecord(j, 0) == Ok(r) && forall rows, id, s :: j.accepts(rows, id, s)
    requires FindMatching(j, rows, r) == id && id in rows && id != ""
    ensures var o := Outcome(j, newId, rows);
      o.Ok? && o.value.1 == rows[id := UpdatedRow(rows[id], r)]
  {
    hide Checked, RowRecord, FindMatching, UpdatedRow;
    assert Imported(j, newId, rows, 0) == Ok(Progress(rows, 0, 0, 0));
  }

  function Seven(row: nat): string { "7" }

  function Ann(id: string, city: Stored, badge: Stored): Record {
    map["id" := StoredText(id), "name" := StoredText("Ann"), "city" := city, "badge" := badge]
  }

  lemma AnnAdded(h: Host, readers: Readers)
    ensures AddedRow(NameFile(h, readers, "id", Add), NameRead(), "7") == Ann("7", Null, Null)
  {
  }

  /** The badge is to be the id. The record the import adds has an id and no badge. */
  lemma IdIsReadTooEarly(h: Host, readers: Readers)
    ensures var j := NameFile(h, readers, "id", Add);
      && AllWellFormed(j.cs) && Outcome(j, Seven, map[]).Ok?
      && var rows := Outcome(j, Seven, map[]).value.1;
      && rows == map["7" := Ann("7", Null, Null)] && !Consistent(h, j.cs, rows["7"])
  {
    NameRow(h, readers, "id", Add);
    BadgeHolds(h, readers, "id", Add, Ann("7", Null, Null));
    AnnAdded(h, readers);
    hide NameFile, Outcome, RowRecord, Checked, Consistent, AllWellFormed, AddedRow, NameRead;
    OneAdded(NameFile(h, readers, "id", Add), Seven, NameRead());
  }

  function Roman(badge: Stored): Rows { map["1" := Ann("1", StoredText("Rome"), badge)] }

  lemma RomanFound(h: Host, readers: Readers)
    ensures FindMatching(NameFile(h, readers, "city", UpdateMatching), Roman(StoredText("Rome")), NameRead()) == "1"
  {
    var j, rows := NameFile(h, readers, "city", UpdateMatching), Roman(StoredText("Rome"));
    assert Printed(j, ReadField(NameRead(), "name")) == "Ann" && FieldMatches(j, rows["1"], NameRead(), "name");
    assert "1" in Matching(j, rows, NameRead());
  }

  lemma RomanUpdated()
    ensures var rows := Roman(StoredText("Rome"));
      "1" in rows && rows["1" := UpdatedRow(rows["1"], NameRead())] == Roman(Null)
  {
    assert UpdatedRow(Roman(StoredText("Rome"))["1"], NameRead()) == Ann("1", StoredText("Rome"), Null);
  }

  /** The badge is to be the city, and is. Updating by a file without cities takes it away. */
  lemma UpdateLosesBadge(h: Host, readers: Readers)
    ensures var j, rows := NameFile(h, readers, "city", UpdateMatching), Roman(StoredText("Rome"));
      && AllWellFormed(j.cs) && Consistent(h, j.cs, rows["1"])
      && Outcome(j, Seven, rows).Ok? && Outcome(j, Seven, rows).value.1 == Roman(Null)
      && !Consistent(h, j.cs, Roman(Null)["1"])
  {
    var j, rows := NameFile(h, readers, "city", UpdateMatching), Roman(StoredText("Rome"));
    NameRow(h, readers, "city", UpdateMatching);
    BadgeHolds(h, readers, "city", UpdateMatching, rows["1"]);
    BadgeHolds(h, readers, "city", UpdateMatching, Roman(Null)["1"]);
    RomanFound(h, readers);
    RomanUpdated();
    hide *;
    OneUpdated(j, Seven, rows, NameRead(), "1");
  }
}
