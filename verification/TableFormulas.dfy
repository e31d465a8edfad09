/** Which formulas a table keeps: those of its columns that parse, and no others. */
module TableFormulas {
  import opened Common
  import opened Formula
  import opened Evaluator
  import opened Calculations
  import opened Order
  import opened Sorting
  import opened Records
  import Parser

  /** The column has a formula that parses. */
  predicate Computes(h: Host, c: Column) { Parser.Parse(h, c.formula).Ok? }

  /** What the formula of the column asks to be computed. */
  function Asked(h: Host, c: Column): Calculation
    requires Computes(h, c)
  {
    Calculation(c.name, Parser.Parse(h, c.formula).value, c.result)
  }

  /** No two columns of a table have one name. */
  predicate DistinctNames(columns: seq<Column>) {
    forall i, j :: 0 <= i < j < |columns| ==> columns[i].name != columns[j].name
  }

  /** Some column of that name has a formula that parses. */
  ghost predicate ComputesField(h: Host, columns: seq<Column>, f: string) {
    exists i :: 0 <= i < |columns| && columns[i].name == f && Computes(h, columns[i])
  }

  lemma OneMoreColumn(h: Host, front: seq<Column>, last: Column, f: string)
    ensures ComputesField(h, front + [last], f) <==>
      ComputesField(h, front, f) || (last.name == f && Computes(h, last))
  {
    hide Computes;
    var columns := front + [last];
    if i :| 0 <= i < |front| && front[i].name == f && Computes(h, front[i]) { assert columns[i] == front[i]; }
    if last.name == f && Computes(h, last) { assert columns[|front|] == last; }
  }

  lemma ParsedNext(h: Host, front: seq<Column>, last: Column)
    ensures var before, parsed := ParsedColumns(h, front), ParsedColumns(h, front + [last]);
      parsed == if Computes(h, last) then before[last.name := Asked(h, last)] else before
  {
    assert (front + [last])[..|front|] == front;
    hide Parser.Parse;
  }

  lemma {:induction false} ParsedAre(h: Host, columns: seq<Column>)
    ensures forall f :: f in ParsedColumns(h, columns) <==> ComputesField(h, columns, f)
    ensures DistinctNames(columns) ==> forall i :: 0 <= i < |columns| && Computes(h, columns[i]) ==>
      columns[i].name in ParsedColumns(h, columns) && ParsedColumns(h, columns)[columns[i].name] == Asked(h, columns[i])
  {
    hide Computes, ComputesField, Parser.Parse;
    if columns == [] {
      NoColumns(h);
    } else {
      var front, last := columns[..|columns| - 1], columns[|columns| - 1];
      assert columns == front + [last];
      ParsedAre(h, front);
      ParsedNext(h, front, last);
      forall f ensures f in ParsedColumns(h, columns) <==> ComputesField(h, columns, f) {
        OneMoreColumn(h, front, last, f);
      }
      hide ParsedColumns;
      assert forall i :: 0 <= i < |front| ==> front[i] == columns[i];
    }
  }

  lemma NoColumns(h: Host)
    ensures ParsedColumns(h, []) == map[] && forall f :: !ComputesField(h, [], f)
  {
  }

  /** Some column whose formula parses asks for this. */
  ghost predicate AskedBy(h: Host, columns: seq<Column>, c: Calculation) {
    exists i :: 0 <= i < |columns| && Computes(h, columns[i]) && c == Asked(h, columns[i])
  }

  /** A table's calculations are exactly what the formulas of its columns ask for that parse. */
  lemma LoadedAre(h: Host, columns: seq<Column>, cs: seq<Calculation>)
    requires TableCalculationsOf(h, columns) == Ok(cs)
    ensures forall f :: f in FieldsOf(cs) <==> ComputesField(h, columns, f)
    ensures DistinctNames(columns) ==>
      && (forall k :: 0 <= k < |cs| ==> AskedBy(h, columns, cs[k]))
      && (forall i :: 0 <= i < |columns| && Computes(h, columns[i]) ==> Asked(h, columns[i]) in cs)
  {
    ParsedAre(h, columns);
    TableCalculationsInOrder(h, columns);
    hide TableCalculationsOf, ParsedColumns, Computes, InOrder, FieldsOf, Asked;
    if DistinctNames(columns) {
      hide DistinctNames;
      forall k | 0 <= k < |cs| ensures AskedBy(h, columns, cs[k]) {
        var i := ColumnAt(h, columns, cs[k].field);
        assert cs[k] == Asked(h, columns[i]);
      }
      forall i | 0 <= i < |columns| && Computes(h, columns[i]) ensures Asked(h, columns[i]) in cs {
        var k := FieldAt(cs, columns[i].name);
        assert cs[k] == Asked(h, columns[i]);
      }
    }
  }

  lemma ColumnAt(h: Host, columns: seq<Column>, f: string) returns (i: nat)
    requires ComputesField(h, columns, f)
    ensures i < |columns| && columns[i].name == f && Computes(h, columns[i])
  {
    i :| 0 <= i < |columns| && columns[i].name == f && Computes(h, columns[i]);
  }

  lemma FieldAt(cs: seq<Calculation>, f: string) returns (k: nat)
    requires f in FieldsOf(cs)
    ensures k < |cs| && cs[k].field == f
  {
    k :| 0 <= k < |cs| && cs[k].field == f;
  }

  // ─── Rings ───

  /** Each column of the walk has a formula that parses and reads the next one, and the last is the first. */
  ghost predicate FormulaRing(h: Host, columns: seq<Column>, w: seq<string>) {
    |w| >= 2 && w[0] == w[|w| - 1] && forall j :: 0 <= j < |w| - 1 ==> FormulaReads(h, columns, w[j], w[j + 1])
  }

  ghost predicate FormulaReads(h: Host, columns: seq<Column>, f: string, g: string) {
    && ComputesField(h, columns, g)
    && exists i :: 0 <= i < |columns| && columns[i].name == f && Computes(h, columns[i])
         && g in Fields(Asked(h, columns[i]).expr)
  }

  ghost function FormulaGraph(h: Host, columns: seq<Column>): Graph { GraphOf(MentionsOf(ParsedColumns(h, columns))) }

  lemma ReadsAreEdges(h: Host, columns: seq<Column>, f: string, g: string)
    requires DistinctNames(columns)
    ensures var graph := FormulaGraph(h, columns);
      FormulaReads(h, columns, f, g) <==> f in graph && g in graph && g in graph[f]
  {
    ParsedAre(h, columns);
    hide ParsedColumns, Computes, Asked, Fields;
    var parsed := ParsedColumns(h, columns);
    if f in parsed {
      assert g in MentionsOf(parsed)[f] <==> g in Fields(parsed[f].expr);
    }
  }

  lemma RingIsWalk(h: Host, columns: seq<Column>, w: seq<string>)
    requires DistinctNames(columns)
    ensures FormulaRing(h, columns, w) <==> ClosedWalk(FormulaGraph(h, columns), w)
  {
    hide FormulaGraph, FormulaReads;
    var graph := FormulaGraph(h, columns);
    forall j | 0 <= j < |w| - 1
      ensures FormulaReads(h, columns, w[j], w[j + 1]) <==>
        w[j] in graph && w[j + 1] in graph && w[j + 1] in graph[w[j]]
    {
      ReadsAreEdges(h, columns, w[j], w[j + 1]);
    }
    if FormulaRing(h, columns, w) {
      forall i | 0 <= i < |w| ensures w[i] in graph {
        var j := if i < |w| - 1 then i else 0;
        assert w[j] == w[i] && FormulaReads(h, columns, w[j], w[j + 1]);
      }
    }
  }

  lemma RefusedIsRing(h: Host, columns: seq<Column>)
    ensures var r := TableCalculationsOf(h, columns);
      && (r.Ok? <==> Acyclic(FormulaGraph(h, columns)))
      && (r.Err? ==> ClosedWalk(FormulaGraph(h, columns), r.error))
  {
    OrderCorrect(MentionsOf(ParsedColumns(h, columns)));
    hide OrderOf, GraphOf, MentionsOf, ParsedColumns, Acyclic, ClosedWalk;
  }

  /** The formulas of a table are refused exactly if some of them read each other in a ring, and the
      fields reported are such a ring. */
  lemma RingsRefused(h: Host, columns: seq<Column>)
    requires DistinctNames(columns)
    ensures var r := TableCalculationsOf(h, columns);
      && (r.Err? <==> exists w :: FormulaRing(h, columns, w))
      && (r.Err? ==> FormulaRing(h, columns, r.error))
  {
    RefusedIsRing(h, columns);
    hide FormulaRing, ClosedWalk, FormulaGraph, TableCalculationsOf, DistinctNames;
    forall w ensures FormulaRing(h, columns, w) <==> ClosedWalk(FormulaGraph(h, columns), w) {
      RingIsWalk(h, columns, w);
    }
  }

  // ─── Every formula of the table, in every row ───

  /** The column, if it has a formula that parses, holds what it comes to over the row. */
  predicate ColumnHolds(h: Host, c: Column, row: Record) {
    Computes(h, c) ==> c.name in row && Evaluate(h, Asked(h, c).expr, row, c.result) == Ok(row[c.name])
  }

  ghost predicate EveryFormulaHolds(s: Schema, rows: map<string, Record>) {
    forall id, i :: id in rows && 0 <= i < |s.columns| ==> ColumnHolds(s.h, s.columns[i], rows[id])
  }

  /** No formula of the table that parses reads the id. */
  predicate NoColumnReadsId(s: Schema) {
    forall i :: 0 <= i < |s.columns| && Computes(s.h, s.columns[i]) ==>
      "id" !in Fields(Asked(s.h, s.columns[i]).expr)
  }

  /** What is inserted has an id of text, or none, or one that no formula sees. */
  predicate FitToWrite(s: Schema, w: Write) {
    w.Insert? ==>
      (w.freshId != ""
       && (ReadField(w.record, "id").Null? || ReadField(w.record, "id").StoredText? || NoColumnReadsId(s)))
  }

  lemma AskedIsLoaded(s: Schema, cs: seq<Calculation>, i: nat)
    requires DistinctNames(s.columns) && HasCalculations(s, cs) && i < |s.columns| && Computes(s.h, s.columns[i])
    ensures Asked(s.h, s.columns[i]) in cs
  {
    LoadedAre(s.h, s.columns, cs);
    hide TableCalculationsOf, Computes, Asked, ComputesField, AskedBy, FieldsOf;
  }

  lemma LoadedIsAsked(s: Schema, cs: seq<Calculation>, k: nat) returns (i: nat)
    requires DistinctNames(s.columns) && HasCalculations(s, cs) && k < |cs|
    ensures i < |s.columns| && Computes(s.h, s.columns[i]) && cs[k] == Asked(s.h, s.columns[i])
  {
    LoadedAre(s.h, s.columns, cs);
    hide TableCalculationsOf, Computes, Asked, ComputesField, FieldsOf;
    assert AskedBy(s.h, s.columns, cs[k]);
    i :| 0 <= i < |s.columns| && Computes(s.h, s.columns[i]) && cs[k] == Asked(s.h, s.columns[i]);
  }

  lemma ColumnsAreCalculations(s: Schema, cs: seq<Calculation>, row: Record)
    requires DistinctNames(s.columns) && HasCalculations(s, cs) && AllWellFormed(cs)
    ensures Consistent(s.h, cs, row) <==> forall i :: 0 <= i < |s.columns| ==> ColumnHolds(s.h, s.columns[i], row)
  {
    hide TableCalculationsOf, HasCalculations, Computes, DistinctNames, ColumnHolds, Holds, Asked;
    if Consistent(s.h, cs, row) {
      forall i | 0 <= i < |s.columns| ensures ColumnHolds(s.h, s.columns[i], row) {
        if Computes(s.h, s.columns[i]) {
          AskedIsLoaded(s, cs, i);
          AskedHolds(s, cs, row, Asked(s.h, s.columns[i]));
        }
        ColumnAsked(s.h, s.columns[i], row);
      }
    }
    if forall i :: 0 <= i < |s.columns| ==> ColumnHolds(s.h, s.columns[i], row) {
      forall k | 0 <= k < |cs| ensures Holds(s.h, cs[k], row) {
        var i := LoadedIsAsked(s, cs, k);
        ColumnAsked(s.h, s.columns[i], row);
      }
    }
  }

  lemma ColumnAsked(h: Host, c: Column, row: Record)
    ensures Computes(h, c) ==> WellFormed(Asked(h, c).expr)
    ensures ColumnHolds(h, c, row) <==> (Computes(h, c) ==> Holds(h, Asked(h, c), row))
  {
    hide Evaluate, Parser.Parse;
  }

  lemma AskedHolds(s: Schema, cs: seq<Calculation>, row: Record, c: Calculation)
    requires AllWellFormed(cs) && Consistent(s.h, cs, row) && c in cs
    ensures WellFormed(c.expr) && Holds(s.h, c, row)
  {
    var k :| 0 <= k < |cs| && cs[k] == c;
    assert Holds(s.h, cs[k], row);
    hide Holds;
  }

  lemma IdReadIsNone(s: Schema, cs: seq<Calculation>)
    requires DistinctNames(s.columns) && HasCalculations(s, cs)
    ensures NoColumnReadsId(s) ==> NoneReadsId(cs)
  {
    LoadedAre(s.h, s.columns, cs);
    hide TableCalculationsOf, Fields;
    if NoColumnReadsId(s) {
      forall k | 0 <= k < |cs| ensures "id" !in Fields(cs[k].expr) { assert AskedBy(s.h, s.columns, cs[k]); }
    }
  }

  /** Over every run of inserts, updates and deletions, every formula of the table that parses
      stays satisfied in every row; the table's formulas must not read each other in a ring. */
  lemma RunKeepsFormulas(s: Schema, rows: map<string, Record>, ws: seq<Write>)
    requires Sound(s) && DistinctNames(s.columns) && ValidRows(s, rows) && EveryFormulaHolds(s, rows)
    requires !(exists w :: FormulaRing(s.h, s.columns, w)) && forall i :: 0 <= i < |ws| ==> FitToWrite(s, ws[i])
    ensures ValidRows(s, Run(s, rows, ws)) && EveryFormulaHolds(s, Run(s, rows, ws))
  {
    RingsRefused(s.h, s.columns);
    var cs := TableCalculationsOf(s.h, s.columns).value;
    LoadedInOrder(s, cs);
    IdReadIsNone(s, cs);
    hide Sound, TableCalculationsOf, Consistent, ColumnHolds, Run, FormulaRing, NoneReadsId, NoColumnReadsId, ValidRows;
    forall id | id in rows ensures Consistent(s.h, cs, rows[id]) { ColumnsAreCalculations(s, cs, rows[id]); }
    RunHolds(s, cs, rows, ws);
    var after := Run(s, rows, ws);
    forall id, i | id in after && 0 <= i < |s.columns| ensures ColumnHolds(s.h, s.columns[i], after[id]) {
      ColumnsAreCalculations(s, cs, after[id]);
    }
  }
}
