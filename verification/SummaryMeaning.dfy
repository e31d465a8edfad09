/** What the figures, groups and shares of a report are, row by row. */
module SummaryMeaning {
  import opened Common
  import opened Evaluator
  import opened Summary

  // ─── Figures ───

  /** The row holds something in the field. */
  predicate HasValue(r: Record, field: string) { field in r && r[field] != Null }

  /** The places of the rows that hold something in the field. */
  function PlacesOf(rows: seq<Record>, field: string): set<nat> {
    set i: nat | i < |rows| && HasValue(rows[i], field)
  }

  /** The numbers in the field added up, from the first row on; what is no number adds nothing. */
  function AddedUp(rows: seq<Record>, field: string): real {
    if rows == [] then 0.0
    else
      (if field in rows[0] && rows[0][field].StoredNumber? then rows[0][field].num else 0.0)
      + AddedUp(rows[1..], field)
  }

  /** What the field holds, row by row, without the rows that hold nothing. */
  function HeldIn(rows: seq<Record>, field: string): seq<Stored> {
    if rows == [] then []
    else (if HasValue(rows[0], field) then [rows[0][field]] else []) + HeldIn(rows[1..], field)
  }

  lemma {:induction false} AddedUpMore(rows: seq<Record>, r: Record, field: string)
    ensures AddedUp(rows + [r], field) ==
      AddedUp(rows, field) + if field in r && r[field].StoredNumber? then r[field].num else 0.0
  {
    if rows != [] {
      assert (rows + [r])[1..] == rows[1..] + [r];
      AddedUpMore(rows[1..], r, field);
    } else {
      assert (rows + [r])[1..] == [];
    }
  }

  lemma {:induction false} HeldInMore(rows: seq<Record>, r: Record, field: string)
    ensures HeldIn(rows + [r], field) == HeldIn(rows, field) + if HasValue(r, field) then [r[field]] else []
  {
    if rows != [] {
      assert (rows + [r])[1..] == rows[1..] + [r];
      HeldInMore(rows[1..], r, field);
    } else {
      assert (rows + [r])[1..] == [];
    }
  }

  lemma PlacesMore(rows: seq<Record>, r: Record, field: string)
    ensures |PlacesOf(rows + [r], field)| == |PlacesOf(rows, field)| + if HasValue(r, field) then 1 else 0
  {
    hide HasValue;
    var all, n := rows + [r], |rows|;
    assert forall i :: 0 <= i < n ==> all[i] == rows[i];
    assert PlacesOf(all, field) == PlacesOf(rows, field) + if HasValue(r, field) then {n} else {};
    assert n !in PlacesOf(rows, field);
  }

  lemma {:induction false} ValuesMean(rows: seq<Record>, field: string)
    ensures Values(rows, field) == HeldIn(rows, field) && Sum(rows, AmountOf(field)) == AddedUp(rows, field)
    ensures |Values(rows, field)| == |PlacesOf(rows, field)|
  {
    if rows != [] {
      var front, last := rows[..|rows| - 1], rows[|rows| - 1];
      assert rows == front + [last];
      ValuesMean(front, field);
      AddedUpMore(front, last, field);
      HeldInMore(front, last, field);
      PlacesMore(front, last, field);
      hide PlacesOf, AddedUp, HeldIn;
    }
  }

  /**
   * The count is the number of rows that hold something in the field. The total and the average
   * are figures exactly if there is such a row: the total is the numbers added up, and the average
   * times the count is the total. The engine works out the others from what is held.
   */
  lemma FigureMeans(e: Engine, field: string, rows: seq<Record>)
    ensures var held, total := |PlacesOf(rows, field)|, Aggregate(e, Spec(Total, field), rows);
      var average := Aggregate(e, Spec(Average, field), rows);
      && Aggregate(e, Spec(Count, field), rows) == Some(StoredNumber(held as real))
      && total == (if held == 0 then None else Some(StoredNumber(AddedUp(rows, field))))
      && Aggregate(e, Spec(FractionOfTotal, field), rows) == total
      && (average.None? <==> held == 0)
      && (held > 0 ==> average.value.StoredNumber? && average.value.num * held as real == AddedUp(rows, field))
    ensures forall kind :: kind in {Minimum, Maximum, StandardDeviation} ==>
      Aggregate(e, Spec(kind, field), rows) == e.other(kind, HeldIn(rows, field))
  {
    ValuesMean(rows, field);
    hide Values, Sum, AddedUp, HeldIn, PlacesOf;
    if Values(rows, field) != [] { Divided(AddedUp(rows, field), |Values(rows, field)| as real); }
  }

  lemma Divided(sum: real, n: real)
    requires n != 0.0
    ensures sum / n * n == sum
  {
  }

  // ─── Groups ───

  /** The row has these break values, NULL where it has no such field. */
  predicate BreaksAt(e: Engine, groupBy: seq<string>, r: Record, key: seq<Stored>) {
    |key| == |groupBy| && forall i :: 0 <= i < |key| ==>
      key[i] == e.breakValue(if groupBy[i] in r then r[groupBy[i]] else Null)
  }

  /** The rows with these break values, in their order. */
  function RowsAt(e: Engine, groupBy: seq<string>, rows: seq<Record>, key: seq<Stored>): seq<Record> {
    if rows == [] then []
    else (if BreaksAt(e, groupBy, rows[0], key) then [rows[0]] else []) + RowsAt(e, groupBy, rows[1..], key)
  }

  lemma BreaksMean(e: Engine, groupBy: seq<string>, r: Record, key: seq<Stored>)
    ensures BreaksAt(e, groupBy, r, key) <==> BreakValues(e, groupBy, r) == key
  {
    var values := BreakValues(e, groupBy, r);
    forall i | 0 <= i < |groupBy|
      ensures values[i] == e.breakValue(if groupBy[i] in r then r[groupBy[i]] else Null)
    {
      assert ReadField(r, groupBy[i]) == if groupBy[i] in r then r[groupBy[i]] else Null;
    }
  }

  lemma {:induction false} RowsAtMore(e: Engine, groupBy: seq<string>, rows: seq<Record>, r: Record, key: seq<Stored>)
    ensures RowsAt(e, groupBy, rows + [r], key) ==
      RowsAt(e, groupBy, rows, key) + if BreaksAt(e, groupBy, r, key) then [r] else []
  {
    if rows != [] {
      assert (rows + [r])[1..] == rows[1..] + [r];
      RowsAtMore(e, groupBy, rows[1..], r, key);
    } else {
      assert (rows + [r])[1..] == [];
    }
  }

  lemma {:induction false} MembersMean(e: Engine, groupBy: seq<string>, rows: seq<Record>, key: seq<Stored>)
    ensures Members(e, groupBy, rows, key) == RowsAt(e, groupBy, rows, key)
  {
    if rows != [] {
      var front, last := rows[..|rows| - 1], rows[|rows| - 1];
      assert rows == front + [last];
      MembersMean(e, groupBy, front, key);
      RowsAtMore(e, groupBy, front, last, key);
      BreaksMean(e, groupBy, last, key);
      hide BreaksAt, BreakValues;
    }
  }

  /** There is one group for every combination of break values that a row has, and none else; it
      counts the rows that have it, and its figures are those over these rows. */
  lemma GroupsMean(e: Engine, specs: map<string, Spec>, names: seq<string>, groupBy: seq<string>, rows: seq<Record>)
    requires FairEngine(e) && forall n :: n in names ==> n in specs
    ensures var groups := Groups(e, specs, names, groupBy, rows);
      && (forall i, k :: 0 <= i < k < |groups| ==> groups[i].values != groups[k].values)
      && (forall r :: r in rows ==> exists i :: 0 <= i < |groups| && BreaksAt(e, groupBy, r, groups[i].values))
      && forall i :: 0 <= i < |groups| ==>
        && var members := RowsAt(e, groupBy, rows, groups[i].values);
        && members != [] && groups[i].count == |members|
        && (forall n :: n in groups[i].summaries <==> n in names)
        && forall n :: n in names ==> groups[i].summaries[n] == Aggregate(e, specs[n], members)
  {
    var keys := e.sorted(KeysOf(e, groupBy, rows));
    var groups := Groups(e, specs, names, groupBy, rows);
    forall r | r in rows ensures exists i :: 0 <= i < |groups| && BreaksAt(e, groupBy, r, groups[i].values) {
      var key := BreakValues(e, groupBy, r);
      BreaksMean(e, groupBy, r, key);
      assert key in KeysOf(e, groupBy, rows);
      var i :| 0 <= i < |keys| && keys[i] == key;
      assert groups[i].values == key;
    }
    forall i | 0 <= i < |groups|
      ensures RowsAt(e, groupBy, rows, groups[i].values) == Members(e, groupBy, rows, keys[i]) != []
    {
      MembersMean(e, groupBy, rows, keys[i]);
      assert keys[i] in KeysOf(e, groupBy, rows);
      var r :| r in rows && BreakValues(e, groupBy, r) == keys[i];
      MemberStays(e, groupBy, rows, r);
    }
    hide Aggregate, BreaksAt, RowsAt, Members, KeysOf;
  }

  lemma {:induction false} MemberStays(e: Engine, groupBy: seq<string>, rows: seq<Record>, r: Record)
    requires r in rows
    ensures r in Members(e, groupBy, rows, BreakValues(e, groupBy, r))
  {
    var front, last := rows[..|rows| - 1], rows[|rows| - 1];
    assert rows == front + [last];
    if last != r { MemberStays(e, groupBy, front, r); }
  }

  // ─── Shares ───

  /** The number a figure is, if it is one. */
  predicate IsNumber(f: Figure, n: real) { f == Some(StoredNumber(n)) }

  /** A share is a figure exactly if there is a total other than zero and a part of it, and times
      the total it is the part; the total itself is all of it. */
  lemma ShareMeans(total: Figure, part: Figure)
    ensures forall t, n :: IsNumber(total, t) && IsNumber(part, n) && t != 0.0 ==>
      Share(total, part).Some? && Share(total, part).value.StoredNumber? && Share(total, part).value.num * t == n
    ensures Share(total, part).Some? ==> exists t, n :: IsNumber(total, t) && IsNumber(part, n) && t != 0.0
    ensures GrandShare(total) == if exists t :: IsNumber(total, t) && t != 0.0 then Some(StoredNumber(1.0)) else None
  {
    forall t, n | IsNumber(total, t) && IsNumber(part, n) && t != 0.0
      ensures Share(total, part).Some? && Share(total, part).value.StoredNumber?
      ensures Share(total, part).value.num * t == n
    {
      assert n / t * t == n;
    }
    if Share(total, part).Some? { assert IsNumber(total, total.value.num) && IsNumber(part, part.value.num); }
    if HasShare(total) { assert IsNumber(total, total.value.num); }
  }

  // ─── What is asked for ───

  /** A report is made exactly if every summary asked for is known and every field it needs is
      there: of the summaries asked for, or of all if none is. */
  lemma WantedMeans(fields: set<string>, all: map<string, Spec>, asked: seq<string>, groupBy: seq<string>,
                    wanted: map<string, Spec>)
    ensures Wanted(fields, all, asked, groupBy) == Ok(wanted) <==>
      && (forall n :: n in asked ==> n in all)
      && (forall n :: n in wanted <==> n in all && (asked == [] || n in asked))
      && (forall n :: n in wanted ==> wanted[n] == all[n] && wanted[n].field in fields)
      && forall f :: f in groupBy ==> f in fields
  {
    var chosen := if asked == [] then all else map n | n in NameSet(asked) && n in all :: all[n];
    if (forall n :: n in wanted <==> n in all && (asked == [] || n in asked))
      && forall n :: n in wanted ==> wanted[n] == all[n]
    {
      assert wanted == chosen;
    }
  }
}
