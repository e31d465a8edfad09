/** data/summary.go: reports, their figures and their groups. */
module Summary {
  import opened Common
  import opened Evaluator

  datatype SummaryType = Total | Average | Count | Minimum | Maximum | StandardDeviation | FractionOfTotal

  /** What a summary field works out, and over which field. */
  datatype Spec = Spec(kind: SummaryType, field: string)

  /** A figure of a report; nothing where there is nothing to aggregate. */
  type Figure = Option<Stored>

  /**
   * What the database engine decides: minima, maxima and deviations, which break values it
   * counts as one, and the order in which it sorts groups.
   */
  datatype Engine = Engine(
    other: (SummaryType, seq<Stored>) -> Figure,
    breakValue: Stored -> Stored,
    sorted: set<seq<Stored>> -> seq<seq<Stored>>)

  datatype Group = Group(values: seq<Stored>, count: nat, summaries: map<string, Figure>)

  datatype SummaryError = UnknownSummary | UnknownField

  // ─── Aggregates ───

  function Amount(field: string, r: Record): real {
    match ReadField(r, field) case StoredNumber(n) => n case _ => 0.0
  }

  function AmountOf(field: string): Record -> real { r => Amount(field, r) }

  function PresenceOf(field: string): Record -> real { r => if ReadField(r, field).Null? then 0.0 else 1.0 }

  function Unit(): Record -> real { r => 1.0 }

  function Sum(rows: seq<Record>, weight: Record -> real): real {
    if rows == [] then 0.0 else Sum(rows[..|rows| - 1], weight) + weight(rows[|rows| - 1])
  }

  /** The values of a field that are not NULL. */
  function Values(rows: seq<Record>, field: string): seq<Stored> {
    if rows == [] then []
    else
      var v := ReadField(rows[|rows| - 1], field);
      Values(rows[..|rows| - 1], field) + if v.Null? then [] else [v]
  }

  function TotalOf(rows: seq<Record>, field: string): Figure {
    if Values(rows, field) == [] then None else Some(StoredNumber(Sum(rows, AmountOf(field))))
  }

  /** aggregateSQL over a set of rows. */
  function Aggregate(e: Engine, spec: Spec, rows: seq<Record>): Figure {
    var values := Values(rows, spec.field);
    match spec.kind
    case Total | FractionOfTotal => TotalOf(rows, spec.field)
    case Average =>
      if values == [] then None
      else Some(StoredNumber(Sum(rows, AmountOf(spec.field)) / |values| as real))
    case Count => Some(StoredNumber(|values| as real))
    case kind => e.other(kind, values)
  }

  function Figures(e: Engine, specs: map<string, Spec>, names: seq<string>, rows: seq<Record>): (m: map<string, Figure>)
    requires forall name :: name in names ==> name in specs
    ensures forall name :: name in m <==> name in names
    ensures forall name :: name in names ==> m[name] == Aggregate(e, specs[name], rows)
  {
    map name | name in names :: Aggregate(e, specs[name], rows)
  }

  // ─── Groups ───

  function BreakValues(e: Engine, groupBy: seq<string>, r: Record): (key: seq<Stored>)
    ensures |key| == |groupBy|
  {
    seq(|groupBy|, i requires 0 <= i < |groupBy| => e.breakValue(ReadField(r, groupBy[i])))
  }

  function KeysOf(e: Engine, groupBy: seq<string>, rows: seq<Record>): set<seq<Stored>> {
    set r | r in rows :: BreakValues(e, groupBy, r)
  }

  /** The rows of one group. */
  function Members(e: Engine, groupBy: seq<string>, rows: seq<Record>, key: seq<Stored>): seq<Record> {
    if rows == [] then []
    else
      var last := rows[|rows| - 1];
      Members(e, groupBy, rows[..|rows| - 1], key) + if BreakValues(e, groupBy, last) == key then [last] else []
  }

  function GroupOf(e: Engine, specs: map<string, Spec>, names: seq<string>, groupBy: seq<string>, rows: seq<Record>,
                   key: seq<Stored>): Group
    requires forall name :: name in names ==> name in specs
  {
    var members := Members(e, groupBy, rows, key);
    Group(key, |members|, Figures(e, specs, names, members))
  }

  /** summaryGroups: one group for each of the keys. */
  function GroupsFor(e: Engine, specs: map<string, Spec>, names: seq<string>, groupBy: seq<string>, rows: seq<Record>,
                     keys: seq<seq<Stored>>):
    (gs: seq<Group>)
    requires forall name :: name in names ==> name in specs
    ensures |gs| == |keys|
    ensures forall i :: 0 <= i < |keys| ==> gs[i] == GroupOf(e, specs, names, groupBy, rows, keys[i])
  {
    seq(|keys|, i requires 0 <= i < |keys| => GroupOf(e, specs, names, groupBy, rows, keys[i]))
  }

  /** The engine sorts the keys it is given, each once. */
  ghost predicate FairEngine(e: Engine) {
    forall keys :: Distinct(e.sorted(keys)) && forall k :: k in e.sorted(keys) <==> k in keys
  }

  // ─── Fractions of the total ───

  function NumberIn(f: Figure): Option<real> {
    if f.Some? && f.value.StoredNumber? then Some(f.value.num) else None
  }

  function AsNumber(f: Figure): real { match NumberIn(f) case Some(n) => n case None => 0.0 }

  predicate HasShare(total: Figure) { NumberIn(total).Some? && NumberIn(total).value != 0.0 }

  function GrandShare(total: Figure): Figure { if HasShare(total) then Some(StoredNumber(1.0)) else None }

  function Share(total: Figure, part: Figure): Figure {
    if HasShare(total) && NumberIn(part).Some? then
      Some(StoredNumber(NumberIn(part).value / NumberIn(total).value))
    else None
  }

  function FigureOf(m: map<string, Figure>, name: string): Figure { if name in m then m[name] else None }

  function NameSet(names: seq<string>): set<string> { set n | n in names }

  /** The field shows a fraction of the total. */
  predicate IsFraction(specs: map<string, Spec>, name: string) { name in specs && specs[name].kind.FractionOfTotal? }

  function FractionNames(specs: map<string, Spec>, names: set<string>): set<string> {
    set name | name in names && IsFraction(specs, name)
  }

  /** The figures of a group with shares for totals in the fields named. */
  function WithShares(m: map<string, Figure>, grand: map<string, Figure>, fractions: set<string>): map<string, Figure> {
    map name | name in m.Keys + fractions ::
      if name in fractions then Share(FigureOf(grand, name), FigureOf(m, name)) else FigureOf(m, name)
  }

  function WithGrandShares(grand: map<string, Figure>, fractions: set<string>): map<string, Figure> {
    map name | name in grand.Keys + fractions ::
      if name in fractions then GrandShare(FigureOf(grand, name)) else FigureOf(grand, name)
  }

  // ─── What the groups add up to ───

  /** The figures of a field over all groups added up, nothing counting as zero. */
  function AddUp(groups: seq<Group>, name: string): real {
    if groups == [] then 0.0
    else AddUp(groups[..|groups| - 1], name) + AsNumber(FigureOf(groups[|groups| - 1].summaries, name))
  }

  function CountAll(groups: seq<Group>): nat {
    if groups == [] then 0 else CountAll(groups[..|groups| - 1]) + groups[|groups| - 1].count
  }

  /** The weights of the rows of all groups. */
  function SumGroups(e: Engine, groupBy: seq<string>, rows: seq<Record>, keys: seq<seq<Stored>>,
                     weight: Record -> real): real {
    if keys == [] then 0.0
    else
      SumGroups(e, groupBy, rows, keys[..|keys| - 1], weight)
      + Sum(Members(e, groupBy, rows, keys[|keys| - 1]), weight)
  }

  lemma {:induction false} OneMoreRow(e: Engine, groupBy: seq<string>, rows: seq<Record>, r: Record,
                                      keys: seq<seq<Stored>>, weight: Record -> real)
    requires Distinct(keys)
    ensures SumGroups(e, groupBy, rows + [r], keys, weight)
         == SumGroups(e, groupBy, rows, keys, weight) + if BreakValues(e, groupBy, r) in keys then weight(r) else 0.0
  {
    if keys != [] {
      var front, key := keys[..|keys| - 1], keys[|keys| - 1];
      assert keys == front + [key];
      OneMoreRow(e, groupBy, rows, r, front, weight);
      assert (rows + [r])[..|rows|] == rows;
      var members := Members(e, groupBy, rows, key);
      assert members + [] == members && (members + [r])[..|members|] == members;
      assert key !in front;
    }
  }

  /** Every row counts in exactly one group. */
  lemma {:induction false} GroupsPartition(e: Engine, groupBy: seq<string>, rows: seq<Record>, keys: seq<seq<Stored>>,
                                           weight: Record -> real)
    requires Distinct(keys) && forall r :: r in rows ==> BreakValues(e, groupBy, r) in keys
    ensures SumGroups(e, groupBy, rows, keys, weight) == Sum(rows, weight)
  {
    if rows == [] {
      NothingInGroups(e, groupBy, keys, weight);
    } else {
      var front, r := rows[..|rows| - 1], rows[|rows| - 1];
      assert rows == front + [r];
      GroupsPartition(e, groupBy, front, keys, weight);
      OneMoreRow(e, groupBy, front, r, keys, weight);
    }
  }

  lemma {:induction false} NothingInGroups(e: Engine, groupBy: seq<string>, keys: seq<seq<Stored>>,
                                           weight: Record -> real)
    ensures SumGroups(e, groupBy, [], keys, weight) == 0.0
  {
    if keys != [] { NothingInGroups(e, groupBy, keys[..|keys| - 1], weight); }
  }

  lemma {:induction false} SumOfOnes(rows: seq<Record>)
    ensures Sum(rows, Unit()) == |rows| as real
  {
    if rows != [] { SumOfOnes(rows[..|rows| - 1]); }
  }

  /** A total that is nothing is a sum of zero. */
  lemma {:induction false} NoValuesNoSum(rows: seq<Record>, field: string)
    requires Values(rows, field) == []
    ensures Sum(rows, AmountOf(field)) == 0.0
  {
    if rows != [] { NoValuesNoSum(rows[..|rows| - 1], field); }
  }

  lemma {:induction false} ValuesCounted(rows: seq<Record>, field: string)
    ensures Sum(rows, PresenceOf(field)) == |Values(rows, field)| as real
  {
    if rows != [] { ValuesCounted(rows[..|rows| - 1], field); }
  }

  /** Summaries whose figures for parts of a found set add up to that for all of it. */
  predicate Adds(spec: Spec) { spec.kind in {Total, FractionOfTotal, Count} }

  function WeightOf(spec: Spec): Record -> real {
    if spec.kind == Count then PresenceOf(spec.field) else AmountOf(spec.field)
  }

  lemma FigureIsSum(e: Engine, spec: Spec, rows: seq<Record>)
    requires Adds(spec)
    ensures AsNumber(Aggregate(e, spec, rows)) == Sum(rows, WeightOf(spec))
  {
    if spec.kind == Count { ValuesCounted(rows, spec.field); }
    else if Values(rows, spec.field) == [] { NoValuesNoSum(rows, spec.field); }
  }

  lemma {:induction false} AddUpIsSum(e: Engine, specs: map<string, Spec>, names: seq<string>, groupBy: seq<string>,
                                      rows: seq<Record>, keys: seq<seq<Stored>>, name: string)
    requires (forall n :: n in names ==> n in specs) && name in names && Adds(specs[name])
    ensures AddUp(GroupsFor(e, specs, names, groupBy, rows, keys), name)
         == SumGroups(e, groupBy, rows, keys, WeightOf(specs[name]))
  {
    if keys != [] {
      var front, key := keys[..|keys| - 1], keys[|keys| - 1];
      AddUpIsSum(e, specs, names, groupBy, rows, front, name);
      var gs := GroupsFor(e, specs, names, groupBy, rows, keys);
      assert gs[..|gs| - 1] == GroupsFor(e, specs, names, groupBy, rows, front);
      FigureIsSum(e, specs[name], Members(e, groupBy, rows, key));
    }
  }

  lemma {:induction false} CountAllIsSum(e: Engine, specs: map<string, Spec>, names: seq<string>, groupBy: seq<string>,
                                         rows: seq<Record>, keys: seq<seq<Stored>>)
    requires forall n :: n in names ==> n in specs
    ensures CountAll(GroupsFor(e, specs, names, groupBy, rows, keys)) as real
         == SumGroups(e, groupBy, rows, keys, Unit())
  {
    if keys != [] {
      var front, key := keys[..|keys| - 1], keys[|keys| - 1];
      CountAllIsSum(e, specs, names, groupBy, rows, front);
      var gs := GroupsFor(e, specs, names, groupBy, rows, keys);
      assert gs[..|gs| - 1] == GroupsFor(e, specs, names, groupBy, rows, front);
      SumOfOnes(Members(e, groupBy, rows, key));
    }
  }

  /** The groups of a report. */
  function Groups(e: Engine, specs: map<string, Spec>, names: seq<string>, groupBy: seq<string>,
                  rows: seq<Record>): seq<Group>
    requires forall n :: n in names ==> n in specs
  {
    GroupsFor(e, specs, names, groupBy, rows, e.sorted(KeysOf(e, groupBy, rows)))
  }

  /** The counts of the groups add up to the count of the found set, and so do the totals and
      counts of every field, nothing counting as zero. */
  lemma GroupsAddUp(e: Engine, specs: map<string, Spec>, names: seq<string>, groupBy: seq<string>, rows: seq<Record>)
    requires FairEngine(e) && forall n :: n in names ==> n in specs
    ensures var groups := Groups(e, specs, names, groupBy, rows);
      && CountAll(groups) == |rows|
      && (forall n :: n in names && Adds(specs[n]) ==>
          AddUp(groups, n) == AsNumber(Figures(e, specs, names, rows)[n]))
  {
    var keys := e.sorted(KeysOf(e, groupBy, rows));
    forall r | r in rows ensures BreakValues(e, groupBy, r) in keys {
      assert BreakValues(e, groupBy, r) in KeysOf(e, groupBy, rows);
    }
    GroupsPartition(e, groupBy, rows, keys, Unit());
    SumOfOnes(rows);
    CountAllIsSum(e, specs, names, groupBy, rows, keys);
    forall n | n in names && Adds(specs[n])
      ensures AddUp(GroupsFor(e, specs, names, groupBy, rows, keys), n) == AsNumber(Figures(e, specs, names, rows)[n])
    {
      GroupsPartition(e, groupBy, rows, keys, WeightOf(specs[n]));
      AddUpIsSum(e, specs, names, groupBy, rows, keys, n);
      FigureIsSum(e, specs[n], rows);
    }
  }

  function Shared(gs: seq<Group>, grand: map<string, Figure>, fractions: set<string>): (r: seq<Group>)
    ensures |r| == |gs|
    ensures forall i :: 0 <= i < |gs| ==> r[i] == gs[i].(summaries := WithShares(gs[i].summaries, grand, fractions))
  {
    seq(|gs|, i requires 0 <= i < |gs| => gs[i].(summaries := WithShares(gs[i].summaries, grand, fractions)))
  }

  lemma AddedShares(a: real, b: real, t: real)
    requires t != 0.0
    ensures (a + b) / t == a / t + b / t
  {
  }

  lemma {:induction false} SharesAre(gs: seq<Group>, grand: map<string, Figure>, fractions: set<string>, name: string)
    requires name in fractions
    ensures var total := FigureOf(grand, name);
      AddUp(Shared(gs, grand, fractions), name) ==
        if HasShare(total) then AddUp(gs, name) / NumberIn(total).value else 0.0
  {
    if gs != [] {
      var front, last := gs[..|gs| - 1], gs[|gs| - 1];
      SharesAre(front, grand, fractions, name);
      var shared := Shared(gs, grand, fractions);
      assert shared[..|shared| - 1] == Shared(front, grand, fractions);
      var total := FigureOf(grand, name);
      assert FigureOf(shared[|shared| - 1].summaries, name) == Share(total, FigureOf(last.summaries, name));
      if HasShare(total) {
        AddedShares(AddUp(front, name), AsNumber(FigureOf(last.summaries, name)), NumberIn(total).value);
      }
      hide WithShares, Shared;
    }
  }

  lemma NoShares(gs: seq<Group>, grand: map<string, Figure>, fractions: set<string>, name: string)
    requires name in fractions && !HasShare(FigureOf(grand, name))
    ensures forall i :: 0 <= i < |gs| ==> FigureOf(Shared(gs, grand, fractions)[i].summaries, name).None?
  {
  }

  lemma SharesOf(gs: seq<Group>, grand: map<string, Figure>, fractions: set<string>, name: string)
    requires name in fractions && AddUp(gs, name) == AsNumber(FigureOf(grand, name))
    ensures var total := FigureOf(grand, name);
      && FigureOf(WithGrandShares(grand, fractions), name) == GrandShare(total)
      && (HasShare(total) ==> AddUp(Shared(gs, grand, fractions), name) == 1.0)
      && (!HasShare(total) ==>
          forall i :: 0 <= i < |gs| ==> FigureOf(Shared(gs, grand, fractions)[i].summaries, name).None?)
  {
    hide AddUp, Shared, WithShares;
    var total := FigureOf(grand, name);
    SharesAre(gs, grand, fractions, name);
    if HasShare(total) { Whole(NumberIn(total).value); } else { NoShares(gs, grand, fractions, name); }
  }

  lemma Whole(t: real)
    requires t != 0.0
    ensures t / t == 1.0
  {
  }

  /** The shares of the groups in a total other than zero add up to one, nothing counting as
      zero; of a total that is zero or nothing there is no share at all. */
  lemma SharesAddUp(e: Engine, specs: map<string, Spec>, names: seq<string>, groupBy: seq<string>, rows: seq<Record>,
                    name: string)
    requires FairEngine(e) && forall n :: n in names ==> n in specs
    requires name in names && specs[name].kind.FractionOfTotal?
    ensures var grand := Figures(e, specs, names, rows);
      var fractions := FractionNames(specs, NameSet(names));
      var shared := Shared(Groups(e, specs, names, groupBy, rows), grand, fractions);
      if HasShare(grand[name]) then
        AddUp(shared, name) == 1.0 && FigureOf(WithGrandShares(grand, fractions), name) == Some(StoredNumber(1.0))
      else
        FigureOf(WithGrandShares(grand, fractions), name).None?
        && forall i :: 0 <= i < |shared| ==> FigureOf(shared[i].summaries, name).None?
  {
    var grand, fractions := Figures(e, specs, names, rows), FractionNames(specs, NameSet(names));
    assert name in fractions && FigureOf(grand, name) == grand[name] && Adds(specs[name]);
    hide AddUp, Groups, Figures, Shared, WithShares, WithGrandShares, NameSet, FractionNames, CountAll, FairEngine;
    GroupsAddUp(e, specs, names, groupBy, rows);
    SharesOf(Groups(e, specs, names, groupBy, rows), grand, fractions, name);
  }

  // ─── The methods ───

  method FiguresOf(e: Engine, specs: map<string, Spec>, names: seq<string>,
                   rows: seq<Record>) returns (m: map<string, Figure>)
    requires forall name :: name in names ==> name in specs
    ensures m == Figures(e, specs, names, rows)
  {
    m := map[];
    for i := 0 to |names|
      invariant forall name :: name in m <==> name in names[..i]
      invariant forall name :: name in m ==> name in specs && m[name] == Aggregate(e, specs[name], rows)
    {
      m := m[names[i] := Aggregate(e, specs[names[i]], rows)];
    }
  }

  /** The figures of a report as they are put together and then turned into shares in place. */
  class SummaryResult {
    var count: nat
    var grand: map<string, Figure>
    var groups: array<Group>

    /** summaryRow and summaryGroups. */
    constructor (e: Engine, specs: map<string, Spec>, names: seq<string>, groupBy: seq<string>, rows: seq<Record>)
      requires forall name :: name in names ==> name in specs
      ensures count == |rows| && grand == Figures(e, specs, names, rows)
      ensures fresh(groups)
      ensures groups[..] == if groupBy == [] then [] else Groups(e, specs, names, groupBy, rows)
    {
      count := |rows|;
      var figures := FiguresOf(e, specs, names, rows);
      grand := figures;
      var keys := if groupBy == [] then [] else e.sorted(KeysOf(e, groupBy, rows));
      var read := [];
      for i := 0 to |keys|
        invariant |read| == i && forall k :: 0 <= k < i ==> read[k] == GroupOf(e, specs, names, groupBy, rows, keys[k])
      {
        var members := Members(e, groupBy, rows, keys[i]);
        var m := FiguresOf(e, specs, names, members);
        read := read + [Group(keys[i], |members|, m)];
      }
      groups := new Group[|read|](i requires 0 <= i < |read| => read[i]);
      new;
      assert groups[..] == read;
    }

    /** applyFractions. */
    method ApplyFractions(specs: map<string, Spec>, names: seq<string>)
      requires Distinct(names)
      modifies `grand, groups
      ensures groups == old(groups)
      ensures grand == WithGrandShares(old(grand), FractionNames(specs, NameSet(names)))
      ensures groups[..] == Shared(old(groups[..]), old(grand), FractionNames(specs, NameSet(names)))
    {
      ghost var was, before, done := groups[..], grand, {};
      SharedNone(was, before);
      for n := 0 to |names|
        invariant groups == old(groups) && done == FractionNames(specs, NameSet(names[..n]))
        invariant grand == WithGrandShares(before, done)
        invariant groups[..] == Shared(was, before, done)
      {
        var name := names[n];
        NextName(specs, names, n);
        if !IsFraction(specs, name) {
          continue;
        }
        var total := FigureOf(grand, name);
        ShareField(total, name);
        SharedOneMore(was, before, done, name);
        grand := grand[name := GrandShare(total)];
        done := done + {name};
      }
      assert names[..|names|] == names;
    }

    /** One field of every group, in place. */
    method ShareField(total: Figure, name: string)
      modifies groups
      ensures groups[..] == SharedField(old(groups[..]), total, name)
    {
      ghost var was := groups[..];
      for i := 0 to groups.Length
        invariant forall k :: 0 <= k < i ==> groups[k] == SharedGroup(was[k], total, name)
        invariant forall k :: i <= k < groups.Length ==> groups[k] == was[k]
      {
        var g := groups[i];
        if NumberIn(total).None? || NumberIn(total).value == 0.0 || NumberIn(FigureOf(g.summaries, name)).None? {
          groups[i] := g.(summaries := g.summaries[name := None]);
        } else {
          var part := NumberIn(FigureOf(g.summaries, name)).value;
          groups[i] := g.(summaries := g.summaries[name := Some(StoredNumber(part / NumberIn(total).value))]);
        }
      }
    }
  }

  function SharedGroup(g: Group, total: Figure, name: string): Group {
    g.(summaries := g.summaries[name := Share(total, FigureOf(g.summaries, name))])
  }

  function SharedField(gs: seq<Group>, total: Figure, name: string): (r: seq<Group>)
    ensures |r| == |gs| && forall i :: 0 <= i < |gs| ==> r[i] == SharedGroup(gs[i], total, name)
  {
    seq(|gs|, i requires 0 <= i < |gs| => SharedGroup(gs[i], total, name))
  }

  lemma SharedNone(gs: seq<Group>, grand: map<string, Figure>)
    ensures Shared(gs, grand, {}) == gs && WithGrandShares(grand, {}) == grand
  {
    forall i | 0 <= i < |gs| ensures WithShares(gs[i].summaries, grand, {}) == gs[i].summaries {
    }
  }

  lemma NextName(specs: map<string, Spec>, names: seq<string>, n: nat)
    requires n < |names| && Distinct(names)
    ensures var done := FractionNames(specs, NameSet(names[..n]));
      && names[n] !in done
      && FractionNames(specs, NameSet(names[..n + 1]))
        == if IsFraction(specs, names[n]) then done + {names[n]} else done
  {
    assert names[..n + 1] == names[..n] + [names[n]];
  }

  lemma GroupOneMore(m: map<string, Figure>, grand: map<string, Figure>, done: set<string>, name: string)
    requires name !in done
    ensures var now := WithShares(m, grand, done);
      WithShares(m, grand, done + {name}) == now[name := Share(FigureOf(grand, name), FigureOf(now, name))]
  {
    hide Share;
  }

  lemma SharedOneMore(gs: seq<Group>, grand: map<string, Figure>, done: set<string>, name: string)
    requires name !in done
    ensures FigureOf(WithGrandShares(grand, done), name) == FigureOf(grand, name)
    ensures SharedField(Shared(gs, grand, done), FigureOf(grand, name), name) == Shared(gs, grand, done + {name})
    ensures WithGrandShares(grand, done + {name})
         == WithGrandShares(grand, done)[name := GrandShare(FigureOf(grand, name))]
  {
    forall i | 0 <= i < |gs|
      ensures SharedField(Shared(gs, grand, done), FigureOf(grand, name), name)[i]
           == Shared(gs, grand, done + {name})[i]
    {
      GroupOneMore(gs[i].summaries, grand, done, name);
      hide WithShares;
    }
  }

  // ─── The whole report ───

  /** The summaries a report works out, or why it cannot. */
  function Wanted(fields: set<string>, all: map<string, Spec>, asked: seq<string>,
                  groupBy: seq<string>): Result<map<string, Spec>, SummaryError> {
    if exists name :: name in asked && name !in all then Err(UnknownSummary)
    else
      var wanted := if asked == [] then all else map name | name in NameSet(asked) && name in all :: all[name];
      if exists name :: name in wanted && wanted[name].field !in fields then Err(UnknownField)
      else if exists f :: f in groupBy && f !in fields then Err(UnknownField)
      else Ok(wanted)
  }

  /** The summaries asked for. */
  method ChooseSummaries(all: map<string, Spec>, asked: seq<string>)
    returns (r: Result<map<string, Spec>, SummaryError>)
    ensures r == if exists name :: name in asked && name !in all then Err(UnknownSummary)
      else Ok(if asked == [] then all else map name | name in NameSet(asked) && name in all :: all[name])
  {
    if asked == [] {
      return Ok(all);
    }
    var wanted := map[];
    for i := 0 to |asked|
      invariant forall name :: name in wanted <==> name in asked[..i]
      invariant forall name :: name in wanted ==> name in all && wanted[name] == all[name]
    {
      if asked[i] !in all {
        return Err(UnknownSummary);
      }
      wanted := wanted[asked[i] := all[asked[i]]];
    }
    assert wanted == map name | name in NameSet(asked) && name in all :: all[name];
    return Ok(wanted);
  }

  /** The names of the summaries, when every field they and the groups are about is there. */
  method CheckSummaries(fields: set<string>, wanted: map<string, Spec>,
                        groupBy: seq<string>) returns (names: seq<string>, found: bool)
    ensures found <==>
      (forall name :: name in wanted ==> wanted[name].field in fields) && forall f :: f in groupBy ==> f in fields
    ensures found ==> Distinct(names) && forall name :: name in names <==> name in wanted
  {
    var todo := wanted.Keys;
    names := [];
    while todo != {}
      invariant todo <= wanted.Keys && Distinct(names)
      invariant forall name :: name in names <==> name in wanted && name !in todo
      invariant forall name :: name in names ==> wanted[name].field in fields
      decreases |todo|
    {
      var name :| name in todo;
      if wanted[name].field !in fields {
        return names, false;
      }
      names, todo := names + [name], todo - {name};
    }
    for i := 0 to |groupBy|
      invariant forall f :: f in groupBy[..i] ==> f in fields
    {
      if groupBy[i] !in fields {
        return names, false;
      }
    }
    found := true;
  }

  /** The summaries of a report and their names, or why there is none. */
  method ReadRequest(fields: set<string>, all: map<string, Spec>, asked: seq<string>, groupBy: seq<string>)
    returns (r: Result<map<string, Spec>, SummaryError>, names: seq<string>)
    ensures r == Wanted(fields, all, asked, groupBy)
    ensures r.Ok? ==> NamesOf(names, r.value)
  {
    names := [];
    r := ChooseSummaries(all, asked);
    if r.Err? {
      return;
    }
    var found;
    names, found := CheckSummaries(fields, r.value, groupBy);
    if !found {
      return Err(UnknownField), names;
    }
  }

  /** The figures over the rows of a found set, and the shares that need them all. */
  method Report(e: Engine, wanted: map<string, Spec>, names: seq<string>, groupBy: seq<string>, rows: seq<Record>)
    returns (r: SummaryResult)
    requires NamesOf(names, wanted)
    ensures fresh(r) && Reports(r.count, r.grand, r.groups[..], e, wanted, names, groupBy, rows)
  {
    hide Figures, Groups, Shared, WithGrandShares, FractionNames;
    r := new SummaryResult(e, wanted, names, groupBy, rows);
    assert groupBy == [] ==> Shared([], r.grand, FractionNames(wanted, NameSet(names))) == [];
    r.ApplyFractions(wanted, names);
  }

  /** The names of the summaries, each once. */
  ghost predicate NamesOf(names: seq<string>, specs: map<string, Spec>) {
    Distinct(names) && forall name :: name in names <==> name in specs
  }

  /** The figures of a report over the rows. */
  ghost predicate Reports(count: nat, grand: map<string, Figure>, groups: seq<Group>, e: Engine,
                          specs: map<string, Spec>, names: seq<string>, groupBy: seq<string>, rows: seq<Record>)
    requires NamesOf(names, specs)
  {
    var figures, fractions := Figures(e, specs, names, rows), FractionNames(specs, NameSet(names));
    && count == |rows| && grand == WithGrandShares(figures, fractions)
    && groups == if groupBy == [] then [] else Shared(Groups(e, specs, names, groupBy, rows), figures, fractions)
  }
}
