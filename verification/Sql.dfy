/** The conditions the find translator writes, and what a database makes of them. */
module Sql {
  import opened Common
  import opened Evaluator
  import opened Relationships

  /** SQL's three truth values. */
  datatype Logic = Yes | No | Unknown

  /** Whose column is meant: the searched record's, or the related record's in a subquery. */
  datatype Owner = Own | Related

  datatype Term =
    | Column(owner: Owner, name: string)
    | Literal(text: string)
    | Placeholder(index: nat)
    | CastToText(t: Term)
    | NumericValue(t: Term)
    | Lower(t: Term)

  datatype Condition =
    | IsNull(t: Term)
    | IsNotNull(t: Term)
    | Test(op: Comparison, left: Term, right: Term)
    | Between(t: Term, low: Term, high: Term)
    | Like(t: Term, pattern: Term)
    | All(cs: seq<Condition>)
    | Any(cs: seq<Condition>)
    | Not(c: Condition)
    | Exists(table: string, c: Condition)

  /** What the database engine decides: the text of a value that is neither text nor NULL,
      which text reads as a number, lower case, and matching a pattern ignoring case. */
  datatype Engine = Engine(
    cat: Catalog,
    asText: Stored -> NonEmptyText,
    asNumber: string -> Option<real>,
    lower: string -> string,
    like: (string, string) -> bool
  )

  /** Where a condition is judged: the values of its placeholders and the records it is about. */
  datatype Place = Place(e: Engine, db: Db, values: seq<Stored>, own: Record, related: Record)

  function TextForm(e: Engine, v: Stored): Stored {
    match v
    case Null => Null
    case StoredText(_) => v
    case _ => StoredText(e.asText(v))
  }

  function ValueOf(p: Place, t: Term): Stored {
    match t
    case Column(Own, name) => ReadField(p.own, name)
    case Column(Related, name) => ReadField(p.related, name)
    case Literal(s) => StoredText(s)
    case Placeholder(i) => if 1 <= i <= |p.values| then p.values[i - 1] else Null
    case CastToText(t) => TextForm(p.e, ValueOf(p, t))
    case NumericValue(t) =>
      (match TextForm(p.e, ValueOf(p, t))
       case StoredText(s) => (match p.e.asNumber(s) case Some(n) => StoredNumber(n) case None => Null)
       case _ => Null)
    case Lower(t) =>
      (match ValueOf(p, t) case StoredText(s) => StoredText(p.e.lower(s)) case _ => Null)
  }

  function Definitely(b: bool): Logic { if b then Yes else No }

  function Both(a: Logic, b: Logic): Logic {
    if a.No? || b.No? then No else if a.Yes? && b.Yes? then Yes else Unknown
  }

  function Either(a: Logic, b: Logic): Logic {
    if a.Yes? || b.Yes? then Yes else if a.No? && b.No? then No else Unknown
  }

  function Negated(a: Logic): Logic {
    match a case Yes => No case No => Yes case Unknown => Unknown
  }

  function TestValues(cat: Catalog, op: Comparison, a: Stored, b: Stored): Logic {
    if a.Null? || b.Null? then Unknown else Definitely(cat.holds(op, a, b))
  }

  /** What the condition comes to for the records at hand. */
  ghost function Judge(p: Place, c: Condition): Logic
    decreases c
  {
    match c
    case IsNull(t) => Definitely(ValueOf(p, t).Null?)
    case IsNotNull(t) => Definitely(!ValueOf(p, t).Null?)
    case Test(op, a, b) => TestValues(p.e.cat, op, ValueOf(p, a), ValueOf(p, b))
    case Between(t, low, high) =>
      Both(TestValues(p.e.cat, Ge, ValueOf(p, t), ValueOf(p, low)),
           TestValues(p.e.cat, Le, ValueOf(p, t), ValueOf(p, high)))
    case Like(t, pattern) =>
      (match (TextForm(p.e, ValueOf(p, t)), ValueOf(p, pattern))
       case (StoredText(s), StoredText(w)) => Definitely(p.e.like(s, w))
       case _ => Unknown)
    case All(cs) => JudgeAll(p, cs)
    case Any(cs) => JudgeAny(p, cs)
    case Not(c) => Negated(Judge(p, c))
    case Exists(table, c) =>
      Definitely(exists k :: k in p.db && k.table == table && Judge(p.(related := p.db[k]), c).Yes?)
  }

  ghost function JudgeAll(p: Place, cs: seq<Condition>): Logic
    decreases cs
  {
    if cs == [] then Yes else Both(JudgeAll(p, cs[..|cs| - 1]), Judge(p, cs[|cs| - 1]))
  }

  ghost function JudgeAny(p: Place, cs: seq<Condition>): Logic
    decreases cs
  {
    if cs == [] then No else Either(JudgeAny(p, cs[..|cs| - 1]), Judge(p, cs[|cs| - 1]))
  }

  lemma JudgePush(p: Place, cs: seq<Condition>, c: Condition)
    ensures JudgeAll(p, cs + [c]) == Both(JudgeAll(p, cs), Judge(p, c))
    ensures JudgeAny(p, cs + [c]) == Either(JudgeAny(p, cs), Judge(p, c))
  {
    assert (cs + [c])[..|cs|] == cs;
  }

  lemma JudgeOfAll(p: Place, cs: seq<Condition>)
    ensures Judge(p, All(cs)) == JudgeAll(p, cs)
  {
  }

  lemma JudgeTwo(p: Place, a: Condition, b: Condition)
    ensures JudgeAll(p, [a, b]) == Both(Judge(p, a), Judge(p, b))
    ensures JudgeAny(p, [a, b]) == Either(Judge(p, a), Judge(p, b))
  {
    JudgeOne(p, a);
    assert [a, b][..1] == [a];
  }

  lemma JudgeOne(p: Place, a: Condition)
    ensures JudgeAll(p, [a]) == Judge(p, a) && JudgeAny(p, [a]) == Judge(p, a)
  {
    assert [a][..0] == [] && JudgeAll(p, []) == Yes && JudgeAny(p, []) == No;
  }

  // ─── Placeholders ───

  /** The placeholders of a term, which holds one at most. */
  function TermHoles(t: Term): seq<nat> {
    match t
    case Placeholder(i) => [i]
    case CastToText(t) => TermHoles(t)
    case NumericValue(t) => TermHoles(t)
    case Lower(t) => TermHoles(t)
    case _ => []
  }

  /** The placeholders of a condition, in the order in which they are written. */
  function Holes(c: Condition): seq<nat>
    decreases c
  {
    match c
    case IsNull(t) => TermHoles(t)
    case IsNotNull(t) => TermHoles(t)
    case Test(_, a, b) => TermHoles(a) + TermHoles(b)
    case Between(t, low, high) => TermHoles(t) + TermHoles(low) + TermHoles(high)
    case Like(t, pattern) => TermHoles(t) + TermHoles(pattern)
    case All(cs) => HolesOf(cs)
    case Any(cs) => HolesOf(cs)
    case Not(c) => Holes(c)
    case Exists(_, c) => Holes(c)
  }

  function HolesOf(cs: seq<Condition>): seq<nat>
    decreases cs
  {
    if cs == [] then [] else HolesOf(cs[..|cs| - 1]) + Holes(cs[|cs| - 1])
  }

  function RenumberTerm(t: Term, from: nat): Term {
    match t
    case Placeholder(_) => Placeholder(from)
    case CastToText(t) => CastToText(RenumberTerm(t, from))
    case NumericValue(t) => NumericValue(RenumberTerm(t, from))
    case Lower(t) => Lower(RenumberTerm(t, from))
    case _ => t
  }

  /** The condition as an engine reads it that takes its values one after another, whatever
      the numbers of the placeholders: MariaDB, whose placeholders are question marks. */
  function Renumber(c: Condition, from: nat): Condition
    decreases c
  {
    match c
    case IsNull(t) => IsNull(RenumberTerm(t, from))
    case IsNotNull(t) => IsNotNull(RenumberTerm(t, from))
    case Test(op, a, b) => Test(op, RenumberTerm(a, from), RenumberTerm(b, from + |TermHoles(a)|))
    case Between(t, low, high) =>
      Between(RenumberTerm(t, from), RenumberTerm(low, from + |TermHoles(t)|),
              RenumberTerm(high, from + |TermHoles(t)| + |TermHoles(low)|))
    case Like(t, pattern) => Like(RenumberTerm(t, from), RenumberTerm(pattern, from + |TermHoles(t)|))
    case All(cs) => All(RenumberAll(cs, from))
    case Any(cs) => Any(RenumberAll(cs, from))
    case Not(c) => Not(Renumber(c, from))
    case Exists(table, c) => Exists(table, Renumber(c, from))
  }

  function RenumberAll(cs: seq<Condition>, from: nat): seq<Condition>
    decreases cs
  {
    if cs == [] then []
    else RenumberAll(cs[..|cs| - 1], from) + [Renumber(cs[|cs| - 1], from + |HolesOf(cs[..|cs| - 1])|)]
  }

  /** The numbers from `from` on. */
  function Upwards(from: nat, count: nat): (s: seq<nat>)
    ensures |s| == count && forall i :: 0 <= i < count ==> s[i] == from + i
  {
    seq(count, i => from + i)
  }

  lemma UpwardsSplit(from: nat, a: nat, b: nat)
    ensures Upwards(from, a + b) == Upwards(from, a) + Upwards(from + a, b)
  {
  }

  lemma {:induction false} TermRenumbers(t: Term, from: nat)
    ensures |TermHoles(t)| <= 1
    ensures TermHoles(RenumberTerm(t, from)) == Upwards(from, |TermHoles(t)|)
    ensures RenumberTerm(t, from) == t <==> TermHoles(t) == Upwards(from, |TermHoles(t)|)
  {
    match t
    case CastToText(u) => TermRenumbers(u, from);
    case NumericValue(u) => TermRenumbers(u, from);
    case Lower(u) => TermRenumbers(u, from);
    case _ =>
  }

  /** Two lists that are each numbered upwards make one, and the other way round. */
  lemma Joined(a: seq<nat>, b: seq<nat>, from: nat)
    ensures a + b == Upwards(from, |a + b|) <==> a == Upwards(from, |a|) && b == Upwards(from + |a|, |b|)
  {
    UpwardsSplit(from, |a|, |b|);
    if a + b == Upwards(from, |a + b|) {
      assert a == (a + b)[..|a|] && b == (a + b)[|a|..];
    }
  }

  lemma BetweenRenumbers(t: Term, low: Term, high: Term, from: nat)
    ensures var c := Between(t, low, high); Renumber(c, from) == c <==> Holes(c) == Upwards(from, |Holes(c)|)
  {
    var x, y, z := TermHoles(t), TermHoles(low), TermHoles(high);
    TermRenumbers(t, from);
    TermRenumbers(low, from + |x|);
    TermRenumbers(high, from + |x| + |y|);
    Joined(x, y, from);
    Joined(x + y, z, from);
    hide TermHoles, RenumberTerm;
  }

  /** Reading by position changes nothing exactly if the placeholders are written in the order of their numbers. */
  lemma {:induction false} Renumbers(c: Condition, from: nat)
    ensures Renumber(c, from) == c <==> Holes(c) == Upwards(from, |Holes(c)|)
    decreases c
  {
    hide TermHoles, RenumberTerm;
    match c
    case IsNull(t) => TermRenumbers(t, from);
    case IsNotNull(t) => TermRenumbers(t, from);
    case Test(op, a, b) =>
      TermRenumbers(a, from);
      TermRenumbers(b, from + |TermHoles(a)|);
      Joined(TermHoles(a), TermHoles(b), from);
    case Between(t, low, high) => BetweenRenumbers(t, low, high, from);
    case Like(a, b) =>
      TermRenumbers(a, from);
      TermRenumbers(b, from + |TermHoles(a)|);
      Joined(TermHoles(a), TermHoles(b), from);
    case All(cs) => RenumbersAll(cs, from);
    case Any(cs) => RenumbersAll(cs, from);
    case Not(d) => Renumbers(d, from);
    case Exists(_, d) => Renumbers(d, from);
  }

  lemma {:induction false} RenumbersAll(cs: seq<Condition>, from: nat)
    ensures RenumberAll(cs, from) == cs <==> HolesOf(cs) == Upwards(from, |HolesOf(cs)|)
    decreases cs
  {
    if cs != [] {
      var front, last := cs[..|cs| - 1], cs[|cs| - 1];
      RenumbersAll(front, from);
      Renumbers(last, from + |HolesOf(front)|);
      Joined(HolesOf(front), Holes(last), from);
      assert cs == front + [last];
      RenumberCount(front, from);
      var r := RenumberAll(front, from);
      var l := Renumber(last, from + |HolesOf(front)|);
      assert (r + [l])[..|front|] == r && (r + [l])[|front|] == l;
    }
  }

  lemma {:induction false} RenumberCount(cs: seq<Condition>, from: nat)
    ensures |RenumberAll(cs, from)| == |cs|
  {
    if cs != [] { RenumberCount(cs[..|cs| - 1], from); }
  }
}
