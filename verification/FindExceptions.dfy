/** Finds that come out otherwise than their requests promise. */
module FindExceptions {
  import opened Common
  import opened Evaluator
  import opened Relationships
  import opened Sql
  import opened Find
  import opened FindLaws
  import opened FindRelated

  /** An engine that tells equal from different values. */
  ghost function Plain(h: Host, rels: seq<Relationship>): Engine {
    Engine(Catalog(h, map["people" := {"city", "name"}], rels,
                   (op: Comparison, a: Stored, b: Stored) => if op == Eq then a == b else op == Ne && a != b,
                   (r: Relationship, db: Db, s: set<string>) => [], 1),
           (v: Stored) => "0", (t: string) => None, (t: string) => t, (t: string, w: string) => false)
  }

  function Is(field: string, value: string): FindCriterion { Criterion(field, "=", Some(value), None) }

  function Person(city: Stored, name: Stored): Record { map["city" := city, "name" := name] }

  function People(h: Host): Search { Search(h, "people", {"city", "name"}, map[]) }

  function IsText(field: string, at: nat): Condition {
    Test(Eq, Lower(CastToText(Column(Owner.Own, field))), Lower(Placeholder(at)))
  }

  lemma IsRequest(h: Host, field: string, value: string, at: nat)
    requires field in {"city", "name"}
    ensures RequestClauses(People(h), [Is(field, value)], at) == Ok(Clauses([IsText(field, at)], [StoredText(value)]))
  {
    var c := Is(field, value);
    assert [c][..0] == [] && RequestClauses(People(h), [], at) == Ok(Clauses([], []));
    assert ClauseOf(People(h), c, at) == Ok(Clause(IsText(field, at), [StoredText(value)]));
    assert [] + [IsText(field, at)] == [IsText(field, at)] && [] + [StoredText(value)] == [StoredText(value)];
    hide ClauseOf;
  }

  lemma IsVerdict(h: Host, rels: seq<Relationship>, db: Db, field: string, value: string, own: Record)
    requires field != ""
    ensures Says(People(h), Plain(h, rels), db, Is(field, value), own) ==
      match ReadField(own, field)
      case Null => Unknown
      case StoredText(t) => Definitely(t == value)
      case _ => Definitely("0" == value)
  {
  }

  /** "Omit city = Paris" leaves out a person with no city. */
  lemma OmitLosesUnknown(h: Host, db: Db)
    ensures var e, requests := Plain(h, []), [FindRequest([Is("city", "Paris")], true)];
      var own := Person(Null, StoredText("Ann"));
      Promised(People(h), e, db, requests, own) && !FoundBy(People(h), e, db, requests, own)
  {
    var own := Person(Null, StoredText("Ann"));
    var r := FindRequest([Is("city", "Paris")], true);
    IsVerdict(h, [], db, "city", "Paris", own);
    assert Is("city", "Paris") in r.criteria && Counts(r) && r in [r];
    hide Says;
  }

  /** "Omit city = Paris, find name = Ann" finds Ann in London. With its values taken by
      position it asks for a person called Paris who does not live in Ann. */
  lemma PositionMisleads(h: Host, db: Db)
    ensures var requests := [FindRequest([Is("city", "Paris")], true), FindRequest([Is("name", "Ann")], false)];
      var own := Person(StoredText("London"), StoredText("Ann"));
      BuildFind(People(h), requests).Ok? &&
      var q := BuildFind(People(h), requests).value;
      var p := Place(Plain(h, []), db, q.values, own, map[]);
      && q.clause.Some?
      && Selects(p, q.clause) && !Selects(p, Some(Renumber(q.clause.value, 1)))
  {
    hide *;
    var omit, find := FindRequest([Is("city", "Paris")], true), FindRequest([Is("name", "Ann")], false);
    var own := Person(StoredText("London"), StoredText("Ann"));
    TwoRequests(h);
    var p := Place(Plain(h, []), db, [StoredText("Paris"), StoredText("Ann")], own, map[]);
    TwoJudged(p, "name", 2, "city", 1);
    TwoJudged(p, "name", 1, "city", 2);
    TwoRenumbered();
    TextsJudged(h, db, own, 1, 2);
    TextsJudged(h, db, own, 2, 1);
  }

  /** Find what has the one, omit what has the other. */
  function FindOmit(field: string, at: nat, field': string, at': nat): Condition {
    All([Any([All([IsText(field, at)])]), Not(Any([All([IsText(field', at')])]))])
  }

  lemma OmitThenFind(s: Search, a: FindRequest, b: FindRequest, one: Clauses, two: Clauses)
    requires RequestClauses(s, a.criteria, 1) == Ok(one) && one.conditions != [] && a.omit
    requires RequestClauses(s, b.criteria, |one.values| + 1) == Ok(two) && two.conditions != [] && !b.omit
    ensures Queries(s, [a, b]) == Ok(Query([All(two.conditions)], [All(one.conditions)], one.values + two.values))
  {
    hide RequestClauses;
    assert [a, b][..1] == [a] && [a][..0] == [];
    assert Queries(s, []) == Ok(Query([], [], []));
    assert [] + one.values == one.values && [] + [All(one.conditions)] == [All(one.conditions)];
    assert [] + [All(two.conditions)] == [All(two.conditions)];
    assert Queries(s, [a]) == Ok(Query([], [All(one.conditions)], one.values));
  }

  lemma TwoRequests(h: Host)
    ensures var requests := [FindRequest([Is("city", "Paris")], true), FindRequest([Is("name", "Ann")], false)];
      BuildFind(People(h), requests)
        == Ok(FindSql(Some(FindOmit("name", 2, "city", 1)), [StoredText("Paris"), StoredText("Ann")]))
  {
    var omit, find := FindRequest([Is("city", "Paris")], true), FindRequest([Is("name", "Ann")], false);
    IsRequest(h, "city", "Paris", 1);
    IsRequest(h, "name", "Ann", 2);
    hide RequestClauses, IsText, Is, Queries;
    var one := Clauses([IsText("city", 1)], [StoredText("Paris")]);
    var two := Clauses([IsText("name", 2)], [StoredText("Ann")]);
    OmitThenFind(People(h), omit, find, one, two);
    assert one.values + two.values == [StoredText("Paris"), StoredText("Ann")];
    var a, b := Any([All(two.conditions)]), Not(Any([All(one.conditions)]));
    assert [a] + [b] == [a, b];
  }

  lemma TwoJudged(p: Place, field: string, at: nat, field': string, at': nat)
    ensures Selects(p, Some(FindOmit(field, at, field', at'))) <==>
      Judge(p, IsText(field, at)).Yes? && Judge(p, IsText(field', at')).No?
  {
    var x, y := IsText(field, at), IsText(field', at');
    hide IsText;
    JudgeOne(p, x);
    JudgeOne(p, y);
    JudgeOne(p, All([x]));
    JudgeOne(p, All([y]));
    JudgeTwo(p, Any([All([x])]), Not(Any([All([y])])));
    assert Judge(p, All([x])) == Judge(p, x) && Judge(p, All([y])) == Judge(p, y);
  }

  /** Placeholders in the request of one criterion, included or omitted. */
  lemma OneRenumbered(field: string, at: nat, from: nat)
    ensures var a, b := Any([All([IsText(field, at)])]), Any([All([IsText(field, from)])]);
      && Renumber(a, from) == b && Renumber(Not(a), from) == Not(b) && Holes(a) == Holes(Not(a)) == [at]
  {
    RenumberText(field, at, from);
    var x := IsText(field, at);
    hide IsText, RenumberTerm, TermHoles;
    RenumberOne(x, from);
    RenumberOne(All([x]), from);
  }

  lemma RenumberTwo(a: Condition, b: Condition, from: nat)
    ensures RenumberAll([a, b], from) == [Renumber(a, from), Renumber(b, from + |Holes(a)|)]
  {
    RenumberOne(a, from);
    hide Renumber, Holes;
    assert [a, b][..1] == [a];
  }

  lemma TwoRenumbered()
    ensures Renumber(FindOmit("name", 2, "city", 1), 1) == FindOmit("name", 1, "city", 2)
  {
    OneRenumbered("name", 2, 1);
    OneRenumbered("city", 1, 2);
    var a, b := Any([All([IsText("name", 2)])]), Not(Any([All([IsText("city", 1)])]));
    RenumberTwo(a, b, 1);
    hide IsText, RenumberTerm, TermHoles, Holes, RenumberAll, HolesOf;
  }

  lemma RenumberText(field: string, at: nat, from: nat)
    ensures Renumber(IsText(field, at), from) == IsText(field, from) && Holes(IsText(field, at)) == [at]
  {
    var column := CastToText(Column(Owner.Own, field));
    assert TermHoles(column) == [] && TermHoles(Lower(column)) == [];
    assert RenumberTerm(column, from) == column && RenumberTerm(Lower(column), from) == Lower(column);
    assert RenumberTerm(Lower(Placeholder(at)), from) == Lower(Placeholder(from));
    assert TermHoles(Lower(Placeholder(at))) == [at];
  }

  lemma RenumberOne(c: Condition, from: nat)
    ensures RenumberAll([c], from) == [Renumber(c, from)] && HolesOf([c]) == Holes(c)
  {
    assert [c][..0] == [] && RenumberAll([], from) == [] && HolesOf([]) == [];
  }

  /** What the two conditions come to for Ann in London. */
  lemma TextsJudged(h: Host, db: Db, own: Record, at: nat, at': nat)
    requires own == Person(StoredText("London"), StoredText("Ann")) && {at, at'} == {1, 2}
    ensures var p := Place(Plain(h, []), db, [StoredText("Paris"), StoredText("Ann")], own, map[]);
      && (Judge(p, IsText("name", at)).Yes? <==> at == 2)
      && (Judge(p, IsText("city", at')).No?)
  {
    var p := Place(Plain(h, []), db, [StoredText("Paris"), StoredText("Ann")], own, map[]);
    TextJudged(p, "name", at);
    TextJudged(p, "city", at');
  }

  lemma TextJudged(p: Place, field: string, at: nat)
    requires ReadField(p.own, field).StoredText? && 1 <= at <= |p.values| && p.values[at - 1].StoredText?
    ensures Judge(p, IsText(field, at)) == Definitely(p.e.cat.holds(Eq,
      StoredText(p.e.lower(ReadField(p.own, field).text)), StoredText(p.e.lower(p.values[at - 1].text))))
  {
    assert ValueOf(p, CastToText(Column(Owner.Own, field))) == ReadField(p.own, field);
    assert ValueOf(p, Placeholder(at)) == p.values[at - 1];
  }

  /** People of the same city are related to each other. */
  const SAME_CITY :=
    Relationship("r", "same city", "=", Side("l", "l", "people", "city"), Side("c", "c", "people", "city"), false)

  /** A find through a match value of white space finds what the related records do not list. */
  lemma BlankKeyDiffers(h: Host)
    ensures var e := Plain(h, [SAME_CITY]);
      var db := map[Key("people", "1") := Person(StoredText(" "), StoredText("Ann"))];
      var c := FindCriterion("name", "IS_NOT_EMPTY", None, None, "r", "c");
      && RelatedRows(e.cat, db, "people", "1", KeyOf(h, c).relationship, KeyOf(h, c).occurrence) == Ok({})
      && Resolve(e.cat, "people", KeyOf(h, c)).Ok?
      && RelatedMeets(h, e, db, c, Resolve(e.cat, "people", KeyOf(h, c)).value, db[Key("people", "1")])
  {
    assert TrimLeft(h, "r") == TrimRight(h, "r") == "r" && TrimLeft(h, "c") == TrimRight(h, "c") == "c";
    assert TrimLeft(h, "=") == TrimRight(h, "=") == "=";
    assert Blank(h, " ");
    var e := Plain(h, [SAME_CITY]);
    var db := map[Key("people", "1") := Person(StoredText(" "), StoredText("Ann"))];
    var c := FindCriterion("name", "IS_NOT_EMPTY", None, None, "r", "c");
    var t := Resolve(e.cat, "people", KeyOf(h, c)).value;
    assert t == Target("people", "city", "city", Eq, {"city", "name"});
    assert RelatedRowMeets(h, e, c, t, StoredText(" "), "people", db[Key("people", "1")]);
  }
}
