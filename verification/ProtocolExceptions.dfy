/** What the session protocol does when an account comes back to a stamp it has had. */
module ProtocolExceptions {
  import opened Sessions
  import opened Protocol

  const who := Identity("u", "user", "user", "db", "A", false)
  const a := Account("db", "u")

  function Start(): World {
    World(0, 10, map[a := ["A"]], {}, map[], map[], map[], map[], {}, {})
  }

  /** A sign-in reads the stamp A; the account changes to B, its sessions are revoked, and
      the session is opened; the account changes back to A before a request uses it. */
  function Comeback(): seq<Step> {
    [ReadForSignIn(0, who), ChangeAccount(a, "B"), Protocol.RevokeUser(a, ""), OpenSession(0, "k"),
     ChangeAccount(a, "A"), ReadSession(1, "k"), Compare(1, false), Decide(1, Origin("", "", ""))]
  }

  function Issued(stamps: seq<string>, threads: map<nat, Thread>): World {
    World(0, 10, map[a := stamps], {}, map["k" := NewSession(who, 0, 10)], map["k" := 0], threads,
          map["k" := a], {"k"}, {})
  }

  /** The worlds of that run. */
  function At(i: nat): World {
    var session := NewSession(who, 0, 10);
    match i
    case 0 => Start()
    case 1 => Start().(threads := map[0 := SigningIn(who, 0)])
    case 2 | 3 => Start().(threads := map[0 := SigningIn(who, 0)], stamps := map[a := ["A", "B"]])
    case 4 => Issued(["A", "B"], map[])
    case 5 => Issued(["A", "B", "A"], map[])
    case 6 => Issued(["A", "B", "A"], map[1 := Fetched("k", session, 0)])
    case 7 => Issued(["A", "B", "A"], map[1 := Compared("k", session, 0, Stamped("A"))])
    case _ =>
      Issued(["A", "B", "A"], map[]).(sessions := map["k" := Touched(session, 0, "", "", "")], accepted := {"k"})
  }

  predicate Leads(i: nat)
    requires i < 8
  {
    Enabled(At(i), Comeback()[i]) && At(i + 1) == Next(At(i), Comeback()[i])
  }

  lemma SignInReads()
    ensures Leads(0) && Leads(1) && Leads(2)
  {
    assert ["A"] + ["B"] == ["A", "B"];
    assert SessionsAfter(At(2), Comeback()[2]) == map[];
  }

  lemma SessionOpens()
    ensures Leads(3)
  {
    assert map[0 := SigningIn(who, 0)] - {0} == map[];
    assert Pruned(map[], 0) == map[];
    assert Lapsed(At(3), a, 0);
  }

  lemma AccountComesBack()
    ensures Leads(4)
  {
    assert ["A", "B"] + ["A"] == ["A", "B", "A"];
  }

  lemma RequestReads()
    ensures Leads(5)
  {
  }

  lemma RequestCompares()
    ensures Leads(6)
  {
  }

  lemma RequestPasses()
    ensures Leads(7)
  {
  }

  /** A late session is accepted once the account has the old stamp again. */
  lemma ComebackAccepts()
    ensures exists worlds: seq<World>, steps: seq<Step> ::
      (IsRun(worlds, steps) && "k" in worlds[|steps|].late && "k" in worlds[|steps|].accepted)
  {
    hide *;
    var s, worlds := Comeback(), seq(9, i requires 0 <= i < 9 => At(i));
    BeginsAndEnds();
    SignInReads();
    SessionOpens();
    AccountComesBack();
    RequestReads();
    RequestCompares();
    RequestPasses();
    forall i | 0 <= i < 8 ensures Follows(worlds, s, i) { LeadsFollows(worlds, i); }
    MakesRun(worlds, s);
  }

  lemma BeginsAndEnds()
    ensures Initial(At(0)) && "k" in At(8).late && "k" in At(8).accepted && |Comeback()| == 8
  {
  }

  lemma LeadsFollows(worlds: seq<World>, i: nat)
    requires i < 8 && Leads(i) && |Comeback()| == 8 && |worlds| == 9 && worlds[i] == At(i) && worlds[i + 1] == At(i + 1)
    ensures Follows(worlds, Comeback(), i)
  {
    hide At, Next, Enabled;
  }

  lemma MakesRun(worlds: seq<World>, steps: seq<Step>)
    requires |worlds| == |steps| + 1 && Initial(worlds[0])
    requires forall i :: 0 <= i < |steps| ==> Follows(worlds, steps, i)
    ensures IsRun(worlds, steps)
  {
    hide Initial, Follows;
  }
}
