/** calc/order.go: the order calculation fields are computed in. */
module Order {
  import opened Common
  import opened Sorting

  /** What each calculation field reads: names of fields, in any order. */
  type Reads = map<string, seq<string>>

  /** The dependencies among calculation fields alone. */
  type Graph = map<string, seq<string>>

  datatype Mark = InProgress | Done

  datatype Dfs = Dfs(marks: map<string, Mark>, stack: seq<string>, ordered: seq<string>)

  /** What a visit comes to: it goes on, or it closed a ring. */
  datatype Visited = Continue(dfs: Dfs) | Ring(fields: seq<string>)

  predicate Closed(g: Graph) {
    forall f, d :: f in g && d in g[f] ==> d in g
  }

  function Calculated(names: seq<string>, mentions: Reads): (on: seq<string>)
    ensures forall d :: d in on <==> d in names && d in mentions
  {
    if names == [] then []
    else
      var front := Calculated(names[..|names| - 1], mentions);
      var last := names[|names| - 1];
      assert names == names[..|names| - 1] + [last];
      if last in mentions then front + [last] else front
  }

  /** The graph Order sorts: the calculation fields each field mentions, in ascending order. */
  function GraphOf(mentions: Reads): (g: Graph)
    ensures g.Keys == mentions.Keys && Closed(g)
    ensures forall f :: f in g ==> forall d :: d in g[f] <==> d in mentions[f] && d in mentions
  {
    var g := map f | f in mentions :: Sort(Calculated(mentions[f], mentions));
    assert forall f :: f in g ==> forall d :: d in g[f] <==> d in mentions[f] && d in mentions by {
      forall f | f in g ensures forall d :: d in g[f] <==> d in mentions[f] && d in mentions {
        SortElements(Calculated(mentions[f], mentions));
      }
    }
    g
  }

  function IndexOf(list: seq<string>, x: string): (i: nat)
    requires x in list
    ensures i < |list| && list[i] == x && forall j :: 0 <= j < i ==> list[j] != x
  {
    if list[0] == x then 0 else 1 + IndexOf(list[1..], x)
  }

  /** The part of the stack from the first occurrence of `field` on. */
  function StackFrom(stack: seq<string>, field: string): seq<string> {
    if field in stack then stack[IndexOf(stack, field)..] else stack
  }

  ghost predicate Ready(g: Graph, s: Dfs) { Closed(g) && s.marks.Keys <= g.Keys }

  lemma FewerLeft(all: set<string>, fewer: set<string>, more: set<string>)
    requires fewer <= more <= all
    ensures |all - more| <= |all - fewer|
    ensures fewer != more ==> |all - more| < |all - fewer|
  {
    assert all - fewer == (all - more) + (more - fewer);
    if fewer != more { assert exists x :: x in more - fewer; }
  }

  /** visit. */
  function Visit(g: Graph, field: string, s: Dfs): (r: Visited)
    requires Ready(g, s) && field in g
    ensures r.Continue? ==> Ready(g, r.dfs) && s.marks.Keys <= r.dfs.marks.Keys && r.dfs.stack == s.stack
    decreases |g.Keys - s.marks.Keys|, 0
  {
    if field in s.marks then
      if s.marks[field] == Done then Continue(s)
      else Ring(StackFrom(s.stack, field) + [field])
    else
      var entered := Dfs(s.marks[field := InProgress], s.stack + [field], s.ordered);
      FewerLeft(g.Keys, s.marks.Keys, entered.marks.Keys);
      match VisitAll(g, g[field], entered)
      case Ring(fields) => Ring(fields)
      case Continue(d) =>
        Continue(Dfs(d.marks[field := Done], d.stack[..|d.stack| - 1], d.ordered + [field]))
  }

  /** Visiting the fields of a list one after another. */
  function VisitAll(g: Graph, list: seq<string>, s: Dfs): (r: Visited)
    requires Ready(g, s) && forall f :: f in list ==> f in g
    ensures r.Continue? ==> Ready(g, r.dfs) && s.marks.Keys <= r.dfs.marks.Keys && r.dfs.stack == s.stack
    decreases |g.Keys - s.marks.Keys|, |list|
  {
    if list == [] then Continue(s)
    else match Visit(g, list[0], s)
      case Ring(fields) => Ring(fields)
      case Continue(d) =>
        FewerLeft(g.Keys, s.marks.Keys, d.marks.Keys);
        VisitAll(g, list[1..], d)
  }

  /** Order: the fields in the order to compute them in, or a ring of fields. */
  ghost function OrderOf(mentions: Reads): Result<seq<string>, seq<string>> {
    match VisitAll(GraphOf(mentions), SortedSet(mentions.Keys), Dfs(map[], [], []))
    case Continue(d) => Ok(d.ordered)
    case Ring(fields) => Err(fields)
  }

  // ─── What the search keeps ───

  /** Each field of the walk is read by the one before it. */
  ghost predicate Walk(g: Graph, w: seq<string>) {
    && (forall i :: 0 <= i < |w| ==> w[i] in g)
    && forall i :: 0 <= i < |w| - 1 ==> w[i + 1] in g[w[i]]
  }

  /** A walk that ends where it began. */
  ghost predicate ClosedWalk(g: Graph, w: seq<string>) {
    |w| >= 2 && w[0] == w[|w| - 1] && Walk(g, w)
  }

  ghost predicate Acyclic(g: Graph) { forall w :: !ClosedWalk(g, w) }

  /** Every field of the list comes after all that it reads. */
  ghost predicate AfterItsReads(g: Graph, list: seq<string>) {
    forall i :: 0 <= i < |list| ==> list[i] in g && forall d :: d in g[list[i]] ==> d in list[..i]
  }

  ghost predicate Inv(g: Graph, s: Dfs) {
    && Ready(g, s)
    && Distinct(s.stack) && Distinct(s.ordered)
    && (forall f :: f in s.stack <==> f in s.marks && s.marks[f] == InProgress)
    && (forall f :: f in s.ordered <==> f in s.marks && s.marks[f] == Done)
    && Walk(g, s.stack)
    && AfterItsReads(g, s.ordered)
  }

  /** The field may be visited next: the one on top of the stack reads it. */
  ghost predicate FromTop(g: Graph, stack: seq<string>, field: string) {
    stack != [] ==> stack[|stack| - 1] in g && field in g[stack[|stack| - 1]]
  }

  ghost predicate Kept(g: Graph, s: Dfs, d: Dfs) {
    && Inv(g, d) && d.stack == s.stack && s.ordered <= d.ordered
  }

  lemma RingCloses(g: Graph, s: Dfs, field: string)
    requires Inv(g, s) && field in s.stack && FromTop(g, s.stack, field)
    ensures ClosedWalk(g, StackFrom(s.stack, field) + [field])
  {
    var start := IndexOf(s.stack, field);
    var w := s.stack[start..] + [field];
    forall i | 0 <= i < |w| - 1 ensures w[i + 1] in g[w[i]] {
      assert w[i] == s.stack[start + i];
      assert i + 1 < |w| - 1 ==> w[i + 1] == s.stack[start + i + 1];
    }
  }

  lemma EnterKeeps(g: Graph, s: Dfs, field: string)
    requires Inv(g, s) && FromTop(g, s.stack, field) && field in g && field !in s.marks
    ensures Inv(g, Dfs(s.marks[field := InProgress], s.stack + [field], s.ordered))
  {
    var stack := s.stack + [field];
    forall i | 0 <= i < |stack| - 1 ensures stack[i + 1] in g[stack[i]] {
      assert i + 1 < |s.stack| ==> s.stack[i + 1] in g[s.stack[i]];
    }
  }

  lemma MarkTells(g: Graph, s: Dfs, field: string)
    requires Inv(g, s) && field in s.marks
    ensures Ready(g, s) && if s.marks[field] == Done then field in s.ordered else field in s.stack
  {
  }

  lemma StackLeaves(g: Graph, stack: seq<string>, field: string)
    requires Distinct(stack + [field]) && Walk(g, stack + [field])
    ensures Distinct(stack) && Walk(g, stack) && field in g
    ensures forall f :: f in stack <==> f in stack + [field] && f != field
  {
    var whole := stack + [field];
    assert whole[|stack|] == field;
    assert forall i :: 0 <= i < |stack| ==> whole[i] == stack[i];
  }

  lemma OrderGrows(g: Graph, ordered: seq<string>, field: string)
    requires AfterItsReads(g, ordered) && Distinct(ordered) && field !in ordered && field in g
    requires forall on :: on in g[field] ==> on in ordered
    ensures AfterItsReads(g, ordered + [field]) && Distinct(ordered + [field])
  {
    var left := ordered + [field];
    forall i | 0 <= i < |left| ensures left[i] in g && forall on :: on in g[left[i]] ==> on in left[..i] {
      assert left[..i] == if i < |ordered| then ordered[..i] else ordered;
    }
  }

  lemma LeaveKeeps(g: Graph, s: Dfs, field: string, d: Dfs)
    requires Inv(g, d) && d.stack == s.stack + [field] && s.ordered <= d.ordered && field in g
    requires forall on :: on in g[field] ==> on in d.ordered
    ensures Kept(g, s, Dfs(d.marks[field := Done], s.stack, d.ordered + [field]))
  {
    StackLeaves(g, s.stack, field);
    assert field in d.stack;
    OrderGrows(g, d.ordered, field);
    hide Walk, AfterItsReads;
  }

  /** A visit keeps the invariant and finishes the field, or reports a genuine ring. */
  lemma {:induction false} VisitKeeps(g: Graph, field: string, s: Dfs)
    requires Ready(g, s) && Inv(g, s) && field in g && FromTop(g, s.stack, field)
    ensures match Visit(g, field, s)
      case Continue(d) => Kept(g, s, d) && field in d.ordered
      case Ring(fields) => ClosedWalk(g, fields)
    decreases |g.Keys - s.marks.Keys|, 0
  {
    hide VisitAll, Inv, Walk, AfterItsReads, ClosedWalk;
    if field in s.marks {
      MarkTells(g, s, field);
      if s.marks[field] == InProgress { RingCloses(g, s, field); }
    } else {
      var entered := Dfs(s.marks[field := InProgress], s.stack + [field], s.ordered);
      FewerLeft(g.Keys, s.marks.Keys, entered.marks.Keys);
      EnterKeeps(g, s, field);
      VisitAllKeeps(g, g[field], entered);
      var below := VisitAll(g, g[field], entered);
      if below.Continue? {
        assert below.dfs.stack[..|below.dfs.stack| - 1] == s.stack;
        LeaveKeeps(g, s, field, below.dfs);
      }
    }
  }

  lemma {:induction false} VisitAllKeeps(g: Graph, list: seq<string>, s: Dfs)
    requires Ready(g, s) && Inv(g, s)
    requires forall f :: f in list ==> f in g && FromTop(g, s.stack, f)
    ensures match VisitAll(g, list, s)
      case Continue(d) => Kept(g, s, d) && forall f :: f in list ==> f in d.ordered
      case Ring(fields) => ClosedWalk(g, fields)
    decreases |g.Keys - s.marks.Keys|, |list|
  {
    hide Visit, Inv, FromTop, Walk, AfterItsReads, Acyclic, ClosedWalk;
    if list != [] {
      VisitKeeps(g, list[0], s);
      var first := Visit(g, list[0], s);
      if first.Continue? {
        FewerLeft(g.Keys, s.marks.Keys, first.dfs.marks.Keys);
        VisitAllKeeps(g, list[1..], first.dfs);
      }
    }
  }

  // ─── A list in dependency order leaves no room for a ring ───

  lemma ReadStandsBefore(g: Graph, list: seq<string>, f: string, d: string)
    requires AfterItsReads(g, list) && Distinct(list) && f in list && f in g && d in g[f]
    ensures d in list && IndexOf(list, d) < IndexOf(list, f)
  {
    var i := IndexOf(list, f);
    assert d in list[..i];
    var j :| 0 <= j < i && list[j] == d;
    assert IndexOf(list, d) == j;
  }

  /** Along a walk, fields stand earlier and earlier in the list. */
  lemma {:induction false} WalkDescends(g: Graph, list: seq<string>, w: seq<string>)
    requires AfterItsReads(g, list) && Distinct(list)
    requires Walk(g, w) && |w| >= 2 && w[0] in list
    ensures w[|w| - 1] in list && IndexOf(list, w[|w| - 1]) < IndexOf(list, w[0])
  {
    ReadStandsBefore(g, list, w[0], w[1]);
    if |w| > 2 {
      assert forall i :: 0 <= i < |w| - 2 ==> w[1..][i + 1] in g[w[1..][i]];
      WalkDescends(g, list, w[1..]);
    }
  }

  lemma DependencyOrderIsAcyclic(g: Graph, list: seq<string>)
    requires AfterItsReads(g, list) && Distinct(list) && forall f :: f in g ==> f in list
    ensures Acyclic(g)
  {
    forall w | ClosedWalk(g, w) ensures false {
      WalkDescends(g, list, w);
    }
  }

  /** The order is one to compute the fields in: every calculation field once, each after
      the calculation fields it reads. */
  ghost predicate IsOrderFor(mentions: Reads, order: seq<string>) {
    && Distinct(order) && (forall f :: f in order <==> f in mentions)
    && forall i :: 0 <= i < |order| ==>
         forall d :: d in mentions[order[i]] && d in mentions ==> d in order[..i]
  }

  /** Order succeeds exactly on acyclic dependencies; its answer is an order to compute in,
      its error a closed walk of fields that read each other. */
  lemma OrderCorrect(mentions: Reads)
    ensures OrderOf(mentions).Ok? <==> Acyclic(GraphOf(mentions))
    ensures OrderOf(mentions).Ok? ==> IsOrderFor(mentions, OrderOf(mentions).value)
    ensures OrderOf(mentions).Err? ==> ClosedWalk(GraphOf(mentions), OrderOf(mentions).error)
  {
    var g := GraphOf(mentions);
    var names := SortedSet(mentions.Keys);
    var start := Dfs(map[], [], []);
    assert Inv(g, start);
    VisitAllKeeps(g, names, start);
    match VisitAll(g, names, start) {
      case Continue(d) =>
        InvOrders(g, d);
        DependencyOrderIsAcyclic(g, d.ordered);
        OrderForMentions(mentions, d.ordered);
      case Ring(fields) => assert !Acyclic(g);
    }
  }

  lemma InvOrders(g: Graph, d: Dfs)
    requires Inv(g, d)
    ensures Distinct(d.ordered) && AfterItsReads(g, d.ordered) && forall f :: f in d.ordered ==> f in g
  {
  }

  lemma OrderForMentions(mentions: Reads, order: seq<string>)
    requires var g := GraphOf(mentions);
      Distinct(order) && AfterItsReads(g, order) && forall f :: f in order <==> f in g
    ensures IsOrderFor(mentions, order)
  {
    forall i, d | 0 <= i < |order| && d in mentions[order[i]] && d in mentions
      ensures d in order[..i]
    {
      assert d in GraphOf(mentions)[order[i]];
    }
  }

  // ─── The closure of order.go, over its own variables ───

  class Sorter {
    const deps: Graph
    var state: map<string, Mark>
    var stack: seq<string>
    var ordered: seq<string>

    constructor (deps: Graph)
      ensures this.deps == deps && Snapshot() == Dfs(map[], [], [])
    {
      this.deps := deps;
      state, stack, ordered := map[], [], [];
    }

    ghost function Snapshot(): Dfs
      reads this
    {
      Dfs(state, stack, ordered)
    }

    /** What stands on the stack from the field on, and the field once more. */
    method CloseRing(field: string) returns (ring: seq<string>)
      ensures ring == StackFrom(stack, field) + [field]
    {
      var start := 0;
      for i := 0 to |stack|
        invariant start == 0 && forall j :: 0 <= j < i ==> stack[j] != field
      {
        if stack[i] == field {
          start := i;
          break;
        }
      }
      assert stack[0..] == stack;
      return stack[start..] + [field];
    }

    method VisitField(field: string) returns (err: Option<seq<string>>)
      requires Ready(deps, Snapshot()) && field in deps
      modifies this`state, this`stack, this`ordered
      ensures match Visit(deps, field, old(Snapshot()))
              case Continue(d) => err == None && Snapshot() == d
              case Ring(fields) => err == Some(fields)
      decreases |deps.Keys - state.Keys|, 0
    {
      if field in state {
        if state[field] == Done {
          return None;
        }
        var ring := CloseRing(field);
        return Some(ring);
      }
      FewerLeft(deps.Keys, state.Keys, state.Keys + {field});
      state := state[field := InProgress];
      stack := stack + [field];
      assert state.Keys == old(state).Keys + {field};
      err := VisitEach(deps[field]);
      if err.Some? {
        return;
      }
      stack := stack[..|stack| - 1];
      state := state[field := Done];
      ordered := ordered + [field];
    }

    /** Visits the fields of a list in turn, up to the first error. */
    method VisitEach(list: seq<string>) returns (err: Option<seq<string>>)
      requires Ready(deps, Snapshot()) && forall f :: f in list ==> f in deps
      modifies this`state, this`stack, this`ordered
      ensures match VisitAll(deps, list, old(Snapshot()))
              case Continue(d) => err == None && Snapshot() == d
              case Ring(fields) => err == Some(fields)
      decreases |deps.Keys - state.Keys|, 1
    {
      hide Visit;
      ghost var entered := Snapshot();
      err := None;
      assert list[0..] == list;
      for i := 0 to |list|
        invariant Ready(deps, Snapshot()) && entered.marks.Keys <= state.Keys && err == None
        invariant VisitAll(deps, list[i..], Snapshot()) == VisitAll(deps, list, entered)
      {
        assert list[i..][1..] == list[i + 1..];
        FewerLeft(deps.Keys, entered.marks.Keys, state.Keys);
        err := VisitField(list[i]);
        if err.Some? {
          return;
        }
      }
    }
  }

  /** The names of a list that are calculation fields, in ascending order. */
  method DependenciesOf(names: seq<string>, mentions: Reads) returns (sorted: seq<string>)
    ensures sorted == Sort(Calculated(names, mentions))
  {
    var on: seq<string> := [];
    for i := 0 to |names|
      invariant on == Calculated(names[..i], mentions)
    {
      assert names[..i + 1][..i] == names[..i];
      if names[i] in mentions {
        on := on + [names[i]];
      }
    }
    assert names[..|names|] == names;
    sorted := Sort(on);
  }

  lemma GraphEntries(mentions: Reads, g: Graph)
    requires g.Keys == mentions.Keys
    requires forall f :: f in g ==> g[f] == Sort(Calculated(mentions[f], mentions))
    ensures g == GraphOf(mentions)
  {
  }

  /** Maps are walked in no particular order; what Order makes of them does not depend on it. */
  method BuildGraph(mentions: Reads) returns (deps: Graph)
    ensures deps == GraphOf(mentions)
  {
    hide Sort, Calculated, GraphOf;
    deps := map[];
    var left := mentions.Keys;
    while left != {}
      invariant left <= mentions.Keys && deps.Keys == mentions.Keys - left
      invariant forall f :: f in deps ==> deps[f] == Sort(Calculated(mentions[f], mentions))
      decreases left
    {
      var field :| field in left;
      var on := DependenciesOf(mentions[field], mentions);
      deps := deps[field := on];
      left := left - {field};
    }
    GraphEntries(mentions, deps);
  }

  method SortedKeys(deps: Graph) returns (names: seq<string>)
    ensures names == SortedSet(deps.Keys)
  {
    names := [];
    var left := deps.Keys;
    while left != {}
      invariant left <= deps.Keys
      invariant Distinct(names) && forall f :: f in names <==> f in deps.Keys - left
      decreases left
    {
      var field :| field in left;
      assert field !in names && deps.Keys - (left - {field}) == deps.Keys - left + {field};
      assert forall f :: f in names + [field] <==> f in names || f == field;
      names := names + [field];
      left := left - {field};
    }
    SortCanonical(names, SortedSet(deps.Keys));
    SortOfSorted(deps.Keys);
    names := Sort(names);
  }

  /** Order. */
  method OrderFields(mentions: Reads) returns (r: Result<seq<string>, seq<string>>)
    ensures r == OrderOf(mentions)
  {
    var deps := BuildGraph(mentions);
    var names := SortedKeys(deps);
    var sorter := new Sorter(deps);
    var err := sorter.VisitEach(names);
    r := if err.Some? then Err(err.value) else Ok(sorter.ordered);
  }

  lemma SortOfSorted(s: set<string>)
    ensures Sort(SortedSet(s)) == SortedSet(s)
  {
    SortAscending(SortedSet(s));
    SortedUnique(Sort(SortedSet(s)), SortedSet(s));
  }
}
