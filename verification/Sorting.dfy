/** sort.Strings: texts in ascending order. */
module Sorting {
  import opened Common

  predicate AtMost(a: string, b: string) { CompareText(a, b) <= 0 }

  lemma {:induction false} CompareEqual(a: string, b: string)
    ensures CompareText(a, b) == 0 <==> a == b
    ensures CompareText(a, b) == -CompareText(b, a)
  {
    if a != "" && b != "" && a[0] == b[0] {
      CompareEqual(a[1..], b[1..]);
      assert a == [a[0]] + a[1..] && b == [b[0]] + b[1..];
    }
  }

  lemma {:induction false} AtMostTransitive(a: string, b: string, c: string)
    requires AtMost(a, b) && AtMost(b, c)
    ensures AtMost(a, c)
  {
    if a != "" && b != "" && c != "" && a[0] == b[0] == c[0] {
      AtMostTransitive(a[1..], b[1..], c[1..]);
    }
  }

  predicate Ascending(s: seq<string>) {
    forall i, j :: 0 <= i < j < |s| ==> AtMost(s[i], s[j])
  }

  function Insert(x: string, s: seq<string>): (r: seq<string>)
    ensures multiset(r) == multiset{x} + multiset(s)
  {
    if s == [] then [x]
    else
      assert s == [s[0]] + s[1..];
      if AtMost(x, s[0]) then [x] + s else [s[0]] + Insert(x, s[1..])
  }

  lemma {:induction false} InsertAscending(x: string, s: seq<string>)
    requires Ascending(s)
    ensures Ascending(Insert(x, s))
  {
    if s != [] {
      CompareEqual(x, s[0]);
      CompareEqual(s[0], s[0]);
      if AtMost(x, s[0]) {
        forall j | 0 <= j < |s| ensures AtMost(x, s[j]) { AtMostTransitive(x, s[0], s[j]); }
      } else {
        var rest := Insert(x, s[1..]);
        InsertAscending(x, s[1..]);
        forall j | 0 <= j < |rest| ensures AtMost(s[0], rest[j]) {
          assert rest[j] in multiset(rest);
          assert rest[j] == x || rest[j] in multiset(s[1..]);
        }
      }
    }
  }

  /** The texts of `s` in order. */
  function Sort(s: seq<string>): (r: seq<string>)
    ensures multiset(r) == multiset(s)
  {
    if s == [] then []
    else
      assert s == [s[0]] + s[1..];
      Insert(s[0], Sort(s[1..]))
  }

  lemma {:induction false} SortAscending(s: seq<string>)
    ensures Ascending(Sort(s))
  {
    if s != [] {
      SortAscending(s[1..]);
      InsertAscending(s[0], Sort(s[1..]));
    }
  }

  lemma SortElements(s: seq<string>)
    ensures |Sort(s)| == |s| && forall x :: x in Sort(s) <==> x in s
  {
    assert |multiset(Sort(s))| == |multiset(s)|;
    forall x ensures x in Sort(s) <==> x in s {
      assert x in Sort(s) <==> x in multiset(Sort(s));
      assert x in s <==> x in multiset(s);
    }
  }

  /** The first element of an ascending list is below all that the list holds. */
  lemma FirstBelow(p: seq<string>, x: string)
    requires Ascending(p) && x in multiset(p)
    ensures p != [] && AtMost(p[0], x)
  {
    var i :| 0 <= i < |p| && p[i] == x;
    CompareEqual(x, x);
  }

  lemma RestCounts(p: seq<string>)
    requires p != []
    ensures multiset(p[1..]) == multiset(p) - multiset{p[0]}
  {
    assert p == [p[0]] + p[1..];
  }

  /** Sorting forgets the order it started from. */
  lemma {:induction false} SortedUnique(p: seq<string>, q: seq<string>)
    requires Ascending(p) && Ascending(q) && multiset(p) == multiset(q)
    ensures p == q
  {
    assert |p| == |multiset(p)| == |multiset(q)| == |q|;
    if p != [] {
      hide CompareText;
      FirstBelow(p, q[0]);
      FirstBelow(q, p[0]);
      CompareEqual(p[0], q[0]);
      RestCounts(p);
      RestCounts(q);
      SortedUnique(p[1..], q[1..]);
      assert p == [p[0]] + p[1..] && q == [q[0]] + q[1..];
    }
  }

  lemma DistinctOnce(s: seq<string>)
    requires Distinct(s)
    ensures forall x :: multiset(s)[x] <= 1
    ensures |s| == |set x | x in s|
  {
    if s != [] {
      var n := |s| - 1;
      DistinctOnce(s[..n]);
      assert s == s[..n] + [s[n]];
      assert (set x | x in s) == (set x | x in s[..n]) + {s[n]};
    }
  }

  lemma OnceDistinct(s: seq<string>)
    requires forall x :: multiset(s)[x] <= 1
    ensures Distinct(s)
  {
    forall i, j | 0 <= i < j < |s| ensures s[i] != s[j] {
      CountsTwice(s, i, j);
    }
  }

  lemma CountsTwice(s: seq<string>, i: nat, j: nat)
    requires i < j < |s|
    ensures s[i] == s[j] ==> multiset(s)[s[i]] >= 2
  {
    assert s == s[..i] + [s[i]] + s[i + 1..j] + [s[j]] + s[j + 1..];
  }

  lemma SortDistinct(s: seq<string>)
    requires Distinct(s)
    ensures Distinct(Sort(s))
  {
    DistinctOnce(s);
    OnceDistinct(Sort(s));
  }

  lemma SameElementsSameMultiset(p: seq<string>, q: seq<string>)
    requires Distinct(p) && Distinct(q) && forall x :: x in p <==> x in q
    ensures multiset(p) == multiset(q)
  {
    DistinctOnce(p);
    DistinctOnce(q);
    forall x ensures multiset(p)[x] == multiset(q)[x] {
      assert x in p <==> x in multiset(p);
      assert x in q <==> x in multiset(q);
    }
  }

  /** Two enumerations of a set sort to the same list. */
  lemma SortCanonical(p: seq<string>, q: seq<string>)
    requires Distinct(p) && Distinct(q) && forall x :: x in p <==> x in q
    ensures Sort(p) == Sort(q)
  {
    SameElementsSameMultiset(p, q);
    SortAscending(p);
    SortAscending(q);
    SortedUnique(Sort(p), Sort(q));
  }

  /** Some enumeration of a set. */
  ghost function Enumerate(s: set<string>): (r: seq<string>)
    ensures Distinct(r) && |r| == |s| && forall x :: x in r <==> x in s
  {
    if s == {} then [] else var x :| x in s; [x] + Enumerate(s - {x})
  }

  /** The elements of a set in ascending order. */
  ghost function SortedSet(s: set<string>): (r: seq<string>)
    ensures Distinct(r) && |r| == |s| && (forall x :: x in r <==> x in s) && Ascending(r)
  {
    var e := Enumerate(s);
    SortDistinct(e);
    SortElements(e);
    SortAscending(e);
    Sort(e)
  }
}
