/** Orders and sorting shared by the components: code-point order on strings, and a stable sort
    over any total preorder.  Any other stable sort computes the same sequence. */
module Ordering {

  predicate StrLe(a: string, b: string) {
    if a == "" then true
    else if b == "" then false
    else if a[0] != b[0] then a[0] < b[0]
    else StrLe(a[1..], b[1..])
  }

  // The order axioms are instantiated by naming the elements to compare.
  ghost predicate Compared<T>(x: T, y: T, z: T) { true }

  ghost predicate TotalPreorder<T(!new)>(le: (T, T) -> bool) {
    forall x, y, z {:trigger Compared(x, y, z)} ::
      && (le(x, y) || le(y, x))
      && (le(x, y) && le(y, z) ==> le(x, z))
  }

  ghost predicate TotalOrder<T(!new)>(le: (T, T) -> bool) {
    && TotalPreorder(le)
    && (forall x, y {:trigger Compared(x, y, x)} :: le(x, y) && le(y, x) ==> x == y)
  }

  ghost predicate Sorted<T>(le: (T, T) -> bool, s: seq<T>) {
    forall i, j :: 0 <= i < j < |s| ==> le(s[i], s[j])
  }

  /** Insert x after every element that does not exceed it, scanning from the right. */
  function Insert<T>(le: (T, T) -> bool, s: seq<T>, x: T): seq<T> {
    if s == [] || le(s[|s| - 1], x) then s + [x]
    else Insert(le, s[..|s| - 1], x) + [s[|s| - 1]]
  }

  function Sort<T>(le: (T, T) -> bool, s: seq<T>): seq<T> {
    if s == [] then [] else Insert(le, Sort(le, s[..|s| - 1]), s[|s| - 1])
  }

  function Filter<T>(keep: T -> bool, s: seq<T>): seq<T> {
    if s == [] then []
    else Filter(keep, s[..|s| - 1]) + if keep(s[|s| - 1]) then [s[|s| - 1]] else []
  }

  predicate Distinct<T(==)>(s: seq<T>) {
    forall i, j :: 0 <= i < j < |s| ==> s[i] != s[j]
  }

  function Elements<T>(s: seq<T>): set<T> {
    set x | x in s
  }

  // ---------------------------------------------------------------- string order

  lemma {:induction false} StrTransitive(a: string, b: string, c: string)
    requires StrLe(a, b) && StrLe(b, c)
    ensures StrLe(a, c)
  {
    if a != "" && b != "" && c != "" && a[0] == b[0] == c[0] {
      StrTransitive(a[1..], b[1..], c[1..]);
    }
  }

  lemma {:induction false} StrTotal(a: string, b: string)
    ensures StrLe(a, b) || StrLe(b, a)
    ensures StrLe(a, b) && StrLe(b, a) ==> a == b
  {
    if a != "" && b != "" && a[0] == b[0] {
      StrTotal(a[1..], b[1..]);
      assert a == [a[0]] + a[1..] && b == [b[0]] + b[1..];
    }
  }

  lemma StringsAreOrdered()
    ensures TotalOrder(StrLe)
  {
    forall a, b, c: string
      ensures (StrLe(a, b) || StrLe(b, a)) && (StrLe(a, b) && StrLe(b, c) ==> StrLe(a, c))
    {
      StrTotal(a, b);
      if StrLe(a, b) && StrLe(b, c) { StrTransitive(a, b, c); }
    }
    forall a, b: string | StrLe(a, b) && StrLe(b, a) ensures a == b { StrTotal(a, b); }
  }

  // ---------------------------------------------------------------- sorting

  lemma {:induction false} InsertMultiset<T>(le: (T, T) -> bool, s: seq<T>, x: T)
    ensures multiset(Insert(le, s, x)) == multiset(s) + multiset{x}
    ensures forall y :: y in Insert(le, s, x) ==> y == x || y in s
  {
    if !(s == [] || le(s[|s| - 1], x)) {
      var front, last := s[..|s| - 1], s[|s| - 1];
      InsertMultiset(le, front, x);
      assert s == front + [last];
    }
  }

  lemma {:induction false} AppendSorted<T>(le: (T, T) -> bool, s: seq<T>, x: T)
    requires Sorted(le, s)
    requires forall y :: y in s ==> le(y, x)
    ensures Sorted(le, s + [x])
  {
    forall i, j | 0 <= i < j < |s + [x]| ensures le((s + [x])[i], (s + [x])[j]) {
      assert s[i] in s;
    }
  }

  lemma {:induction false} InsertSorted<T(!new)>(le: (T, T) -> bool, s: seq<T>, x: T)
    requires TotalPreorder(le) && Sorted(le, s)
    ensures Sorted(le, Insert(le, s, x))
  {
    if s == [] {
    } else {
      var front, last := s[..|s| - 1], s[|s| - 1];
      forall y | y in s ensures le(y, last) {
        assert Compared(last, last, last);
        var k :| 0 <= k < |s| && s[k] == y;
      }
      if le(last, x) {
        forall y | y in s ensures le(y, x) { assert Compared(y, last, x); }
        AppendSorted(le, s, x);
      } else {
        assert Compared(x, last, last);
        InsertSorted(le, front, x);
        InsertMultiset(le, front, x);
        AppendSorted(le, Insert(le, front, x), last);
      }
    }
  }

  lemma {:induction false} SortSorts<T(!new)>(le: (T, T) -> bool, s: seq<T>)
    requires TotalPreorder(le)
    ensures Sorted(le, Sort(le, s))
    ensures multiset(Sort(le, s)) == multiset(s)
  {
    if s != [] {
      var front, last := s[..|s| - 1], s[|s| - 1];
      SortSorts(le, front);
      InsertSorted(le, Sort(le, front), last);
      InsertMultiset(le, Sort(le, front), last);
      assert s == front + [last];
      assert multiset(s) == multiset(front) + multiset{last};
    }
  }

  lemma {:induction false} SortOfSorted<T>(le: (T, T) -> bool, s: seq<T>)
    requires Sorted(le, s)
    ensures Sort(le, s) == s
  {
    if s != [] {
      var front, last := s[..|s| - 1], s[|s| - 1];
      SortOfSorted(le, front);
      assert front != [] ==> le(front[|front| - 1], last);
      assert s == front + [last];
    }
  }

  lemma {:induction false} SameElements<T>(s: seq<T>, t: seq<T>)
    requires multiset(s) == multiset(t)
    ensures |s| == |t| && Elements(s) == Elements(t)
  {
    assert |multiset(s)| == |s| && |multiset(t)| == |t|;
    forall x ensures x in s <==> x in t {
      assert x in s <==> x in multiset(s);
      assert x in t <==> x in multiset(t);
    }
  }

  lemma FrontSorted<T>(le: (T, T) -> bool, s: seq<T>)
    requires s != [] && Sorted(le, s)
    ensures Sorted(le, s[..|s| - 1])
  {
  }

  lemma FrontsAndLasts<T>(s: seq<T>, t: seq<T>)
    requires s != [] && t != [] && s[..|s| - 1] == t[..|t| - 1] && s[|s| - 1] == t[|t| - 1]
    ensures s == t
  {
    assert s == s[..|s| - 1] + [s[|s| - 1]] && t == t[..|t| - 1] + [t[|t| - 1]];
  }

  /** A sorted arrangement is unique. */
  lemma {:induction false} SortedUnique<T(!new)>(le: (T, T) -> bool, s: seq<T>, t: seq<T>)
    requires TotalOrder(le) && Sorted(le, s) && Sorted(le, t)
    requires multiset(s) == multiset(t)
    ensures s == t
  {
    SameElements(s, t);
    if s != [] {
      SameLast(le, s, t);
      DropLastMultiset(s);
      DropLastMultiset(t);
      FrontSorted(le, s);
      FrontSorted(le, t);
      SortedUnique(le, s[..|s| - 1], t[..|t| - 1]);
      FrontsAndLasts(s, t);
    }
  }

  lemma SameLast<T(!new)>(le: (T, T) -> bool, s: seq<T>, t: seq<T>)
    requires TotalOrder(le) && Sorted(le, s) && Sorted(le, t)
    requires s != [] && t != [] && Elements(s) == Elements(t)
    ensures s[|s| - 1] == t[|t| - 1]
  {
    var x, y := s[|s| - 1], t[|t| - 1];
    assert x in Elements(s) && y in Elements(t);
    LastIsGreatest(le, s, y);
    LastIsGreatest(le, t, x);
    assert Compared(x, y, x);
  }

  lemma DropLastMultiset<T>(s: seq<T>)
    requires s != []
    ensures multiset(s[..|s| - 1]) == multiset(s) - multiset{s[|s| - 1]}
  {
    assert s == s[..|s| - 1] + [s[|s| - 1]];
  }

  lemma LastIsGreatest<T(!new)>(le: (T, T) -> bool, s: seq<T>, x: T)
    requires TotalPreorder(le) && Sorted(le, s) && x in Elements(s)
    ensures s != [] && le(x, s[|s| - 1])
  {
    assert Compared(x, x, x);
    var k :| 0 <= k < |s| && s[k] == x;
  }

  lemma {:induction false} DistinctMultiset<T>(s: seq<T>, t: seq<T>)
    requires Distinct(s) && Distinct(t) && Elements(s) == Elements(t)
    ensures multiset(s) == multiset(t)
  {
    forall x ensures multiset(s)[x] == multiset(t)[x] {
      DistinctCounts(s, x);
      DistinctCounts(t, x);
      assert x in Elements(s) <==> x in Elements(t);
    }
  }

  lemma {:induction false} DistinctCounts<T>(s: seq<T>, x: T)
    requires Distinct(s)
    ensures multiset(s)[x] == if x in s then 1 else 0
  {
    if s != [] {
      var front := s[..|s| - 1];
      DistinctCounts(front, x);
      assert s == front + [s[|s| - 1]];
    }
  }

  lemma {:induction false} DistinctCardinality<T>(s: seq<T>)
    ensures |Elements(s)| <= |s|
    ensures |Elements(s)| == |s| <==> Distinct(s)
  {
    if s != [] {
      var front, last := s[..|s| - 1], s[|s| - 1];
      assert s == front + [last];
      DistinctCardinality(front);
      assert Elements(s) == Elements(front) + {last};
      if last in front {
        assert Elements(s) == Elements(front);
        var i :| 0 <= i < |front| && front[i] == last;
        assert s[i] == s[|s| - 1];
      }
    }
  }

  // ---------------------------------------------------------------- filtering

  lemma {:induction false} FilterFacts<T>(keep: T -> bool, s: seq<T>)
    ensures forall x :: x in Filter(keep, s) <==> x in s && keep(x)
    ensures |Filter(keep, s)| <= |s|
    ensures |Filter(keep, s)| == |s| <==> forall i :: 0 <= i < |s| ==> keep(s[i])
    ensures (forall i :: 0 <= i < |s| ==> keep(s[i])) ==> Filter(keep, s) == s
  {
    if s != [] {
      var front, last := s[..|s| - 1], s[|s| - 1];
      assert s == front + [last];
      FilterFacts(keep, front);
      assert forall i :: 0 <= i < |front| ==> front[i] == s[i];
    }
  }

  lemma {:induction false} FilterSorted<T(!new)>(le: (T, T) -> bool, keep: T -> bool, s: seq<T>)
    requires Sorted(le, s)
    ensures Sorted(le, Filter(keep, s))
  {
    if s != [] {
      var front, last := s[..|s| - 1], s[|s| - 1];
      assert s == front + [last];
      FilterSorted(le, keep, front);
      FilterFacts(keep, front);
      var r := Filter(keep, front);
      forall i | 0 <= i < |r| ensures le(r[i], last) {
        assert r[i] in front;
        var k :| 0 <= k < |front| && front[k] == r[i];
        assert s[k] == r[i];
      }
    }
  }

  // ---------------------------------------------------------------- listing a set in order

  /** Some arrangement of a set; only its sorted form is ever observed. */
  ghost function Listing<T>(s: set<T>): (r: seq<T>)
    ensures Elements(r) == s && Distinct(r)
  {
    if s == {} then [] else
      var x :| x in s;
      var rest := Listing(s - {x});
      assert Elements(rest + [x]) == Elements(rest) + {x};
      rest + [x]
  }

  ghost function InOrder<T>(le: (T, T) -> bool, s: set<T>): seq<T> {
    Sort(le, Listing(s))
  }

  lemma InOrderFacts<T(!new)>(le: (T, T) -> bool, s: set<T>)
    requires TotalPreorder(le)
    ensures Sorted(le, InOrder(le, s)) && Distinct(InOrder(le, s)) && Elements(InOrder(le, s)) == s
  {
    var l := Listing(s);
    SortSorts(le, l);
    SameElements(Sort(le, l), l);
    DistinctCardinality(l);
    DistinctCardinality(Sort(le, l));
  }

  lemma InOrderUnique<T(!new)>(le: (T, T) -> bool, s: set<T>, t: seq<T>)
    requires TotalOrder(le) && Sorted(le, t) && Distinct(t) && Elements(t) == s
    ensures t == InOrder(le, s)
  {
    InOrderFacts(le, s);
    DistinctMultiset(t, InOrder(le, s));
    SortedUnique(le, t, InOrder(le, s));
  }

  function Without<T(==)>(s: seq<T>, drop: set<T>): seq<T> {
    Filter(x => x !in drop, s)
  }

  lemma {:induction false} FilterDistinct<T>(keep: T -> bool, s: seq<T>)
    requires Distinct(s)
    ensures Distinct(Filter(keep, s))
  {
    if s != [] {
      var front, last := s[..|s| - 1], s[|s| - 1];
      FilterDistinct(keep, front);
      FilterFacts(keep, front);
      assert last !in front;
      AppendDistinct(Filter(keep, front), last);
    }
  }

  lemma AppendDistinct<T>(s: seq<T>, x: T)
    requires Distinct(s) && x !in s
    ensures Distinct(s + [x])
  {
    forall i | 0 <= i < |s| ensures s[i] != x { assert s[i] in s; }
  }

  /** Listing a set in order and then dropping elements is listing what remains. */
  lemma WithoutInOrder<T(!new)>(le: (T, T) -> bool, s: set<T>, drop: set<T>)
    requires TotalOrder(le)
    ensures Without(InOrder(le, s), drop) == InOrder(le, s - drop)
  {
    var l := InOrder(le, s);
    var keep := x => x !in drop;
    InOrderFacts(le, s);
    FilterSorted(le, keep, l);
    FilterFacts(keep, l);
    FilterDistinct(keep, l);
    SameMembers(Filter(keep, l), s - drop);
    InOrderUnique(le, s - drop, Filter(keep, l));
  }

  lemma SameMembers<T>(s: seq<T>, members: set<T>)
    requires forall x :: x in s <==> x in members
    ensures Elements(s) == members
  {
  }
}
