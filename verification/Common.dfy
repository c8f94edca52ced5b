// Helpers shared by the models: optional values, results, and facts about finite orders.

module Wrappers {
  datatype Option<+T> = None | Some(value: T)

  datatype Result<+T, +E> = Ok(value: T) | Err(error: E)
}

/** Distinct naturals below a bound. */
module Counting {
  ghost predicate Distinct<T>(s: seq<T>) {
    forall i, j :: 0 <= i < j < |s| ==> s[i] != s[j]
  }

  /** A duplicate-free list is as long as the set of its elements. */
  lemma {:induction false} DistinctLength<T>(s: seq<T>)
    requires Distinct(s)
    ensures |set x | x in s| == |s|
  {
    if s == [] {
      assert (set x | x in s) == {};
    } else {
      var front := s[..|s| - 1];
      DistinctLength(front);
      var last := s[|s| - 1];
      assert (set x | x in s) == (set x | x in front) + {last};
    }
  }

  /** A duplicate-free list of naturals below n that avoids one of them has fewer than n elements. */
  lemma {:induction false} DistinctBelow(s: seq<nat>, n: nat, avoided: nat)
    requires Distinct(s) && avoided < n
    requires forall x :: x in s ==> x < n && x != avoided
    ensures |s| <= n - 1
  {
    DistinctLength(s);
    SubsetSize((set x | x in s), Below(n) - {avoided});
  }

  ghost function Below(n: nat): (s: set<nat>)
    ensures forall k: nat :: k in s <==> k < n
    ensures |s| == n
  {
    if n == 0 then {} else Below(n - 1) + {n - 1}
  }

  ghost function Image<A, B>(xs: set<A>, f: A -> B): set<B> {
    set x | x in xs :: f(x)
  }

  /** An injective image is as large as its source. */
  lemma {:induction false} ImageSize<A, B>(xs: set<A>, f: A -> B)
    requires forall x, y :: x in xs && y in xs && f(x) == f(y) ==> x == y
    ensures |Image(xs, f)| == |xs|
  {
    if xs == {} {
      assert Image(xs, f) == {};
    } else {
      var x :| x in xs;
      ImageSize(xs - {x}, f);
      assert Image(xs, f) == Image(xs - {x}, f) + {f(x)};
    }
  }

  lemma {:induction false} SubsetSize<T>(a: set<T>, b: set<T>)
    requires a <= b
    ensures |a| <= |b|
  {
    assert b == a + (b - a);
  }
}

/** `sorted` of a set of integers. */
module SortedSets {
  function Ascending(s: set<int>): (r: seq<int>)
    ensures forall x :: x in r <==> x in s
    ensures forall i, j :: 0 <= i < j < |r| ==> r[i] < r[j]
  {
    if s == {} then []
    else
      LeastExists(s);
      var m :| IsLeast(s, m);
      [m] + Ascending(s - {m})
  }

  predicate IsLeast(s: set<int>, m: int) {
    m in s && forall x :: x in s ==> m <= x
  }

  lemma Member<T>(s: set<T>) returns (x: T)
    requires |s| != 0
    ensures x in s
  {
    x :| x in s;
  }

  lemma {:induction false} LeastExists(s: set<int>)
    ensures s != {} ==> exists m :: IsLeast(s, m)
  {
    if s == {} {
    } else {
      var x := Member(s);
      var rest := s - {x};
      LeastExists(rest);
      var m := x;
      if rest != {} {
        m :| IsLeast(rest, m);
      }
      var least := if m < x then m else x;
      forall y | y in s ensures least <= y {
        assert y == x || y in rest;
      }
      assert IsLeast(s, least);
    }
  }
}

/** The stable sort of Python's `sorted` and `list.sort`. */
module Sorting {
  function Insert<T>(s: seq<T>, x: T, le: (T, T) -> bool): seq<T> {
    if s == [] then [x]
    else
      var last := s[|s| - 1];
      if le(last, x) then s + [x] else Insert(s[..|s| - 1], x, le) + [last]
  }

  function Sort<T>(s: seq<T>, le: (T, T) -> bool): seq<T> {
    if s == [] then [] else Insert(Sort(s[..|s| - 1], le), s[|s| - 1], le)
  }

  ghost predicate TotalPreorder<T(!new)>(le: (T, T) -> bool) {
    && (forall x, y :: le(x, y) || le(y, x))
    && (forall x, y, z :: le(x, y) && le(y, z) ==> le(x, z))
  }

  ghost predicate Ordered<T>(s: seq<T>, le: (T, T) -> bool) {
    forall i, j :: 0 <= i < j < |s| ==> le(s[i], s[j])
  }

  lemma {:induction false} InsertPermutes<T>(s: seq<T>, x: T, le: (T, T) -> bool)
    ensures multiset(Insert(s, x, le)) == multiset(s) + multiset{x}
  {
    if s == [] {
    } else if !le(s[|s| - 1], x) {
      InsertPermutes(s[..|s| - 1], x, le);
      assert s == s[..|s| - 1] + [s[|s| - 1]];
    }
  }

  lemma {:induction false} SortPermutes<T>(s: seq<T>, le: (T, T) -> bool)
    ensures multiset(Sort(s, le)) == multiset(s)
    ensures |Sort(s, le)| == |s|
  {
    if s == [] {
    } else {
      SortPermutes(s[..|s| - 1], le);
      InsertPermutes(Sort(s[..|s| - 1], le), s[|s| - 1], le);
      assert s == s[..|s| - 1] + [s[|s| - 1]];
    }
    assert |multiset(Sort(s, le))| == |multiset(s)|;
  }

  lemma SortMembers<T>(s: seq<T>, le: (T, T) -> bool)
    ensures forall x :: x in Sort(s, le) <==> x in s
  {
    SortPermutes(s, le);
    forall x ensures x in Sort(s, le) <==> x in s {
      assert x in Sort(s, le) <==> x in multiset(Sort(s, le));
    }
  }

  lemma {:induction false} InsertOrders<T(!new)>(s: seq<T>, x: T, le: (T, T) -> bool)
    requires TotalPreorder(le) && Ordered(s, le)
    ensures Ordered(Insert(s, x, le), le)
  {
    if s == [] {
    } else {
      var last := s[|s| - 1];
      if le(last, x) {
        forall i | 0 <= i < |s| ensures le(s[i], x) {
          assert i == |s| - 1 || le(s[i], last);
        }
      } else {
        InsertOrders(s[..|s| - 1], x, le);
        var front := Insert(s[..|s| - 1], x, le);
        InsertPermutes(s[..|s| - 1], x, le);
        forall i | 0 <= i < |front| ensures le(front[i], last) {
          assert front[i] in multiset(front);
          assert front[i] == x || front[i] in s[..|s| - 1];
        }
      }
    }
  }

  lemma {:induction false} SortOrders<T(!new)>(s: seq<T>, le: (T, T) -> bool)
    requires TotalPreorder(le)
    ensures Ordered(Sort(s, le), le)
  {
    if s == [] {
    } else {
      SortOrders(s[..|s| - 1], le);
      InsertOrders(Sort(s[..|s| - 1], le), s[|s| - 1], le);
    }
  }

  lemma {:induction false} OnceEach<T>(s: seq<T>, x: T)
    requires forall i, j :: 0 <= i < j < |s| ==> s[i] != s[j]
    ensures multiset(s)[x] <= 1
  {
    if s == [] {
    } else {
      OnceEach(s[..|s| - 1], x);
      assert s == s[..|s| - 1] + [s[|s| - 1]];
    }
  }

  /** A permutation of a duplicate-free list is duplicate-free. */
  lemma PermutedDistinct<T>(s: seq<T>, t: seq<T>)
    requires multiset(s) == multiset(t) && forall i, j :: 0 <= i < j < |s| ==> s[i] != s[j]
    ensures forall i, j :: 0 <= i < j < |t| ==> t[i] != t[j]
  {
    forall i, j | 0 <= i < j < |t| ensures t[i] != t[j] {
      OnceEach(s, t[j]);
      assert t == t[..j] + [t[j]] + t[j + 1..];
      assert t[i] in t[..j];
      assert multiset(t) == multiset(t[..j]) + multiset{t[j]} + multiset(t[j + 1..]);
    }
  }

  /** A member equal to a stands before one equal to b. */
  ghost predicate Precedes<T>(s: seq<T>, a: T, b: T) {
    exists i, j :: 0 <= i < j < |s| && s[i] == a && s[j] == b
  }

  /** Members of t that compare equal stand in the order they have in s. */
  ghost predicate Stable<T(!new)>(s: seq<T>, t: seq<T>, le: (T, T) -> bool) {
    forall i, j :: 0 <= i < j < |t| && le(t[j], t[i]) ==> Precedes(s, t[i], t[j])
  }

  lemma PrecedesLonger<T>(s: seq<T>, x: T, a: T, b: T)
    ensures Precedes(s, a, b) ==> Precedes(s + [x], a, b)
    ensures a in s ==> Precedes(s + [x], a, x)
  {
    var longer := s + [x];
    if i, j :| 0 <= i < j < |s| && s[i] == a && s[j] == b {
      assert longer[i] == a && longer[j] == b;
    }
    if a in s {
      var i :| 0 <= i < |s| && s[i] == a;
      assert longer[i] == a && longer[|s|] == x;
    }
  }

  lemma {:induction false} InsertIsStable<T(!new)>(s: seq<T>, t: seq<T>, x: T, le: (T, T) -> bool)
    requires Stable(s, t, le) && forall y :: y in t ==> y in s
    ensures Stable(s + [x], Insert(t, x, le), le)
    decreases |t|
  {
    forall a, b ensures Precedes(s, a, b) ==> Precedes(s + [x], a, b) {
      PrecedesLonger(s, x, a, b);
    }
    forall a | a in s ensures Precedes(s + [x], a, x) {
      PrecedesLonger(s, x, a, x);
    }
    if t != [] && !le(t[|t| - 1], x) {
      InsertIsStable(s, t[..|t| - 1], x, le);
      InsertPermutes(t[..|t| - 1], x, le);
      FrontIsStable(s + [x], Insert(t[..|t| - 1], x, le), t, x, le);
    }
  }

  lemma FrontIsStable<T(!new)>(s: seq<T>, front: seq<T>, t: seq<T>, x: T, le: (T, T) -> bool)
    requires t != [] && Stable(s, front, le) && Stable(s, t, le) && !le(t[|t| - 1], x)
    requires multiset(front) == multiset(t[..|t| - 1]) + multiset{x}
    ensures Stable(s, front + [t[|t| - 1]], le)
  {
    var last := t[|t| - 1];
    forall i | 0 <= i < |front| && le(last, front[i]) ensures Precedes(s, front[i], last) {
      assert front[i] in multiset(front);
      var k :| 0 <= k < |t| - 1 && t[k] == front[i];
    }
  }

  lemma {:induction false} SortIsStable<T(!new)>(s: seq<T>, le: (T, T) -> bool)
    ensures Stable(s, Sort(s, le), le)
  {
    if s != [] {
      var front, last := s[..|s| - 1], s[|s| - 1];
      SortIsStable(front, le);
      SortMembers(front, le);
      InsertIsStable(front, Sort(front, le), last, le);
      assert front + [last] == s;
    }
  }

  lemma SortDistinct<T>(s: seq<T>, le: (T, T) -> bool)
    requires forall i, j :: 0 <= i < j < |s| ==> s[i] != s[j]
    ensures var t := Sort(s, le); forall i, j :: 0 <= i < j < |t| ==> t[i] != t[j]
  {
    SortPermutes(s, le);
    PermutedDistinct(s, Sort(s, le));
  }
}

/** Counting members of a list that satisfy a test. */
module Tally {
  function CountIf<T>(xs: seq<T>, f: T -> bool): nat {
    if xs == [] then 0 else CountIf(xs[..|xs| - 1], f) + if f(xs[|xs| - 1]) then 1 else 0
  }

  lemma {:induction false} CountIfAppend<T>(xs: seq<T>, ys: seq<T>, f: T -> bool)
    ensures CountIf(xs + ys, f) == CountIf(xs, f) + CountIf(ys, f)
  {
    if ys == [] {
      assert xs + ys == xs;
    } else {
      CountIfAppend(xs, ys[..|ys| - 1], f);
      assert (xs + ys)[..|xs + ys| - 1] == xs + ys[..|ys| - 1];
    }
  }

  lemma {:induction false} CountIfZero<T>(xs: seq<T>, f: T -> bool)
    ensures CountIf(xs, f) == 0 <==> forall x :: x in xs ==> !f(x)
  {
    if xs == [] {
    } else {
      CountIfZero(xs[..|xs| - 1], f);
      assert xs == xs[..|xs| - 1] + [xs[|xs| - 1]];
    }
  }

  /** The members that satisfy the test, in order. */
  function Filter<T>(xs: seq<T>, f: T -> bool): seq<T> {
    if xs == [] then []
    else
      var last := xs[|xs| - 1];
      Filter(xs[..|xs| - 1], f) + if f(last) then [last] else []
  }

  lemma {:induction false} FilterMembers<T>(xs: seq<T>, f: T -> bool)
    ensures forall x :: x in Filter(xs, f) <==> x in xs && f(x)
    ensures |Filter(xs, f)| == CountIf(xs, f) <= |xs|
  {
    if xs == [] {
    } else {
      var front, last := xs[..|xs| - 1], xs[|xs| - 1];
      FilterMembers(front, f);
      assert forall x :: x in xs <==> x in front || x == last;
    }
  }

  /** The members satisfying one of two exclusive tests are those satisfying either, put together. */
  lemma {:induction false} FilterCounts<T>(xs: seq<T>, f: T -> bool, x: T)
    ensures multiset(Filter(xs, f))[x] == if f(x) then multiset(xs)[x] else 0
  {
    if xs == [] {
    } else {
      FilterCounts(xs[..|xs| - 1], f, x);
      assert xs == xs[..|xs| - 1] + [xs[|xs| - 1]];
    }
  }

  lemma {:induction false} FilterSplit<T>(xs: seq<T>, f: T -> bool, g: T -> bool, either: T -> bool)
    requires forall x :: x in xs ==> !(f(x) && g(x)) && (either(x) <==> f(x) || g(x))
    ensures multiset(Filter(xs, either)) == multiset(Filter(xs, f)) + multiset(Filter(xs, g))
    ensures |Filter(xs, either)| == |Filter(xs, f)| + |Filter(xs, g)|
  {
    if xs == [] {
    } else {
      FilterSplit(xs[..|xs| - 1], f, g, either);
    }
  }

  lemma {:induction false} FilterSame<T>(xs: seq<T>, f: T -> bool, g: T -> bool)
    requires forall x :: x in xs ==> (f(x) <==> g(x))
    ensures Filter(xs, f) == Filter(xs, g)
  {
    if xs == [] {
    } else {
      FilterSame(xs[..|xs| - 1], f, g);
    }
  }

  lemma {:induction false} FilterAppend<T>(xs: seq<T>, ys: seq<T>, f: T -> bool)
    ensures Filter(xs + ys, f) == Filter(xs, f) + Filter(ys, f)
  {
    if ys == [] {
      assert xs + ys == xs;
    } else {
      FilterAppend(xs, ys[..|ys| - 1], f);
      assert (xs + ys)[..|xs + ys| - 1] == xs + ys[..|ys| - 1];
    }
  }

  /** Filtering twice is filtering by both tests. */
  lemma {:induction false} FilterTwice<T>(xs: seq<T>, f: T -> bool, g: T -> bool, both: T -> bool)
    requires forall x :: x in xs ==> (both(x) <==> f(x) && g(x))
    ensures Filter(Filter(xs, f), g) == Filter(xs, both)
  {
    if xs == [] {
    } else {
      var front, last := xs[..|xs| - 1], xs[|xs| - 1];
      FilterTwice(front, f, g, both);
      FilterAppend(Filter(front, f), if f(last) then [last] else [], g);
    }
  }
}

/** Undominated members of a finite list. */
module Dominance {
  import opened Counting

  ghost predicate StrictOrder<T>(rows: seq<T>, dom: (T, T) -> bool) {
    && (forall x :: x in rows ==> !dom(x, x))
    && (forall x, y, z :: x in rows && y in rows && z in rows && dom(x, y) && dom(y, z) ==> dom(x, z))
  }

  /** No member of rows dominates x. */
  predicate Undominated<T(==)>(rows: seq<T>, dom: (T, T) -> bool, x: T) {
    forall y :: y in rows ==> !dom(y, x)
  }

  ghost function Dominators<T>(rows: seq<T>, dom: (T, T) -> bool, x: T): set<T> {
    set y | y in rows && dom(y, x)
  }

  /** In a finite strict order every member is undominated or dominated by an undominated one. */
  lemma {:induction false} Cover<T>(rows: seq<T>, dom: (T, T) -> bool, x: T) returns (top: T)
    requires StrictOrder(rows, dom) && x in rows
    ensures top in rows && Undominated(rows, dom, top) && (top == x || dom(top, x))
    decreases |Dominators(rows, dom, x)|
  {
    if Undominated(rows, dom, x) {
      top := x;
    } else {
      var y :| y in rows && dom(y, x);
      assert Dominators(rows, dom, y) <= Dominators(rows, dom, x) - {y};
      SubsetSize(Dominators(rows, dom, y), Dominators(rows, dom, x) - {y});
      top := Cover(rows, dom, y);
    }
  }
}
