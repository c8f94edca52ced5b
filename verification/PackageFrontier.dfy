/** The efficient frontier of scored packages. */
module PackageFrontier {
  import opened Wrappers
  import opened Tally
  import opened Dominance
  import opened ParetoPool
  import Sorting

  /** A scored package. `spread` is None when the score has no objective deviation. */
  datatype Package = Package(id: string, changes: int, mean: Profile, spread: Option<real>, robust: real, itb: int)

  /** A package with the numbers it is compared by. */
  datatype Measured = Measured(package: Package, net: Profile, uncertainty: real)

  const NO_SPREAD: real := 1000000000.0

  function Measure(hold: Option<Package>, p: Package): Measured {
    var base: Profile := if hold.Some? then hold.value.mean else [0.0, 0.0, 0.0, 0.0];
    Measured(p, [p.mean[0] - base[0], p.mean[1] - base[1], p.mean[2] - base[2], p.mean[3] - base[3]],
             if p.spread.Some? then p.spread.value else NO_SPREAD)
  }

  predicate Beats(other: Measured, row: Measured) {
    && (forall h :: 0 <= h < 4 ==> other.net[h] >= row.net[h])
    && other.package.changes <= row.package.changes && other.uncertainty <= row.uncertainty
    && (|| (exists h :: 0 <= h < 4 && other.net[h] > row.net[h])
        || other.package.changes < row.package.changes || other.uncertainty < row.uncertainty)
  }

  function MeasureAll(hold: Option<Package>, packages: seq<Package>): (r: seq<Measured>)
    ensures |r| == |packages| && forall k :: 0 <= k < |r| ==> r[k] == Measure(hold, packages[k])
  {
    seq(|packages|, k requires 0 <= k < |packages| => Measure(hold, packages[k]))
  }

  function Unbeaten(rows: seq<Measured>): Measured -> bool {
    (x: Measured) => Undominated(rows, Beats, x)
  }

  /** The whole frontier, before the publish cut. */
  function Frontier(hold: Option<Package>, packages: seq<Package>): seq<Measured> {
    var rows := MeasureAll(hold, packages);
    Filter(rows, Unbeaten(rows))
  }

  predicate MoreRobust(a: Measured, b: Measured) {
    a.package.robust >= b.package.robust
  }

  datatype Report = Empty | Published(count: nat, packages: seq<Measured>)

  lemma BeatsIsOrder(rows: seq<Measured>)
    ensures StrictOrder(rows, Beats)
  {
    forall x, y, z | x in rows && y in rows && z in rows && Beats(x, y) && Beats(y, z) ensures Beats(x, z) {
      if h :| 0 <= h < 4 && x.net[h] > y.net[h] {
        assert x.net[h] > z.net[h];
      } else if h :| 0 <= h < 4 && y.net[h] > z.net[h] {
        assert x.net[h] > z.net[h];
      }
    }
  }

  method IsBeaten(rows: seq<Measured>, at: nat) returns (r: bool)
    requires at < |rows|
    ensures r <==> !Unbeaten(rows)(rows[at])
  {
    for k := 0 to |rows|
      invariant forall j :: 0 <= j < k ==> !Beats(rows[j], rows[at])
    {
      if k != at && Beats(rows[k], rows[at]) {
        return true;
      }
    }
    return false;
  }

  /** `_package_frontier`: `count` is the size of the whole frontier; the published list is its most
      robust part, at least one package long. */
  method PublishFrontier(packages: seq<Package>, hold: Option<Package>, limit: int) returns (r: Report)
    ensures r == Empty <==> packages == []
    ensures r.Published? ==>
              && r.count == |Frontier(hold, packages)|
              && var ranked := Sorting.Sort(Frontier(hold, packages), MoreRobust);
                 var shown := if limit < 1 then 1 else limit;
                 r.packages == if shown < |ranked| then ranked[..shown] else ranked
  {
    if packages == [] {
      return Empty;
    }
    var rows := MeasureAll(hold, packages);
    var frontier: seq<Measured> := [];
    for n := 0 to |rows|
      invariant frontier == Filter(rows[..n], Unbeaten(rows))
    {
      assert rows[..n + 1][..n] == rows[..n];
      var dominated := IsBeaten(rows, n);
      if !dominated {
        frontier := frontier + [rows[n]];
      }
    }
    assert rows[..|rows|] == rows;
    var ranked := Sorting.Sort(frontier, MoreRobust);
    var shown := if limit < 1 then 1 else limit;
    return Published(|frontier|, if shown < |ranked| then ranked[..shown] else ranked);
  }

  /** The frontier is exactly the set of unbeaten packages, and every package left out is beaten by
      one that is on it. */
  lemma FrontierIsExact(hold: Option<Package>, packages: seq<Package>, x: Measured) returns (top: Measured)
    requires x in MeasureAll(hold, packages)
    ensures x in Frontier(hold, packages) <==> forall y :: y in MeasureAll(hold, packages) ==> !Beats(y, x)
    ensures top in Frontier(hold, packages) && (top == x || Beats(top, x))
  {
    var rows := MeasureAll(hold, packages);
    BeatsIsOrder(rows);
    FilterMembers(rows, Unbeaten(rows));
    top := Cover(rows, Beats, x);
  }

  /** The gain is measured against HOLD, or against nothing without it; a missing spread counts as 1e9. */
  lemma MeasuredIs(hold: Option<Package>, p: Package)
    ensures var m := Measure(hold, p);
            && m.package == p
            && (forall h :: 0 <= h < 4 ==> m.net[h] == if hold.Some? then p.mean[h] - hold.value.mean[h] else p.mean[h])
            && m.uncertainty == match p.spread case Some(value) => value case None => 1000000000.0
  {
  }

  function SpreadOf(p: Package): real {
    match p.spread case Some(value) => value case None => 1000000000.0
  }

  /** q is as good as p everywhere and better somewhere: points on each horizon, changes, spread. */
  ghost predicate Better(q: Package, p: Package) {
    && q.mean[0] >= p.mean[0] && q.mean[1] >= p.mean[1] && q.mean[2] >= p.mean[2] && q.mean[3] >= p.mean[3]
    && q.changes <= p.changes && SpreadOf(q) <= SpreadOf(p)
    && !(q.mean == p.mean && q.changes == p.changes && SpreadOf(q) == SpreadOf(p))
  }

  lemma BeatsIff(hold: Option<Package>, q: Package, p: Package)
    ensures Beats(Measure(hold, q), Measure(hold, p)) <==> Better(q, p)
  {
    var a, b := Measure(hold, q), Measure(hold, p);
    if Better(q, p) && q.changes == p.changes && SpreadOf(q) == SpreadOf(p) {
      var h :| 0 <= h < 4 && q.mean[h] != p.mean[h];
      assert a.net[h] > b.net[h];
    }
    if Beats(a, b) {
      assert a.net[0] >= b.net[0] && a.net[1] >= b.net[1] && a.net[2] >= b.net[2] && a.net[3] >= b.net[3];
    }
  }

  /** The frontier read off the packages: the baseline cancels, so it is the same with any HOLD or none. */
  lemma FrontierByPackages(hold: Option<Package>, packages: seq<Package>, p: Package)
    requires p in packages
    ensures Measure(hold, p) in Frontier(hold, packages) <==> forall q :: q in packages ==> !Better(q, p)
  {
    var rows := MeasureAll(hold, packages);
    FilterMembers(rows, Unbeaten(rows));
    var k :| 0 <= k < |packages| && packages[k] == p;
    assert rows[k] == Measure(hold, p);
    forall q | q in packages ensures Measure(hold, q) in rows && (Beats(Measure(hold, q), Measure(hold, p)) <==> Better(q, p)) {
      var j :| 0 <= j < |packages| && packages[j] == q;
      assert rows[j] == Measure(hold, q);
      BeatsIff(hold, q, p);
    }
    forall y | y in rows ensures exists q :: q in packages && y == Measure(hold, q) {
      var j :| 0 <= j < |rows| && rows[j] == y;
      assert packages[j] in packages;
    }
  }

  /** HOLD is the only package without changes, so nothing can beat it, however poor its points:
      it is always on the frontier, with no net gain over itself. */
  lemma HoldStays(packages: seq<Package>, hold: Package)
    requires hold in packages && hold.changes == 0
    requires forall p :: p in packages && p != hold ==> p.changes > 0
    ensures Measure(Some(hold), hold) in Frontier(Some(hold), packages)
    ensures Measure(Some(hold), hold).net == [0.0, 0.0, 0.0, 0.0]
  {
    var rows := MeasureAll(Some(hold), packages);
    var k :| 0 <= k < |packages| && packages[k] == hold;
    assert rows[k] == Measure(Some(hold), hold);
    FilterMembers(rows, Unbeaten(rows));
    forall y | y in rows ensures !Beats(y, rows[k]) {
      var j :| 0 <= j < |rows| && rows[j] == y;
      assert packages[j] in packages;
    }
  }

  /** The published list never invents or repeats a package, is ranked, and its first member is a
      most robust package of the whole frontier; equally robust ones stay in order. */
  lemma PublishedIsRanked(hold: Option<Package>, packages: seq<Package>)
    ensures var ranked := Sorting.Sort(Frontier(hold, packages), MoreRobust);
            && multiset(ranked) == multiset(Frontier(hold, packages))
            && (forall i, j :: 0 <= i < j < |ranked| ==> ranked[i].package.robust >= ranked[j].package.robust)
            && (forall i, j :: 0 <= i < j < |ranked| && ranked[i].package.robust == ranked[j].package.robust ==>
                  Sorting.Precedes(Frontier(hold, packages), ranked[i], ranked[j]))
            && (packages != [] ==> ranked != [] && forall x :: x in ranked ==> ranked[0].package.robust >= x.package.robust)
  {
    var frontier := Frontier(hold, packages);
    Sorting.SortPermutes(frontier, MoreRobust);
    Sorting.SortOrders(frontier, MoreRobust);
    Sorting.SortIsStable(frontier, MoreRobust);
    Sorting.SortMembers(frontier, MoreRobust);
    if packages != [] {
      var top := FrontierIsExact(hold, packages, MeasureAll(hold, packages)[0]);
    }
  }
}
