/** Pruning of the candidate pool by Pareto dominance inside each club and position. */
module ParetoPool {
  import opened Counting
  import opened Tally
  import opened Dominance
  import opened SortedSets
  import Sorting

  datatype Position = GK | DEF | MID | FWD | Unlisted

  /** One value for each of the horizons 3, 5, 10 and 15. */
  type Profile = v: seq<real> | |v| == 4 witness [0.0, 0.0, 0.0, 0.0]

  /** An optimizer row. Costs and the cash below are tenths of a million. */
  datatype Row = Row(element: int, position: Position, team: int, nowCost: int, sellCost: int,
                     score: real, mean: Profile, std: Profile)

  const TOLERANCE: real := 0.000000001

  /** The row is no dearer and nowhere worse, and somewhere better, up to the tolerance. */
  predicate Dominates(left: Row, right: Row) {
    && left.position == right.position && left.team == right.team
    && left.nowCost <= right.nowCost
    && (forall h :: 0 <= h < 4 ==> left.mean[h] >= right.mean[h] - TOLERANCE && left.std[h] <= right.std[h] + TOLERANCE)
    && (|| left.nowCost < right.nowCost
        || exists h :: 0 <= h < 4 && (left.mean[h] > right.mean[h] + TOLERANCE || left.std[h] < right.std[h] - TOLERANCE))
  }

  /** On horizon h, a promises more points or less spread than b, by more than 1e-9. */
  ghost predicate Ahead(a: Row, b: Row, h: int)
    requires 0 <= h < 4
  {
    a.mean[h] - b.mean[h] > 0.000000001 || b.std[h] - a.std[h] > 0.000000001
  }

  /** Dominance inside a club and position: no dearer, on no horizon behind, and cheaper or ahead on one. */
  lemma DominatesIff(left: Row, right: Row)
    ensures Dominates(left, right) <==>
            && left.position == right.position && left.team == right.team && left.nowCost <= right.nowCost
            && !(exists h :: 0 <= h < 4 && Ahead(right, left, h))
            && (left.nowCost < right.nowCost || exists h :: 0 <= h < 4 && Ahead(left, right, h))
  {
    forall h | 0 <= h < 4
      ensures Ahead(right, left, h) <==> !(left.mean[h] >= right.mean[h] - TOLERANCE && left.std[h] <= right.std[h] + TOLERANCE)
      ensures Ahead(left, right, h) <==> (left.mean[h] > right.mean[h] + TOLERANCE || left.std[h] < right.std[h] - TOLERANCE)
    {
    }
  }

  /** `_candidate_dominates`: the loop over the horizons with its early exit. */
  method CandidateDominates(left: Row, right: Row) returns (r: bool)
    ensures r <==> Dominates(left, right)
  {
    if left.position != right.position || left.team != right.team {
      return false;
    }
    var noWorse := left.nowCost <= right.nowCost;
    var strict := left.nowCost < right.nowCost;
    for h := 0 to 4
      invariant noWorse <==> left.nowCost <= right.nowCost
      invariant forall k :: 0 <= k < h ==> left.mean[k] >= right.mean[k] - TOLERANCE && left.std[k] <= right.std[k] + TOLERANCE
      invariant strict <==>
                || left.nowCost < right.nowCost
                || exists k :: 0 <= k < h && (left.mean[k] > right.mean[k] + TOLERANCE || left.std[k] < right.std[k] - TOLERANCE)
    {
      if left.mean[h] < right.mean[h] - TOLERANCE || left.std[h] > right.std[h] + TOLERANCE {
        noWorse := false;
        break;
      }
      strict := strict || left.mean[h] > right.mean[h] + TOLERANCE || left.std[h] < right.std[h] - TOLERANCE;
    }
    return noWorse && strict;
  }

  // ---------------------------------------------------------------- when dominance is an order

  /** The metrics of two rows are equal or differ by more than the tolerance. */
  ghost predicate Apart(a: Row, b: Row) {
    forall h :: 0 <= h < 4 ==>
                  && (a.mean[h] == b.mean[h] || a.mean[h] > b.mean[h] + TOLERANCE || b.mean[h] > a.mean[h] + TOLERANCE)
                  && (a.std[h] == b.std[h] || a.std[h] > b.std[h] + TOLERANCE || b.std[h] > a.std[h] + TOLERANCE)
  }

  ghost predicate Separated(rows: seq<Row>) {
    forall a, b :: a in rows && b in rows ==> Apart(a, b)
  }

  /** On separated rows the tolerance makes no difference. */
  lemma ExactWhenApart(a: Row, b: Row)
    requires Apart(a, b)
    ensures Dominates(a, b) <==>
            && a.position == b.position && a.team == b.team && a.nowCost <= b.nowCost
            && (forall h :: 0 <= h < 4 ==> a.mean[h] >= b.mean[h] && a.std[h] <= b.std[h])
            && (a.nowCost < b.nowCost || a.mean != b.mean || a.std != b.std)
  {
    if && a.position == b.position && a.team == b.team && a.nowCost <= b.nowCost
       && (forall h :: 0 <= h < 4 ==> a.mean[h] >= b.mean[h] && a.std[h] <= b.std[h])
       && !(a.nowCost < b.nowCost)
    {
      if a.mean != b.mean {
        var h :| 0 <= h < 4 && a.mean[h] != b.mean[h];
        assert a.mean[h] > b.mean[h] + TOLERANCE;
      } else if a.std != b.std {
        var h :| 0 <= h < 4 && a.std[h] != b.std[h];
        assert a.std[h] < b.std[h] - TOLERANCE;
      }
    }
  }

  lemma SeparatedIsOrder(rows: seq<Row>)
    requires Separated(rows)
    ensures StrictOrder(rows, Dominates)
  {
    forall x | x in rows ensures !Dominates(x, x) { ExactWhenApart(x, x); }
    forall x, y, z | x in rows && y in rows && z in rows && Dominates(x, y) && Dominates(y, z) ensures Dominates(x, z) {
      ExactWhenApart(x, y);
      ExactWhenApart(y, z);
      ExactWhenApart(x, z);
      if x.mean == z.mean && x.std == z.std {
        assert forall h :: 0 <= h < 4 ==> x.mean[h] == y.mean[h] && x.std[h] == y.std[h];
        assert x.mean == y.mean && x.std == y.std;
      }
    }
  }

  // ---------------------------------------------------------------- what pruning keeps

  function Survivor(rows: seq<Row>): Row -> bool {
    (x: Row) => Undominated(rows, Dominates, x)
  }

  /** Kept means that no row of the same list dominates the candidate. */
  function Kept(rows: seq<Row>): seq<Row> {
    Filter(rows, Survivor(rows))
  }

  /** Pruning loses nothing: whatever was in the pool is still there or is dominated by a row that
      is, from the same club and position and no dearer. */
  lemma PruningCovers(rows: seq<Row>, x: Row) returns (top: Row)
    requires Separated(rows) && x in rows
    ensures top in Kept(rows) && (top == x || Dominates(top, x))
    ensures top.team == x.team && top.position == x.position && top.nowCost <= x.nowCost
  {
    SeparatedIsOrder(rows);
    top := Cover(rows, Dominates, x);
    FilterMembers(rows, Survivor(rows));
  }

  /** Every row of the pool is kept or dominated by a row that is. */
  ghost predicate LosesNothing(pool: seq<Row>) {
    forall x :: x in pool ==> exists top :: top in Kept(pool) && (top == x || Dominates(top, x))
  }

  ghost predicate DrawnFrom(pool: seq<Row>, rows: seq<Row>) {
    forall x :: x in pool ==> x in rows
  }

  ghost predicate TransitiveOn(rows: seq<Row>) {
    forall x, y, z :: x in rows && y in rows && z in rows && Dominates(x, y) && Dominates(y, z) ==> Dominates(x, z)
  }

  lemma TransitiveCovers(pool: seq<Row>)
    requires TransitiveOn(pool)
    ensures LosesNothing(pool)
  {
    FilterMembers(pool, Survivor(pool));
    forall x | x in pool ensures exists top :: top in Kept(pool) && (top == x || Dominates(top, x)) {
      var top := Cover(pool, Dominates, x);
    }
  }

  /** A chain x over y over z in which x does not dominate z loses z. */
  lemma ChainLoses(x: Row, y: Row, z: Row)
    requires Dominates(x, y) && Dominates(y, z) && !Dominates(x, z)
    ensures z !in Kept([x, y, z]) && y !in Kept([x, y, z]) && !LosesNothing([x, y, z])
  {
    var pool := [x, y, z];
    assert pool[0] == x && pool[1] == y && pool[2] == z;
    assert x in pool && y in pool && z in pool;
    FilterMembers(pool, Survivor(pool));
    assert forall top :: top in Kept(pool) ==> top == x;
  }

  /** Exactly when the tolerant test is safe: pruning any pool drawn from the rows keeps, for each of
      its rows, the row itself or a kept dominator, if and only if dominance is transitive on the rows. */
  lemma SafeIffTransitive(rows: seq<Row>)
    ensures (forall pool :: DrawnFrom(pool, rows) ==> LosesNothing(pool)) <==> TransitiveOn(rows)
  {
    if TransitiveOn(rows) {
      forall pool | DrawnFrom(pool, rows) ensures LosesNothing(pool) {
        TransitiveCovers(pool);
      }
    }
    if x, y, z :| x in rows && y in rows && z in rows && Dominates(x, y) && Dominates(y, z) && !Dominates(x, z) {
      ChainLoses(x, y, z);
      assert DrawnFrom([x, y, z], rows);
    }
  }

  /** Three rows of one club and price whose second means climb by less than the tolerance each. */
  function ChainRow(i: nat): Row {
    var d := 0.0000000008;
    Row(i, MID, 1, 50, 50, 0.0,
        if i == 0 then [10.0, 0.0, 0.0, 0.0] else if i == 1 then [5.0, d, 0.0, 0.0] else [0.0, 2.0 * d, 0.0, 0.0],
        [0.0, 0.0, 0.0, 0.0])
  }

  /** Without transitivity a row can be lost from a pool that is not emptied: the last row of this
      chain is pruned, and the only row kept does not dominate it. */
  lemma ChainIsLost()
    ensures Kept([ChainRow(0), ChainRow(1), ChainRow(2)]) == [ChainRow(0)]
    ensures !Dominates(ChainRow(0), ChainRow(2)) && !LosesNothing([ChainRow(0), ChainRow(1), ChainRow(2)])
  {
    var x, y, z := ChainRow(0), ChainRow(1), ChainRow(2);
    assert x.mean[0] > y.mean[0] + TOLERANCE && y.mean[0] > z.mean[0] + TOLERANCE;
    assert x.mean[1] < z.mean[1] - TOLERANCE;
    ChainLoses(x, y, z);
    OnlyFirstKept(x, y, z);
  }

  lemma OnlyFirstKept(x: Row, y: Row, z: Row)
    requires Dominates(x, y) && Dominates(y, z) && !Dominates(y, x) && !Dominates(z, x) && !Dominates(x, x)
    ensures Kept([x, y, z]) == [x]
  {
    var pool, keeps := [x, y, z], Survivor([x, y, z]);
    assert pool[0] in pool && pool[1] in pool;
    assert keeps(x) && !keeps(y) && !keeps(z);
    assert pool[..2] == [x, y] && pool[..2][..1] == [x] && [x][..0] == [];
    assert Filter(pool[..2][..1], keeps) == [x];
    assert Filter(pool[..2], keeps) == [x];
  }

  // ---------------------------------------------------------------- when no group can vanish

  ghost predicate Within(rows: seq<Row>, group: set<nat>) {
    forall k :: k in group ==> k < |rows|
  }

  /** Row i of the group is dominated by no row of the group. */
  ghost predicate SurvivesIn(rows: seq<Row>, group: set<nat>, i: nat)
    requires Within(rows, group)
  {
    i in group && forall j :: j in group ==> !Dominates(rows[j], rows[i])
  }

  ghost predicate NoGroupVanishes(rows: seq<Row>) {
    forall group :: Within(rows, group) && group != {} ==> exists i :: SurvivesIn(rows, group, i)
  }

  /** A listing of the group in which nobody is dominated by a row listed later. */
  ghost predicate Listing(rows: seq<Row>, group: set<nat>, order: seq<nat>) {
    && Within(rows, group)
    && (forall k :: k in group <==> k in order)
    && (forall k :: 0 <= k < |order| ==> order[k] < |rows|)
    && (forall a, b :: 0 <= a < b < |order| ==> !Dominates(rows[order[b]], rows[order[a]]))
  }

  lemma {:induction false} ListGroup(rows: seq<Row>, group: set<nat>) returns (order: seq<nat>)
    requires NoGroupVanishes(rows) && Within(rows, group)
    ensures Listing(rows, group, order)
  {
    if group == {} {
      order := [];
    } else {
      var i :| SurvivesIn(rows, group, i);
      var rest := ListGroup(rows, group - {i});
      order := [i] + rest;
      forall a, b | 0 <= a < b < |order| ensures !Dominates(rows[order[b]], rows[order[a]]) {
        assert order[b] == rest[b - 1] && rest[b - 1] in rest;
      }
    }
  }

  lemma {:induction false} FirstListedSurvives(rows: seq<Row>, all: set<nat>, order: seq<nat>, group: set<nat>, a: nat)
    requires Listing(rows, all, order) && group <= all
    requires forall b :: 0 <= b < a <= |order| ==> order[b] !in group
    requires exists b :: a <= b < |order| && order[b] in group
    ensures exists i :: SurvivesIn(rows, group, i)
    decreases |order| - a
  {
    if order[a] !in group {
      FirstListedSurvives(rows, all, order, group, a + 1);
    } else {
      var i := order[a];
      forall j | j in group ensures !Dominates(rows[j], rows[i]) {
        assert j in order;
        var b :| 0 <= b < |order| && order[b] == j;
      }
      assert SurvivesIn(rows, group, i);
    }
  }

  lemma ListedGroupsSurvive(rows: seq<Row>, all: set<nat>, order: seq<nat>)
    requires Listing(rows, all, order) && forall k: nat :: k in all <==> k < |rows|
    ensures NoGroupVanishes(rows)
  {
    forall group | Within(rows, group) && group != {} ensures exists i :: SurvivesIn(rows, group, i) {
      var k :| k in group;
      assert k in order;
      FirstListedSurvives(rows, all, order, group, 0);
    }
  }

  ghost predicate Listable(rows: seq<Row>, all: set<nat>) {
    exists order :: Listing(rows, all, order)
  }

  /** No group drawn from the rows can be pruned away altogether if and only if the rows can be listed
      so that none is dominated by a later one. A weaker safety than losing nothing: the chain above
      is such a listing. */
  lemma NoneVanishesIffListable(rows: seq<Row>, all: set<nat>)
    requires forall k: nat :: k in all <==> k < |rows|
    ensures NoGroupVanishes(rows) <==> Listable(rows, all)
  {
    if NoGroupVanishes(rows) {
      var order := ListGroup(rows, all);
    }
    if Listable(rows, all) {
      var order :| Listing(rows, all, order);
      ListedGroupsSurvive(rows, all, order);
    }
  }

  lemma ChainIsListable()
    ensures var rows := [ChainRow(0), ChainRow(1), ChainRow(2)]; Listing(rows, {0, 1, 2}, [0, 1, 2])
  {
    assert ChainRow(0).mean[0] > ChainRow(1).mean[0] + TOLERANCE && ChainRow(1).mean[0] > ChainRow(2).mean[0] + TOLERANCE;
  }

  /** Three rows with equal cost and spread; two of their four means differ by less than the
      tolerance and one by more. */
  function CircleRow(i: nat): Row {
    var d := 0.0000000008;
    Row(i, MID, 1, 50, 50, 0.0,
        if i == 0 then [2.0 * d, d, 0.0, 0.0] else if i == 1 then [0.0, 2.0 * d, d, 0.0] else [d, 0.0, 2.0 * d, 0.0],
        [0.0, 0.0, 0.0, 0.0])
  }

  lemma CircleTurns(i: nat)
    requires i < 3
    ensures Dominates(CircleRow(i), CircleRow(if i == 2 then 0 else i + 1))
  {
    assert CircleRow(i).mean[i] > CircleRow(if i == 2 then 0 else i + 1).mean[i] + TOLERANCE;
  }

  lemma CircleOfThree(a: Row, b: Row, c: Row)
    requires Dominates(a, b) && Dominates(b, c) && Dominates(c, a)
    ensures Kept([a, b, c]) == []
  {
    var rows := [a, b, c];
    assert rows[0] in rows && rows[1] in rows && rows[2] in rows;
    var keeps := Survivor(rows);
    FilterMembers(rows, keeps);
    CountIfZero(rows, keeps);
  }

  /** Without separation rows may dominate each other in a circle, and the pruning removes them all. */
  lemma CircleVanishes()
    ensures Kept([CircleRow(0), CircleRow(1), CircleRow(2)]) == []
  {
    CircleTurns(0);
    CircleTurns(1);
    CircleTurns(2);
    CircleOfThree(CircleRow(0), CircleRow(1), CircleRow(2));
  }

  // ---------------------------------------------------------------- the pruning loops

  function InTeam(team: int): Row -> bool {
    (x: Row) => x.team == team
  }

  function SurvivorOf(rows: seq<Row>, teams: set<int>): Row -> bool {
    (x: Row) => Undominated(rows, Dominates, x) && x.team in teams
  }

  /** Best score first, then cheapest, then lowest element. */
  predicate Before(a: Row, b: Row) {
    || a.score > b.score
    || (a.score == b.score && (a.nowCost < b.nowCost || (a.nowCost == b.nowCost && a.element <= b.element)))
  }

  /** By descending score, then ascending price, then ascending element. */
  ghost predicate InSearchOrder(rows: seq<Row>) {
    forall i, j :: 0 <= i < j < |rows| ==>
      && rows[i].score >= rows[j].score
      && (rows[i].score == rows[j].score ==> rows[i].nowCost <= rows[j].nowCost)
      && (rows[i].score == rows[j].score && rows[i].nowCost == rows[j].nowCost ==> rows[i].element <= rows[j].element)
  }

  /** Every club that occurs, with its rows in arrival order. */
  ghost predicate Grouped(rows: seq<Row>, byTeam: map<int, seq<Row>>) {
    && (forall x :: x in rows ==> x.team in byTeam)
    && (forall t :: t in byTeam ==> byTeam[t] == Filter(rows, InTeam(t)) && byTeam[t] != [])
  }

  lemma GroupNext(rows: seq<Row>, row: Row, byTeam: map<int, seq<Row>>)
    requires Grouped(rows, byTeam)
    ensures var group := if row.team in byTeam then byTeam[row.team] else [];
            Grouped(rows + [row], byTeam[row.team := group + [row]])
  {
    assert (rows + [row])[..|rows|] == rows;
    if row.team !in byTeam {
      FilterMembers(rows, InTeam(row.team));
      CountIfZero(rows, InTeam(row.team));
    }
    forall t | t in byTeam && t != row.team ensures Filter(rows + [row], InTeam(t)) == byTeam[t] {
      assert !InTeam(t)(row);
    }
  }

  /** The rows of one position grouped by club. */
  method GroupByTeam(rows: seq<Row>) returns (byTeam: map<int, seq<Row>>)
    ensures Grouped(rows, byTeam)
  {
    byTeam := map[];
    for n := 0 to |rows|
      invariant Grouped(rows[..n], byTeam)
    {
      var row := rows[n];
      GroupNext(rows[..n], row, byTeam);
      assert rows[..n + 1] == rows[..n] + [row];
      byTeam := byTeam[row.team := (if row.team in byTeam then byTeam[row.team] else []) + [row]];
    }
    assert rows[..|rows|] == rows;
  }

  function Clubs(rows: seq<Row>): set<int> {
    set k | 0 <= k < |rows| :: rows[k].team
  }

  lemma ClubsCounted(rows: seq<Row>, byTeam: map<int, seq<Row>>, teams: seq<int>)
    requires Grouped(rows, byTeam) && Distinct(teams) && forall t :: t in teams <==> t in byTeam
    ensures |teams| == |Clubs(rows)|
  {
    DistinctLength(teams);
    forall t ensures t in Clubs(rows) <==> t in teams {
      if t in Clubs(rows) {
        var k :| 0 <= k < |rows| && rows[k].team == t;
        assert rows[k] in rows;
      }
      if t in teams {
        FilterMembers(rows, InTeam(t));
        assert byTeam[t][0] in rows;
      }
    }
    assert Clubs(rows) == set t | t in teams;
  }

  method IsDominated(group: seq<Row>, at: nat) returns (r: bool)
    requires at < |group|
    ensures r <==> !Undominated(group, Dominates, group[at])
  {
    for k := 0 to |group|
      invariant forall j :: 0 <= j < k ==> !Dominates(group[j], group[at])
    {
      if k != at {
        var d := CandidateDominates(group[k], group[at]);
        if d {
          return true;
        }
      }
    }
    return false;
  }

  method KeepUndominated(group: seq<Row>) returns (kept: seq<Row>)
    ensures kept == Filter(group, Survivor(group))
  {
    kept := [];
    for n := 0 to |group|
      invariant kept == Filter(group[..n], Survivor(group))
    {
      assert group[..n + 1][..n] == group[..n];
      var d := IsDominated(group, n);
      if !d {
        kept := kept + [group[n]];
      }
    }
    assert group[..|group|] == group;
  }

  /** A club's survivors are the pool's survivors of that club: nobody is dominated from outside. */
  lemma ClubSurvivors(rows: seq<Row>, team: int)
    ensures var group := Filter(rows, InTeam(team));
            Filter(group, Survivor(group)) == Filter(rows, SurvivorOf(rows, {team}))
  {
    var group := Filter(rows, InTeam(team));
    FilterMembers(rows, InTeam(team));
    forall x | x in rows ensures InTeam(team)(x) && Survivor(group)(x) <==> SurvivorOf(rows, {team})(x) {
      if x.team == team && Undominated(group, Dominates, x) {
        forall y | y in rows ensures !Dominates(y, x) {
          assert y.team == team ==> y in group;
        }
      }
    }
    FilterTwice(rows, InTeam(team), Survivor(group), SurvivorOf(rows, {team}));
  }

  function InTeams(teams: set<int>): Row -> bool {
    (x: Row) => x.team in teams
  }

  lemma AddTeam(rows: seq<Row>, done: set<int>, team: int)
    requires team !in done
    ensures multiset(Filter(rows, SurvivorOf(rows, done + {team})))
            == multiset(Filter(rows, SurvivorOf(rows, done))) + multiset(Filter(rows, SurvivorOf(rows, {team})))
    ensures |Filter(rows, InTeams(done + {team}))| == |Filter(rows, InTeams(done))| + |Filter(rows, InTeam(team))|
  {
    FilterSplit(rows, SurvivorOf(rows, done), SurvivorOf(rows, {team}), SurvivorOf(rows, done + {team}));
    FilterSplit(rows, InTeams(done), InTeam(team), InTeams(done + {team}));
  }

  lemma NoTeams(rows: seq<Row>)
    ensures Filter(rows, SurvivorOf(rows, {})) == [] && Filter(rows, InTeams({})) == []
  {
    FilterMembers(rows, SurvivorOf(rows, {}));
    CountIfZero(rows, SurvivorOf(rows, {}));
    FilterMembers(rows, InTeams({}));
    CountIfZero(rows, InTeams({}));
  }

  lemma AllTeams(rows: seq<Row>, teams: set<int>)
    requires forall x :: x in rows ==> x.team in teams
    ensures Filter(rows, SurvivorOf(rows, teams)) == Kept(rows) && |Filter(rows, InTeams(teams))| == |rows|
  {
    FilterSame(rows, SurvivorOf(rows, teams), Survivor(rows));
    KeepAll(rows, InTeams(teams));
  }

  lemma {:induction false} KeepAll(rows: seq<Row>, f: Row -> bool)
    requires forall x :: x in rows ==> f(x)
    ensures Filter(rows, f) == rows
  {
    if rows == [] {
    } else {
      KeepAll(rows[..|rows| - 1], f);
    }
  }

  ghost function Firsts(teams: seq<int>, n: nat): set<int>
    requires n <= |teams|
  {
    set t | t in teams[..n]
  }

  /** What has been collected after some of the clubs. */
  ghost predicate Collected(rows: seq<Row>, done: set<int>, search: seq<Row>, pruned: int) {
    && multiset(search) == multiset(Filter(rows, SurvivorOf(rows, done)))
    && |search| + pruned == |Filter(rows, InTeams(done))|
  }

  lemma CollectTeam(rows: seq<Row>, done: set<int>, team: int, search: seq<Row>, pruned: int)
    requires team !in done && Collected(rows, done, search, pruned)
    ensures var group := Filter(rows, InTeam(team));
            var kept := Filter(group, Survivor(group));
            && |kept| <= |group|
            && Collected(rows, done + {team}, search + Sorting.Sort(kept, Before), pruned + (|group| - |kept|))
  {
    var group := Filter(rows, InTeam(team));
    var kept := Filter(group, Survivor(group));
    ClubSurvivors(rows, team);
    AddTeam(rows, done, team);
    Sorting.SortPermutes(kept, Before);
    FilterMembers(group, Survivor(group));
  }

  lemma TeamsNext(teams: seq<int>, n: nat)
    requires n < |teams| && forall i, j :: 0 <= i < j < |teams| ==> teams[i] < teams[j]
    ensures Firsts(teams, n + 1) == Firsts(teams, n) + {teams[n]} && teams[n] !in Firsts(teams, n)
  {
    assert teams[..n + 1] == teams[..n] + [teams[n]];
  }

  lemma BeforeIsPreorder()
    ensures Sorting.TotalPreorder(Before)
  {
  }

  lemma AllCollected(rows: seq<Row>, teams: seq<int>, search: seq<Row>, pruned: int)
    requires forall x :: x in rows ==> x.team in teams
    requires Collected(rows, Firsts(teams, |teams|), search, pruned)
    ensures var result := Sorting.Sort(search, Before);
            && multiset(result) == multiset(Kept(rows)) && Sorting.Ordered(result, Before)
            && |result| + pruned == |rows|
  {
    assert teams[..|teams|] == teams;
    AllTeams(rows, Firsts(teams, |teams|));
    BeforeIsPreorder();
    Sorting.SortPermutes(search, Before);
    Sorting.SortOrders(search, Before);
  }

  /** One position of `_team_position_pareto_pool`: the result holds exactly the undominated rows,
      each as often as in the pool, in search order, and the pruning counter is exact. */
  method ParetoPosition(rows: seq<Row>) returns (search: seq<Row>, groups: nat, pruned: nat)
    ensures multiset(search) == multiset(Kept(rows))
    ensures InSearchOrder(search)
    ensures |search| + pruned == |rows| && groups == |Clubs(rows)|
  {
    var byTeam := GroupByTeam(rows);
    var teams := Ascending(byTeam.Keys);
    search, groups, pruned := [], 0, 0;
    NoTeams(rows);
    assert Firsts(teams, 0) == {};
    for n := 0 to |teams|
      invariant Collected(rows, Firsts(teams, n), search, pruned) && groups == n
    {
      var group := byTeam[teams[n]];
      var kept := KeepUndominated(group);
      TeamsNext(teams, n);
      CollectTeam(rows, Firsts(teams, n), teams[n], search, pruned);
      groups := groups + 1;
      search := search + Sorting.Sort(kept, Before);
      pruned := pruned + (|group| - |kept|);
    }
    AllCollected(rows, teams, search, pruned);
    ClubsCounted(rows, byTeam, teams);
    search := Sorting.Sort(search, Before);
  }

  /** `_team_position_pareto_pool`. */
  method TeamPositionParetoPool(fullPool: map<Position, seq<Row>>)
    returns (searchPool: map<Position, seq<Row>>, groups: nat, pruned: nat)
    requires fullPool.Keys == {GK, DEF, MID, FWD}
    ensures searchPool.Keys == fullPool.Keys
    ensures forall p :: p in fullPool ==>
                          && multiset(searchPool[p]) == multiset(Kept(fullPool[p]))
                          && InSearchOrder(searchPool[p])
    ensures pruned == |fullPool[GK]| + |fullPool[DEF]| + |fullPool[MID]| + |fullPool[FWD]|
                      - |searchPool[GK]| - |searchPool[DEF]| - |searchPool[MID]| - |searchPool[FWD]|
    ensures groups == |Clubs(fullPool[GK])| + |Clubs(fullPool[DEF])| + |Clubs(fullPool[MID])| + |Clubs(fullPool[FWD])|
  {
    var gk, g0, n0 := ParetoPosition(fullPool[GK]);
    var def, g1, n1 := ParetoPosition(fullPool[DEF]);
    var mid, g2, n2 := ParetoPosition(fullPool[MID]);
    var fwd, g3, n3 := ParetoPosition(fullPool[FWD]);
    searchPool := map[GK := gk, DEF := def, MID := mid, FWD := fwd];
    groups, pruned := g0 + g1 + g2 + g3, n0 + n1 + n2 + n3;
  }
}
