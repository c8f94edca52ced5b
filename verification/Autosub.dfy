/** Settlement of a carried-forward plan: automatic substitutions and the score they lead to. */
module Autosub {
  import opened Wrappers
  import opened Counting
  import opened Tally
  import Sorting

  datatype Position = GK | DEF | MID | FWD | Unlisted

  /** A submitted pick; `pick` is None when the stored pick position is unusable. */
  datatype Player = Player(element: int, position: Position, pick: Option<int>, captain: bool, vice: bool)

  datatype Actual = Actual(points: real, minutes: real)

  type ActualMap = map<int, Actual>

  datatype Sub = Sub(out: int, into: int)

  datatype Settled = Settled(selected: seq<Player>, used: set<int>, subs: seq<Sub>)

  datatype Score = Score(points: real, effectiveCaptain: Option<int>, settled: Settled)

  datatype Unavailable = SquadOrLiveMissing | PlanShapeInvalid

  const LEGAL_FORMATIONS: set<(int, int, int)> :=
    {(3, 4, 3), (3, 5, 2), (4, 3, 3), (4, 4, 2), (4, 5, 1), (5, 2, 3), (5, 3, 2), (5, 4, 1)}

  function AtPosition(p: Position): Player -> bool {
    (x: Player) => x.position == p
  }

  function Count(xs: seq<Player>, p: Position): nat {
    CountIf(xs, AtPosition(p))
  }

  predicate LegalXi(xs: seq<Player>) {
    Count(xs, GK) == 1 && (Count(xs, DEF), Count(xs, MID), Count(xs, FWD)) in LEGAL_FORMATIONS
  }

  predicate Played(actual: ActualMap, element: int) {
    element in actual && actual[element].minutes > 0.0
  }

  function PointsOf(actual: ActualMap, element: int): real {
    if element in actual then actual[element].points else 0.0
  }

  // ---------------------------------------------------------------- what the loops compute

  function Starters(squad: seq<Player>): seq<Player> {
    if squad == [] then []
    else
      var last := squad[|squad| - 1];
      Starters(squad[..|squad| - 1]) + if last.pick.Some? && last.pick.value <= 11 then [last] else []
  }

  function Reserves(squad: seq<Player>): seq<Player> {
    if squad == [] then []
    else
      var last := squad[|squad| - 1];
      Reserves(squad[..|squad| - 1]) + if last.pick.Some? && last.pick.value > 11 then [last] else []
  }

  function PickOf(x: Player): int {
    if x.pick.Some? then x.pick.value else 0
  }

  function Bench(squad: seq<Player>): seq<Player> {
    Sorting.Sort(Reserves(squad), (a: Player, b: Player) => PickOf(a) <= PickOf(b))
  }

  /** Position of the first goalkeeper, or the length when there is none. */
  function FirstGk(xs: seq<Player>): (k: nat)
    ensures k <= |xs|
    ensures forall j :: 0 <= j < k ==> xs[j].position != GK
    ensures k < |xs| ==> xs[k].position == GK
  {
    if xs == [] then 0 else if xs[0].position == GK then 0 else 1 + FirstGk(xs[1..])
  }

  /** Position of the first row with this element, or the length when there is none. */
  function IndexOf(xs: seq<Player>, element: int): (k: nat)
    ensures k <= |xs|
    ensures forall j :: 0 <= j < k ==> xs[j].element != element
    ensures k < |xs| ==> xs[k].element == element
  {
    if xs == [] then 0 else if xs[0].element == element then 0 else 1 + IndexOf(xs[1..], element)
  }

  function SubGoalkeeper(starters: seq<Player>, bench: seq<Player>, actual: ActualMap): Settled {
    var g, b := FirstGk(starters), FirstGk(bench);
    if g < |starters| && b < |bench|
       && !Played(actual, starters[g].element) && Played(actual, bench[b].element)
    then Settled(starters[g := bench[b]], {bench[b].element}, [Sub(starters[g].element, bench[b].element)])
    else Settled(starters, {}, [])
  }

  /** Bench player c may come on for `out` in the XI selected so far. */
  predicate Fits(s: Settled, out: int, c: Player, actual: ActualMap) {
    && c.position != GK && c.element !in s.used && Played(actual, c.element)
    && var at := IndexOf(s.selected, out);
       at < |s.selected| && LegalXi(s.selected[at := c])
  }

  /** The first bench player from position k on who fits, or the bench length. */
  function FirstFit(s: Settled, out: int, bench: seq<Player>, actual: ActualMap, k: nat): (r: nat)
    requires k <= |bench|
    ensures k <= r <= |bench|
    ensures forall j :: k <= j < r ==> !Fits(s, out, bench[j], actual)
    ensures r < |bench| ==> Fits(s, out, bench[r], actual)
    decreases |bench| - k
  {
    if k == |bench| || Fits(s, out, bench[k], actual) then k else FirstFit(s, out, bench, actual, k + 1)
  }

  function SubStarter(s: Settled, starter: Player, bench: seq<Player>, actual: ActualMap): Settled {
    if starter.position == GK || Played(actual, starter.element) then s
    else
      var k := FirstFit(s, starter.element, bench, actual, 0);
      if k == |bench| then s
      else Settled(s.selected[IndexOf(s.selected, starter.element) := bench[k]],
                   s.used + {bench[k].element},
                   s.subs + [Sub(starter.element, bench[k].element)])
  }

  function SubAll(s: Settled, queue: seq<Player>, bench: seq<Player>, actual: ActualMap): Settled {
    if queue == [] then s
    else SubStarter(SubAll(s, queue[..|queue| - 1], bench, actual), queue[|queue| - 1], bench, actual)
  }

  function Settle(squad: seq<Player>, actual: ActualMap, final: bool): Settled {
    if final then
      var afterGk := SubGoalkeeper(Starters(squad), Bench(squad), actual);
      SubAll(afterGk, afterGk.selected, Bench(squad), actual)
    else
      Settled(Starters(squad), {}, [])
  }

  function Ids(xs: seq<Player>): (r: seq<int>)
    ensures |r| == |xs| && forall k :: 0 <= k < |xs| ==> r[k] == xs[k].element
  {
    seq(|xs|, k requires 0 <= k < |xs| => xs[k].element)
  }

  function Dedup(ids: seq<int>): seq<int> {
    if ids == [] then []
    else
      var front, last := Dedup(ids[..|ids| - 1]), ids[|ids| - 1];
      if last in front then front else front + [last]
  }

  function Total(ids: seq<int>, actual: ActualMap): real {
    if ids == [] then 0.0 else Total(ids[..|ids| - 1], actual) + PointsOf(actual, ids[|ids| - 1])
  }

  /** Element of the first flagged row, -1 when nobody is flagged. */
  function Captain(squad: seq<Player>): int {
    if squad == [] then -1 else if squad[0].captain then squad[0].element else Captain(squad[1..])
  }

  function Vice(squad: seq<Player>): int {
    if squad == [] then -1 else if squad[0].vice then squad[0].element else Vice(squad[1..])
  }

  function EffectiveCaptain(squad: seq<Player>, actual: ActualMap, final: bool): Option<int> {
    if Played(actual, Captain(squad)) then Some(Captain(squad))
    else if final && Played(actual, Vice(squad)) then Some(Vice(squad))
    else None
  }

  function FinalScore(squad: seq<Player>, actual: ActualMap, final: bool): Score {
    var settled := Settle(squad, actual, final);
    var ids := Ids(settled.selected);
    var armband := EffectiveCaptain(squad, actual, final);
    Score(Total(Dedup(ids), actual) + if armband.Some? && armband.value in ids then PointsOf(actual, armband.value) else 0.0,
          armband, settled)
  }

  // ---------------------------------------------------------------- the loops

  /** The inner loop: walk down the bench until somebody fits. */
  method ScanBench(selected: seq<Player>, used: set<int>, ghost subs: seq<Sub>, out: int, bench: seq<Player>, actual: ActualMap)
    returns (k: nat)
    ensures k == FirstFit(Settled(selected, used, subs), out, bench, actual, 0)
  {
    ghost var s := Settled(selected, used, subs);
    k := 0;
    while k < |bench|
      invariant k <= |bench|
      invariant FirstFit(s, out, bench, actual, 0) == FirstFit(s, out, bench, actual, k)
    {
      var candidate := bench[k];
      if candidate.position != GK && candidate.element !in used && Played(actual, candidate.element) {
        var at := IndexOf(selected, out);
        if at < |selected| && LegalXi(selected[at := candidate]) {
          return;
        }
      }
      k := k + 1;
    }
  }

  /** The final-gameweek block: the goalkeeper first, then one pass over the outfield starters. */
  method Substitute(starters: seq<Player>, bench: seq<Player>, actual: ActualMap) returns (s: Settled)
    ensures var m := SubGoalkeeper(starters, bench, actual); s == SubAll(m, m.selected, bench, actual)
  {
    var selected := starters;
    var used: set<int> := {};
    var subs: seq<Sub> := [];
    var g, b := FirstGk(selected), FirstGk(bench);
    if g < |selected| && b < |bench|
       && !Played(actual, selected[g].element) && Played(actual, bench[b].element)
    {
      subs := subs + [Sub(selected[g].element, bench[b].element)];
      selected := selected[g := bench[b]];
      used := used + {bench[b].element};
    }
    var queue := selected;
    ghost var m := Settled(selected, used, subs);
    assert m == SubGoalkeeper(starters, bench, actual);
    for n := 0 to |queue|
      invariant Settled(selected, used, subs) == SubAll(m, queue[..n], bench, actual)
    {
      var starter := queue[n];
      assert queue[..n + 1][..n] == queue[..n];
      if starter.position != GK && !Played(actual, starter.element) {
        var k := ScanBench(selected, used, subs, starter.element, bench, actual);
        if k < |bench| {
          selected := selected[IndexOf(selected, starter.element) := bench[k]];
          used := used + {bench[k].element};
          subs := subs + [Sub(starter.element, bench[k].element)];
        }
      }
    }
    assert queue[..|queue|] == queue;
    s := Settled(selected, used, subs);
  }

  /** `_carry_forward_score`. */
  method CarryForwardScore(squad: seq<Player>, actual: ActualMap, final: bool) returns (r: Result<Score, Unavailable>)
    ensures r.Err? && r.error == SquadOrLiveMissing <==> |squad| != 15 || actual == map[]
    ensures r.Err? && r.error == PlanShapeInvalid
            <==> |squad| == 15 && actual != map[] && (|Starters(squad)| != 11 || |Bench(squad)| != 4)
    ensures r.Ok? ==> r.value == FinalScore(squad, actual, final)
  {
    if |squad| != 15 || actual == map[] {
      return Err(SquadOrLiveMissing);
    }
    var starters, bench := Starters(squad), Bench(squad);
    if |starters| != 11 || |bench| != 4 {
      return Err(PlanShapeInvalid);
    }
    var settled := Settled(starters, {}, []);
    if final {
      settled := Substitute(starters, bench, actual);
    }
    var ids := Ids(settled.selected);
    var points := Total(Dedup(ids), actual);
    var armband := EffectiveCaptain(squad, actual, final);
    if armband.Some? && armband.value in ids {
      points := points + PointsOf(actual, armband.value);
    }
    r := Ok(Score(points, armband, settled));
  }

  // ---------------------------------------------------------------- counting positions

  ghost predicate DistinctElements(xs: seq<Player>) {
    forall i, j :: 0 <= i < j < |xs| ==> xs[i].element != xs[j].element
  }

  ghost predicate DrawnFrom(xs: seq<Player>, squad: seq<Player>) {
    forall k :: 0 <= k < |xs| ==> xs[k] in squad
  }

  function Min(p: Position): nat {
    match p
    case GK => 1
    case DEF => 3
    case MID => 2
    case FWD => 1
    case Unlisted => 0
  }

  /** A submitted plan: the squad, the eleven in squad order and the ordered bench. */
  datatype Plan = Plan(squad: seq<Player>, starters: seq<Player>, bench: seq<Player>)

  function PlanOf(squad: seq<Player>): Plan {
    Plan(squad, Starters(squad), Bench(squad))
  }

  ghost predicate Official(squad: seq<Player>) {
    && |squad| == 15 && DistinctElements(squad)
    && Count(squad, GK) == 2 && Count(squad, DEF) == 5 && Count(squad, MID) == 5 && Count(squad, FWD) == 3
  }

  /** Eleven of the squad start, the other four are the bench. */
  ghost predicate Parts(p: Plan) {
    && Official(p.squad) && |p.starters| == 11
    && DistinctElements(p.starters) && DrawnFrom(p.starters, p.squad)
    && (forall x :: x in p.bench ==> x in p.squad && x !in p.starters)
    && (forall x :: x in p.squad ==> x in p.starters || x in p.bench)
    && (forall x, y :: x in p.squad && y in p.squad && x.element == y.element ==> x == y)
  }

  ghost predicate Regular(squad: seq<Player>) {
    Official(squad) && |Starters(squad)| == 11 && |Bench(squad)| == 4 && LegalXi(Starters(squad))
  }

  /** What the eight formations amount to for an official squad. */
  ghost predicate Balanced(xs: seq<Player>) {
    && Count(xs, GK) == 1
    && Count(xs, DEF) >= Min(DEF) && Count(xs, MID) >= Min(MID) && Count(xs, FWD) >= Min(FWD)
  }

  ghost function Of(xs: seq<Player>, p: Position): set<Player> {
    set x | x in xs && x.position == p
  }

  lemma {:induction false} CountIsSetSize(xs: seq<Player>, p: Position)
    requires DistinctElements(xs)
    ensures Count(xs, p) == |Of(xs, p)|
  {
    if xs == [] {
      assert Of(xs, p) == {};
    } else {
      var front, last := xs[..|xs| - 1], xs[|xs| - 1];
      CountIsSetSize(front, p);
      OfSnoc(front, last, p);
      assert xs == front + [last];
      assert last !in front;
    }
  }

  lemma OfSnoc(front: seq<Player>, last: Player, p: Position)
    ensures Of(front + [last], p) == if last.position == p then Of(front, p) + {last} else Of(front, p)
  {
  }

  lemma {:induction false} CountsTotal(xs: seq<Player>)
    ensures Count(xs, GK) + Count(xs, DEF) + Count(xs, MID) + Count(xs, FWD) + Count(xs, Unlisted) == |xs|
  {
    if xs == [] {
    } else {
      CountsTotal(xs[..|xs| - 1]);
    }
  }

  lemma {:induction false} CountUpdate(xs: seq<Player>, i: nat, c: Player, p: Position)
    requires i < |xs|
    ensures Count(xs[i := c], p)
            == Count(xs, p) - (if xs[i].position == p then 1 else 0) + (if c.position == p then 1 else 0)
  {
    var n := |xs| - 1;
    if i == n {
      assert xs[i := c][..n] == xs[..n];
    } else {
      CountUpdate(xs[..n], i, c, p);
      assert xs[i := c][..n] == xs[..n][i := c];
    }
  }

  lemma CountWithin(squad: seq<Player>, xs: seq<Player>, p: Position)
    requires DistinctElements(squad) && DistinctElements(xs) && DrawnFrom(xs, squad)
    ensures Count(xs, p) <= Count(squad, p)
  {
    CountIsSetSize(squad, p);
    CountIsSetSize(xs, p);
    SubsetSize(Of(xs, p), Of(squad, p));
  }

  /** For eleven players of an official squad the eight listed formations are exactly the ones with
      one goalkeeper and at least three defenders, two midfielders and one forward. */
  lemma LegalIffBalanced(squad: seq<Player>, xs: seq<Player>)
    requires Official(squad) && |xs| == 11 && DistinctElements(xs) && DrawnFrom(xs, squad)
    ensures LegalXi(xs) <==> Balanced(xs)
  {
    CountsTotal(squad);
    CountsTotal(xs);
    CountWithin(squad, xs, DEF);
    CountWithin(squad, xs, MID);
    CountWithin(squad, xs, FWD);
    CountWithin(squad, xs, Unlisted);
  }

  // ---------------------------------------------------------------- the plan

  lemma {:induction false} PlanMembers(squad: seq<Player>)
    ensures forall x :: x in Starters(squad) <==> x in squad && x.pick.Some? && x.pick.value <= 11
    ensures forall x :: x in Reserves(squad) <==> x in squad && x.pick.Some? && x.pick.value > 11
    ensures |Starters(squad)| + |Reserves(squad)| <= |squad|
    ensures |Starters(squad)| + |Reserves(squad)| == |squad| ==> forall x :: x in squad ==> x.pick.Some?
  {
    if squad == [] {
    } else {
      var front, last := squad[..|squad| - 1], squad[|squad| - 1];
      PlanMembers(front);
      assert forall x :: x in squad <==> x in front || x == last;
    }
  }

  lemma {:induction false} StartersDistinct(squad: seq<Player>)
    requires DistinctElements(squad)
    ensures DistinctElements(Starters(squad))
  {
    if squad == [] {
    } else {
      StartersDistinct(squad[..|squad| - 1]);
      PlanMembers(squad[..|squad| - 1]);
    }
  }

  lemma PlanParts(squad: seq<Player>)
    requires Regular(squad)
    ensures Parts(PlanOf(squad)) && Balanced(Starters(squad))
  {
    PlanMembers(squad);
    StartersDistinct(squad);
    LegalIffBalanced(squad, Starters(squad));
    Sorting.SortPermutes(Reserves(squad), (a: Player, b: Player) => PickOf(a) <= PickOf(b));
    Sorting.SortMembers(Reserves(squad), (a: Player, b: Player) => PickOf(a) <= PickOf(b));
    forall x | x in squad ensures x in Starters(squad) || x in Bench(squad) {
      assert x.pick.Some?;
    }
    forall x, y | x in squad && y in squad && x.element == y.element ensures x == y {
      var i :| 0 <= i < |squad| && squad[i] == x;
      var j :| 0 <= j < |squad| && squad[j] == y;
      assert i == j;
    }
  }

  // ---------------------------------------------------------------- invariant of the pass

  /** x may stand in slot j: its starter, or a reserve who played in for a starter who did not. */
  ghost predicate SlotOk(p: Plan, actual: ActualMap, j: nat, x: Player)
    requires j < |p.starters|
  {
    || x == p.starters[j]
    || (&& !Played(actual, p.starters[j].element) && x in p.bench && Played(actual, x.element)
        && (p.starters[j].position == GK <==> x.position == GK))
  }

  ghost predicate Eleven(p: Plan, actual: ActualMap, xs: seq<Player>) {
    && |xs| == |p.starters| == 11 && DistinctElements(xs) && DrawnFrom(xs, p.squad) && Balanced(xs)
    && forall j :: 0 <= j < 11 ==> SlotOk(p, actual, j, xs[j])
  }

  /** A reserve outfield player who played and was not used. */
  ghost predicate Spare(p: Plan, actual: ActualMap, s: Settled, c: Player) {
    c in p.bench && c.position != GK && Played(actual, c.element) && c.element !in s.used
  }

  /** The player in slot j starts, plays outfield and did not play. */
  ghost predicate Absent(p: Plan, actual: ActualMap, s: Settled, j: nat)
    requires j < |s.selected| && j < |p.starters|
  {
    && s.selected[j] == p.starters[j]
    && s.selected[j].position != GK && !Played(actual, s.selected[j].element)
  }

  /** No spare player may take slot j: its position is at the minimum and no spare plays there. */
  ghost predicate Stuck(p: Plan, actual: ActualMap, s: Settled, j: nat)
    requires j < |s.selected|
  {
    forall c :: Spare(p, actual, s, c) ==>
                  && c.position != s.selected[j].position
                  && Count(s.selected, s.selected[j].position) == Min(s.selected[j].position)
  }

  ghost predicate GoalkeeperDone(p: Plan, actual: ActualMap, s: Settled) {
    forall x, c ::
      x in s.selected && x in p.starters && x.position == GK && !Played(actual, x.element) &&
      c in p.bench && c.position == GK ==>
        !Played(actual, c.element)
  }

  /** The used reserves are the selected ones. */
  ghost predicate UsedOk(p: Plan, s: Settled) {
    forall b :: b in p.bench ==> (b.element in s.used <==> b in s.selected)
  }

  /** Substitution q is what happened in slot j. */
  ghost predicate MadeIn(p: Plan, s: Settled, q: Sub, j: nat)
    requires |p.starters| == |s.selected|
  {
    && j < |s.selected| && s.selected[j] != p.starters[j]
    && q == Sub(p.starters[j].element, s.selected[j].element)
  }

  /** The substitution list names every changed slot once and nothing else. */
  ghost predicate Ledger(p: Plan, s: Settled)
    requires |p.starters| == |s.selected|
  {
    && (forall a, b :: 0 <= a < b < |s.subs| ==> s.subs[a].out != s.subs[b].out)
    && (forall q :: q in s.subs ==> exists j :: MadeIn(p, s, q, j))
    && (forall q, j :: MadeIn(p, s, q, j) ==> q in s.subs)
  }

  /** Invariant after the first k slots have been visited. */
  ghost predicate Passed(p: Plan, actual: ActualMap, s: Settled, k: nat) {
    && k <= 11
    && Eleven(p, actual, s.selected)
    && UsedOk(p, s) && Ledger(p, s)
    && GoalkeeperDone(p, actual, s)
    && (forall j :: k <= j < 11 && p.starters[j].position != GK ==> s.selected[j] == p.starters[j])
    && (forall j :: 0 <= j < k && Absent(p, actual, s, j) ==> Stuck(p, actual, s, j))
  }

  function Replace(s: Settled, j: nat, b: Player): Settled
    requires j < |s.selected|
  {
    Settled(s.selected[j := b], s.used + {b.element}, s.subs + [Sub(s.selected[j].element, b.element)])
  }

  /** The reserve b may legally take over slot j. */
  ghost predicate Takes(p: Plan, actual: ActualMap, s: Settled, j: nat, b: Player)
    requires |s.selected| == |p.starters| == 11
  {
    && j < 11 && s.selected[j] == p.starters[j] && !Played(actual, p.starters[j].element)
    && b in p.bench && Played(actual, b.element) && b.element !in s.used
    && (p.starters[j].position == GK <==> b.position == GK)
    && Balanced(s.selected[j := b])
  }

  lemma ReplaceKeepsEleven(p: Plan, actual: ActualMap, s: Settled, j: nat, b: Player)
    requires Parts(p) && Eleven(p, actual, s.selected) && UsedOk(p, s) && Takes(p, actual, s, j, b)
    ensures Eleven(p, actual, s.selected[j := b])
  {
    var xs := s.selected[j := b];
    assert b !in s.selected;
    forall i, k | 0 <= i < k < 11 ensures xs[i].element != xs[k].element {
      assert s.selected[i] in p.squad && s.selected[k] in p.squad;
    }
    forall i | 0 <= i < 11 ensures SlotOk(p, actual, i, xs[i]) {
      assert SlotOk(p, actual, i, s.selected[i]);
    }
  }

  lemma ReplaceKeepsUsed(p: Plan, actual: ActualMap, s: Settled, j: nat, b: Player)
    requires Parts(p) && |s.selected| == 11 && UsedOk(p, s) && Takes(p, actual, s, j, b)
    ensures UsedOk(p, Replace(s, j, b))
  {
    var t := Replace(s, j, b);
    assert t.selected[j] == b;
    forall x | x in p.bench ensures x.element in t.used <==> x in t.selected {
      if x in s.selected {
        var i :| 0 <= i < 11 && s.selected[i] == x;
        assert t.selected[i] == x;
      }
    }
  }

  lemma ReplaceKeepsLedger(p: Plan, actual: ActualMap, s: Settled, j: nat, b: Player)
    requires Parts(p) && |s.selected| == 11 && Ledger(p, s) && Takes(p, actual, s, j, b)
    ensures Ledger(p, Replace(s, j, b))
  {
    var t := Replace(s, j, b);
    var made := Sub(p.starters[j].element, b.element);
    assert MadeIn(p, t, made, j);
    assert forall q, i :: i != j ==> (MadeIn(p, t, q, i) <==> MadeIn(p, s, q, i));
    forall q | q in s.subs ensures q.out != made.out && exists i :: MadeIn(p, t, q, i) {
      var i :| MadeIn(p, s, q, i);
      assert MadeIn(p, t, q, i);
    }
    forall q, i | MadeIn(p, t, q, i) ensures q in t.subs {
      assert i == j || MadeIn(p, s, q, i);
    }
  }

  // ---------------------------------------------------------------- the pass keeps the invariant

  lemma FirstGkExists(xs: seq<Player>)
    requires Count(xs, GK) > 0
    ensures FirstGk(xs) < |xs|
  {
    if FirstGk(xs) == |xs| {
      NoGkCount(xs);
    }
  }

  lemma {:induction false} NoGkCount(xs: seq<Player>)
    requires forall k :: 0 <= k < |xs| ==> xs[k].position != GK
    ensures Count(xs, GK) == 0
  {
    if xs == [] {
    } else {
      NoGkCount(xs[..|xs| - 1]);
    }
  }

  /** One goalkeeper starts and one sits on the bench. */
  lemma UniqueGoalkeepers(p: Plan)
    requires Parts(p) && Balanced(p.starters)
    ensures forall x, y :: x in p.starters && y in p.starters && x.position == y.position == GK ==> x == y
    ensures forall x, y :: x in p.bench && y in p.bench && x.position == y.position == GK ==> x == y
  {
    CountIsSetSize(p.squad, GK);
    CountIsSetSize(p.starters, GK);
    var all, first := Of(p.squad, GK), Of(p.starters, GK);
    forall x, y | x in p.starters && y in p.starters && x.position == y.position == GK ensures x == y {
      if x != y { SubsetSize({x, y}, first); }
    }
    forall x, y | x in p.bench && y in p.bench && x.position == y.position == GK ensures x == y {
      if x != y {
        assert first !! {x, y};
        SubsetSize(first + {x, y}, all);
      }
    }
  }

  lemma KickOff(p: Plan, actual: ActualMap)
    requires Parts(p) && Balanced(p.starters)
    ensures var s := Settled(p.starters, {}, []);
            Eleven(p, actual, s.selected) && UsedOk(p, s) && Ledger(p, s)
  {
  }

  lemma AfterGoalkeeper(p: Plan, actual: ActualMap)
    requires Parts(p) && Balanced(p.starters)
    ensures Passed(p, actual, SubGoalkeeper(p.starters, p.bench, actual), 0)
  {
    var g, b := FirstGk(p.starters), FirstGk(p.bench);
    FirstGkExists(p.starters);
    if b < |p.bench| && !Played(actual, p.starters[g].element) && Played(actual, p.bench[b].element) {
      GoalkeeperSwapped(p, actual, SubGoalkeeper(p.starters, p.bench, actual), g, p.bench[b]);
    } else {
      GoalkeeperStays(p, actual, SubGoalkeeper(p.starters, p.bench, actual));
    }
  }

  lemma GoalkeeperStays(p: Plan, actual: ActualMap, s: Settled)
    requires Parts(p) && Balanced(p.starters) && s == Settled(p.starters, {}, [])
    requires var g, b := FirstGk(p.starters), FirstGk(p.bench);
             g < |p.starters| && (b < |p.bench| && !Played(actual, p.starters[g].element) ==> !Played(actual, p.bench[b].element))
    ensures Passed(p, actual, s, 0)
  {
    UniqueGoalkeepers(p);
    KickOff(p, actual);
    forall x, c | x in p.starters && x.position == GK && !Played(actual, x.element) && c in p.bench && c.position == GK
      ensures !Played(actual, c.element)
    {
      assert x == p.starters[FirstGk(p.starters)];
      assert FirstGk(p.bench) < |p.bench| && c == p.bench[FirstGk(p.bench)];
    }
  }

  lemma GoalkeeperSwapped(p: Plan, actual: ActualMap, t: Settled, g: nat, c: Player)
    requires Parts(p) && Balanced(p.starters)
    requires g < 11 && p.starters[g].position == c.position == GK && c in p.bench
    requires !Played(actual, p.starters[g].element) && Played(actual, c.element)
    requires t == Settled(p.starters[g := c], {c.element}, [Sub(p.starters[g].element, c.element)])
    ensures Passed(p, actual, t, 0)
  {
    var s := Settled(p.starters, {}, []);
    UniqueGoalkeepers(p);
    KickOff(p, actual);
    CountUpdate(p.starters, g, c, GK);
    CountUpdate(p.starters, g, c, DEF);
    CountUpdate(p.starters, g, c, MID);
    CountUpdate(p.starters, g, c, FWD);
    ReplaceKeepsEleven(p, actual, s, g, c);
    ReplaceKeepsUsed(p, actual, s, g, c);
    ReplaceKeepsLedger(p, actual, s, g, c);
    assert t == Replace(s, g, c);
    forall x | x in t.selected && x in p.starters ensures x.position != GK {
      var i :| 0 <= i < 11 && t.selected[i] == x;
      assert i != g;
    }
  }

  /** Swapping an outfield player for another keeps the eleven legal exactly when it stays balanced. */
  lemma SwapLegalIffBalanced(p: Plan, actual: ActualMap, s: Settled, k: nat, c: Player)
    requires Parts(p) && Eleven(p, actual, s.selected) && UsedOk(p, s)
    requires k < 11 && c in p.bench && c.element !in s.used
    ensures LegalXi(s.selected[k := c]) <==> Balanced(s.selected[k := c])
  {
    var xs := s.selected[k := c];
    assert c !in s.selected;
    forall i, j | 0 <= i < j < 11 ensures xs[i].element != xs[j].element {
      assert s.selected[i] in p.squad && s.selected[j] in p.squad;
    }
    LegalIffBalanced(p.squad, xs);
  }

  /** If no spare fits slot k, its position is at the minimum and no spare plays it. */
  lemma NobodyFits(p: Plan, actual: ActualMap, s: Settled, k: nat)
    requires Parts(p) && Eleven(p, actual, s.selected) && UsedOk(p, s)
    requires k < 11 && Absent(p, actual, s, k)
    requires forall c :: Spare(p, actual, s, c) ==> !LegalXi(s.selected[k := c])
    ensures Stuck(p, actual, s, k)
  {
    var q := s.selected[k].position;
    forall c | Spare(p, actual, s, c) ensures c.position != q && Count(s.selected, q) == Min(q) {
      SwapLegalIffBalanced(p, actual, s, k, c);
      CountUpdate(s.selected, k, c, GK);
      CountUpdate(s.selected, k, c, DEF);
      CountUpdate(s.selected, k, c, MID);
      CountUpdate(s.selected, k, c, FWD);
      ListedPosition(p, s.selected[k]);
    }
  }

  lemma ListedPosition(p: Plan, x: Player)
    requires Parts(p) && x in p.squad
    ensures x.position != Unlisted
  {
    CountsTotal(p.squad);
    CountIsSetSize(p.squad, Unlisted);
    assert x.position == Unlisted ==> x in Of(p.squad, Unlisted);
  }

  /** An earlier stuck slot stays stuck when a spare comes on elsewhere: the spare never plays the
      stuck position, which therefore stays at its minimum. */
  lemma StuckStays(p: Plan, actual: ActualMap, s: Settled, j: nat, k: nat, b: Player)
    requires Parts(p) && |s.selected| == 11 && j < 11 && k < 11 && j != k
    requires s.selected[j] in p.squad && s.selected[j].position != GK
    requires Stuck(p, actual, s, j) && Spare(p, actual, s, b) && Balanced(s.selected[k := b])
    ensures Stuck(p, actual, Replace(s, k, b), j)
  {
    var t, q := Replace(s, k, b), s.selected[j].position;
    CountUpdate(s.selected, k, b, q);
    ListedPosition(p, s.selected[j]);
    forall c | Spare(p, actual, t, c) ensures c.position != q && Count(t.selected, q) == Min(q) {
      assert Spare(p, actual, s, c);
    }
  }

  lemma FillSlot(p: Plan, actual: ActualMap, s: Settled, k: nat, b: Player)
    requires Parts(p) && Passed(p, actual, s, k) && k < 11
    requires Absent(p, actual, s, k) && Spare(p, actual, s, b) && LegalXi(s.selected[k := b])
    ensures Passed(p, actual, Replace(s, k, b), k + 1)
  {
    var t := Replace(s, k, b);
    SwapLegalIffBalanced(p, actual, s, k, b);
    ReplaceKeepsEleven(p, actual, s, k, b);
    ReplaceKeepsUsed(p, actual, s, k, b);
    ReplaceKeepsLedger(p, actual, s, k, b);
    forall j | 0 <= j < k + 1 && Absent(p, actual, t, j) ensures Stuck(p, actual, t, j) {
      assert j != k && Absent(p, actual, s, j);
      StuckStays(p, actual, s, j, k, b);
    }
    forall x | x in t.selected && x in p.starters ensures x in s.selected {
      var i :| 0 <= i < 11 && t.selected[i] == x;
      assert i != k;
    }
  }

  lemma IndexOfSlot(xs: seq<Player>, j: nat)
    requires DistinctElements(xs) && j < |xs|
    ensures IndexOf(xs, xs[j].element) == j
  {
  }

  /** Nothing to decide in slot k, or nobody fits it. */
  lemma LeaveSlot(p: Plan, actual: ActualMap, s: Settled, k: nat)
    requires Passed(p, actual, s, k) && k < 11
    requires Absent(p, actual, s, k) ==> Stuck(p, actual, s, k)
    ensures Passed(p, actual, s, k + 1)
  {
  }

  lemma VisitAbsent(p: Plan, actual: ActualMap, s: Settled, k: nat)
    requires Parts(p) && Passed(p, actual, s, k) && k < 11 && Absent(p, actual, s, k)
    ensures Passed(p, actual, SubStarter(s, s.selected[k], p.bench, actual), k + 1)
  {
    var out := s.selected[k].element;
    IndexOfSlot(s.selected, k);
    var at := FirstFit(s, out, p.bench, actual, 0);
    if at < |p.bench| {
      FillSlot(p, actual, s, k, p.bench[at]);
    } else {
      forall c | Spare(p, actual, s, c) ensures !LegalXi(s.selected[k := c]) {
        var i :| 0 <= i < |p.bench| && p.bench[i] == c;
        assert !Fits(s, out, p.bench[i], actual);
      }
      NobodyFits(p, actual, s, k);
      LeaveSlot(p, actual, s, k);
    }
  }

  lemma VisitSlot(p: Plan, actual: ActualMap, s: Settled, k: nat, starter: Player)
    requires Parts(p) && Passed(p, actual, s, k) && k < 11
    requires starter == p.starters[k] || starter.position == p.starters[k].position == GK
    ensures Passed(p, actual, SubStarter(s, starter, p.bench, actual), k + 1)
  {
    if starter.position != GK && !Played(actual, starter.element) {
      VisitAbsent(p, actual, s, k);
    } else {
      LeaveSlot(p, actual, s, k);
    }
  }

  lemma SubAllNext(p: Plan, actual: ActualMap, s: Settled, queue: seq<Player>, k: nat)
    requires k < |queue|
    ensures SubAll(s, queue[..k + 1], p.bench, actual) == SubStarter(SubAll(s, queue[..k], p.bench, actual), queue[k], p.bench, actual)
  {
    assert queue[..k + 1][..k] == queue[..k];
  }

  /** The pass visits the starters, but for a goalkeeper who was already replaced. */
  lemma Visited(p: Plan, actual: ActualMap, s: Settled, k: nat)
    requires Parts(p) && Passed(p, actual, s, 0) && k < 11
    ensures |s.selected| == 11
    ensures s.selected[k] == p.starters[k] || s.selected[k].position == p.starters[k].position == GK
  {
    assert SlotOk(p, actual, k, s.selected[k]);
  }

  lemma {:induction false} PassSlots(p: Plan, actual: ActualMap, s: Settled, k: nat)
    requires Parts(p) && Passed(p, actual, s, 0) && k <= 11
    ensures |s.selected| == 11 && Passed(p, actual, SubAll(s, s.selected[..k], p.bench, actual), k)
  {
    Visited(p, actual, s, 0);
    if k == 0 {
    } else {
      PassSlots(p, actual, s, k - 1);
      Visited(p, actual, s, k - 1);
      SubAllNext(p, actual, s, s.selected, k - 1);
      VisitSlot(p, actual, SubAll(s, s.selected[..k - 1], p.bench, actual), k - 1, s.selected[k - 1]);
    }
  }

  /** Everything the proofs below need about a settled eleven. */
  lemma SettledPassed(squad: seq<Player>, actual: ActualMap)
    requires Regular(squad)
    ensures Parts(PlanOf(squad)) && Balanced(Starters(squad))
    ensures Passed(PlanOf(squad), actual, Settle(squad, actual, true), 11)
  {
    PlanParts(squad);
    var s := SubGoalkeeper(Starters(squad), Bench(squad), actual);
    AfterGoalkeeper(PlanOf(squad), actual);
    PassSlots(PlanOf(squad), actual, s, 11);
    assert s.selected[..11] == s.selected;
  }

  // ---------------------------------------------------------------- what a settled eleven is

  ghost function Elements(xs: seq<Player>): set<int> {
    set x | x in xs :: x.element
  }

  ghost function Outs(subs: seq<Sub>): set<int> {
    set q | q in subs :: q.out
  }

  ghost function Ins(subs: seq<Sub>): set<int> {
    set q | q in subs :: q.into
  }

  /** Main result: eleven distinct squad members in a legal formation, equal to the starters minus
      the players taken off plus those brought on; nobody who played is taken off and only reserves
      who played, each once, come on. */
  lemma SettlementIsSound(squad: seq<Player>, actual: ActualMap)
    requires Regular(squad)
    ensures var s := Settle(squad, actual, true);
            && |s.selected| == 11 && DistinctElements(s.selected) && DrawnFrom(s.selected, squad) && LegalXi(s.selected)
            && Elements(s.selected) == Elements(Starters(squad)) - Outs(s.subs) + Ins(s.subs)
            && |Outs(s.subs)| == |Ins(s.subs)| == |s.subs|
            && (forall x :: x in Starters(squad) && Played(actual, x.element) ==> x in s.selected)
            && (forall q :: q in s.subs ==> SoundSub(PlanOf(squad), actual, q))
  {
    SettledPassed(squad, actual);
    var p, s := PlanOf(squad), Settle(squad, actual, true);
    LegalIffBalanced(squad, s.selected);
    SubsAreChanges(p, actual, s);
    forall q | q in s.subs ensures SoundSub(p, actual, q) { SubsAreSound(p, actual, s, q); }
    forall x | x in p.starters && Played(actual, x.element) ensures x in s.selected {
      var j :| 0 <= j < 11 && p.starters[j] == x;
      assert SlotOk(p, actual, j, s.selected[j]);
    }
  }

  /** The slots whose occupant changed. */
  ghost function ChangedSlots(p: Plan, s: Settled): set<nat>
    requires |p.starters| == |s.selected|
  {
    set j: nat | j < |s.selected| && s.selected[j] != p.starters[j]
  }

  ghost function ElementAt(xs: seq<Player>): (f: nat -> int)
    ensures forall j: nat :: j < |xs| ==> f(j) == xs[j].element
  {
    (j: nat) => if j < |xs| then xs[j].element else 0
  }

  lemma SubsAreChanges(p: Plan, actual: ActualMap, s: Settled)
    requires Parts(p) && Eleven(p, actual, s.selected) && Ledger(p, s)
    ensures Elements(s.selected) == Elements(p.starters) - Outs(s.subs) + Ins(s.subs)
    ensures |Outs(s.subs)| == |Ins(s.subs)| == |s.subs| == |ChangedSlots(p, s)|
  {
    var slots := ChangedSlots(p, s);
    var outOf := ElementAt(p.starters);
    var intoOf := ElementAt(s.selected);
    LedgerNames(p, s, outOf, intoOf);
    ImagesOf(s.subs, slots, outOf, intoOf);
    ElementsAfter(p.starters, s.selected, slots, outOf, intoOf);
  }

  /** A starter who did not play makes way for a reserve who did. */
  ghost predicate SoundSub(p: Plan, actual: ActualMap, q: Sub) {
    && q.out in Elements(p.starters) && !(q.out in actual && actual[q.out].minutes > 0.0)
    && q.into in Elements(p.bench) && q.into in actual && actual[q.into].minutes > 0.0
  }

  lemma SubsAreSound(p: Plan, actual: ActualMap, s: Settled, q: Sub)
    requires Eleven(p, actual, s.selected) && Ledger(p, s) && q in s.subs
    ensures SoundSub(p, actual, q)
  {
    var j: nat :| MadeIn(p, s, q, j);
    assert SlotOk(p, actual, j, s.selected[j]);
    assert p.starters[j] in p.starters;
  }

  lemma LedgerNames(p: Plan, s: Settled, outOf: nat -> int, intoOf: nat -> int)
    requires |p.starters| == |s.selected| && Ledger(p, s)
    requires forall j: nat :: j < |s.selected| ==> outOf(j) == p.starters[j].element && intoOf(j) == s.selected[j].element
    ensures forall j :: j in ChangedSlots(p, s) ==> Sub(outOf(j), intoOf(j)) in s.subs
    ensures forall q :: q in s.subs ==> exists j :: j in ChangedSlots(p, s) && q == Sub(outOf(j), intoOf(j))
  {
    forall j | j in ChangedSlots(p, s) ensures Sub(outOf(j), intoOf(j)) in s.subs {
      assert MadeIn(p, s, Sub(outOf(j), intoOf(j)), j);
    }
    forall q | q in s.subs ensures exists j :: j in ChangedSlots(p, s) && q == Sub(outOf(j), intoOf(j)) {
      var j :| MadeIn(p, s, q, j);
      assert j in ChangedSlots(p, s) && q == Sub(outOf(j), intoOf(j));
    }
  }

  /** A substitution list that enumerates the slots, each slot with its own two elements. */
  lemma ImagesOf(subs: seq<Sub>, slots: set<nat>, outOf: nat -> int, intoOf: nat -> int)
    requires forall a, b :: 0 <= a < b < |subs| ==> subs[a].out != subs[b].out
    requires forall j :: j in slots ==> Sub(outOf(j), intoOf(j)) in subs
    requires forall q :: q in subs ==> exists j :: j in slots && q == Sub(outOf(j), intoOf(j))
    requires forall i, j :: i in slots && j in slots && outOf(i) == outOf(j) ==> i == j
    requires forall i, j :: i in slots && j in slots && intoOf(i) == intoOf(j) ==> i == j
    ensures Outs(subs) == Image(slots, outOf) && Ins(subs) == Image(slots, intoOf)
    ensures |Outs(subs)| == |Ins(subs)| == |subs| == |slots|
  {
    ImageSize(slots, outOf);
    ImageSize(slots, intoOf);
    var outs: seq<int> := seq(|subs|, a requires 0 <= a < |subs| => subs[a].out);
    DistinctLength(outs);
    assert Outs(subs) == set x | x in outs by {
      forall q | q in subs ensures q.out in outs {
        var a :| 0 <= a < |subs| && subs[a] == q;
        assert outs[a] == q.out;
      }
    }
    forall j | j in slots ensures outOf(j) in Outs(subs) && intoOf(j) in Ins(subs) {
      var q := Sub(outOf(j), intoOf(j));
      assert q in subs && q.out == outOf(j) && q.into == intoOf(j);
    }
  }

  lemma ElementsAfter(before: seq<Player>, after: seq<Player>, slots: set<nat>, outOf: nat -> int, intoOf: nat -> int)
    requires |before| == |after| && DistinctElements(before)
    requires slots == set j: nat | j < |after| && after[j] != before[j]
    requires forall j: nat :: j < |after| ==> outOf(j) == before[j].element && intoOf(j) == after[j].element
    ensures Elements(after) == Elements(before) - Image(slots, outOf) + Image(slots, intoOf)
  {
    var outs, ins := Image(slots, outOf), Image(slots, intoOf);
    forall x | x in after ensures x.element in Elements(before) - outs + ins {
      var j: nat :| j < |after| && after[j] == x;
      if j in slots {
        assert intoOf(j) in ins;
      } else {
        assert before[j] in before;
      }
    }
    forall x | x in before && x.element !in outs ensures x.element in Elements(after) {
      var j: nat :| j < |before| && before[j] == x;
      assert outOf(j) == x.element;
      assert after[j] in after;
    }
    forall j | j in slots ensures intoOf(j) in Elements(after) {
      assert after[j] in after;
    }
  }

  // ---------------------------------------------------------------- optimality

  /** No absent starter can be legally replaced by a reserve who played and was left unused. */
  lemma NothingLeftToSwap(squad: seq<Player>, actual: ActualMap, j: nat, c: Player)
    requires Regular(squad) && j < 11 && c in Bench(squad)
    requires var s := Settle(squad, actual, true);
             && |s.selected| == 11
             && s.selected[j] in Starters(squad) && !Played(actual, s.selected[j].element)
             && c !in s.selected && Played(actual, c.element)
    ensures !LegalXi(Settle(squad, actual, true).selected[j := c])
  {
    SettledPassed(squad, actual);
    var p, s := PlanOf(squad), Settle(squad, actual, true);
    assert SlotOk(p, actual, j, s.selected[j]);
    SwapLegalIffBalanced(p, actual, s, j, c);
    CountUpdate(s.selected, j, c, GK);
    if s.selected[j].position != GK && c.position != GK {
      assert Absent(p, actual, s, j) && Stuck(p, actual, s, j) && Spare(p, actual, s, c);
      ListedPosition(p, s.selected[j]);
      CountUpdate(s.selected, j, c, s.selected[j].position);
    }
  }

  /** Another way to settle: a legal eleven that keeps everybody who started and played, and brings
      on only reserves who played. */
  ghost predicate Alternative(squad: seq<Player>, actual: ActualMap, xi: seq<Player>) {
    && |xi| == 11 && DistinctElements(xi) && DrawnFrom(xi, squad) && LegalXi(xi)
    && (forall x :: x in Starters(squad) && Played(actual, x.element) ==> x in xi)
    && (forall x :: x in xi && x in Bench(squad) ==> Played(actual, x.element))
  }

  ghost function BroughtOn(bench: seq<Player>, xi: seq<Player>): set<Player> {
    set x | x in xi && x in bench
  }

  ghost function KeptAt(p: Plan, xi: seq<Player>, q: Position): set<Player> {
    set x | x in xi && x in p.starters && x.position == q
  }

  ghost function BroughtAt(p: Plan, xi: seq<Player>, q: Position): set<Player> {
    set x | x in xi && x in p.bench && x.position == q
  }

  lemma PositionSplits(p: Plan, xi: seq<Player>, q: Position)
    requires Parts(p) && DistinctElements(xi) && DrawnFrom(xi, p.squad)
    ensures Count(xi, q) == |KeptAt(p, xi, q)| + |BroughtAt(p, xi, q)|
  {
    CountIsSetSize(xi, q);
    OriginsSplit(p, xi, q);
  }

  lemma OriginsSplit(p: Plan, xi: seq<Player>, q: Position)
    requires forall x :: x in xi ==> (x in p.starters <==> x !in p.bench)
    ensures |Of(xi, q)| == |KeptAt(p, xi, q)| + |BroughtAt(p, xi, q)|
  {
    assert KeptAt(p, xi, q) !! BroughtAt(p, xi, q);
    assert Of(xi, q) == KeptAt(p, xi, q) + BroughtAt(p, xi, q);
  }

  lemma BroughtOnSplits(p: Plan, xi: seq<Player>)
    requires Parts(p) && DistinctElements(xi) && DrawnFrom(xi, p.squad)
    ensures |BroughtOn(p.bench, xi)| == |BroughtAt(p, xi, GK)| + |BroughtAt(p, xi, DEF)|
                                        + |BroughtAt(p, xi, MID)| + |BroughtAt(p, xi, FWD)|
  {
    var all := BroughtOn(p.bench, xi);
    forall x | x in all ensures x.position != Unlisted { ListedPosition(p, x); }
    FourParts(all);
    forall q ensures BroughtAt(p, xi, q) == At(all, q) {}
  }

  ghost function At(all: set<Player>, q: Position): set<Player> {
    set x | x in all && x.position == q
  }

  lemma AtPick(all: set<Player>, x: Player, q: Position)
    requires x in all
    ensures |At(all, q)| == |At(all - {x}, q)| + if x.position == q then 1 else 0
  {
    assert At(all, q) == if x.position == q then At(all - {x}, q) + {x} else At(all - {x}, q);
  }

  lemma {:induction false} FourParts(all: set<Player>)
    requires forall x :: x in all ==> x.position != Unlisted
    ensures |all| == |At(all, GK)| + |At(all, DEF)| + |At(all, MID)| + |At(all, FWD)|
  {
    if all == {} {
    } else {
      var x :| x in all;
      FourParts(all - {x});
      AtPick(all, x, GK);
      AtPick(all, x, DEF);
      AtPick(all, x, MID);
      AtPick(all, x, FWD);
    }
  }

  /** Where an absent starter of position q was kept although a spare remains, position q is at its
      minimum and everybody an alternative brings on there has come on. */
  lemma AbsentIsKept(p: Plan, actual: ActualMap, s: Settled, xi: seq<Player>, q: Position, c: Player, x: Player)
    requires Parts(p) && Passed(p, actual, s, 11) && Spare(p, actual, s, c) && q != GK
    requires x in KeptAt(p, s.selected, q) && !Played(actual, x.element)
    requires forall y :: y in xi && y in p.bench ==> Played(actual, y.element)
    ensures Count(s.selected, q) == Min(q)
    ensures BroughtAt(p, xi, q) <= BroughtAt(p, s.selected, q)
  {
    var j :| 0 <= j < 11 && s.selected[j] == x;
    assert SlotOk(p, actual, j, s.selected[j]);
    assert Absent(p, actual, s, j) && Stuck(p, actual, s, j);
    forall b | b in BroughtAt(p, xi, q) ensures b in BroughtAt(p, s.selected, q) {
      assert !Spare(p, actual, s, b);
    }
  }

  /** Where spares remain, the settled eleven has kept no more starters than any alternative. */
  lemma KeepsFewest(p: Plan, actual: ActualMap, s: Settled, xi: seq<Player>, q: Position, c: Player)
    requires Parts(p) && Balanced(p.starters) && Passed(p, actual, s, 11) && Spare(p, actual, s, c)
    requires |xi| == 11 && DistinctElements(xi) && DrawnFrom(xi, p.squad) && Balanced(xi)
    requires forall x :: x in p.starters && Played(actual, x.element) ==> x in xi
    requires forall x :: x in xi && x in p.bench ==> Played(actual, x.element)
    requires q != GK && q != Unlisted
    ensures |KeptAt(p, s.selected, q)| <= |KeptAt(p, xi, q)|
  {
    if x :| x in KeptAt(p, s.selected, q) && !Played(actual, x.element) {
      AbsentIsKept(p, actual, s, xi, q, c, x);
      PositionSplits(p, s.selected, q);
      PositionSplits(p, xi, q);
      SubsetSize(BroughtAt(p, xi, q), BroughtAt(p, s.selected, q));
    } else {
      SubsetSize(KeptAt(p, s.selected, q), KeptAt(p, xi, q));
    }
  }

  /** Whoever the alternative fields in goal, it brings on no goalkeeper the pass did not. */
  lemma SameGoalkeeper(p: Plan, actual: ActualMap, s: Settled, xi: seq<Player>)
    requires Parts(p) && Balanced(p.starters) && Passed(p, actual, s, 11)
    requires |xi| == 11 && DistinctElements(xi) && DrawnFrom(xi, p.squad) && Balanced(xi)
    requires forall x :: x in p.starters && Played(actual, x.element) ==> x in xi
    requires forall x :: x in xi && x in p.bench ==> Played(actual, x.element)
    ensures BroughtAt(p, xi, GK) <= BroughtAt(p, s.selected, GK)
  {
    UniqueGoalkeepers(p);
    CountIsSetSize(xi, GK);
    CountIsSetSize(s.selected, GK);
    forall b | b in BroughtAt(p, xi, GK) ensures b in s.selected {
      var first :| first in Of(s.selected, GK);
      if first in p.starters {
        // the starting keeper did not play, so the pass has already tried the reserve
        if Played(actual, first.element) { SubsetSize({b, first}, Of(xi, GK)); }
      }
    }
  }

  /** Optimality: the single greedy pass makes as many substitutions as any legal settlement could. */
  lemma PassIsMaximum(squad: seq<Player>, actual: ActualMap, xi: seq<Player>)
    requires Regular(squad) && Alternative(squad, actual, xi)
    ensures |BroughtOn(Bench(squad), xi)| <= |Settle(squad, actual, true).subs|
  {
    SettledPassed(squad, actual);
    var p, s := PlanOf(squad), Settle(squad, actual, true);
    LegalIffBalanced(squad, xi);
    SubsAreChanges(p, actual, s);
    SubsAreBroughtOn(p, actual, s);
    SameGoalkeeper(p, actual, s, xi);
    if c :| Spare(p, actual, s, c) {
      BroughtByPosition(p, actual, s, xi, c);
    } else {
      forall b | b in BroughtOn(p.bench, xi) ensures b in BroughtOn(p.bench, s.selected) {
        assert !Spare(p, actual, s, b);
        if b.position == GK { assert b in BroughtAt(p, xi, GK); }
      }
      SubsetSize(BroughtOn(p.bench, xi), BroughtOn(p.bench, s.selected));
    }
  }

  /** The bound is attained: the settled eleven is itself one of the legal settlements. */
  lemma SettledIsAlternative(squad: seq<Player>, actual: ActualMap)
    requires Regular(squad)
    ensures var s := Settle(squad, actual, true);
            Alternative(squad, actual, s.selected) && |BroughtOn(Bench(squad), s.selected)| == |s.subs|
  {
    SettledPassed(squad, actual);
    var p, s := PlanOf(squad), Settle(squad, actual, true);
    SubsAreChanges(p, actual, s);
    SubsAreBroughtOn(p, actual, s);
    SettlementIsSound(squad, actual);
    forall x | x in s.selected && x in p.bench ensures Played(actual, x.element) {
      var j :| 0 <= j < 11 && s.selected[j] == x;
      assert SlotOk(p, actual, j, x) && p.starters[j] in p.starters;
    }
  }

  lemma BroughtByPosition(p: Plan, actual: ActualMap, s: Settled, xi: seq<Player>, c: Player)
    requires Parts(p) && Balanced(p.starters) && Passed(p, actual, s, 11) && Spare(p, actual, s, c)
    requires |xi| == 11 && DistinctElements(xi) && DrawnFrom(xi, p.squad) && Balanced(xi)
    requires forall x :: x in p.starters && Played(actual, x.element) ==> x in xi
    requires forall x :: x in xi && x in p.bench ==> Played(actual, x.element)
    requires BroughtAt(p, xi, GK) <= BroughtAt(p, s.selected, GK)
    ensures |BroughtOn(p.bench, xi)| <= |BroughtOn(p.bench, s.selected)|
  {
    SubsetSize(BroughtAt(p, xi, GK), BroughtAt(p, s.selected, GK));
    KeepsFewest(p, actual, s, xi, DEF, c);
    KeepsFewest(p, actual, s, xi, MID, c);
    KeepsFewest(p, actual, s, xi, FWD, c);
    BroughtTotal(p, xi);
    BroughtTotal(p, s.selected);
  }

  lemma BroughtTotal(p: Plan, xi: seq<Player>)
    requires Parts(p) && |xi| == 11 && DistinctElements(xi) && DrawnFrom(xi, p.squad) && Balanced(xi)
    ensures |BroughtOn(p.bench, xi)| == |BroughtAt(p, xi, GK)| + 10
                                        - |KeptAt(p, xi, DEF)| - |KeptAt(p, xi, MID)| - |KeptAt(p, xi, FWD)|
  {
    BroughtOnSplits(p, xi);
    PositionSplits(p, xi, DEF);
    PositionSplits(p, xi, MID);
    PositionSplits(p, xi, FWD);
    CountsTotal(xi);
    CountIsSetSize(xi, Unlisted);
    forall x | x in Of(xi, Unlisted) ensures false { ListedPosition(p, x); }
    assert Of(xi, Unlisted) == {};
  }

  lemma SubsAreBroughtOn(p: Plan, actual: ActualMap, s: Settled)
    requires Parts(p) && Eleven(p, actual, s.selected) && |s.subs| == |ChangedSlots(p, s)|
    ensures |BroughtOn(p.bench, s.selected)| == |s.subs|
  {
    forall j: nat | j < 11 ensures s.selected[j] != p.starters[j] <==> s.selected[j] in p.bench {
      assert SlotOk(p, actual, j, s.selected[j]);
      assert p.starters[j] in p.starters;
    }
    OccupantsAre(p.bench, s.selected, ChangedSlots(p, s));
  }

  lemma OccupantsAre(bench: seq<Player>, xs: seq<Player>, slots: set<nat>)
    requires |xs| == 11 && DistinctElements(xs)
    requires forall j: nat :: j in slots <==> j < 11 && xs[j] in bench
    ensures |BroughtOn(bench, xs)| == |slots|
  {
    var occupant := (j: nat) => if j < 11 then xs[j] else xs[0];
    forall x | x in BroughtOn(bench, xs) ensures exists j :: j in slots && occupant(j) == x {
      var j: nat :| j < 11 && xs[j] == x;
      assert j in slots && occupant(j) == x;
    }
    assert BroughtOn(bench, xs) == Image(slots, occupant);
    ImageSize(slots, occupant);
  }

  // ---------------------------------------------------------------- points

  /** What the substitutions are worth. */
  function Gain(subs: seq<Sub>, actual: ActualMap): real {
    if subs == [] then 0.0
    else
      var q := subs[|subs| - 1];
      Gain(subs[..|subs| - 1], actual) + PointsOf(actual, q.into) - PointsOf(actual, q.out)
  }

  lemma {:induction false} TotalUpdate(ids: seq<int>, i: nat, e: int, actual: ActualMap)
    requires i < |ids|
    ensures Total(ids[i := e], actual) == Total(ids, actual) - PointsOf(actual, ids[i]) + PointsOf(actual, e)
  {
    var n := |ids| - 1;
    if i == n {
      assert ids[i := e][..n] == ids[..n];
    } else {
      TotalUpdate(ids[..n], i, e, actual);
      assert ids[i := e][..n] == ids[..n][i := e];
    }
  }

  lemma ReplaceBalances(s: Settled, i: nat, b: Player, actual: ActualMap)
    requires i < |s.selected|
    ensures var t := Replace(s, i, b);
            Total(Ids(t.selected), actual) - Gain(t.subs, actual) == Total(Ids(s.selected), actual) - Gain(s.subs, actual)
  {
    var t := Replace(s, i, b);
    TotalUpdate(Ids(s.selected), i, b.element, actual);
    assert Ids(t.selected) == Ids(s.selected)[i := b.element];
    assert t.subs[..|s.subs|] == s.subs;
  }

  lemma {:induction false} PassBalances(s: Settled, queue: seq<Player>, bench: seq<Player>, actual: ActualMap)
    ensures var t := SubAll(s, queue, bench, actual);
            Total(Ids(t.selected), actual) - Gain(t.subs, actual) == Total(Ids(s.selected), actual) - Gain(s.subs, actual)
  {
    if queue == [] {
    } else {
      var m, starter := SubAll(s, queue[..|queue| - 1], bench, actual), queue[|queue| - 1];
      PassBalances(s, queue[..|queue| - 1], bench, actual);
      var k := FirstFit(m, starter.element, bench, actual, 0);
      if starter.position != GK && !Played(actual, starter.element) && k < |bench| {
        ReplaceBalances(m, IndexOf(m.selected, starter.element), bench[k], actual);
      }
    }
  }

  /** Conservation, for any submitted rows whatever: the settled total is the starters' total plus
      what came on minus what went off. */
  lemma PointsConserved(squad: seq<Player>, actual: ActualMap, final: bool)
    ensures var s := Settle(squad, actual, final);
            Total(Ids(s.selected), actual) == Total(Ids(Starters(squad)), actual) + Gain(s.subs, actual)
  {
    if final {
      var starters, bench := Starters(squad), Bench(squad);
      var g, b := FirstGk(starters), FirstGk(bench);
      var m := SubGoalkeeper(starters, bench, actual);
      if g < |starters| && b < |bench|
         && !Played(actual, starters[g].element) && Played(actual, bench[b].element)
      {
        ReplaceBalances(Settled(starters, {}, []), g, bench[b], actual);
        assert m == Replace(Settled(starters, {}, []), g, bench[b]);
      }
      PassBalances(m, m.selected, bench, actual);
    }
  }

  lemma {:induction false} DedupDistinct(ids: seq<int>)
    requires Distinct(ids)
    ensures Dedup(ids) == ids
  {
    if ids == [] {
    } else {
      DedupDistinct(ids[..|ids| - 1]);
    }
  }

  // ---------------------------------------------------------------- the armband

  function IsCaptain(): Player -> bool {
    (x: Player) => x.captain
  }

  function IsVice(): Player -> bool {
    (x: Player) => x.vice
  }

  /** Row k is the first flagged one. */
  ghost predicate FirstFlagged(squad: seq<Player>, flagged: Player -> bool, k: nat) {
    k < |squad| && flagged(squad[k]) && forall j :: 0 <= j < k ==> !flagged(squad[j])
  }

  /** e is the element of the first flagged row, or -1 when no row is flagged. */
  ghost predicate Bearer(squad: seq<Player>, flagged: Player -> bool, e: int) {
    || (exists k: nat :: FirstFlagged(squad, flagged, k) && squad[k].element == e)
    || (e == -1 && forall j :: 0 <= j < |squad| ==> !flagged(squad[j]))
  }

  lemma {:induction false} CaptainBears(squad: seq<Player>)
    ensures Bearer(squad, IsCaptain(), Captain(squad))
  {
    if squad == [] {
    } else if squad[0].captain {
      assert FirstFlagged(squad, IsCaptain(), 0);
    } else {
      CaptainBears(squad[1..]);
      BearerOfRest(squad, IsCaptain(), Captain(squad[1..]));
    }
  }

  lemma {:induction false} ViceBears(squad: seq<Player>)
    ensures Bearer(squad, IsVice(), Vice(squad))
  {
    if squad == [] {
    } else if squad[0].vice {
      assert FirstFlagged(squad, IsVice(), 0);
    } else {
      ViceBears(squad[1..]);
      BearerOfRest(squad, IsVice(), Vice(squad[1..]));
    }
  }

  lemma BearerOfRest(squad: seq<Player>, flagged: Player -> bool, e: int)
    requires squad != [] && !flagged(squad[0]) && Bearer(squad[1..], flagged, e)
    ensures Bearer(squad, flagged, e)
  {
    var rest := squad[1..];
    assert forall j :: 0 < j < |squad| ==> squad[j] == rest[j - 1];
    if k: nat :| FirstFlagged(rest, flagged, k) && rest[k].element == e {
      assert squad[k + 1] == rest[k];
      assert FirstFlagged(squad, flagged, k + 1);
    }
  }

  lemma OneBearer(squad: seq<Player>, flagged: Player -> bool, d: int, e: int)
    requires Bearer(squad, flagged, d) && Bearer(squad, flagged, e)
    ensures d == e
  {
    if j: nat, k: nat :| FirstFlagged(squad, flagged, j) && squad[j].element == d
                          && FirstFlagged(squad, flagged, k) && squad[k].element == e {
      assert j == k;
    }
  }

  /** Who is counted twice: the first row flagged captain if that player played; else, in a final
      gameweek, the first row flagged vice if that player played; else nobody. */
  lemma ArmbandIs(squad: seq<Player>, actual: ActualMap, final: bool, c: int, v: int)
    requires Bearer(squad, IsCaptain(), c) && Bearer(squad, IsVice(), v)
    ensures var worn := FinalScore(squad, actual, final).effectiveCaptain;
            && (Played(actual, c) ==> worn == Some(c))
            && (!Played(actual, c) ==> (worn == Some(v) <==> final && Played(actual, v)))
            && (!Played(actual, c) && !(final && Played(actual, v)) ==> worn == None)
  {
    CaptainBears(squad);
    ViceBears(squad);
    OneBearer(squad, IsCaptain(), c, Captain(squad));
    OneBearer(squad, IsVice(), v, Vice(squad));
  }

  /** The score of a final gameweek: starters, plus substitutions, plus the armband once more. A
      captain who started and played always keeps his bonus, because nobody who played is taken off. */
  lemma FinalScoreExplained(squad: seq<Player>, actual: ActualMap, c: int, v: int)
    requires Regular(squad) && Bearer(squad, IsCaptain(), c) && Bearer(squad, IsVice(), v)
    ensures var r := FinalScore(squad, actual, true);
            var base := Total(Ids(Starters(squad)), actual) + Gain(r.settled.subs, actual);
            var selected := Elements(r.settled.selected);
            && (Played(actual, c) && c in selected ==> r.points == base + PointsOf(actual, c))
            && (Played(actual, c) && c in Elements(Starters(squad)) ==> c in selected)
            && (!Played(actual, c) && Played(actual, v) && v in selected ==> r.points == base + PointsOf(actual, v))
            && (!Played(actual, c) && Played(actual, v) && v in Elements(Starters(squad)) ==> v in selected)
            && (!(Played(actual, c) && c in selected) && !(!Played(actual, c) && Played(actual, v) && v in selected) ==> r.points == base)
  {
    ArmbandIs(squad, actual, true, c, v);
    PointsConserved(squad, actual, true);
    var s := Settle(squad, actual, true);
    assert Distinct(Ids(s.selected)) by { SettlementIsSound(squad, actual); }
    DedupDistinct(Ids(s.selected));
    IdsAreElements(s.selected);
    PlayedStartersStay(squad, actual);
  }

  const LEADER := Player(1, MID, Some(1), true, false)
  const DEPUTY := Player(2, MID, Some(2), false, true)

  const BOTH: ActualMap := map[1 := Actual(10.0, 90.0), 2 := Actual(2.0, 90.0)]
  const DEPUTY_ONLY: ActualMap := map[1 := Actual(0.0, 0.0), 2 := Actual(2.0, 90.0)]

  /** Two picks who both played, with 10 and 2 points: the captain counts twice. With an absent captain
      the vice does in a final gameweek, and nobody before. */
  lemma TwoPicks()
    ensures FinalScore([LEADER, DEPUTY], BOTH, true).points == 22.0
    ensures FinalScore([LEADER, DEPUTY], DEPUTY_ONLY, true).effectiveCaptain == Some(2)
    ensures FinalScore([LEADER, DEPUTY], DEPUTY_ONLY, false).effectiveCaptain == None
  {
    var squad := [LEADER, DEPUTY];
    TwoFlags(squad);
    ArmbandIs(squad, BOTH, true, 1, 2);
    ArmbandIs(squad, DEPUTY_ONLY, true, 1, 2);
    ArmbandIs(squad, DEPUTY_ONLY, false, 1, 2);
    TwoStarters();
    EverybodyPlayed(squad, BOTH);
    TwoTogether();
  }

  lemma TwoFlags(squad: seq<Player>)
    requires squad == [LEADER, DEPUTY]
    ensures Bearer(squad, IsCaptain(), 1) && Bearer(squad, IsVice(), 2)
  {
    assert FirstFlagged(squad, IsCaptain(), 0) && FirstFlagged(squad, IsVice(), 1);
  }

  lemma TwoTogether()
    ensures Dedup(Ids([LEADER, DEPUTY])) == [1, 2] && Total([1, 2], BOTH) == 12.0
  {
    assert Ids([LEADER, DEPUTY]) == [1, 2] && [1, 2][..1] == [1] && [1][..0] == [];
    DedupDistinct([1, 2]);
  }

  lemma TwoStarters()
    ensures Starters([LEADER, DEPUTY]) == [LEADER, DEPUTY]
  {
    assert [LEADER, DEPUTY][..1] == [LEADER] && [LEADER][..0] == [];
    assert Starters([LEADER]) == [LEADER];
  }

  /** When every starter played nothing changes. */
  lemma EverybodyPlayed(squad: seq<Player>, actual: ActualMap)
    requires forall x :: x in Starters(squad) ==> Played(actual, x.element)
    ensures Settle(squad, actual, true) == Settled(Starters(squad), {}, [])
  {
    var starters := Starters(squad);
    var g := FirstGk(starters);
    if g < |starters| {
      assert starters[g] in starters;
    }
    NobodyAbsent(Settled(starters, {}, []), starters, Bench(squad), actual);
  }

  lemma {:induction false} NobodyAbsent(s: Settled, queue: seq<Player>, bench: seq<Player>, actual: ActualMap)
    requires forall x :: x in queue ==> Played(actual, x.element)
    ensures SubAll(s, queue, bench, actual) == s
  {
    if queue == [] {
    } else {
      NobodyAbsent(s, queue[..|queue| - 1], bench, actual);
      assert queue[|queue| - 1] in queue;
    }
  }

  // ---------------------------------------------------------------- who is on the pitch and who comes first

  /** Starters and bench are told apart by their pick positions, and the bench is ordered by them, rows of
      one pick staying in order. */
  lemma PicksDecide(squad: seq<Player>)
    ensures forall x :: x in Starters(squad) <==> x in squad && x.pick.Some? && x.pick.value <= 11
    ensures forall x :: x in Bench(squad) <==> x in squad && x.pick.Some? && x.pick.value > 11
    ensures forall i, j :: 0 <= i < j < |Bench(squad)| ==>
              Bench(squad)[i].pick.Some? && Bench(squad)[j].pick.Some? && Bench(squad)[i].pick.value <= Bench(squad)[j].pick.value
    ensures forall i, j :: 0 <= i < j < |Bench(squad)| && Bench(squad)[i].pick == Bench(squad)[j].pick ==>
              Sorting.Precedes(Reserves(squad), Bench(squad)[i], Bench(squad)[j])
  {
    PlanMembers(squad);
    var byPick := (a: Player, b: Player) => PickOf(a) <= PickOf(b);
    var bench := Bench(squad);
    Sorting.SortMembers(Reserves(squad), byPick);
    Sorting.SortOrders(Reserves(squad), byPick);
    Sorting.SortIsStable(Reserves(squad), byPick);
    forall i, j | 0 <= i < j < |bench|
      ensures bench[i].pick.Some? && bench[j].pick.Some? && bench[i].pick.value <= bench[j].pick.value
    {
      assert bench[i] in bench && bench[j] in bench && byPick(bench[i], bench[j]);
    }
  }

  /** Reserve b may come on in slot j: outfield, unused, he played, and the eleven stays legal. */
  ghost predicate MayComeOn(s: Settled, actual: ActualMap, j: nat, b: Player)
    requires j < |s.selected|
  {
    && b.position != GK && b.element !in s.used && b.element in actual && actual[b.element].minutes > 0.0
    && LegalXi(s.selected[j := b])
  }

  /** The pass visits the starters in order, and each absent one gives way to the first reserve of the
      bench who may come on, if there is one; nobody else moves. */
  lemma FirstOnTheBench(s: Settled, queue: seq<Player>, bench: seq<Player>, actual: ActualMap, k: nat, j: nat)
    requires k < |queue|
    requires var t := SubAll(s, queue[..k], bench, actual);
             j < |t.selected| && t.selected[j].element == queue[k].element
             && forall i :: 0 <= i < j ==> t.selected[i].element != queue[k].element
    ensures var t, u := SubAll(s, queue[..k], bench, actual), SubAll(s, queue[..k + 1], bench, actual);
            var absent := queue[k].position != GK && !(queue[k].element in actual && actual[queue[k].element].minutes > 0.0);
            && (!absent ==> u == t)
            && ((forall n :: 0 <= n < |bench| ==> !MayComeOn(t, actual, j, bench[n])) ==> u == t)
            && (absent ==> forall n :: 0 <= n < |bench| && MayComeOn(t, actual, j, bench[n])
                                       && (forall i :: 0 <= i < n ==> !MayComeOn(t, actual, j, bench[i])) ==>
                  u == Settled(t.selected[j := bench[n]], t.used + {bench[n].element}, t.subs + [Sub(queue[k].element, bench[n].element)]))
  {
    var t := SubAll(s, queue[..k], bench, actual);
    assert queue[..k + 1][..k] == queue[..k];
    FirstForOne(t, queue[k], bench, actual, j);
  }

  /** The visit of one starter. */
  lemma FirstForOne(t: Settled, starter: Player, bench: seq<Player>, actual: ActualMap, j: nat)
    requires j < |t.selected| && t.selected[j].element == starter.element
    requires forall i :: 0 <= i < j ==> t.selected[i].element != starter.element
    ensures var u := SubStarter(t, starter, bench, actual);
            var absent := starter.position != GK && !(starter.element in actual && actual[starter.element].minutes > 0.0);
            && (!absent ==> u == t)
            && ((forall n :: 0 <= n < |bench| ==> !MayComeOn(t, actual, j, bench[n])) ==> u == t)
            && (absent ==> forall n :: 0 <= n < |bench| && MayComeOn(t, actual, j, bench[n])
                                       && (forall i :: 0 <= i < n ==> !MayComeOn(t, actual, j, bench[i])) ==>
                  u == Settled(t.selected[j := bench[n]], t.used + {bench[n].element}, t.subs + [Sub(starter.element, bench[n].element)]))
  {
    assert IndexOf(t.selected, starter.element) == j;
    forall n | 0 <= n < |bench| ensures MayComeOn(t, actual, j, bench[n]) <==> Fits(t, starter.element, bench[n], actual) {
      MayComeOnIff(t, actual, j, starter.element, bench[n]);
    }
    var r := FirstFit(t, starter.element, bench, actual, 0);
  }

  lemma MayComeOnIff(t: Settled, actual: ActualMap, j: nat, out: int, b: Player)
    requires j < |t.selected| && IndexOf(t.selected, out) == j
    ensures MayComeOn(t, actual, j, b) <==> Fits(t, out, b, actual)
  {
  }

  /** Before the gameweek is final nothing changes; when it is, an absent goalkeeper gives way to the first
      goalkeeper of the bench if that one played. */
  lemma GoalkeeperFirst(squad: seq<Player>, actual: ActualMap)
    ensures Settle(squad, actual, false) == Settled(Starters(squad), {}, [])
    ensures var starters, bench, m := Starters(squad), Bench(squad), SubGoalkeeper(Starters(squad), Bench(squad), actual);
            && Settle(squad, actual, true) == SubAll(m, m.selected, bench, actual)
            && forall g: nat, b: nat :: IsFirstGk(starters, g) && IsFirstGk(bench, b) ==>
                 m == if !(starters[g].element in actual && actual[starters[g].element].minutes > 0.0)
                         && bench[b].element in actual && actual[bench[b].element].minutes > 0.0
                      then Settled(starters[g := bench[b]], {bench[b].element}, [Sub(starters[g].element, bench[b].element)])
                      else Settled(starters, {}, [])
  {
    var starters, bench := Starters(squad), Bench(squad);
    forall g: nat, b: nat | IsFirstGk(starters, g) && IsFirstGk(bench, b) ensures FirstGk(starters) == g && FirstGk(bench) == b {
    }
  }

  ghost predicate IsFirstGk(xs: seq<Player>, k: nat) {
    k < |xs| && xs[k].position == GK && forall j :: 0 <= j < k ==> xs[j].position != GK
  }

  lemma PlayedStartersStay(squad: seq<Player>, actual: ActualMap)
    requires Regular(squad)
    ensures forall e :: e in Elements(Starters(squad)) && Played(actual, e)
                        ==> e in Elements(Settle(squad, actual, true).selected)
  {
    SettlementIsSound(squad, actual);
  }

  lemma IdsAreElements(xs: seq<Player>)
    ensures forall e :: e in Elements(xs) <==> e in Ids(xs)
  {
    forall e | e in Elements(xs) ensures e in Ids(xs) {
      var j :| 0 <= j < |xs| && xs[j].element == e;
      assert Ids(xs)[j] == e;
    }
  }
}
