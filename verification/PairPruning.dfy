/** What pruning does to pairs of transfers: which ones keep a counterpart, and one that does not. */
module PairPruning {
  import opened Tally
  import opened Counting
  import opened ParetoPool
  import opened TransferSearch

  /** A row that may come in instead of x: same club and position, no dearer, not owned. */
  ghost predicate Replaces(current: seq<Row>, x: Row, top: Row) {
    top.position == x.position && top.team == x.team && top.nowCost <= x.nowCost && !Owns(current, top.element)
  }

  lemma SameShape(kept: seq<Row>, x: Row, y: Row, a: Row, b: Row)
    requires LegalSquad(kept + [x, y]) && a.position == x.position && a.team == x.team && b.position == y.position && b.team == y.team
    requires !Owns(kept, a.element) && !Owns(kept, b.element) && a.element != b.element
    ensures LegalSquad(kept + [a, b])
  {
    forall p ensures CountIf(kept + [a, b], HasPosition(p)) == CountIf(kept + [x, y], HasPosition(p)) {
      CountPair(kept, x, y, HasPosition(p));
      CountPair(kept, a, b, HasPosition(p));
    }
    forall t ensures CountIf(kept + [a, b], HasTeam(t)) == CountIf(kept + [x, y], HasTeam(t)) {
      CountPair(kept, x, y, HasTeam(t));
      CountPair(kept, a, b, HasTeam(t));
    }
    CountIfZero(kept, HasElement(a.element));
    CountIfZero(kept, HasElement(b.element));
    forall e ensures CountIf(kept + [a, b], HasElement(e)) <= 1 {
      CountPair(kept, x, y, HasElement(e));
      CountPair(kept, a, b, HasElement(e));
    }
    LegalByCounts(kept, x, y, a, b);
  }

  lemma ReplaceSquad(current: seq<Row>, outs: seq<Row>, ins: seq<Row>, tops: seq<Row>)
    requires |outs| == |ins| == |tops| == 2 && LegalSquad(PairSquad(current, outs, ins))
    requires Replaces(current, ins[0], tops[0]) && Replaces(current, ins[1], tops[1]) && tops[0].element != tops[1].element
    ensures LegalSquad(PairSquad(current, outs, tops))
  {
    FilterMembers(current, Both(outs[0].element, outs[1].element));
    assert ins == [ins[0], ins[1]] && tops == [tops[0], tops[1]];
    SameShape(Filter(current, Both(outs[0].element, outs[1].element)), ins[0], ins[1], tops[0], tops[1]);
  }

  lemma ReplaceOne(current: seq<Row>, outs: seq<Row>, ins: seq<Row>, tops: seq<Row>, itb: int)
    requires |outs| == |ins| == |tops| == 2
    requires Replaces(current, ins[0], tops[0]) && Replaces(current, ins[1], tops[1])
    ensures SingleOk(current, outs[0], ins[0], itb) ==> SingleOk(current, outs[0], tops[0], itb)
    ensures SingleOk(current, outs[1], ins[1], itb) ==> SingleOk(current, outs[1], tops[1], itb)
  {
    if SingleOk(current, outs[0], ins[0], itb) {
      ReplaceIncoming(current, outs[0], ins[0], tops[0], itb);
    }
    if SingleOk(current, outs[1], ins[1], itb) {
      ReplaceIncoming(current, outs[1], ins[1], tops[1], itb);
    }
  }

  lemma ReplaceProper(current: seq<Row>, outs: seq<Row>, ins: seq<Row>, tops: seq<Row>)
    requires ProperPair(current, outs, ins) && |tops| == 2
    requires Replaces(current, ins[0], tops[0]) && Replaces(current, ins[1], tops[1])
    ensures ProperPair(current, outs, tops)
  {
  }

  /** Replacing both incoming players of a legal pair by two different ones of their kind keeps it
      legal and affordable. */
  lemma ReplaceBoth(current: seq<Row>, outs: seq<Row>, ins: seq<Row>, tops: seq<Row>, itb: int)
    requires ProperPair(current, outs, ins) && StepLegal(current, outs, ins, itb)
    requires |tops| == 2 && Replaces(current, ins[0], tops[0]) && Replaces(current, ins[1], tops[1])
    requires tops[0].element != tops[1].element
    ensures ProperPair(current, outs, tops) && StepLegal(current, outs, tops, itb)
    ensures Verdict(current, outs, tops, itb).1.resultingItb >= Verdict(current, outs, ins, itb).1.resultingItb
  {
    ReplaceProper(current, outs, ins, tops);
    PairIff(current, outs, ins, itb);
    ReplaceSquad(current, outs, ins, tops);
    ReplaceOne(current, outs, ins, tops, itb);
    PairIff(current, outs, tops, itb);
  }

  /** Each incoming player, or a dominator of his, among the kept rows of his pool. */
  ghost predicate Counterpart(first: seq<Row>, second: seq<Row>, ins: seq<Row>, tops: seq<Row>)
    requires |ins| == 2
  {
    && |tops| == 2 && tops[0] in Kept(first) && tops[1] in Kept(second)
    && (tops[0] == ins[0] || Dominates(tops[0], ins[0])) && (tops[1] == ins[1] || Dominates(tops[1], ins[1]))
  }

  ghost predicate NoneOwned(current: seq<Row>, pool: seq<Row>) {
    forall r :: r in pool ==> !Owns(current, r.element)
  }

  lemma CounterpartReplaces(current: seq<Row>, first: seq<Row>, second: seq<Row>, ins: seq<Row>, tops: seq<Row>)
    requires |ins| == 2 && NoneOwned(current, first) && NoneOwned(current, second) && Counterpart(first, second, ins, tops)
    ensures Replaces(current, ins[0], tops[0]) && Replaces(current, ins[1], tops[1])
  {
    FilterMembers(first, Survivor(first));
    FilterMembers(second, Survivor(second));
  }

  lemma LegalMeansDistinct(current: seq<Row>, outs: seq<Row>, tops: seq<Row>, itb: int)
    requires ProperPair(current, outs, tops) && StepLegal(current, outs, tops, itb)
    ensures tops[0].element != tops[1].element
  {
    PairIff(current, outs, tops, itb);
    var kept := Filter(current, Both(outs[0].element, outs[1].element));
    assert tops == [tops[0], tops[1]];
    CountPair(kept, tops[0], tops[1], HasElement(tops[0].element));
  }

  /** Exactly which legal pairs survive pruning: a pair keeps a legal, affordable counterpart if and
      only if its incoming players have two different kept counterparts. */
  lemma PairSurvivesIff(current: seq<Row>, outs: seq<Row>, ins: seq<Row>, first: seq<Row>, second: seq<Row>, itb: int)
    requires ProperPair(current, outs, ins) && StepLegal(current, outs, ins, itb)
    requires NoneOwned(current, first) && NoneOwned(current, second)
    ensures (exists tops: seq<Row> :: Counterpart(first, second, ins, tops) && StepLegal(current, outs, tops, itb)) <==>
            (exists tops: seq<Row> :: Counterpart(first, second, ins, tops) && tops[0].element != tops[1].element)
  {
    if tops: seq<Row> :| Counterpart(first, second, ins, tops) && StepLegal(current, outs, tops, itb) {
      CounterpartReplaces(current, first, second, ins, tops);
      LegalMeansDistinct(current, outs, tops, itb);
    }
    if tops: seq<Row> :| Counterpart(first, second, ins, tops) && tops[0].element != tops[1].element {
      CounterpartReplaces(current, first, second, ins, tops);
      ReplaceBoth(current, outs, ins, tops, itb);
    }
  }

  /** In particular every legal pair of different clubs or positions survives. */
  lemma PairsAcrossGroupsSurvive(current: seq<Row>, outs: seq<Row>, ins: seq<Row>, first: seq<Row>, second: seq<Row>, itb: int)
    returns (tops: seq<Row>)
    requires ProperPair(current, outs, ins) && StepLegal(current, outs, ins, itb)
    requires NoneOwned(current, first) && NoneOwned(current, second) && Separated(first) && Separated(second)
    requires ins[0] in first && ins[1] in second && (ins[0].team != ins[1].team || ins[0].position != ins[1].position)
    requires forall x, y :: x in first && y in second && x.element == y.element ==> x == y
    ensures Counterpart(first, second, ins, tops) && StepLegal(current, outs, tops, itb)
    ensures Verdict(current, outs, tops, itb).1.resultingItb >= Verdict(current, outs, ins, itb).1.resultingItb
  {
    var a := PruningCovers(first, ins[0]);
    var b := PruningCovers(second, ins[1]);
    tops := [a, b];
    FilterMembers(first, Survivor(first));
    FilterMembers(second, Survivor(second));
    CounterpartReplaces(current, first, second, ins, tops);
    ReplaceBoth(current, outs, ins, tops, itb);
  }

  // ---------------------------------------------------------------- a pair that is lost

  function Player(p: Position, element: int, team: int, mean: real): Row {
    Row(element, p, team, 50, 50, 0.0, [mean, 0.0, 0.0, 0.0], [0.0, 0.0, 0.0, 0.0])
  }

  function PositionAt(k: nat): Position {
    if k < 2 then GK else if k < 7 then DEF else if k < 10 then MID else FWD
  }

  /** Thirteen players of thirteen clubs, two midfielders short of a squad. */
  function Others(): (r: seq<Row>)
    ensures |r| == 13 && forall k :: 0 <= k < 13 ==> r[k] == Player(PositionAt(k), k + 1, k + 1, 0.0)
  {
    seq(13, k requires 0 <= k < 13 => Player(PositionAt(k), k + 1, k + 1, 0.0))
  }

  lemma {:induction false} CountRange(xs: seq<Row>, f: Row -> bool, lo: nat, hi: nat)
    requires lo <= hi <= |xs| && forall k :: 0 <= k < |xs| ==> (f(xs[k]) <==> lo <= k < hi)
    ensures CountIf(xs, f) == hi - lo
  {
    if xs == [] {
    } else {
      var n := |xs| - 1;
      if hi <= n {
        CountRange(xs[..n], f, lo, hi);
      } else if lo <= n {
        CountRange(xs[..n], f, lo, n);
      } else {
        CountRange(xs[..n], f, n, n);
      }
    }
  }

  lemma OthersCounts(x: int, q: Position)
    ensures CountIf(Others(), HasElement(x)) == if 1 <= x <= 13 then 1 else 0
    ensures CountIf(Others(), HasTeam(x)) == if 1 <= x <= 13 then 1 else 0
    ensures CountIf(Others(), HasPosition(q)) == match q case GK => 2 case DEF => 5 case MID => 3 case FWD => 3 case Unlisted => 0
  {
    var xs := Others();
    if 1 <= x <= 13 {
      CountRange(xs, HasElement(x), x - 1, x);
      CountRange(xs, HasTeam(x), x - 1, x);
    } else {
      CountRange(xs, HasElement(x), 0, 0);
      CountRange(xs, HasTeam(x), 0, 0);
    }
    match q {
      case GK => CountRange(xs, HasPosition(GK), 0, 2);
      case DEF => CountRange(xs, HasPosition(DEF), 2, 7);
      case MID => CountRange(xs, HasPosition(MID), 7, 10);
      case FWD => CountRange(xs, HasPosition(FWD), 10, 13);
      case Unlisted => CountRange(xs, HasPosition(Unlisted), 0, 0);
    }
  }

  /** Two midfielders short of a legal squad, with the elements and clubs 1 to 13. */
  ghost predicate TwoShort(kept: seq<Row>) {
    && |kept| == 13
    && CountIf(kept, HasPosition(GK)) == 2 && CountIf(kept, HasPosition(DEF)) == 5
    && CountIf(kept, HasPosition(MID)) == 3 && CountIf(kept, HasPosition(FWD)) == 3
    && (forall e :: CountIf(kept, HasElement(e)) <= if e >= 14 then 0 else 1)
    && (forall t :: CountIf(kept, HasTeam(t)) <= 1)
  }

  lemma OthersAreTwoShort()
    ensures TwoShort(Others())
  {
    OthersCounts(0, GK);
    OthersCounts(0, DEF);
    OthersCounts(0, MID);
    OthersCounts(0, FWD);
    forall x ensures CountIf(Others(), HasElement(x)) <= (if x >= 14 then 0 else 1) && CountIf(Others(), HasTeam(x)) <= 1 {
      OthersCounts(x, GK);
    }
  }

  /** With two more midfielders it is a legal squad. */
  lemma AddTwo(kept: seq<Row>, a: Row, b: Row)
    requires TwoShort(kept) && a.position == b.position == MID && a.element != b.element && a.element >= 14 && b.element >= 14
    ensures LegalSquad(kept + [a, b])
  {
    CountPair(kept, a, b, HasPosition(GK));
    CountPair(kept, a, b, HasPosition(DEF));
    CountPair(kept, a, b, HasPosition(MID));
    CountPair(kept, a, b, HasPosition(FWD));
    forall e ensures CountIf(kept + [a, b], HasElement(e)) <= 1 {
      CountPair(kept, a, b, HasElement(e));
    }
    forall t ensures CountIf(kept + [a, b], HasTeam(t)) <= MAX_PER_CLUB {
      CountPair(kept, a, b, HasTeam(t));
    }
  }

  const OUT_A := Player(MID, 14, 14, 0.0)
  const OUT_B := Player(MID, 15, 15, 0.0)
  const BETTER := Player(MID, 101, 20, 1.0)
  const WORSE := Player(MID, 102, 20, 0.0)

  function Squad(): seq<Row> {
    Others() + [OUT_A, OUT_B]
  }

  lemma SquadMembers()
    ensures forall x :: x in Others() ==> 1 <= x.element <= 13
    ensures forall x :: x in Squad() ==> 1 <= x.element <= 15
    ensures OUT_A in Squad() && OUT_B in Squad()
  {
    assert Squad()[13] == OUT_A && Squad()[14] == OUT_B;
  }

  /** A pair from one pool of which pruning keeps a single row has no counterpart. */
  lemma OnlyOneLeft(current: seq<Row>, outs: seq<Row>, ins: seq<Row>, pool: seq<Row>, only: Row, itb: int)
    requires ProperPair(current, outs, ins) && StepLegal(current, outs, ins, itb) && NoneOwned(current, pool) && Kept(pool) == [only]
    ensures forall tops :: Counterpart(pool, pool, ins, tops) ==> !StepLegal(current, outs, tops, itb)
  {
    PairSurvivesIff(current, outs, ins, pool, pool, itb);
  }

  /** A legal pair that pruning loses: both incoming players are of one club and position, and one
      dominates the other. The pool keeps only the better one, so no pair can be built from it. */
  lemma PairIsLost()
    ensures LegalSquad(Squad()) && StepLegal(Squad(), [OUT_A, OUT_B], [BETTER, WORSE], 0)
    ensures Separated([BETTER, WORSE]) && NoneOwned(Squad(), [BETTER, WORSE]) && Kept([BETTER, WORSE]) == [BETTER]
    ensures forall tops :: Counterpart([BETTER, WORSE], [BETTER, WORSE], [BETTER, WORSE], tops) ==>
                             !StepLegal(Squad(), [OUT_A, OUT_B], tops, 0)
  {
    SquadMembers();
    OthersAreTwoShort();
    AddTwo(Others(), OUT_A, OUT_B);
    OnlyBetterKept();
    LostPairIsLegal();
    OnlyOneLeft(Squad(), [OUT_A, OUT_B], [BETTER, WORSE], [BETTER, WORSE], BETTER, 0);
  }

  lemma OneOfTwoKept(x: Row, y: Row)
    requires Dominates(x, y) && !Dominates(y, x) && !Dominates(x, x)
    ensures Kept([x, y]) == [x]
  {
    var pool, keeps := [x, y], Survivor([x, y]);
    assert pool[0] in pool;
    assert keeps(x) && !keeps(y);
    assert pool[..1] == [x] && [x][..0] == [];
    assert Filter(pool[..1], keeps) == [x];
  }

  lemma OnlyBetterKept()
    ensures Separated([BETTER, WORSE]) && Kept([BETTER, WORSE]) == [BETTER]
  {
    assert BETTER.mean[0] > WORSE.mean[0] + TOLERANCE;
    OneOfTwoKept(BETTER, WORSE);
  }

  lemma LostPairIsLegal()
    ensures ProperPair(Squad(), [OUT_A, OUT_B], [BETTER, WORSE])
    ensures StepLegal(Squad(), [OUT_A, OUT_B], [BETTER, WORSE], 0)
  {
    var outs, ins := [OUT_A, OUT_B], [BETTER, WORSE];
    SquadMembers();
    OthersAreTwoShort();
    AddTwo(Others(), BETTER, WORSE);
    AddTwo(Others(), OUT_B, BETTER);
    SquadAfter();
    PairIff(Squad(), outs, ins, 0);
  }

  lemma SquadAfter()
    ensures PairSquad(Squad(), [OUT_A, OUT_B], [BETTER, WORSE]) == Others() + [BETTER, WORSE]
    ensures Swap(Squad(), 14, BETTER) == Others() + [OUT_B, BETTER]
  {
    SquadMembers();
    KeepOthers(Both(14, 15));
    KeepOthers(NotElement(14));
  }

  lemma KeepOthers(f: Row -> bool)
    requires forall x :: x in Others() ==> f(x)
    ensures Filter(Squad(), f) == Others() + (if f(OUT_A) then [OUT_A] else []) + (if f(OUT_B) then [OUT_B] else [])
  {
    KeepAll(Others(), f);
    assert Squad()[..14] == Others() + [OUT_A] && (Others() + [OUT_A])[..13] == Others() && Squad()[13] == OUT_A && Squad()[14] == OUT_B;
  }
}
