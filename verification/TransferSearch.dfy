/** Legality and cash of one or two transfers, executed one at a time. */
module TransferSearch {
  import opened Wrappers
  import opened Tally
  import opened ParetoPool
  import Dominance

  const SQUAD_SIZE := 15
  const MAX_PER_CLUB := 3

  function HasElement(e: int): Row -> bool { (x: Row) => x.element == e }
  function HasPosition(p: Position): Row -> bool { (x: Row) => x.position == p }
  function HasTeam(t: int): Row -> bool { (x: Row) => x.team == t }
  function NotElement(e: int): Row -> bool { (x: Row) => x.element != e }

  /** Fifteen distinct players, 2/5/5/3 by position, at most three of a club. */
  ghost predicate LegalSquad(squad: seq<Row>) {
    && |squad| == SQUAD_SIZE
    && (forall e :: CountIf(squad, HasElement(e)) <= 1)
    && CountIf(squad, HasPosition(GK)) == 2 && CountIf(squad, HasPosition(DEF)) == 5
    && CountIf(squad, HasPosition(MID)) == 5 && CountIf(squad, HasPosition(FWD)) == 3
    && (forall t :: CountIf(squad, HasTeam(t)) <= MAX_PER_CLUB)
  }

  function Owns(squad: seq<Row>, e: int): bool {
    exists x :: x in squad && x.element == e
  }

  /** The squad after one transfer. */
  function Swap(squad: seq<Row>, out: int, incoming: Row): seq<Row> {
    Filter(squad, NotElement(out)) + [incoming]
  }

  datatype Step = Step(out: int, into: int, before: int, sell: int, buy: int, after: int)

  datatype Run = Run(squad: seq<Row>, cash: int, steps: seq<Step>)

  /** Execute the transfers in the given order; None as soon as one is not allowed. */
  ghost function Execute(squad: seq<Row>, cash: int, outs: seq<Row>, ins: seq<Row>, order: seq<nat>): Option<Run>
    requires |outs| == |ins| && forall k :: 0 <= k < |order| ==> order[k] < |outs|
  {
    if order == [] then Some(Run(squad, cash, []))
    else
      var last := order[|order| - 1];
      match Execute(squad, cash, outs, ins, order[..|order| - 1])
      case None => None
      case Some(r) =>
        var left := r.cash + outs[last].sellCost - ins[last].nowCost;
        var next := Swap(r.squad, outs[last].element, ins[last]);
        if !Owns(r.squad, outs[last].element) || left < 0 || !LegalSquad(next) then None
        else Some(Run(next, left, r.steps + [Step(outs[last].element, ins[last].element, r.cash,
                                                  outs[last].sellCost, ins[last].nowCost, left)]))
  }

  datatype Reason = CountMismatch | UnsupportedLength | NoLegalOrder

  datatype Report =
    | Refused(reason: Reason, ordersChecked: nat)
    | Ledger(resultingItb: int, steps: seq<Step>, executionOrder: seq<nat>, ordersChecked: nat)

  /** The orders tried for n transfers. */
  function Orders(n: nat): seq<seq<nat>> {
    if n == 1 then [[0]] else if n == 2 then [[0, 1], [1, 0]] else []
  }

  /** The answer for a list of orders: the first that executes. */
  ghost function FirstOrder(current: seq<Row>, itb: int, outs: seq<Row>, ins: seq<Row>, orders: seq<seq<nat>>): Option<(Run, seq<nat>)>
    requires |outs| == |ins| && forall o, k :: o in orders && 0 <= k < |o| ==> o[k] < |outs|
  {
    if orders == [] then None
    else match Execute(current, itb, outs, ins, orders[0])
      case Some(r) => Some((r, orders[0]))
      case None => FirstOrder(current, itb, outs, ins, orders[1..])
  }

  ghost function Verdict(current: seq<Row>, outs: seq<Row>, ins: seq<Row>, itb: int): (bool, Report) {
    if |outs| != |ins| then (false, Refused(CountMismatch, 0))
    else if |outs| == 0 then (LegalSquad(current), Ledger(itb, [], [], 1))
    else if |outs| > 2 then (false, Refused(UnsupportedLength, 0))
    else
      var orders := Orders(|outs|);
      match FirstOrder(current, itb, outs, ins, orders)
      case Some((r, order)) => (true, Ledger(r.cash, r.steps, order, |orders|))
      case None => (false, Refused(NoLegalOrder, |orders|))
  }

  ghost predicate StepLegal(current: seq<Row>, outs: seq<Row>, ins: seq<Row>, itb: int) {
    Verdict(current, outs, ins, itb).0
  }

  // ---------------------------------------------------------------- squad legality as a loop

  function CountOf<K(==)>(counts: map<K, nat>, k: K): nat {
    if k in counts then counts[k] else 0
  }

  lemma {:induction false} PositionsTotal(xs: seq<Row>)
    ensures CountIf(xs, HasPosition(GK)) + CountIf(xs, HasPosition(DEF)) + CountIf(xs, HasPosition(MID))
            + CountIf(xs, HasPosition(FWD)) + CountIf(xs, HasPosition(Unlisted)) == |xs|
  {
    if xs == [] {
    } else {
      PositionsTotal(xs[..|xs| - 1]);
    }
  }

  lemma CountPrefix(xs: seq<Row>, n: nat, f: Row -> bool)
    requires n < |xs|
    ensures CountIf(xs[..n + 1], f) == CountIf(xs[..n], f) + if f(xs[n]) then 1 else 0
    ensures CountIf(xs, f) >= CountIf(xs[..n + 1], f)
  {
    assert xs[..n + 1][..n] == xs[..n];
    CountIfAppend(xs[..n + 1], xs[n + 1..], f);
    assert xs == xs[..n + 1] + xs[n + 1..];
  }

  /** What the loop of `legal_squad` has gathered about the players seen so far. */
  ghost predicate Tallied(xs: seq<Row>, seen: set<int>, counts: map<Position, nat>, clubs: map<int, nat>) {
    && (forall e :: CountIf(xs, HasElement(e)) == if e in seen then 1 else 0)
    && (forall p :: CountOf(counts, p) == CountIf(xs, HasPosition(p)))
    && (forall t :: CountOf(clubs, t) == CountIf(xs, HasTeam(t)))
  }

  lemma TallyNext(xs: seq<Row>, x: Row, seen: set<int>, counts: map<Position, nat>, clubs: map<int, nat>)
    requires Tallied(xs, seen, counts, clubs) && x.element !in seen
    ensures Tallied(xs + [x], seen + {x.element}, counts[x.position := CountOf(counts, x.position) + 1],
                    clubs[x.team := CountOf(clubs, x.team) + 1])
  {
    assert (xs + [x])[..|xs|] == xs;
    forall e ensures CountIf(xs + [x], HasElement(e)) == CountIf(xs, HasElement(e)) + if x.element == e then 1 else 0 {
    }
    forall p ensures CountIf(xs + [x], HasPosition(p)) == CountIf(xs, HasPosition(p)) + if x.position == p then 1 else 0 {
    }
    forall t ensures CountIf(xs + [x], HasTeam(t)) == CountIf(xs, HasTeam(t)) + if x.team == t then 1 else 0 {
    }
  }

  lemma Repeated(squad: seq<Row>, n: nat)
    requires n < |squad| && CountIf(squad[..n], HasElement(squad[n].element)) >= 1
    ensures !LegalSquad(squad)
  {
    CountPrefix(squad, n, HasElement(squad[n].element));
  }

  lemma PositionUnlisted(squad: seq<Row>, n: nat)
    requires n < |squad| && squad[n].position == Unlisted
    ensures !LegalSquad(squad)
  {
    CountPrefix(squad, n, HasPosition(Unlisted));
    PositionsTotal(squad);
  }

  lemma ClubsWithinLimit(squad: seq<Row>, clubs: map<int, nat>)
    requires forall t :: CountOf(clubs, t) == CountIf(squad, HasTeam(t))
    ensures (forall t :: t in clubs ==> clubs[t] <= MAX_PER_CLUB) <==> forall t :: CountIf(squad, HasTeam(t)) <= MAX_PER_CLUB
  {
    if forall t :: t in clubs ==> clubs[t] <= MAX_PER_CLUB {
      forall t ensures CountIf(squad, HasTeam(t)) <= MAX_PER_CLUB {
        assert CountOf(clubs, t) <= MAX_PER_CLUB;
      }
    } else {
      var t :| t in clubs && clubs[t] > MAX_PER_CLUB;
      assert CountOf(clubs, t) == CountIf(squad, HasTeam(t));
    }
  }

  /** `legal_squad`. */
  method CheckSquad(squad: seq<Row>) returns (legal: bool)
    ensures legal <==> LegalSquad(squad)
  {
    if |squad| != SQUAD_SIZE {
      return false;
    }
    var counts: map<Position, nat> := map[];
    var clubs: map<int, nat> := map[];
    var seen: set<int> := {};
    for n := 0 to |squad|
      invariant Tallied(squad[..n], seen, counts, clubs)
    {
      var x := squad[n];
      if x.element in seen {
        assert CountIf(squad[..n], HasElement(x.element)) == 1;
        Repeated(squad, n);
        return false;
      }
      if x.position == Unlisted {
        PositionUnlisted(squad, n);
        return false;
      }
      TallyNext(squad[..n], x, seen, counts, clubs);
      assert squad[..n + 1] == squad[..n] + [x];
      seen := seen + {x.element};
      counts := counts[x.position := CountOf(counts, x.position) + 1];
      clubs := clubs[x.team := CountOf(clubs, x.team) + 1];
    }
    assert squad[..|squad|] == squad;
    ClubsWithinLimit(squad, clubs);
    legal := CountOf(counts, GK) == 2 && CountOf(counts, DEF) == 5 && CountOf(counts, MID) == 5 && CountOf(counts, FWD) == 3
             && forall t :: t in clubs ==> clubs[t] <= MAX_PER_CLUB;
  }

  // ---------------------------------------------------------------- the search over orders

  method TryOrder(current: seq<Row>, outs: seq<Row>, ins: seq<Row>, itb: int, order: seq<nat>) returns (r: Option<Run>)
    requires |outs| == |ins| && forall k :: 0 <= k < |order| ==> order[k] < |outs|
    ensures r == Execute(current, itb, outs, ins, order)
  {
    var squad, cash := current, itb;
    var steps: seq<Step> := [];
    for n := 0 to |order|
      invariant Execute(current, itb, outs, ins, order[..n]) == Some(Run(squad, cash, steps))
    {
      assert order[..n + 1][..n] == order[..n];
      var outgoing, incoming := outs[order[n]], ins[order[n]];
      if !Owns(squad, outgoing.element) {
        ExecuteStops(current, itb, outs, ins, order, n + 1);
        return None;
      }
      var before := cash;
      cash := cash + outgoing.sellCost;
      if incoming.nowCost > cash {
        ExecuteStops(current, itb, outs, ins, order, n + 1);
        return None;
      }
      var next := Swap(squad, outgoing.element, incoming);
      cash := cash - incoming.nowCost;
      var legal := CheckSquad(next);
      if !legal {
        ExecuteStops(current, itb, outs, ins, order, n + 1);
        return None;
      }
      steps := steps + [Step(outgoing.element, incoming.element, before, outgoing.sellCost, incoming.nowCost, cash)];
      squad := next;
    }
    assert order[..|order|] == order;
    return Some(Run(squad, cash, steps));
  }

  lemma {:induction false} ExecuteStops(squad: seq<Row>, cash: int, outs: seq<Row>, ins: seq<Row>, order: seq<nat>, n: nat)
    requires |outs| == |ins| && (forall k :: 0 <= k < |order| ==> order[k] < |outs|) && n <= |order|
    requires Execute(squad, cash, outs, ins, order[..n]) == None
    ensures Execute(squad, cash, outs, ins, order) == None
  {
    if n < |order| {
      assert order[..|order| - 1][..n] == order[..n];
      ExecuteStops(squad, cash, outs, ins, order[..|order| - 1], n);
    } else {
      assert order[..n] == order;
    }
  }

  /** `_step_legal_transfer_sequence`. */
  method StepLegalTransferSequence(current: seq<Row>, outs: seq<Row>, ins: seq<Row>, itb: int) returns (ok: bool, report: Report)
    ensures (ok, report) == Verdict(current, outs, ins, itb)
  {
    if |outs| != |ins| {
      return false, Refused(CountMismatch, 0);
    }
    if |outs| == 0 {
      ok := CheckSquad(current);
      return ok, Ledger(itb, [], [], 1);
    }
    if |outs| > 2 {
      return false, Refused(UnsupportedLength, 0);
    }
    var orders := Orders(|outs|);
    for n := 0 to |orders|
      invariant FirstOrder(current, itb, outs, ins, orders) == FirstOrder(current, itb, outs, ins, orders[n..])
    {
      var r := TryOrder(current, outs, ins, itb, orders[n]);
      if r.Some? {
        return true, Ledger(r.value.cash, r.value.steps, orders[n], |orders|);
      }
    }
    return false, Refused(NoLegalOrder, |orders|);
  }

  // ---------------------------------------------------------------- cash

  /** The balances of a ledger form one chain from the cash in hand to the result, never negative. */
  ghost predicate Chains(itb: int, steps: seq<Step>, result: int) {
    && (forall k :: 0 <= k < |steps| ==> Linked(itb, steps, k))
    && result == if steps == [] then itb else steps[|steps| - 1].after
  }

  ghost predicate Linked(itb: int, steps: seq<Step>, k: nat)
    requires k < |steps|
  {
    && steps[k].before == (if k == 0 then itb else steps[k - 1].after)
    && steps[k].after == steps[k].before + steps[k].sell - steps[k].buy
    && steps[k].after >= 0
  }

  lemma {:induction false} ExecuteChains(squad: seq<Row>, cash: int, outs: seq<Row>, ins: seq<Row>, order: seq<nat>)
    requires |outs| == |ins| && forall k :: 0 <= k < |order| ==> order[k] < |outs|
    ensures match Execute(squad, cash, outs, ins, order)
            case None => true
            case Some(r) => |r.steps| == |order| && Chains(cash, r.steps, r.cash)
  {
    if order == [] {
    } else {
      ExecuteChains(squad, cash, outs, ins, order[..|order| - 1]);
      if Execute(squad, cash, outs, ins, order).Some? {
        var before, step := LastStep(squad, cash, outs, ins, order);
        ChainsExtend(cash, before.steps, before.cash, step);
      }
    }
  }

  /** An execution is one of all transfers but the last, and one affordable step more. */
  lemma LastStep(squad: seq<Row>, cash: int, outs: seq<Row>, ins: seq<Row>, order: seq<nat>) returns (before: Run, step: Step)
    requires |outs| == |ins| && order != [] && forall k :: 0 <= k < |order| ==> order[k] < |outs|
    requires Execute(squad, cash, outs, ins, order).Some?
    ensures Execute(squad, cash, outs, ins, order[..|order| - 1]) == Some(before)
    ensures step.before == before.cash && step.after == step.before + step.sell - step.buy && step.after >= 0
    ensures var r := Execute(squad, cash, outs, ins, order).value; r.steps == before.steps + [step] && r.cash == step.after
  {
    var last := order[|order| - 1];
    before := Execute(squad, cash, outs, ins, order[..|order| - 1]).value;
    step := Step(outs[last].element, ins[last].element, before.cash, outs[last].sellCost, ins[last].nowCost,
                 before.cash + outs[last].sellCost - ins[last].nowCost);
  }

  lemma ChainsExtend(itb: int, steps: seq<Step>, balance: int, next: Step)
    requires Chains(itb, steps, balance)
    requires next.before == balance && next.after == next.before + next.sell - next.buy && next.after >= 0
    ensures Chains(itb, steps + [next], next.after)
  {
    var all := steps + [next];
    forall k | 0 <= k < |all| ensures Linked(itb, all, k) {
      if k < |steps| {
        assert Linked(itb, steps, k);
        assert all[k] == steps[k] && (k > 0 ==> all[k - 1] == steps[k - 1]);
      } else {
        assert k > 0 ==> all[k - 1] == steps[|steps| - 1];
      }
    }
  }

  /** Step k of an execution is the transfer the order names, at its own prices. */
  ghost predicate NamesTransfer(outs: seq<Row>, ins: seq<Row>, order: seq<nat>, steps: seq<Step>, k: nat)
    requires |outs| == |ins| && k < |order| && k < |steps| && order[k] < |outs|
  {
    && steps[k].out == outs[order[k]].element && steps[k].sell == outs[order[k]].sellCost
    && steps[k].into == ins[order[k]].element && steps[k].buy == ins[order[k]].nowCost
  }

  lemma {:induction false} StepsNameTransfers(squad: seq<Row>, cash: int, outs: seq<Row>, ins: seq<Row>, order: seq<nat>)
    requires |outs| == |ins| && forall k :: 0 <= k < |order| ==> order[k] < |outs|
    ensures match Execute(squad, cash, outs, ins, order)
            case None => true
            case Some(r) => |r.steps| == |order| && forall k :: 0 <= k < |order| ==> NamesTransfer(outs, ins, order, r.steps, k)
  {
    if order == [] {
    } else {
      var n := |order| - 1;
      StepsNameTransfers(squad, cash, outs, ins, order[..n]);
      match Execute(squad, cash, outs, ins, order) {
        case None =>
        case Some(r) =>
          var before := Execute(squad, cash, outs, ins, order[..n]).value;
          forall k | 0 <= k < |order| ensures NamesTransfer(outs, ins, order, r.steps, k) {
            if k < n {
              assert NamesTransfer(outs, ins, order[..n], before.steps, k);
            }
          }
      }
    }
  }

  /** The report of a successful check: its order is the first of the tried ones that executes, and its
      steps name the transfers in that order. */
  lemma LedgerNames(current: seq<Row>, outs: seq<Row>, ins: seq<Row>, itb: int)
    requires |outs| == |ins| && (|outs| == 1 || |outs| == 2) && StepLegal(current, outs, ins, itb)
    ensures var report := Verdict(current, outs, ins, itb).1;
            && report.Ledger? && report.ordersChecked == |outs|
            && report.executionOrder in (if |outs| == 1 then [[0]] else [[0, 1], [1, 0]])
            && (report.executionOrder == [1, 0] ==> Execute(current, itb, outs, ins, [0, 1]) == None)
            && |report.steps| == |outs|
            && forall k :: 0 <= k < |outs| ==> NamesTransfer(outs, ins, report.executionOrder, report.steps, k)
  {
    if |outs| == 1 {
      OneOrder(current, outs, ins, itb);
      StepsNameTransfers(current, itb, outs, ins, [0]);
    } else {
      TwoOrders(current, outs, ins, itb);
      StepsNameTransfers(current, itb, outs, ins, [0, 1]);
      StepsNameTransfers(current, itb, outs, ins, [1, 0]);
    }
  }

  /** Why a check is refused: unequal lists, more than two transfers, or no order that works; and what
      the check of no transfer says. */
  lemma RefusalMeans(current: seq<Row>, outs: seq<Row>, ins: seq<Row>, itb: int)
    ensures var (ok, report) := Verdict(current, outs, ins, itb);
            && (|outs| != |ins| ==> !ok && report == Refused(CountMismatch, 0))
            && (|outs| == |ins| > 2 ==> !ok && report == Refused(UnsupportedLength, 0))
            && (|outs| == |ins| == 0 ==> report == Ledger(itb, [], [], 1) && (ok <==> LegalSquad(current)))
            && (|outs| == |ins| && 1 <= |outs| <= 2 && !ok ==> report == Refused(NoLegalOrder, |outs|))
  {
  }

  /** The legality rule in plain terms: fifteen players, no player twice, no more than three of one club,
      and the fixed numbers by position. */
  lemma LegalMeans(squad: seq<Row>)
    ensures LegalSquad(squad) <==>
            && |squad| == 15
            && (forall i, j :: 0 <= i < j < 15 ==> squad[i].element != squad[j].element)
            && (forall t :: CountIf(squad, HasTeam(t)) <= 3)
            && CountIf(squad, HasPosition(GK)) == 2 && CountIf(squad, HasPosition(DEF)) == 5
            && CountIf(squad, HasPosition(MID)) == 5 && CountIf(squad, HasPosition(FWD)) == 3
  {
    ElementsOnce(squad);
  }

  lemma {:induction false} ElementsOnce(xs: seq<Row>)
    ensures (forall e :: CountIf(xs, HasElement(e)) <= 1) <==> forall i, j :: 0 <= i < j < |xs| ==> xs[i].element != xs[j].element
  {
    if i, j :| 0 <= i < j < |xs| && xs[i].element == xs[j].element {
      CountTwice(xs, i, j);
    }
    if e :| CountIf(xs, HasElement(e)) > 1 {
      TwoOfThem(xs, e);
    }
  }

  lemma CountTwice(xs: seq<Row>, i: nat, j: nat)
    requires i < j < |xs| && xs[i].element == xs[j].element
    ensures CountIf(xs, HasElement(xs[i].element)) >= 2
  {
    var f := HasElement(xs[i].element);
    CountIfAppend(xs[..j], xs[j..], f);
    assert xs[..j] + xs[j..] == xs && xs[i] in xs[..j] && xs[j] in xs[j..];
    CountIfZero(xs[..j], f);
    CountIfZero(xs[j..], f);
  }

  lemma {:induction false} TwoOfThem(xs: seq<Row>, e: int)
    requires CountIf(xs, HasElement(e)) > 1
    ensures exists i, j :: 0 <= i < j < |xs| && xs[i].element == xs[j].element
  {
    var n := |xs| - 1;
    if xs[n].element == e {
      CountIfZero(xs[..n], HasElement(e));
      var x :| x in xs[..n] && x.element == e;
      var i :| 0 <= i < n && xs[..n][i] == x;
      assert xs[i].element == xs[n].element;
    } else {
      TwoOfThem(xs[..n], e);
      var i, j :| 0 <= i < j < n && xs[..n][i].element == xs[..n][j].element;
      assert xs[i].element == xs[j].element;
    }
  }

  /** Who is in the squad after transfers: the rows of the players who stay, as often as before, and
      the rows that come in. */
  lemma SquadsAre(squad: seq<Row>, outs: seq<Row>, ins: seq<Row>, x: Row)
    requires |outs| == |ins| == 2
    ensures multiset(Swap(squad, outs[0].element, ins[0]))[x] ==
            (if x.element == outs[0].element then 0 else multiset(squad)[x]) + if x == ins[0] then 1 else 0
    ensures multiset(PairSquad(squad, outs, ins))[x] ==
            (if x.element == outs[0].element || x.element == outs[1].element then 0 else multiset(squad)[x]) + multiset(ins)[x]
  {
    FilterCounts(squad, NotElement(outs[0].element), x);
    FilterCounts(squad, Both(outs[0].element, outs[1].element), x);
  }

  // ---------------------------------------------------------------- one transfer

  /** One transfer on its own: the player is owned, the cash suffices and the squad stays legal. */
  ghost predicate SingleOk(current: seq<Row>, out: Row, incoming: Row, itb: int) {
    && (exists x :: x in current && x.element == out.element) && itb + out.sellCost - incoming.nowCost >= 0
    && LegalSquad(Swap(current, out.element, incoming))
  }

  lemma SingleIff(current: seq<Row>, out: Row, incoming: Row, itb: int)
    ensures StepLegal(current, [out], [incoming], itb) <==> SingleOk(current, out, incoming, itb)
    ensures StepLegal(current, [out], [incoming], itb) ==>
              Verdict(current, [out], [incoming], itb).1.resultingItb == itb + out.sellCost - incoming.nowCost
  {
    FirstStep(current, [out], [incoming], itb, 0);
    OneOrder(current, [out], [incoming], itb);
  }

  /** The first transfer of any order. */
  lemma FirstStep(current: seq<Row>, outs: seq<Row>, ins: seq<Row>, itb: int, i: nat)
    requires |outs| == |ins| && i < |outs|
    ensures Execute(current, itb, outs, ins, [i]) ==
            if SingleOk(current, outs[i], ins[i], itb)
            then var left := itb + outs[i].sellCost - ins[i].nowCost;
                 Some(Run(Swap(current, outs[i].element, ins[i]), left,
                          [Step(outs[i].element, ins[i].element, itb, outs[i].sellCost, ins[i].nowCost, left)]))
            else None
  {
    var step := Step(outs[i].element, ins[i].element, itb, outs[i].sellCost, ins[i].nowCost,
                     itb + outs[i].sellCost - ins[i].nowCost);
    assert [i][..0] == [] && [] + [step] == [step];
    assert Execute(current, itb, outs, ins, [i][..0]) == Some(Run(current, itb, []));
  }

  lemma OneOrder(current: seq<Row>, outs: seq<Row>, ins: seq<Row>, itb: int)
    requires |outs| == |ins| == 1
    ensures FirstOrder(current, itb, outs, ins, [[0]])
            == match Execute(current, itb, outs, ins, [0]) case Some(r) => Some((r, [0])) case None => None
  {
    assert [[0]][1..] == [];
  }

  lemma TwoOrders(current: seq<Row>, outs: seq<Row>, ins: seq<Row>, itb: int)
    requires |outs| == |ins| == 2
    ensures FirstOrder(current, itb, outs, ins, Orders(2))
            == match Execute(current, itb, outs, ins, [0, 1])
               case Some(r) => Some((r, [0, 1]))
               case None =>
                 match Execute(current, itb, outs, ins, [1, 0])
                 case Some(r) => Some((r, [1, 0]))
                 case None => None
  {
    var orders := Orders(2);
    var rest := orders[1..];
    assert orders[0] == [0, 1] && rest[0] == [1, 0] && rest[1..] == [];
    assert FirstOrder(current, itb, outs, ins, rest[1..]) == None;
  }

  // ---------------------------------------------------------------- two transfers

  function Both(a: int, b: int): Row -> bool {
    (x: Row) => x.element != a && x.element != b
  }

  /** The squad after both transfers. */
  function PairSquad(current: seq<Row>, outs: seq<Row>, ins: seq<Row>): seq<Row>
    requires |outs| == |ins| == 2
  {
    Filter(current, Both(outs[0].element, outs[1].element)) + ins
  }

  function PairCash(itb: int, outs: seq<Row>, ins: seq<Row>): int
    requires |outs| == |ins| == 2
  {
    itb + outs[0].sellCost + outs[1].sellCost - ins[0].nowCost - ins[1].nowCost
  }

  /** Two owned players out, two players in who are not among them. */
  ghost predicate ProperPair(current: seq<Row>, outs: seq<Row>, ins: seq<Row>) {
    && |outs| == |ins| == 2
    && outs[0].element != outs[1].element
    && Owns(current, outs[0].element) && Owns(current, outs[1].element)
    && (forall j, k :: 0 <= j < 2 && 0 <= k < 2 ==> ins[j].element != outs[k].element)
  }

  /** Legality counts: exchanging the last two rows for two that count alike keeps it. */
  lemma LegalByCounts(kept: seq<Row>, x: Row, y: Row, a: Row, b: Row)
    requires LegalSquad(kept + [x, y])
    requires forall p :: CountIf(kept + [a, b], HasPosition(p)) == CountIf(kept + [x, y], HasPosition(p))
    requires forall t :: CountIf(kept + [a, b], HasTeam(t)) == CountIf(kept + [x, y], HasTeam(t))
    requires forall e :: CountIf(kept + [a, b], HasElement(e)) <= 1
    ensures LegalSquad(kept + [a, b])
  {
  }

  lemma LegalIsSymmetric(xs: seq<Row>, a: Row, b: Row)
    ensures LegalSquad(xs + [a, b]) <==> LegalSquad(xs + [b, a])
  {
    if LegalSquad(xs + [a, b]) {
      LegalReversed(xs, a, b);
    }
    if LegalSquad(xs + [b, a]) {
      LegalReversed(xs, b, a);
    }
  }

  lemma LegalReversed(xs: seq<Row>, a: Row, b: Row)
    requires LegalSquad(xs + [a, b])
    ensures LegalSquad(xs + [b, a])
  {
    forall p ensures CountIf(xs + [b, a], HasPosition(p)) == CountIf(xs + [a, b], HasPosition(p)) {
      CountPair(xs, a, b, HasPosition(p));
      CountPair(xs, b, a, HasPosition(p));
    }
    forall t ensures CountIf(xs + [b, a], HasTeam(t)) == CountIf(xs + [a, b], HasTeam(t)) {
      CountPair(xs, a, b, HasTeam(t));
      CountPair(xs, b, a, HasTeam(t));
    }
    forall e ensures CountIf(xs + [b, a], HasElement(e)) <= 1 {
      CountPair(xs, a, b, HasElement(e));
      CountPair(xs, b, a, HasElement(e));
    }
    LegalByCounts(xs, a, b, b, a);
  }

  lemma CountPair(xs: seq<Row>, a: Row, b: Row, f: Row -> bool)
    ensures CountIf(xs + [a, b], f) == CountIf(xs, f) + (if f(a) then 1 else 0) + (if f(b) then 1 else 0)
  {
    assert (xs + [a, b])[..|xs| + 1] == xs + [a];
    assert (xs + [a])[..|xs|] == xs;
  }

  lemma FilterOne(x: Row, f: Row -> bool)
    requires f(x)
    ensures Filter([x], f) == [x]
  {
    assert [x][..0] == [];
  }

  lemma LeaveBoth(current: seq<Row>, a: int, b: int)
    ensures Filter(Filter(current, NotElement(a)), NotElement(b)) == Filter(current, Both(a, b))
  {
    FilterTwice(current, NotElement(a), NotElement(b), Both(a, b));
  }

  lemma LeaveLast(kept: seq<Row>, x: Row, f: Row -> bool)
    requires f(x)
    ensures Filter(kept + [x], f) == Filter(kept, f) + [x]
  {
    FilterAppend(kept, [x], f);
    FilterOne(x, f);
  }

  lemma AppendTwo(xs: seq<Row>, x: Row, y: Row)
    ensures xs + [x] + [y] == xs + [x, y]
  {
  }

  /** Executing i then j ends in the pair squad, whichever comes first. */
  lemma SwapTwice(current: seq<Row>, a: int, x: Row, b: int, y: Row)
    requires x.element != b
    ensures Swap(Swap(current, a, x), b, y) == Filter(current, Both(a, b)) + [x, y]
  {
    LeaveLast(Filter(current, NotElement(a)), x, NotElement(b));
    LeaveBoth(current, a, b);
    AppendTwo(Filter(current, Both(a, b)), x, y);
  }

  /** The second player is still owned after the first transfer. */
  lemma StillOwned(current: seq<Row>, a: int, x: Row, b: int)
    requires Owns(current, b) && a != b
    ensures Owns(Swap(current, a, x), b)
  {
    var r :| r in current && r.element == b;
    FilterMembers(current, NotElement(a));
    assert r in Swap(current, a, x);
  }

  /** The second transfer of a pair, after the first was executed. */
  lemma SecondStep(current: seq<Row>, outs: seq<Row>, ins: seq<Row>, itb: int, i: nat, j: nat)
    requires |outs| == |ins| && i < |outs| && j < |outs|
    ensures var first := Execute(current, itb, outs, ins, [i]);
            var both := Execute(current, itb, outs, ins, [i, j]);
            && (both.Some? <==> first.Some? && SingleOk(first.value.squad, outs[j], ins[j], first.value.cash))
            && (both.Some? ==> both.value.cash == first.value.cash + outs[j].sellCost - ins[j].nowCost)
  {
    assert [i, j][..1] == [i];
  }

  /** After the first transfer of a proper pair, the second is allowed exactly when the end is legal and
      affordable. */
  lemma SecondOk(current: seq<Row>, outs: seq<Row>, ins: seq<Row>, itb: int, i: nat, j: nat)
    requires ProperPair(current, outs, ins) && i < 2 && j < 2 && i != j
    ensures SingleOk(Swap(current, outs[i].element, ins[i]), outs[j], ins[j], itb + outs[i].sellCost - ins[i].nowCost) <==>
            LegalSquad(PairSquad(current, outs, ins)) && PairCash(itb, outs, ins) >= 0
  {
    PairEnd(current, outs, ins, i, j);
    SwapTwice(current, outs[i].element, ins[i], outs[j].element, ins[j]);
    StillOwned(current, outs[i].element, ins[i], outs[j].element);
  }

  /** Running one order of the pair: the first transfer must stand alone, and the end must be legal
      and affordable. */
  lemma OrderIff(current: seq<Row>, outs: seq<Row>, ins: seq<Row>, itb: int, i: nat, j: nat)
    requires ProperPair(current, outs, ins) && i < 2 && j < 2 && i != j
    ensures var r := Execute(current, itb, outs, ins, [i, j]);
            && (r.Some? <==> && SingleOk(current, outs[i], ins[i], itb)
                             && LegalSquad(PairSquad(current, outs, ins)) && PairCash(itb, outs, ins) >= 0)
            && (r.Some? ==> r.value.cash == PairCash(itb, outs, ins))
  {
    FirstStep(current, outs, ins, itb, i);
    SecondStep(current, outs, ins, itb, i, j);
    if SingleOk(current, outs[i], ins[i], itb) {
      SecondOk(current, outs, ins, itb, i, j);
    }
  }

  lemma PairEnd(current: seq<Row>, outs: seq<Row>, ins: seq<Row>, i: nat, j: nat)
    requires |outs| == |ins| == 2 && i < 2 && j < 2 && i != j
    ensures LegalSquad(Filter(current, Both(outs[i].element, outs[j].element)) + [ins[i], ins[j]])
            <==> LegalSquad(PairSquad(current, outs, ins))
  {
    FilterSame(current, Both(outs[i].element, outs[j].element), Both(outs[0].element, outs[1].element));
    assert ins == [ins[0], ins[1]];
    LegalIsSymmetric(Filter(current, Both(outs[0].element, outs[1].element)), ins[0], ins[1]);
  }

  /** The sequential check of a pair, for all pairs: it succeeds exactly when the final squad is
      legal, the total cash is not negative and one of the two transfers is legal on its own; the
      cash left is the same in either order. */
  lemma PairIff(current: seq<Row>, outs: seq<Row>, ins: seq<Row>, itb: int)
    requires ProperPair(current, outs, ins)
    ensures StepLegal(current, outs, ins, itb) <==>
            && LegalSquad(PairSquad(current, outs, ins))
            && itb + outs[0].sellCost + outs[1].sellCost - ins[0].nowCost - ins[1].nowCost >= 0
            && (SingleOk(current, outs[0], ins[0], itb) || SingleOk(current, outs[1], ins[1], itb))
    ensures StepLegal(current, outs, ins, itb) ==>
              Verdict(current, outs, ins, itb).1.resultingItb ==
              itb + outs[0].sellCost + outs[1].sellCost - ins[0].nowCost - ins[1].nowCost
  {
    OrderIff(current, outs, ins, itb, 0, 1);
    OrderIff(current, outs, ins, itb, 1, 0);
    TwoOrders(current, outs, ins, itb);
  }

  /** Pairing two singles that passed: only the final squad and the total cash matter. */
  lemma PairOfSingles(current: seq<Row>, outs: seq<Row>, ins: seq<Row>, itb: int)
    requires ProperPair(current, outs, ins)
    requires StepLegal(current, [outs[0]], [ins[0]], itb) && StepLegal(current, [outs[1]], [ins[1]], itb)
    ensures StepLegal(current, outs, ins, itb)
            <==> LegalSquad(PairSquad(current, outs, ins)) && PairCash(itb, outs, ins) >= 0
  {
    SingleIff(current, outs[0], ins[0], itb);
    SingleIff(current, outs[1], ins[1], itb);
    PairIff(current, outs, ins, itb);
  }

  lemma CrossedSquads(current: seq<Row>, outs: seq<Row>, ins: seq<Row>)
    requires |outs| == |ins| == 2
    ensures var crossed := [ins[1], ins[0]];
            && multiset(PairSquad(current, outs, crossed)) == multiset(PairSquad(current, outs, ins))
            && (LegalSquad(PairSquad(current, outs, crossed)) <==> LegalSquad(PairSquad(current, outs, ins)))
  {
    assert ins == [ins[0], ins[1]];
    LegalIsSymmetric(Filter(current, Both(outs[0].element, outs[1].element)), ins[0], ins[1]);
  }

  lemma CrossedAnswers(current: seq<Row>, outs: seq<Row>, ins: seq<Row>, crossed: seq<Row>, itb: int)
    requires ProperPair(current, outs, ins) && crossed == [ins[1], ins[0]]
    requires StepLegal(current, [outs[0]], [ins[0]], itb) && StepLegal(current, [outs[1]], [ins[1]], itb)
    requires StepLegal(current, [outs[0]], [ins[1]], itb) && StepLegal(current, [outs[1]], [ins[0]], itb)
    ensures StepLegal(current, outs, crossed, itb) <==> StepLegal(current, outs, ins, itb)
  {
    CrossedSquads(current, outs, ins);
    PairOfSingles(current, outs, ins, itb);
    PairOfSingles(current, outs, crossed, itb);
  }

  /** The de-duplication key of a pair ignores who replaces whom, and rightly so: crossing the
      incoming players changes neither the final squad, nor the cash, nor, when all four singles
      passed, the answer. */
  lemma CrossedPairsAgree(current: seq<Row>, outs: seq<Row>, ins: seq<Row>, itb: int)
    requires ProperPair(current, outs, ins)
    requires forall j, k :: 0 <= j < 2 && 0 <= k < 2 ==> StepLegal(current, [outs[j]], [ins[k]], itb)
    ensures var crossed := [ins[1], ins[0]];
            && multiset(PairSquad(current, outs, crossed)) == multiset(PairSquad(current, outs, ins))
            && PairCash(itb, outs, crossed) == PairCash(itb, outs, ins)
            && (StepLegal(current, outs, crossed, itb) <==> StepLegal(current, outs, ins, itb))
  {
    CrossedSquads(current, outs, ins);
    CrossedAnswers(current, outs, ins, [ins[1], ins[0]], itb);
  }

  lemma {:induction false} FirstOrderChains(current: seq<Row>, itb: int, outs: seq<Row>, ins: seq<Row>, orders: seq<seq<nat>>)
    requires |outs| == |ins| && forall o, k :: o in orders && 0 <= k < |o| ==> o[k] < |outs|
    requires forall o :: o in orders ==> |o| == |outs|
    ensures match FirstOrder(current, itb, outs, ins, orders)
            case None => true
            case Some((r, _)) => |r.steps| == |outs| && Chains(itb, r.steps, r.cash)
  {
    if orders == [] {
    } else {
      ExecuteChains(current, itb, outs, ins, orders[0]);
      FirstOrderChains(current, itb, outs, ins, orders[1..]);
    }
  }

  /** Whatever the transfers, a successful check reports one chain of non-negative balances from the
      cash in hand to the resulting cash. */
  lemma LedgerChains(current: seq<Row>, outs: seq<Row>, ins: seq<Row>, itb: int)
    requires StepLegal(current, outs, ins, itb)
    ensures var report := Verdict(current, outs, ins, itb).1;
            report.Ledger? && |report.steps| == |outs| && Chains(itb, report.steps, report.resultingItb)
  {
    if |outs| > 0 {
      FirstOrderChains(current, itb, outs, ins, Orders(|outs|));
    }
  }

  // ---------------------------------------------------------------- pruning and transfers together

  /** A player of the same club and position, no dearer and not owned, may come in instead. */
  lemma ReplaceIncoming(current: seq<Row>, out: Row, x: Row, top: Row, itb: int)
    requires SingleOk(current, out, x, itb)
    requires top.position == x.position && top.team == x.team && top.nowCost <= x.nowCost && !Owns(current, top.element)
    ensures SingleOk(current, out, top, itb)
  {
    var kept := Filter(current, NotElement(out.element));
    FilterMembers(current, NotElement(out.element));
    forall f: Row -> bool ensures CountIf(kept + [x], f) == CountIf(kept, f) + if f(x) then 1 else 0 {
      assert (kept + [x])[..|kept|] == kept;
    }
    forall f: Row -> bool ensures CountIf(kept + [top], f) == CountIf(kept, f) + if f(top) then 1 else 0 {
      assert (kept + [top])[..|kept|] == kept;
    }
    CountIfZero(kept, HasElement(top.element));
  }

  /** End to end: no legal and affordable single transfer is lost by pruning. Each one still has,
      for the same outgoing player, a kept counterpart that is at least as good, legal, affordable
      and leaves at least as much cash. */
  lemma PruningLosesNoSingle(current: seq<Row>, pool: seq<Row>, out: Row, x: Row, itb: int) returns (top: Row)
    requires Separated(pool) && x in pool && (forall r :: r in pool ==> !Owns(current, r.element))
    requires StepLegal(current, [out], [x], itb)
    ensures top in Kept(pool) && (top == x || Dominates(top, x))
    ensures StepLegal(current, [out], [top], itb)
    ensures Verdict(current, [out], [top], itb).1.resultingItb >= Verdict(current, [out], [x], itb).1.resultingItb
  {
    top := PruningCovers(pool, x);
    FilterMembers(pool, Survivor(pool));
    SingleIff(current, out, x, itb);
    SingleIff(current, out, top, itb);
    ReplaceIncoming(current, out, x, top, itb);
  }

  // ---------------------------------------------------------------- generating the singles

  datatype Stub = Stub(out: Row, into: Row, sequence: Report)

  ghost predicate HasStub(stubs: seq<Stub>, out: Row, into: Row) {
    exists k :: 0 <= k < |stubs| && stubs[k].out == out && stubs[k].into == into
  }

  ghost predicate StubOk(current: seq<Row>, itb: int, s: Stub) {
    && s.out in current && StepLegal(current, [s.out], [s.into], itb)
    && s.sequence == Verdict(current, [s.out], [s.into], itb).1
  }

  /** The stubs for one outgoing player. */
  method StubsFor(current: seq<Row>, out: Row, candidates: seq<Row>, itb: int) returns (stubs: seq<Stub>)
    requires out in current
    ensures forall s :: s in stubs ==> StubOk(current, itb, s) && s.out == out && s.into in candidates
    ensures forall x :: x in candidates && StepLegal(current, [out], [x], itb) ==> HasStub(stubs, out, x)
  {
    stubs := [];
    for n := 0 to |candidates|
      invariant forall s :: s in stubs ==> StubOk(current, itb, s) && s.out == out && s.into in candidates
      invariant forall x :: x in candidates[..n] && StepLegal(current, [out], [x], itb) ==> HasStub(stubs, out, x)
    {
      var incoming := candidates[n];
      var ok, sequence := StepLegalTransferSequence(current, [out], [incoming], itb);
      if ok {
        ghost var before := stubs;
        stubs := stubs + [Stub(out, incoming, sequence)];
        assert stubs[|before|].out == out && stubs[|before|].into == incoming;
        forall x | HasStub(before, out, x) ensures HasStub(stubs, out, x) {
          var k :| 0 <= k < |before| && before[k].out == out && before[k].into == x;
          assert stubs[k] == before[k];
        }
      }
    }
    assert candidates[..|candidates|] == candidates;
  }

  /** Everybody in `owned` has been tried against the candidates of his position. */
  ghost predicate AllTried(current: seq<Row>, owned: seq<Row>, pool: map<Position, seq<Row>>, itb: int, stubs: seq<Stub>) {
    forall out, x ::
      out in owned && out.position in pool && x in pool[out.position] && StepLegal(current, [out], [x], itb) ==>
        HasStub(stubs, out, x)
  }

  method TryAll(current: seq<Row>, pool: map<Position, seq<Row>>, itb: int) returns (stubs: seq<Stub>)
    ensures forall s :: s in stubs ==> StubOk(current, itb, s)
    ensures AllTried(current, current, pool, itb, stubs)
  {
    stubs := [];
    for n := 0 to |current|
      invariant forall s :: s in stubs ==> StubOk(current, itb, s)
      invariant AllTried(current, current[..n], pool, itb, stubs)
    {
      var out := current[n];
      var candidates := if out.position in pool then pool[out.position] else [];
      var more := StubsFor(current, out, candidates, itb);
      TriedNext(current, current[..n], out, pool, itb, stubs, more);
      assert current[..n + 1] == current[..n] + [out];
      stubs := stubs + more;
    }
    assert current[..|current|] == current;
  }

  lemma TriedNext(current: seq<Row>, owned: seq<Row>, out: Row, pool: map<Position, seq<Row>>, itb: int, stubs: seq<Stub>, more: seq<Stub>)
    requires AllTried(current, owned, pool, itb, stubs)
    requires out.position in pool ==>
               forall x :: x in pool[out.position] && StepLegal(current, [out], [x], itb) ==> HasStub(more, out, x)
    ensures AllTried(current, owned + [out], pool, itb, stubs + more)
  {
    forall o, x | HasStub(stubs, o, x) || HasStub(more, o, x) ensures HasStub(stubs + more, o, x) {
      StubAppended(stubs, more, o, x);
    }
  }

  /** The premises under which pruning is lossless. */
  ghost predicate CleanPool(current: seq<Row>, pool: seq<Row>) {
    Separated(pool) && forall r :: r in pool ==> !Owns(current, r.element)
  }

  ghost predicate HasCounterpart(stubs: seq<Stub>, out: Row, x: Row) {
    exists top :: HasStub(stubs, out, top) && (top == x || Dominates(top, x))
  }

  lemma CounterpartTried(current: seq<Row>, pool: seq<Row>, search: map<Position, seq<Row>>, itb: int, stubs: seq<Stub>, out: Row, x: Row)
    requires AllTried(current, current, search, itb, stubs) && out in current && out.position in search
    requires multiset(search[out.position]) == multiset(Kept(pool))
    requires CleanPool(current, pool) && x in pool && StepLegal(current, [out], [x], itb)
    ensures HasCounterpart(stubs, out, x)
  {
    var top := PruningLosesNoSingle(current, pool, out, x, itb);
    assert top in multiset(search[out.position]);
    assert HasStub(stubs, out, top);
  }

  /** The single-transfer block of `build_package_optimizer`: prune the pool, then try every owned
      player against the kept candidates of his position. On a clean pool nothing is lost. */
  method SingleStubs(current: seq<Row>, fullPool: map<Position, seq<Row>>, itb: int) returns (stubs: seq<Stub>)
    requires fullPool.Keys == {GK, DEF, MID, FWD}
    ensures forall s :: s in stubs ==> StubOk(current, itb, s)
    ensures forall out, x ::
              out in current && out.position in fullPool && x in fullPool[out.position] &&
              CleanPool(current, fullPool[out.position]) && StepLegal(current, [out], [x], itb) ==>
                HasCounterpart(stubs, out, x)
  {
    var searchPool, groups, pruned := TeamPositionParetoPool(fullPool);
    stubs := TryAll(current, searchPool, itb);
    forall out, x |
      out in current && out.position in fullPool && x in fullPool[out.position] &&
      CleanPool(current, fullPool[out.position]) && StepLegal(current, [out], [x], itb)
      ensures HasCounterpart(stubs, out, x)
    {
      CounterpartTried(current, fullPool[out.position], searchPool, itb, stubs, out, x);
    }
  }

  lemma StubAppended(a: seq<Stub>, b: seq<Stub>, out: Row, x: Row)
    requires HasStub(a, out, x) || HasStub(b, out, x)
    ensures HasStub(a + b, out, x)
  {
    if HasStub(a, out, x) {
      var k :| 0 <= k < |a| && a[k].out == out && a[k].into == x;
      assert (a + b)[k] == a[k];
    } else {
      var k :| 0 <= k < |b| && b[k].out == out && b[k].into == x;
      assert (a + b)[|a| + k] == b[k];
    }
  }
}
