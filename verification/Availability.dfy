/** The hierarchical availability state, over real numbers: what the builder publishes after
    rounding to eight decimals, and what the validator accepts. */
module Availability {
  import opened Wrappers

  datatype Given =
    | PAvailable | PStartGivenAvailable | PBenchGivenNotStart | PCameoGivenBench | PLateGivenCameo
    | PNoAppearanceGivenBench

  datatype Outcome = Available | Start | Bench | Cameo | LateCameo | Dnp

  datatype State = State(conditional: map<Given, real>, unconditional: map<Outcome, real>)

  /** What a caller hands to the validator. An entry that is missing or not a finite number is not
      in its map. */
  datatype Claim = Claim(conditional: Option<map<Given, real>>, unconditional: Option<map<Outcome, real>>)

  datatype Fault =
    | BadGiven(given: Given) | BadOutcome(outcome: Outcome) | NotNormalized | NoMappings | Inconsistent(outcome: Outcome)

  // ---------------------------------------------------------------- rounding

  const SCALE := 100000000.0
  const HALF_UNIT := 0.000000005

  function NearestEven(y: real): int {
    var low := y.Floor;
    if y - low as real < 0.5 then low
    else if y - low as real > 0.5 then low + 1
    else if low % 2 == 0 then low
    else low + 1
  }

  /** `round(x, 8)`. */
  function Round8(x: real): real {
    NearestEven(x * SCALE) as real / SCALE
  }

  function Gap(x: real, y: real): real {
    if x < y then y - x else x - y
  }

  predicate IsProbability(x: real) {
    0.0 <= x <= 1.0
  }

  // ---------------------------------------------------------------- builder

  predicate Readable<K>(values: map<K, real>, key: K) {
    key in values && IsProbability(values[key])
  }

  /** The outcomes before rounding, from the five conditionals. */
  datatype Tree = Tree(available: real, start: real, bench: real, cameo: real, late: real, dnp: real)

  function Unroll(available: real, start: real, bench: real, cameo: real, late: real): Tree {
    var notStart := available * (1.0 - start);
    var benched := notStart * bench;
    var cameos := benched * cameo;
    Tree(available, available * start, benched, cameos, cameos * late,
         (1.0 - available) + benched * (1.0 - cameo) + notStart * (1.0 - bench))
  }

  function Published(t: Tree): map<Outcome, real> {
    map[Available := Round8(t.available), Start := Round8(t.start), Bench := Round8(t.bench), Cameo := Round8(t.cameo),
        LateCameo := Round8(t.late), Dnp := Round8(t.dnp)]
  }

  const ASKED := [PAvailable, PStartGivenAvailable, PBenchGivenNotStart, PCameoGivenBench, PLateGivenCameo]

  predicate AllReadable(given: map<Given, real>) {
    forall g :: g in ASKED ==> Readable(given, g)
  }

  function TreeOf(given: map<Given, real>): Tree
    requires AllReadable(given)
  {
    assert ASKED[0] in ASKED && ASKED[1] in ASKED && ASKED[2] in ASKED && ASKED[3] in ASKED && ASKED[4] in ASKED;
    Unroll(given[PAvailable], given[PStartGivenAvailable], given[PBenchGivenNotStart], given[PCameoGivenBench],
           given[PLateGivenCameo])
  }

  function Rounded(given: map<Given, real>): (rounded: map<Given, real>)
    requires AllReadable(given)
    ensures AllReadable(rounded)
  {
    assert ASKED[0] in ASKED && ASKED[1] in ASKED && ASKED[2] in ASKED && ASKED[3] in ASKED && ASKED[4] in ASKED;
    RoundKeepsProbability(given[PAvailable]);
    RoundKeepsProbability(given[PStartGivenAvailable]);
    RoundKeepsProbability(given[PBenchGivenNotStart]);
    RoundKeepsProbability(given[PCameoGivenBench]);
    RoundKeepsProbability(given[PLateGivenCameo]);
    map[PAvailable := Round8(given[PAvailable]),
        PStartGivenAvailable := Round8(given[PStartGivenAvailable]),
        PBenchGivenNotStart := Round8(given[PBenchGivenNotStart]),
        PCameoGivenBench := Round8(given[PCameoGivenBench]),
        PLateGivenCameo := Round8(given[PLateGivenCameo]),
        PNoAppearanceGivenBench := Round8(1.0 - given[PCameoGivenBench])]
  }

  /** `build_probability_state`: the first unusable conditional, in argument order, is reported. */
  function Build(given: map<Given, real>): Result<State, Fault> {
    if !Readable(given, PAvailable) then Err(BadGiven(PAvailable))
    else if !Readable(given, PStartGivenAvailable) then Err(BadGiven(PStartGivenAvailable))
    else if !Readable(given, PBenchGivenNotStart) then Err(BadGiven(PBenchGivenNotStart))
    else if !Readable(given, PCameoGivenBench) then Err(BadGiven(PCameoGivenBench))
    else if !Readable(given, PLateGivenCameo) then Err(BadGiven(PLateGivenCameo))
    else
      var t := TreeOf(given);
      if Gap(t.start + t.cameo + t.dnp, 1.0) > 0.000000001 then Err(NotNormalized)
      else Ok(State(Rounded(given), Published(t)))
  }

  // ---------------------------------------------------------------- validator

  const OUTCOMES := [Available, Start, Bench, Cameo, LateCameo, Dnp]

  predicate Close(actual: real, expected: real) {
    Gap(actual, expected) <= 0.000001
  }

  /** The verdict of the comparison on one outcome. */
  function Compare(claimed: map<Outcome, real>, expected: map<Outcome, real>, o: Outcome): Option<Fault>
    requires o in expected
  {
    if !Readable(claimed, o) then Some(BadOutcome(o))
    else if !Close(claimed[o], expected[o]) then Some(Inconsistent(o))
    else None
  }

  /** The first fault among the outcomes, if there is one. */
  function FirstFault(claimed: map<Outcome, real>, expected: map<Outcome, real>, outcomes: seq<Outcome>): (r: Option<Fault>)
    requires forall o :: o in outcomes ==> o in expected
    ensures r == None <==> forall o :: o in outcomes ==> Compare(claimed, expected, o) == None
  {
    if outcomes == [] then None
    else
      assert forall o :: o in outcomes <==> o == outcomes[0] || o in outcomes[1..];
      var fault := Compare(claimed, expected, outcomes[0]);
      if fault.Some? then fault else FirstFault(claimed, expected, outcomes[1..])
  }

  function Validated(claim: Claim): Result<State, Fault> {
    if claim.conditional.None? || claim.unconditional.None? then Err(NoMappings)
    else
      var rebuilt := Build(claim.conditional.value);
      if rebuilt.Err? then rebuilt
      else
        assert forall o :: o in OUTCOMES ==> o in rebuilt.value.unconditional;
        match FirstFault(claim.unconditional.value, rebuilt.value.unconditional, OUTCOMES) {
          case Some(fault) => Err(fault)
          case None => rebuilt
        }
  }

  /** `validate_probability_state`. */
  method ValidateProbabilityState(claim: Claim) returns (r: Result<State, Fault>)
    ensures r == Validated(claim)
  {
    if claim.conditional.None? || claim.unconditional.None? {
      return Err(NoMappings);
    }
    var claimed := claim.unconditional.value;
    r := Build(claim.conditional.value);
    if r.Err? {
      return;
    }
    var expected := r.value.unconditional;
    for k := 0 to |OUTCOMES|
      invariant FirstFault(claimed, expected, OUTCOMES) == FirstFault(claimed, expected, OUTCOMES[k..])
    {
      var o := OUTCOMES[k];
      assert OUTCOMES[k..][0] == o && OUTCOMES[k..][1..] == OUTCOMES[k + 1..];
      if !Readable(claimed, o) {
        return Err(BadOutcome(o));
      }
      if !Close(claimed[o], expected[o]) {
        return Err(Inconsistent(o));
      }
    }
  }

  function AsClaim(s: State): Claim {
    Claim(Some(s.conditional), Some(s.unconditional))
  }

  // ---------------------------------------------------------------- rounding, proved

  /** Rounding moves a number by at most half a unit of the eighth decimal. */
  lemma RoundMoves(x: real)
    ensures Gap(Round8(x), x) <= HALF_UNIT
  {
    var n := NearestEven(x * SCALE) as real;
    assert Gap(n, x * SCALE) <= 0.5;
    assert Round8(x) * SCALE == n;
    assert Gap(Round8(x), x) * SCALE <= 0.5;
  }

  lemma RoundWhole(n: int)
    ensures NearestEven(n as real) == n
    ensures Round8(n as real / SCALE) == n as real / SCALE
  {
    assert n as real / SCALE * SCALE == n as real;
  }

  /** Rounding twice is rounding once. */
  lemma RoundTwice(x: real)
    ensures Round8(Round8(x)) == Round8(x)
  {
    RoundWhole(NearestEven(x * SCALE));
  }

  lemma RoundMonotone(x: real, y: real)
    requires x <= y
    ensures Round8(x) <= Round8(y)
  {
    var m, n := NearestEven(x * SCALE), NearestEven(y * SCALE);
    assert x * SCALE <= y * SCALE;
    assert m <= n;
    assert m as real / SCALE <= n as real / SCALE;
  }

  lemma RoundKeepsProbability(x: real)
    requires IsProbability(x)
    ensures IsProbability(Round8(x))
  {
    RoundWhole(0);
    RoundWhole(100000000);
    RoundMonotone(0.0, x);
    RoundMonotone(x, 1.0);
  }

  /** Half-even rounding is symmetric: the complement of the rounded value is the rounded complement. */
  lemma RoundComplement(x: real)
    ensures Round8(1.0 - x) == 1.0 - Round8(x)
  {
    var y := x * SCALE;
    assert (1.0 - x) * SCALE == SCALE - y;
    var low := y.Floor;
    if y == low as real {
      RoundWhole(low);
      RoundWhole(100000000 - low);
      assert SCALE - y == (100000000 - low) as real;
    } else {
      assert (SCALE - y).Floor == 100000000 - low - 1;
      assert (SCALE - y) - (100000000 - low - 1) as real == 1.0 - (y - low as real);
    }
    assert NearestEven(SCALE - y) == 100000000 - NearestEven(y);
  }

  // ---------------------------------------------------------------- the tree, proved

  /** A product p of two probabilities is below both, and splits its first factor. */
  lemma Product(p: real, x: real, y: real)
    requires IsProbability(x) && IsProbability(y) && p == x * y
    ensures 0.0 <= p <= x && p <= y
    ensures x * (1.0 - y) == x - p
  {
    NonNegative(x, y);
    NonNegative(x, 1.0 - y);
    NonNegative(1.0 - x, y);
  }

  lemma NonNegative(x: real, y: real)
    requires 0.0 <= x && 0.0 <= y
    ensures 0.0 <= x * y
  {
  }

  ghost predicate Probabilities(a: real, s: real, b: real, c: real, l: real) {
    IsProbability(a) && IsProbability(s) && IsProbability(b) && IsProbability(c) && IsProbability(l)
  }

  /** The tree, one product at a time. */
  ghost predicate Unrolled(t: Tree, notStart: real, a: real, s: real, b: real, c: real, l: real) {
    && t.available == a && t.start == a * s && notStart == a * (1.0 - s)
    && t.bench == notStart * b && t.cameo == t.bench * c && t.late == t.cameo * l
    && t.dnp == (1.0 - a) + t.bench * (1.0 - c) + notStart * (1.0 - b)
  }

  ghost predicate Balanced(t: Tree) {
    && t.start + t.cameo + t.dnp == 1.0
    && 0.0 <= t.late <= t.cameo <= t.bench <= t.available - t.start
    && IsProbability(t.available) && IsProbability(t.start) && IsProbability(t.bench) && IsProbability(t.dnp)
  }

  lemma Linear(t: Tree, notStart: real)
    requires 0.0 <= t.start <= t.available <= 1.0 && notStart == t.available - t.start
    requires 0.0 <= t.late <= t.cameo <= t.bench <= notStart
    requires t.dnp == (1.0 - t.available) + (t.bench - t.cameo) + (notStart - t.bench)
    ensures Balanced(t)
  {
  }

  lemma UnrolledIsBalanced(t: Tree, notStart: real, a: real, s: real, b: real, c: real, l: real)
    requires Probabilities(a, s, b, c, l) && Unrolled(t, notStart, a, s, b, c, l)
    ensures Balanced(t) && IsProbability(notStart) && notStart == a - t.start
  {
    Product(t.start, a, s);
    assert IsProbability(notStart);
    Product(t.bench, notStart, b);
    Product(t.cameo, t.bench, c);
    Product(t.late, t.cameo, l);
    Linear(t, notStart);
  }

  /** START, CAMEO and DNP share the whole: exactly, before rounding. The roster states nest. */
  lemma TreeIsDistribution(a: real, s: real, b: real, c: real, l: real)
    requires Probabilities(a, s, b, c, l)
    ensures Balanced(Unroll(a, s, b, c, l))
  {
    UnrolledIsBalanced(Unroll(a, s, b, c, l), a * (1.0 - s), a, s, b, c, l);
  }

  lemma ReadTree(given: map<Given, real>)
    requires AllReadable(given)
    ensures Readable(given, PAvailable) && Readable(given, PStartGivenAvailable) && Readable(given, PBenchGivenNotStart)
    ensures Readable(given, PCameoGivenBench) && Readable(given, PLateGivenCameo)
    ensures Balanced(TreeOf(given))
  {
    assert ASKED[0] in ASKED && ASKED[1] in ASKED && ASKED[2] in ASKED && ASKED[3] in ASKED && ASKED[4] in ASKED;
    TreeIsDistribution(given[PAvailable], given[PStartGivenAvailable], given[PBenchGivenNotStart],
                       given[PCameoGivenBench], given[PLateGivenCameo]);
  }

  /** The builder succeeds exactly on five probabilities: its normalisation check never fires. */
  lemma BuildsIff(given: map<Given, real>)
    ensures Build(given).Ok? <==> AllReadable(given)
    ensures Build(given) != Err(NotNormalized)
    ensures AllReadable(given) ==> Build(given) == Ok(State(Rounded(given), Published(TreeOf(given))))
  {
    if AllReadable(given) {
      ReadTree(given);
    }
  }

  /** What is published: every outcome is a probability within half a unit of the tree's, the
      roster states still nest, and the appearance outcomes miss one by at most three half units. */
  lemma PublishedIsSane(given: map<Given, real>)
    requires AllReadable(given)
    ensures var u := Published(TreeOf(given));
            && 0.0 <= u[LateCameo] <= u[Cameo] <= u[Bench] <= u[Available] <= 1.0
            && u[Start] <= u[Available] && IsProbability(u[Start]) && IsProbability(u[Dnp])
            && Gap(u[Start] + u[Cameo] + u[Dnp], 1.0) <= 3.0 * HALF_UNIT
  {
    ReadTree(given);
    var t := TreeOf(given);
    RoundKeepsProbability(t.available);
    RoundKeepsProbability(t.late);
    RoundKeepsProbability(t.start);
    RoundKeepsProbability(t.dnp);
    RoundMonotone(t.late, t.cameo);
    RoundMonotone(t.cameo, t.bench);
    RoundMonotone(t.bench, t.available);
    RoundMonotone(t.start, t.available);
    SumRounds(t.start, t.cameo, t.dnp);
  }

  lemma SumRounds(x: real, y: real, z: real)
    requires x + y + z == 1.0
    ensures Gap(Round8(x) + Round8(y) + Round8(z), 1.0) <= 3.0 * HALF_UNIT
  {
    RoundMoves(x);
    RoundMoves(y);
    RoundMoves(z);
  }

  // ---------------------------------------------------------------- what the numbers are

  /** t is the tree of the named conditionals: each outcome is its share of the one before it. */
  ghost predicate Laws(given: map<Given, real>, t: Tree)
    requires AllReadable(given)
  {
    assert ASKED[0] in ASKED && ASKED[1] in ASKED && ASKED[2] in ASKED && ASKED[3] in ASKED && ASKED[4] in ASKED;
    && t.available == given[PAvailable]
    && t.start == t.available * given[PStartGivenAvailable]
    && t.bench == (t.available - t.start) * given[PBenchGivenNotStart]
    && t.cameo == t.bench * given[PCameoGivenBench]
    && t.late == t.cameo * given[PLateGivenCameo]
    && t.dnp == 1.0 - t.start - t.cameo
  }

  lemma TreeFollowsLaws(given: map<Given, real>)
    requires AllReadable(given)
    ensures Laws(given, TreeOf(given))
  {
    ReadTree(given);
    var a, s := given[PAvailable], given[PStartGivenAvailable];
    assert a * (1.0 - s) == a - a * s;
  }

  lemma OneTree(given: map<Given, real>, t: Tree)
    requires AllReadable(given) && Laws(given, t)
    ensures t == TreeOf(given)
  {
    TreeFollowsLaws(given);
  }

  /** What the builder prints: each conditional and each outcome under its own name, rounded. */
  lemma BuildPrints(given: map<Given, real>, t: Tree)
    requires AllReadable(given) && Laws(given, t)
    ensures Build(given).Ok?
    ensures var c := Build(given).value.conditional;
            && c.Keys == {PAvailable, PStartGivenAvailable, PBenchGivenNotStart, PCameoGivenBench, PLateGivenCameo, PNoAppearanceGivenBench}
            && (forall g :: g in ASKED ==> g in given && c[g] == Round8(given[g]))
            && PCameoGivenBench in given && c[PNoAppearanceGivenBench] == Round8(1.0 - given[PCameoGivenBench])
    ensures Build(given).value.unconditional ==
            map[Available := Round8(t.available), Start := Round8(t.start), Bench := Round8(t.bench),
                Cameo := Round8(t.cameo), LateCameo := Round8(t.late), Dnp := Round8(t.dnp)]
  {
    OneTree(given, t);
    BuildsIff(given);
    ReadTree(given);
  }

  /** Otherwise the first conditional that is no probability is named. */
  lemma BuildNames(given: map<Given, real>, k: nat)
    requires k < 5 && !Readable(given, ASKED[k]) && forall j :: 0 <= j < k ==> Readable(given, ASKED[j])
    ensures Build(given) == Err(BadGiven(ASKED[k]))
  {
    assert k > 0 ==> Readable(given, ASKED[0]);
    assert k > 1 ==> Readable(given, ASKED[1]);
    assert k > 2 ==> Readable(given, ASKED[2]);
    assert k > 3 ==> Readable(given, ASKED[3]);
  }

  /** A comparison fails first at the outcome it names, and for the reason it gives. */
  lemma {:induction false} FaultIsFirst(claimed: map<Outcome, real>, expected: map<Outcome, real>, outcomes: seq<Outcome>, k: nat)
    requires (forall o :: o in outcomes ==> o in expected) && k < |outcomes|
    requires forall j :: 0 <= j < k ==> Readable(claimed, outcomes[j]) && Gap(claimed[outcomes[j]], expected[outcomes[j]]) <= 0.000001
    ensures !Readable(claimed, outcomes[k]) ==> FirstFault(claimed, expected, outcomes) == Some(BadOutcome(outcomes[k]))
    ensures Readable(claimed, outcomes[k]) && Gap(claimed[outcomes[k]], expected[outcomes[k]]) > 0.000001 ==>
              FirstFault(claimed, expected, outcomes) == Some(Inconsistent(outcomes[k]))
  {
    if k == 0 {
    } else {
      FaultIsFirst(claimed, expected, outcomes[1..], k - 1);
    }
  }

  // ---------------------------------------------------------------- the round trip

  lemma Scale(p: real, d: real)
    requires IsProbability(p)
    ensures Gap(p * d, 0.0) <= Gap(d, 0.0)
  {
    NonNegative(p, Gap(d, 0.0));
    NonNegative(1.0 - p, Gap(d, 0.0));
    if d < 0.0 {
      assert p * -d == -(p * d);
    }
    assert (1.0 - p) * Gap(d, 0.0) == Gap(d, 0.0) - p * Gap(d, 0.0);
  }

  /** The parts of a product's move: one for each factor. */
  lemma Split(p: real, x: real, y: real, p': real, x': real, y': real, a: real, b: real)
    requires p == x * y && p' == x' * y' && a == x * (y - y') && b == y' * (x - x')
    ensures p - p' == a + b
  {
  }

  lemma Part(a: real, x: real, y: real, y': real)
    requires IsProbability(x) && a == x * (y - y')
    ensures Gap(a, 0.0) <= Gap(y, y')
  {
    Scale(x, y - y');
  }

  lemma Sum(p: real, p': real, a: real, b: real, d: real, e: real)
    requires p - p' == a + b && Gap(a, 0.0) <= d && Gap(b, 0.0) <= e
    ensures Gap(p, p') <= d + e
  {
  }

  /** Moving two probabilities moves their product by no more than both together. */
  lemma ProductMoves(p: real, x: real, y: real, p': real, x': real, y': real)
    requires IsProbability(x) && IsProbability(y) && IsProbability(x') && IsProbability(y')
    requires p == x * y && p' == x' * y'
    ensures Gap(p, p') <= Gap(y, y') + Gap(x, x')
  {
    var a, b := x * (y - y'), y' * (x - x');
    Split(p, x, y, p', x', y', a, b);
    Part(a, x, y, y');
    Part(b, y', x, x');
    Sum(p, p', a, b, Gap(y, y'), Gap(x, x'));
  }

  ghost predicate Near(t: Tree, u: Tree, e: real) {
    && Gap(t.available, u.available) <= e && Gap(t.start, u.start) <= 2.0 * e && Gap(t.bench, u.bench) <= 3.0 * e
    && Gap(t.cameo, u.cameo) <= 4.0 * e && Gap(t.late, u.late) <= 5.0 * e && Gap(t.dnp, u.dnp) <= 6.0 * e
  }

  /** A product moves by what its factors move together. */
  lemma StepMoves(p: real, x: real, y: real, p': real, x': real, y': real, d: real, e: real)
    requires IsProbability(x) && IsProbability(y) && IsProbability(x') && IsProbability(y')
    requires p == x * y && p' == x' * y' && Gap(x, x') <= d && Gap(y, y') <= e
    ensures Gap(p, p') <= d + e
  {
    ProductMoves(p, x, y, p', x', y');
  }

  lemma BenchMoves(t: Tree, n: real, b: real, c: real, l: real, u: Tree, m: real, b': real, c': real, l': real, e: real)
    requires Probabilities(n, b, c, l, t.bench) && Probabilities(m, b', c', l', u.bench)
    requires IsProbability(t.cameo) && IsProbability(u.cameo)
    requires t.bench == n * b && t.cameo == t.bench * c && t.late == t.cameo * l
    requires u.bench == m * b' && u.cameo == u.bench * c' && u.late == u.cameo * l'
    requires Gap(n, m) <= 2.0 * e && Gap(b, b') <= e && Gap(c, c') <= e && Gap(l, l') <= e
    ensures Gap(t.bench, u.bench) <= 3.0 * e && Gap(t.cameo, u.cameo) <= 4.0 * e && Gap(t.late, u.late) <= 5.0 * e
  {
    StepMoves(t.bench, n, b, u.bench, m, b', 2.0 * e, e);
    StepMoves(t.cameo, t.bench, c, u.cameo, u.bench, c', 3.0 * e, e);
    StepMoves(t.late, t.cameo, l, u.late, u.cameo, l', 4.0 * e, e);
  }

  lemma StartMoves(p: real, n: real, a: real, s: real, p': real, n': real, a': real, s': real, e: real)
    requires IsProbability(a) && IsProbability(s) && IsProbability(a') && IsProbability(s')
    requires p == a * s && n == a * (1.0 - s) && p' == a' * s' && n' == a' * (1.0 - s')
    requires Gap(a, a') <= e && Gap(s, s') <= e
    ensures Gap(p, p') <= 2.0 * e && Gap(n, n') <= 2.0 * e
  {
    StepMoves(p, a, s, p', a', s', e, e);
    StepMoves(n, a, 1.0 - s, n', a', 1.0 - s', e, e);
  }

  lemma UnrolledMoves(t: Tree, n: real, a: real, s: real, b: real, c: real, l: real,
                      u: Tree, m: real, a': real, s': real, b': real, c': real, l': real, e: real)
    requires Probabilities(a, s, b, c, l) && Probabilities(a', s', b', c', l')
    requires Unrolled(t, n, a, s, b, c, l) && Unrolled(u, m, a', s', b', c', l')
    requires Gap(a, a') <= e && Gap(s, s') <= e && Gap(b, b') <= e && Gap(c, c') <= e && Gap(l, l') <= e
    ensures Near(t, u, e)
  {
    UnrolledIsBalanced(t, n, a, s, b, c, l);
    UnrolledIsBalanced(u, m, a', s', b', c', l');
    StartMoves(t.start, n, a, s, u.start, m, a', s', e);
    BenchMoves(t, n, b, c, l, u, m, b', c', l', e);
    NearOf(t, u, e);
  }

  lemma NearOf(t: Tree, u: Tree, e: real)
    requires Balanced(t) && Balanced(u)
    requires Gap(t.available, u.available) <= e && Gap(t.start, u.start) <= 2.0 * e && Gap(t.bench, u.bench) <= 3.0 * e
    requires Gap(t.cameo, u.cameo) <= 4.0 * e && Gap(t.late, u.late) <= 5.0 * e
    ensures Near(t, u, e)
  {
  }

  /** Conditionals that move by at most e move no outcome by more than 6e. */
  lemma TreeMoves(a: real, s: real, b: real, c: real, l: real, a': real, s': real, b': real, c': real, l': real, e: real)
    requires Probabilities(a, s, b, c, l) && Probabilities(a', s', b', c', l')
    requires Gap(a, a') <= e && Gap(s, s') <= e && Gap(b, b') <= e && Gap(c, c') <= e && Gap(l, l') <= e
    ensures Near(Unroll(a, s, b, c, l), Unroll(a', s', b', c', l'), e)
  {
    UnrolledMoves(Unroll(a, s, b, c, l), a * (1.0 - s), a, s, b, c, l,
                  Unroll(a', s', b', c', l'), a' * (1.0 - s'), a', s', b', c', l', e);
  }

  /** Rounding the conditionals again changes nothing. */
  lemma RoundedAgain(given: map<Given, real>)
    requires AllReadable(given)
    ensures Rounded(Rounded(given)) == Rounded(given)
  {
    ReadTree(given);
    var r := Rounded(given);
    RoundTwice(given[PAvailable]);
    RoundTwice(given[PStartGivenAvailable]);
    RoundTwice(given[PBenchGivenNotStart]);
    RoundTwice(given[PCameoGivenBench]);
    RoundTwice(given[PLateGivenCameo]);
    RoundComplement(given[PCameoGivenBench]);
    RoundComplement(r[PCameoGivenBench]);
  }

  lemma RoundedIsNear(given: map<Given, real>)
    requires AllReadable(given)
    ensures Near(TreeOf(given), TreeOf(Rounded(given)), HALF_UNIT)
  {
    ReadTree(given);
    var r := Rounded(given);
    ReadTree(r);
    RoundMoves(given[PAvailable]);
    RoundMoves(given[PStartGivenAvailable]);
    RoundMoves(given[PBenchGivenNotStart]);
    RoundMoves(given[PCameoGivenBench]);
    RoundMoves(given[PLateGivenCameo]);
    TreeMoves(given[PAvailable], given[PStartGivenAvailable], given[PBenchGivenNotStart], given[PCameoGivenBench],
              given[PLateGivenCameo], r[PAvailable], r[PStartGivenAvailable], r[PBenchGivenNotStart], r[PCameoGivenBench],
              r[PLateGivenCameo], HALF_UNIT);
  }

  /** Four hundredths of the tolerance: no published outcome is further from its recomputation. */
  lemma PublishedIsClose(given: map<Given, real>, o: Outcome)
    requires AllReadable(given)
    ensures Gap(Published(TreeOf(given))[o], Published(TreeOf(Rounded(given)))[o]) <= 8.0 * HALF_UNIT
  {
    RoundedIsNear(given);
    var t, u := TreeOf(given), TreeOf(Rounded(given));
    match o {
      case Available => RoundedMoves(t.available, u.available, HALF_UNIT);
      case Start => RoundedMoves(t.start, u.start, 2.0 * HALF_UNIT);
      case Bench => RoundedMoves(t.bench, u.bench, 3.0 * HALF_UNIT);
      case Cameo => RoundedMoves(t.cameo, u.cameo, 4.0 * HALF_UNIT);
      case LateCameo => RoundedMoves(t.late, u.late, 5.0 * HALF_UNIT);
      case Dnp => RoundedMoves(t.dnp, u.dnp, 6.0 * HALF_UNIT);
    }
  }

  lemma RoundedMoves(x: real, y: real, d: real)
    requires Gap(x, y) <= d
    ensures Gap(Round8(x), Round8(y)) <= d + 2.0 * HALF_UNIT
  {
    RoundMoves(x);
    RoundMoves(y);
  }

  /** The validator accepts every state the builder publishes, and returns the state built from
      its rounded conditionals: the same conditionals, and outcomes within 4e-8. */
  lemma ValidatorAcceptsBuilder(given: map<Given, real>)
    requires AllReadable(given)
    ensures var s := Build(given).value;
            && Validated(AsClaim(s)) == Build(s.conditional)
            && Validated(AsClaim(s)).Ok?
            && Validated(AsClaim(s)).value.conditional == s.conditional
            && forall o :: o in OUTCOMES ==>
                 Gap(Validated(AsClaim(s)).value.unconditional[o], s.unconditional[o]) <= 8.0 * HALF_UNIT
  {
    BuildsIff(given);
    RoundedAgain(given);
    BuildsIff(Rounded(given));
    forall o | o in OUTCOMES
      ensures Compare(Published(TreeOf(given)), Published(TreeOf(Rounded(given))), o) == None
      ensures Gap(Published(TreeOf(given))[o], Published(TreeOf(Rounded(given)))[o]) <= 8.0 * HALF_UNIT
    {
      ComparesEqual(given, o);
    }
  }

  lemma ComparesEqual(given: map<Given, real>, o: Outcome)
    requires AllReadable(given)
    ensures Compare(Published(TreeOf(given)), Published(TreeOf(Rounded(given))), o) == None
    ensures Gap(Published(TreeOf(given))[o], Published(TreeOf(Rounded(given)))[o]) <= 8.0 * HALF_UNIT
  {
    PublishedIsSane(given);
    PublishedIsClose(given, o);
  }

  lemma SettledIsBuilt(given: map<Given, real>)
    requires AllReadable(given)
    ensures Validated(AsClaim(Build(given).value)) == Build(Rounded(given))
    ensures Build(given).Ok? && Build(Rounded(given)).Ok?
  {
    BuildsIff(given);
    RoundedAgain(given);
    BuildsIff(Rounded(given));
    ValidatorAcceptsBuilder(given);
  }

  lemma SettledOnGrid(given: map<Given, real>)
    requires AllReadable(given)
    ensures Rounded(given) == given ==> Validated(AsClaim(Build(given).value)) == Build(given)
  {
    SettledIsBuilt(given);
  }

  ghost predicate OnGrid(given: map<Given, real>) {
    forall g :: g in ASKED && g in given ==> Round8(given[g]) == given[g]
  }

  /** The fixed points of validation: a state is returned unchanged exactly when it is what the builder
      publishes for conditionals of at most eight decimals. */
  lemma FixedPointIff(t: State)
    ensures Validated(AsClaim(t)) == Ok(t) <==> exists g :: AllReadable(g) && OnGrid(g) && Build(g) == Ok(t)
  {
    if Validated(AsClaim(t)) == Ok(t) {
      BuiltIsOnGrid(t.conditional, t);
    }
    if g :| AllReadable(g) && OnGrid(g) && Build(g) == Ok(t) {
      SameFive(g);
      RoundedAgain(g);
      SettledOnGrid(Rounded(g));
    }
  }

  lemma BuiltIsOnGrid(given: map<Given, real>, t: State)
    ensures Build(given) == Ok(t) && t.conditional == given ==> AllReadable(given) && OnGrid(given)
  {
    BuildsIff(given);
    if Build(given) == Ok(t) && t.conditional == given {
      assert Rounded(given) == given;
    }
  }

  /** For any accepted claim: its validated state is settled exactly when its conditionals print the
      same outcomes after rounding as before. */
  lemma ClaimSettlesIff(claim: Claim, t: State)
    ensures Validated(claim) == Ok(t) ==>
              var g := claim.conditional.value;
              AllReadable(g) && (Validated(AsClaim(t)) == Ok(t) <==> Published(TreeOf(Rounded(g))) == Published(TreeOf(g)))
  {
    if Validated(claim) == Ok(t) {
      var g := claim.conditional.value;
      BuildsIff(g);
      RoundedAgain(g);
      BuildsIff(Rounded(g));
      SettledIsBuilt(g);
    }
  }

  /** In particular, an accepted claim whose conditionals have at most eight decimals is settled at once. */
  lemma GridClaimSettles(claim: Claim, t: State)
    ensures Validated(claim) == Ok(t) && OnGrid(claim.conditional.value) ==> Validated(AsClaim(t)) == Ok(t)
  {
    if Validated(claim) == Ok(t) && OnGrid(claim.conditional.value) {
      var given := claim.conditional.value;
      BuildsIff(given);
      SameFive(given);
      RoundedAgain(given);
      SettledOnGrid(Rounded(given));
    }
  }

  lemma SameFive(given: map<Given, real>)
    requires AllReadable(given)
    ensures OnGrid(given) ==> Build(given) == Build(Rounded(given))
  {
    ReadTree(given);
    BuildsIff(given);
    BuildsIff(Rounded(given));
    RoundedAgain(given);
    if OnGrid(given) {
      assert ASKED[0] in ASKED && ASKED[1] in ASKED && ASKED[2] in ASKED && ASKED[3] in ASKED && ASKED[4] in ASKED;
      assert TreeOf(Rounded(given)) == TreeOf(given);
    }
  }

  const FINE := map[PAvailable := 0.5, PStartGivenAvailable := 0.000000014, PBenchGivenNotStart := 0.0,
                    PCameoGivenBench := 0.0, PLateGivenCameo := 0.0]

  /** A claim with more decimals. */
  const FINER := Claim(Some(FINE), Some(Published(TreeOf(FINE))))

  /** It is accepted, and its validated state changes at the next validation: rounding the start
      conditional from 1.4 to 1 units of the eighth decimal turns a published START of one unit
      into none. */
  lemma FinerClaimsDrift()
    ensures Validated(FINER).Ok?
    ensures Validated(AsClaim(Validated(FINER).value)).Ok?
    ensures Validated(AsClaim(Validated(FINER).value)) != Validated(FINER)
  {
    FineTree();
    RoundedFineTree();
    FineRounds();
    OwnOutcomesAccepted(FINE);
    SettledIsBuilt(FINE);
    StartOf(FINE);
    StartOf(Rounded(FINE));
  }

  lemma OwnOutcomesAccepted(given: map<Given, real>)
    requires AllReadable(given)
    ensures Validated(Claim(Some(given), Some(Published(TreeOf(given))))) == Build(given)
  {
    BuildsIff(given);
    PublishedIsSane(given);
  }

  lemma StartOf(given: map<Given, real>)
    requires AllReadable(given)
    ensures Build(given).Ok? && Start in Build(given).value.unconditional
    ensures Build(given).value.unconditional[Start] == Round8(TreeOf(given).start)
  {
    BuildsIff(given);
  }

  lemma FineTree()
    ensures AllReadable(FINE) && TreeOf(FINE).start == 0.000000007
  {
  }

  lemma RoundedFineTree()
    requires AllReadable(FINE)
    ensures TreeOf(Rounded(FINE)).start == 0.000000005
  {
    RoundedAgain(FINE);
    FineRounds();
  }

  lemma FineRounds()
    ensures Round8(0.5) == 0.5 && Round8(0.000000014) == 0.00000001
    ensures Round8(0.000000007) == 0.00000001 && Round8(0.000000005) == 0.0
  {
    RoundWhole(50000000);
    assert NearestEven(0.7) == 1 && NearestEven(1.4) == 1 && NearestEven(0.5) == 0;
  }

  /** Validation settles: the state it returns for a published state is returned unchanged. */
  lemma ValidationSettles(given: map<Given, real>, s: State, t: State)
    ensures Build(given) == Ok(s) && Validated(AsClaim(s)) == Ok(t) ==> Validated(AsClaim(t)) == Ok(t)
  {
    BuildsIff(given);
    if Build(given) == Ok(s) && Validated(AsClaim(s)) == Ok(t) {
      SettledIsBuilt(given);
      RoundedAgain(given);
      SettledOnGrid(Rounded(given));
    }
  }

  /** The named outcome of the claim is a probability within a millionth of the printed value. */
  ghost predicate Matches(claimed: map<Outcome, real>, o: Outcome, value: real) {
    o in claimed && 0.0 <= claimed[o] <= 1.0 && Gap(claimed[o], Round8(value)) <= 0.000001
  }

  /** What acceptance means, for any claim: five probabilities, and each named outcome within a
      millionth of its printed product of those five. */
  lemma AcceptedIff(claim: Claim)
    ensures Validated(claim).Ok? <==>
            && claim.conditional.Some? && claim.unconditional.Some? && AllReadable(claim.conditional.value)
            && forall t :: Laws(claim.conditional.value, t) ==>
                 var u := claim.unconditional.value;
                 && Matches(u, Available, t.available) && Matches(u, Start, t.start) && Matches(u, Bench, t.bench)
                 && Matches(u, Cameo, t.cameo) && Matches(u, LateCameo, t.late) && Matches(u, Dnp, t.dnp)
  {
    AcceptedByTree(claim);
    if claim.conditional.Some? && AllReadable(claim.conditional.value) {
      var given := claim.conditional.value;
      TreeFollowsLaws(given);
      forall t | Laws(given, t) ensures t == TreeOf(given) {
        OneTree(given, t);
      }
      if claim.unconditional.Some? {
        MatchesTree(claim.unconditional.value, TreeOf(given));
      }
    }
  }

  lemma MatchesTree(u: map<Outcome, real>, t: Tree)
    ensures (forall o :: o in OUTCOMES ==> Readable(u, o) && Close(u[o], Published(t)[o])) <==>
            && Matches(u, Available, t.available) && Matches(u, Start, t.start) && Matches(u, Bench, t.bench)
            && Matches(u, Cameo, t.cameo) && Matches(u, LateCameo, t.late) && Matches(u, Dnp, t.dnp)
  {
    assert OUTCOMES[0] in OUTCOMES && OUTCOMES[1] in OUTCOMES && OUTCOMES[2] in OUTCOMES;
    assert OUTCOMES[3] in OUTCOMES && OUTCOMES[4] in OUTCOMES && OUTCOMES[5] in OUTCOMES;
  }

  lemma AcceptedByTree(claim: Claim)
    ensures Validated(claim).Ok? <==>
            && claim.conditional.Some? && claim.unconditional.Some?
            && AllReadable(claim.conditional.value)
            && forall o :: o in OUTCOMES ==>
                 && Readable(claim.unconditional.value, o)
                 && Close(claim.unconditional.value[o], Published(TreeOf(claim.conditional.value))[o])
  {
    if claim.conditional.Some? {
      BuildsIff(claim.conditional.value);
    }
  }

  lemma ThreeClose(x: real, y: real, z: real, x': real, y': real, z': real)
    requires Close(x, x') && Close(y, y') && Close(z, z') && Gap(x' + y' + z', 1.0) <= 3.0 * HALF_UNIT
    ensures Gap(x + y + z, 1.0) <= 0.000003015
  {
  }

  /** An accepted claim's appearance outcomes sum to one within 3.015 millionths. */
  lemma AcceptedSumsToOne(claim: Claim)
    ensures Validated(claim).Ok? ==>
              var u := claim.unconditional.value;
              Start in u && Cameo in u && Dnp in u && Gap(u[Start] + u[Cameo] + u[Dnp], 1.0) <= 0.000003015
  {
    AcceptedByTree(claim);
    if Validated(claim).Ok? {
      var u := claim.unconditional.value;
      assert OUTCOMES[1] in OUTCOMES && OUTCOMES[3] in OUTCOMES && OUTCOMES[5] in OUTCOMES;
      PublishedIsSane(claim.conditional.value);
      var p := Published(TreeOf(claim.conditional.value));
      ThreeClose(u[Start], u[Cameo], u[Dnp], p[Start], p[Cameo], p[Dnp]);
    }
  }
}
