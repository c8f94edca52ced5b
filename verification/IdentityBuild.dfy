/** The whole build, from rows to report. */
module IdentityBuild {
  import opened Wrappers
  import opened BridgeIndex
  import opened Sorting
  import R = IdentityReaders
  import C = IdentityCandidates

  datatype Fault =
    | OfficialFault(official: R.OfficialFault) | ObservedFault(observed: R.ObservedFault)
    | AnchorConflicts(anchors: seq<R.AnchorConflict>) | BridgeConflicts(bridges: set<R.Conflict>)
    | CandidateFault(candidate: C.Fault)

  /** The rows of the four inputs. */
  datatype Inputs = Inputs(bootstrap: seq<R.ElementRow>, observed: seq<R.ObservedRow>, people: seq<R.PeopleRow>,
                           bridges: seq<R.BridgeRow>)

  ghost predicate CleanObserved(rows: seq<R.ObservedRow>) {
    && (forall k :: 0 <= k < |rows| ==> rows[k].native.Some?)
    && (forall j, k :: 0 <= j < k < |rows| ==> rows[j].native != rows[k].native)
  }

  /** Every relation is as functional as it has to be, and no native id is missing or repeated. */
  ghost predicate Clean(i: Inputs) {
    && R.CleanBootstrap(i.bootstrap) && CleanObserved(i.observed) && R.OneToOne(R.Anchors(i.people, OfficialCodes(i)))
    && R.CleanBridges(i.bridges)
  }

  /** The fault is of the first input, in reading order, that is not clean. */
  ghost predicate FirstUnclean(i: Inputs, fault: Fault) {
    match fault
    case OfficialFault(_) => !R.CleanBootstrap(i.bootstrap)
    case ObservedFault(_) => R.CleanBootstrap(i.bootstrap) && !CleanObserved(i.observed)
    case AnchorConflicts(_) =>
      R.CleanBootstrap(i.bootstrap) && CleanObserved(i.observed) && !R.OneToOne(R.Anchors(i.people, OfficialCodes(i)))
    case BridgeConflicts(_) =>
      && R.CleanBootstrap(i.bootstrap) && CleanObserved(i.observed) && R.OneToOne(R.Anchors(i.people, OfficialCodes(i)))
      && !R.CleanBridges(i.bridges)
    case CandidateFault(_) => false
  }

  ghost function OfficialCodes(i: Inputs): set<int> {
    set p | p in R.Elements(i.bootstrap) :: p.0
  }

  /** The indexes hold exactly the relations of the rows. */
  ghost predicate ReadFrom(s: C.Sources, i: Inputs) {
    && Indexed(s.elements, {}, R.Elements(i.bootstrap)) && s.gaps == R.GapsOf(i.observed)
    && Indexed(s.anchors, {}, R.Anchors(i.people, OfficialCodes(i))) && Indexed(s.opta, {}, R.Bridge(i.bridges, R.OptaNumeric))
    && Indexed(s.transfermarkt, {}, R.Bridge(i.bridges, R.Transfermarkt))
    && Indexed(s.understat, {}, R.Bridge(i.bridges, R.Understat))
  }

  /** What the build returns once the indexes are read. */
  ghost predicate Follows(r: Result<C.Report, Fault>, s: C.Sources)
    requires C.Coherent(s)
  {
    match C.AllCandidates(s)
    case Err(fault) => r == Err(CandidateFault(fault))
    case Ok(cs) =>
      && r.Ok? && r.value.candidates == Sort(cs, C.ByElement) && r.value.direct + r.value.fallback == |cs|
      && r.value.direct == |C.DirectCodes(s)| && r.value.unanchored == |C.Stranded(s)|
      && r.value.unresolved == C.Unresolved(s)
  }

  method ReadBootstrap(i: Inputs) returns (r: Result<map<int, int>, Fault>)
    ensures r.Ok? <==> R.CleanBootstrap(i.bootstrap)
    ensures r.Ok? ==> Indexed(r.value, {}, R.Elements(i.bootstrap)) && r.value.Keys == OfficialCodes(i)
    ensures r.Err? ==> r.error.OfficialFault?
  {
    R.OfficialAcceptedIff(i.bootstrap);
    var elements := R.OfficialCodeToElement(i.bootstrap);
    if elements.Err? {
      return Err(OfficialFault(elements.error));
    }
    return Ok(elements.value);
  }

  method ReadBridges(rows: seq<R.BridgeRow>) returns (r: Result<R.Indexes, Fault>)
    ensures r.Ok? <==> R.CleanBridges(rows)
    ensures r.Ok? ==> Indexed(r.value.opta, {}, R.Bridge(rows, R.OptaNumeric))
                      && Indexed(r.value.transfermarkt, {}, R.Bridge(rows, R.Transfermarkt))
                      && Indexed(r.value.understat, {}, R.Bridge(rows, R.Understat))
    ensures r.Err? ==> r.error.BridgeConflicts?
  {
    R.BridgesAcceptedIff(rows);
    var indexes := R.ReadBridgeIndexes(rows);
    if indexes.Err? {
      return Err(BridgeConflicts(indexes.error));
    }
    return Ok(indexes.value);
  }

  method ReadObserved(rows: seq<R.ObservedRow>) returns (r: Result<set<string>, Fault>)
    ensures r.Ok? <==> CleanObserved(rows)
    ensures r.Ok? ==> r.value == R.GapsOf(rows)
    ensures r.Err? ==> r.error.ObservedFault?
  {
    var gaps := R.ObservedUnmapped(rows);
    r := if gaps.Ok? then Ok(gaps.value) else Err(ObservedFault(gaps.error));
  }

  method ReadPeople(rows: seq<R.PeopleRow>, official: set<int>) returns (r: Result<map<int, string>, Fault>)
    ensures r.Ok? <==> R.OneToOne(R.Anchors(rows, official))
    ensures r.Ok? ==> Indexed(r.value, {}, R.Anchors(rows, official))
    ensures r.Err? ==> r.error.AnchorConflicts?
  {
    var anchors := R.OfficialToTransfermarkt(rows, official);
    r := if anchors.Ok? then Ok(anchors.value) else Err(AnchorConflicts(anchors.error));
  }

  /** The four readers, in order. */
  method ReadInputs(i: Inputs) returns (r: Result<C.Sources, Fault>)
    ensures r.Ok? <==> Clean(i)
    ensures r.Ok? ==> ReadFrom(r.value, i)
    ensures r.Err? ==> FirstUnclean(i, r.error)
  {
    var elements := ReadBootstrap(i);
    if elements.Err? {
      return Err(elements.error);
    }
    var gaps := ReadObserved(i.observed);
    if gaps.Err? {
      return Err(gaps.error);
    }
    var anchors := ReadPeople(i.people, elements.value.Keys);
    if anchors.Err? {
      return Err(anchors.error);
    }
    var indexes := ReadBridges(i.bridges);
    if indexes.Err? {
      return Err(indexes.error);
    }
    return Ok(C.Sources(elements.value, gaps.value, anchors.value, indexes.value.opta, indexes.value.transfermarkt,
                        indexes.value.understat));
  }

  /** `build_understat_candidates`. */
  method BuildUnderstatCandidates(i: Inputs) returns (r: Result<C.Report, Fault>, ghost s: C.Sources)
    ensures !Clean(i) ==> r.Err? && FirstUnclean(i, r.error)
    ensures Clean(i) ==> ReadFrom(s, i) && C.Coherent(s) && Follows(r, s)
  {
    var read := ReadInputs(i);
    if read.Err? {
      s := C.Sources(map[], {}, map[], map[], map[], map[]);
      r := Err(read.error);
      return;
    }
    s := read.value;
    var report := C.BuildCandidates(read.value);
    r := if report.Ok? then Ok(report.value) else Err(CandidateFault(report.error));
    if report.Ok? {
      C.CountsMean(s);
      SortPermutes(C.AllCandidates(s).value, C.ByElement);
    }
  }

  // ---------------------------------------------------------------- order of the rows

  ghost predicate Shuffled(i: Inputs, j: Inputs) {
    && multiset(i.bootstrap) == multiset(j.bootstrap) && multiset(i.observed) == multiset(j.observed)
    && multiset(i.people) == multiset(j.people) && multiset(i.bridges) == multiset(j.bridges)
  }

  lemma SameMembers<T>(xs: seq<T>, ys: seq<T>)
    requires multiset(xs) == multiset(ys)
    ensures forall x :: x in xs <==> x in ys
  {
    forall x ensures x in xs <==> x in ys {
      assert x in xs <==> x in multiset(xs);
      assert x in ys <==> x in multiset(ys);
    }
  }

  lemma SameElements(xs: seq<R.ElementRow>, ys: seq<R.ElementRow>)
    requires forall x :: x in xs ==> x in ys
    ensures R.Elements(xs) <= R.Elements(ys)
  {
    forall p | p in R.Elements(xs) ensures p in R.Elements(ys) {
      var k :| 0 <= k < |xs| && R.UsableElement(xs[k]) && p == (xs[k].code.value, xs[k].id.value);
      assert xs[k] in xs;
      var j :| 0 <= j < |ys| && ys[j] == xs[k];
    }
  }

  lemma SameGaps(xs: seq<R.ObservedRow>, ys: seq<R.ObservedRow>)
    requires forall x :: x in xs ==> x in ys
    ensures R.GapsOf(xs) <= R.GapsOf(ys)
  {
    forall n | n in R.GapsOf(xs) ensures n in R.GapsOf(ys) {
      var k :| 0 <= k < |xs| && xs[k].native.Some? && !xs[k].joined && xs[k].native.value == n;
      assert xs[k] in xs;
      var j :| 0 <= j < |ys| && ys[j] == xs[k];
    }
  }

  lemma SameAnchors(xs: seq<R.PeopleRow>, ys: seq<R.PeopleRow>, official: set<int>)
    requires forall x :: x in xs ==> x in ys
    ensures R.Anchors(xs, official) <= R.Anchors(ys, official)
  {
    forall p | p in R.Anchors(xs, official) ensures p in R.Anchors(ys, official) {
      var k :| 0 <= k < |xs| && R.UsableAnchor(xs[k], official) && p == (xs[k].code.value, xs[k].transfermarkt.value);
      assert xs[k] in xs;
      var j :| 0 <= j < |ys| && ys[j] == xs[k];
    }
  }

  lemma SameRelations(i: Inputs, j: Inputs)
    requires Shuffled(i, j)
    ensures R.Elements(i.bootstrap) == R.Elements(j.bootstrap) && R.GapsOf(i.observed) == R.GapsOf(j.observed)
    ensures OfficialCodes(i) == OfficialCodes(j)
    ensures R.Anchors(i.people, OfficialCodes(i)) == R.Anchors(j.people, OfficialCodes(j))
    ensures forall kind :: R.Bridge(i.bridges, kind) == R.Bridge(j.bridges, kind)
  {
    SameMembers(i.bootstrap, j.bootstrap);
    SameMembers(i.observed, j.observed);
    SameMembers(i.people, j.people);
    SameElements(i.bootstrap, j.bootstrap);
    SameElements(j.bootstrap, i.bootstrap);
    SameGaps(i.observed, j.observed);
    SameGaps(j.observed, i.observed);
    assert OfficialCodes(i) == OfficialCodes(j);
    SameAnchors(i.people, j.people, OfficialCodes(i));
    SameAnchors(j.people, i.people, OfficialCodes(i));
    R.OrderIsIrrelevant(i.bridges, j.bridges);
  }

  /** The order of the rows of any input decides neither whether they are accepted */
  lemma CleanEitherWay(i: Inputs, j: Inputs)
    requires Shuffled(i, j) && Clean(i)
    ensures Clean(j)
  {
    SameRelations(i, j);
    SameMembers(i.observed, j.observed);
    assert forall k :: 0 <= k < |j.observed| ==> j.observed[k] in j.observed;
    NativesStayDistinct(i.observed, j.observed);
  }

  lemma NativesStayDistinct(xs: seq<R.ObservedRow>, ys: seq<R.ObservedRow>)
    requires multiset(xs) == multiset(ys) && CleanObserved(xs)
    ensures forall j, k :: 0 <= j < k < |ys| ==> ys[j].native != ys[k].native
  {
    SameMembers(xs, ys);
    PermutedDistinct(xs, ys);
    forall j, k | 0 <= j < k < |ys| ensures ys[j].native != ys[k].native {
      assert ys[j] in ys && ys[k] in ys && ys[j] != ys[k];
      var a :| 0 <= a < |xs| && xs[a] == ys[j];
      var b :| 0 <= b < |xs| && xs[b] == ys[k];
      assert xs[a].native != xs[b].native;
    }
  }

  /** nor what is read from them: the indexes are the same, so the same candidates follow. */
  lemma OrderIndependent(i: Inputs, j: Inputs, s: C.Sources, t: C.Sources)
    requires Shuffled(i, j) && ReadFrom(s, i) && ReadFrom(t, j)
    ensures s == t
  {
    SameRelations(i, j);
    OneIndex(s.elements, t.elements, R.Elements(i.bootstrap));
    OneIndex(s.anchors, t.anchors, R.Anchors(i.people, OfficialCodes(i)));
    OneIndex(s.opta, t.opta, R.Bridge(i.bridges, R.OptaNumeric));
    OneIndex(s.transfermarkt, t.transfermarkt, R.Bridge(i.bridges, R.Transfermarkt));
    OneIndex(s.understat, t.understat, R.Bridge(i.bridges, R.Understat));
  }
}
