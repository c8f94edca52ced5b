/** The readers that build the indexes, failing closed on conflicting rows. */
module IdentityReaders {
  import opened Wrappers
  import opened BridgeIndex

  // ---------------------------------------------------------------- Official elements

  /** A bootstrap row; a field that is no integer is None. */
  datatype ElementRow = ElementRow(code: Option<int>, id: Option<int>)

  datatype OfficialFault =
    NoElements | DuplicateCodes(codes: set<int>) | ConflictingElements(ids: set<int>) | NoUsablePairs

  predicate UsableElement(row: ElementRow) {
    row.code.Some? && row.code.value > 0 && row.id.Some? && row.id.value > 0
  }

  /** The (code, element) pairs of the usable rows. */
  ghost function Elements(rows: seq<ElementRow>): set<(int, int)> {
    set k | 0 <= k < |rows| && UsableElement(rows[k]) :: (rows[k].code.value, rows[k].id.value)
  }

  lemma ElementsNext(rows: seq<ElementRow>, k: nat)
    requires k < |rows|
    ensures Elements(rows[..k + 1]) ==
            if UsableElement(rows[k]) then Elements(rows[..k]) + {(rows[k].code.value, rows[k].id.value)} else Elements(rows[..k])
    ensures UsableElement(rows[k]) ==>
              Flip(Elements(rows[..k + 1])) == Flip(Elements(rows[..k])) + {(rows[k].id.value, rows[k].code.value)}
  {
    var now := Elements(rows[..k + 1]);
    if UsableElement(rows[k]) {
      var pair := (rows[k].code.value, rows[k].id.value);
      forall p ensures p in now <==> p in Elements(rows[..k]) || p == pair {
        if p in now {
          var i :| 0 <= i < k + 1 && UsableElement(rows[..k + 1][i]) && p == (rows[..k + 1][i].code.value, rows[..k + 1][i].id.value);
          assert i < k ==> rows[..k][i] == rows[..k + 1][i];
        }
        if p in Elements(rows[..k]) {
          var i :| 0 <= i < k && UsableElement(rows[..k][i]) && p == (rows[..k][i].code.value, rows[..k][i].id.value);
          assert rows[..k][i] == rows[..k + 1][i];
        }
        assert rows[..k + 1][k] == rows[k];
      }
      assert now == Elements(rows[..k]) + {pair};
    } else {
      forall p ensures p in now <==> p in Elements(rows[..k]) {
        if p in now {
          var i :| 0 <= i < k + 1 && UsableElement(rows[..k + 1][i]) && p == (rows[..k + 1][i].code.value, rows[..k + 1][i].id.value);
          assert rows[..k][i] == rows[..k + 1][i];
        }
        if p in Elements(rows[..k]) {
          var i :| 0 <= i < k && UsableElement(rows[..k][i]) && p == (rows[..k][i].code.value, rows[..k][i].id.value);
          assert rows[..k][i] == rows[..k + 1][i];
        }
      }
      assert now == Elements(rows[..k]);
    }
  }

  /** Both directions of the relation of the first k rows, indexed. */
  ghost predicate OfficialIndexed(rows: seq<ElementRow>, k: nat, out: map<int, int>, codes: set<int>,
                                  seenElements: map<int, int>, ids: set<int>)
    requires k <= |rows|
  {
    Indexed(out, codes, Elements(rows[..k])) && Indexed(seenElements, ids, Flip(Elements(rows[..k])))
  }

  lemma OfficialStep(rows: seq<ElementRow>, k: nat, out: map<int, int>, codes: set<int>,
                     seenElements: map<int, int>, ids: set<int>)
    requires k < |rows| && OfficialIndexed(rows, k, out, codes, seenElements, ids)
    ensures !UsableElement(rows[k]) ==> OfficialIndexed(rows, k + 1, out, codes, seenElements, ids)
    ensures UsableElement(rows[k]) ==>
              var code, id := rows[k].code.value, rows[k].id.value;
              OfficialIndexed(rows, k + 1, out[code := id], Flag(codes, out, code, id),
                              seenElements[id := code], Flag(ids, seenElements, id, code))
  {
    ElementsNext(rows, k);
    if UsableElement(rows[k]) {
      var code, id := rows[k].code.value, rows[k].id.value;
      OverwriteIndexes(out, codes, Elements(rows[..k]), code, id);
      OverwriteIndexes(seenElements, ids, Flip(Elements(rows[..k])), id, code);
    }
  }

  /** What the bootstrap is refused for: the codes with two elements, else the elements with two codes. */
  ghost function OfficialRefusal(rows: seq<ElementRow>): Option<OfficialFault> {
    if rows == [] then Some(NoElements)
    else if Ambiguous(Elements(rows)) != {} then Some(DuplicateCodes(Ambiguous(Elements(rows))))
    else if Ambiguous(Flip(Elements(rows))) != {} then Some(ConflictingElements(Ambiguous(Flip(Elements(rows)))))
    else if Elements(rows) == {} then Some(NoUsablePairs)
    else None
  }

  /** Codes and elements correspond one to one, and there are some. */
  ghost predicate CleanBootstrap(rows: seq<ElementRow>) {
    Functional(Elements(rows)) && Injective(Elements(rows)) && Elements(rows) != {}
  }

  /** The bootstrap is accepted exactly when it is clean. */
  lemma OfficialAcceptedIff(rows: seq<ElementRow>)
    ensures OfficialRefusal(rows) == None <==> CleanBootstrap(rows)
  {
    UnambiguousIff(Elements(rows));
    UnambiguousIff(Flip(Elements(rows)));
    FlipIff(Elements(rows));
  }

  lemma OfficialVerdict(rows: seq<ElementRow>, out: map<int, int>, codes: set<int>, seenElements: map<int, int>, ids: set<int>)
    requires rows != [] && OfficialIndexed(rows, |rows|, out, codes, seenElements, ids)
    ensures codes != {} ==> OfficialRefusal(rows) == Some(DuplicateCodes(codes))
    ensures codes == {} && ids != {} ==> OfficialRefusal(rows) == Some(ConflictingElements(ids))
    ensures codes == ids == {} && out == map[] ==> OfficialRefusal(rows) == Some(NoUsablePairs)
    ensures codes == ids == {} && out != map[] ==> OfficialRefusal(rows) == None && Indexed(out, {}, Elements(rows))
  {
    assert rows[..|rows|] == rows;
    if out != map[] {
      var code := MapMember(out);
      assert (code, out[code]) in Elements(rows);
    }
  }

  lemma MapMember<K, V>(m: map<K, V>) returns (k: K)
    requires m != map[]
    ensures k in m
  {
    assert m.Keys != {};
    k :| k in m;
  }

  /** The row loop of `_official_code_to_element`. */
  method IndexElements(rows: seq<ElementRow>)
    returns (out: map<int, int>, duplicateCodes: set<int>, seenElements: map<int, int>, duplicateElements: set<int>)
    ensures OfficialIndexed(rows, |rows|, out, duplicateCodes, seenElements, duplicateElements)
  {
    out, duplicateCodes, seenElements, duplicateElements := map[], {}, map[], {};
    for k := 0 to |rows|
      invariant OfficialIndexed(rows, k, out, duplicateCodes, seenElements, duplicateElements)
    {
      OfficialStep(rows, k, out, duplicateCodes, seenElements, duplicateElements);
      if UsableElement(rows[k]) {
        var code, element := rows[k].code.value, rows[k].id.value;
        duplicateCodes := Flag(duplicateCodes, out, code, element);
        duplicateElements := Flag(duplicateElements, seenElements, element, code);
        out := out[code := element];
        seenElements := seenElements[element := code];
      }
    }
  }

  /** `_official_code_to_element`. */
  method OfficialCodeToElement(rows: seq<ElementRow>) returns (r: Result<map<int, int>, OfficialFault>)
    ensures match OfficialRefusal(rows)
            case Some(fault) => r == Err(fault)
            case None => r.Ok? && Indexed(r.value, {}, Elements(rows))
  {
    if |rows| == 0 {
      return Err(NoElements);
    }
    var out, duplicateCodes, seenElements, duplicateElements := IndexElements(rows);
    OfficialVerdict(rows, out, duplicateCodes, seenElements, duplicateElements);
    if duplicateCodes != {} {
      return Err(DuplicateCodes(duplicateCodes));
    }
    if duplicateElements != {} {
      return Err(ConflictingElements(duplicateElements));
    }
    if out == map[] {
      return Err(NoUsablePairs);
    }
    return Ok(out);
  }

  // ---------------------------------------------------------------- observed gaps

  /** A dataset row: its stripped native id, and whether it already has a joinable Official identity. */
  datatype ObservedRow = ObservedRow(native: Option<string>, joined: bool)

  datatype ObservedFault = MissingNativeId | DuplicateNatives(natives: set<string>)

  /** Two rows carry the native id n. */
  ghost predicate Twice(rows: seq<ObservedRow>, n: string) {
    exists i, j :: 0 <= i < j < |rows| && rows[i].native == rows[j].native == Some(n)
  }

  /** The native ids of rows that have no joinable identity yet. */
  ghost function GapsOf(rows: seq<ObservedRow>): set<string> {
    set k | 0 <= k < |rows| && rows[k].native.Some? && !rows[k].joined :: rows[k].native.value
  }

  /** `_observed_unmapped`, after the check of the source id. */
  method ObservedUnmapped(rows: seq<ObservedRow>) returns (r: Result<set<string>, ObservedFault>)
    ensures r.Ok? <==> (forall k :: 0 <= k < |rows| ==> rows[k].native.Some?)
                       && (forall i, j :: 0 <= i < j < |rows| ==> rows[i].native != rows[j].native)
    ensures r.Ok? ==> r.value == GapsOf(rows)
    ensures r == Err(MissingNativeId) <==> exists k :: 0 <= k < |rows| && rows[k].native.None?
    ensures r.Err? && r.error.DuplicateNatives? ==>
              forall n :: n in r.error.natives <==> Twice(rows, n)
  {
    var observed: set<string> := {};
    var duplicate: set<string> := {};
    for k := 0 to |rows|
      invariant forall i :: 0 <= i < k ==> rows[i].native.Some? && rows[i].native.value in observed
      invariant forall n :: n in observed ==> exists i :: 0 <= i < k && rows[i].native == Some(n)
      invariant forall n :: n in duplicate <==> exists i, j :: 0 <= i < j < k && rows[i].native == rows[j].native == Some(n)
    {
      if rows[k].native.None? {
        return Err(MissingNativeId);
      }
      var native := rows[k].native.value;
      if native in observed {
        duplicate := duplicate + {native};
      }
      observed := observed + {native};
    }
    if duplicate != {} {
      return Err(DuplicateNatives(duplicate));
    }
    var gaps: set<string> := {};
    for k := 0 to |rows|
      invariant forall n :: n in gaps <==> exists i :: 0 <= i < k && rows[i].native == Some(n) && !rows[i].joined
    {
      if !rows[k].joined {
        gaps := gaps + {rows[k].native.value};
      }
    }
    return Ok(gaps);
  }

  // ---------------------------------------------------------------- Reep v0 anchors

  datatype PeopleRow = PeopleRow(player: bool, code: Option<int>, transfermarkt: Option<string>)

  datatype AnchorConflict = CodeConflict(code: int) | TransfermarktConflict(id: string)

  predicate UsableAnchor(row: PeopleRow, official: set<int>) {
    row.player && row.code.Some? && row.code.value in official && row.transfermarkt.Some?
  }

  ghost function Anchors(rows: seq<PeopleRow>, official: set<int>): set<(int, string)> {
    set k | 0 <= k < |rows| && UsableAnchor(rows[k], official) :: (rows[k].code.value, rows[k].transfermarkt.value)
  }

  lemma AnchorsNext(rows: seq<PeopleRow>, official: set<int>, k: nat)
    requires k < |rows|
    ensures !UsableAnchor(rows[k], official) ==> Anchors(rows[..k + 1], official) == Anchors(rows[..k], official)
    ensures UsableAnchor(rows[k], official) ==>
              Anchors(rows[..k + 1], official) == Anchors(rows[..k], official) + {(rows[k].code.value, rows[k].transfermarkt.value)}
  {
    var before, now := rows[..k], rows[..k + 1];
    assert now[k] == rows[k] && forall i :: 0 <= i < k ==> now[i] == before[i];
    forall p ensures p in Anchors(now, official) <==>
                     p in Anchors(before, official) || (UsableAnchor(rows[k], official) && p == (rows[k].code.value, rows[k].transfermarkt.value))
    {
      if p in Anchors(before, official) {
        var i :| 0 <= i < k && UsableAnchor(before[i], official) && p == (before[i].code.value, before[i].transfermarkt.value);
        assert now[i] == before[i];
      }
    }
  }

  ghost predicate OneToOne<K(!new), V(!new)>(rel: set<(K, V)>) {
    Functional(rel) && Injective(rel)
  }

  /** out and its reverse hold pairs of rel; with no conflict so far they hold all of them. */
  ghost predicate Anchored(out: map<int, string>, reverse: map<string, int>, clean: bool, rel: set<(int, string)>) {
    && (forall c {:trigger out[c]} :: c in out ==> (c, out[c]) in rel)
    && (forall t {:trigger reverse[t]} :: t in reverse ==> (reverse[t], t) in rel)
    && (clean <==> OneToOne(rel))
    && (clean ==> forall p :: p in rel ==> p.0 in out && out[p.0] == p.1 && p.1 in reverse && reverse[p.1] == p.0)
  }

  lemma AnchorStep(out: map<int, string>, reverse: map<string, int>, clean: bool, rel: set<(int, string)>, code: int, tm: string)
    requires Anchored(out, reverse, clean, rel)
    ensures var more := rel + {(code, tm)};
            if Clashes(out, code, tm) then Anchored(out, reverse, false, more) && code in Ambiguous(more)
            else if Clashes(reverse, tm, code) then Anchored(out, reverse, false, more) && tm in Ambiguous(Flip(more))
            else Anchored(out[code := tm], reverse[tm := code], clean, more)
  {
    var more := rel + {(code, tm)};
    assert (code, tm) in more;
    if Clashes(out, code, tm) {
      assert (code, out[code]) in more && (code, out[code]).1 != (code, tm).1;
    } else if Clashes(reverse, tm, code) {
      assert (reverse[tm], tm) in more && (reverse[tm], tm).0 != (code, tm).0;
      assert (tm, reverse[tm]) in Flip(more) && (tm, code) in Flip(more);
    } else if clean {
      forall p | p in rel && p.0 == code ensures p.1 == tm {
        assert (code, out[code]) in rel && (code, out[code]).0 == p.0;
      }
      forall p | p in rel && p.1 == tm ensures p.0 == code {
        assert (reverse[tm], tm) in rel && (reverse[tm], tm).1 == p.1;
      }
    } else {
      assert rel <= more;
    }
  }

  /** Two rows give this key different values. */
  ghost predicate RealConflict(c: AnchorConflict, rel: set<(int, string)>) {
    match c
    case CodeConflict(code) => code in Ambiguous(rel)
    case TransfermarktConflict(id) => id in Ambiguous(Flip(rel))
  }

  ghost predicate RealConflicts(conflicts: seq<AnchorConflict>, rel: set<(int, string)>) {
    forall c :: c in conflicts ==> RealConflict(c, rel)
  }

  lemma ConflictsStay(conflicts: seq<AnchorConflict>, rel: set<(int, string)>, more: set<(int, string)>)
    requires RealConflicts(conflicts, rel) && rel <= more
    ensures RealConflicts(conflicts, more)
    ensures forall c :: RealConflict(c, more) ==> RealConflicts(conflicts + [c], more)
  {
    AmbiguousMonotone(rel, more);
    AmbiguousMonotone(Flip(rel), Flip(more));
    forall c | c in conflicts ensures RealConflict(c, more) {
      assert RealConflict(c, rel);
    }
  }

  ghost predicate AnchorsRead(rows: seq<PeopleRow>, official: set<int>, k: nat,
                              out: map<int, string>, reverse: map<string, int>, conflicts: seq<AnchorConflict>)
    requires k <= |rows|
  {
    var rel := Anchors(rows[..k], official);
    Anchored(out, reverse, conflicts == [], rel) && RealConflicts(conflicts, rel)
  }

  lemma AnchorsStep(rows: seq<PeopleRow>, official: set<int>, k: nat,
                    out: map<int, string>, reverse: map<string, int>, conflicts: seq<AnchorConflict>)
    requires k < |rows| && AnchorsRead(rows, official, k, out, reverse, conflicts)
    ensures if !UsableAnchor(rows[k], official) then AnchorsRead(rows, official, k + 1, out, reverse, conflicts)
            else
              var code, tm := rows[k].code.value, rows[k].transfermarkt.value;
              if Clashes(out, code, tm) then AnchorsRead(rows, official, k + 1, out, reverse, conflicts + [CodeConflict(code)])
              else if Clashes(reverse, tm, code) then
                AnchorsRead(rows, official, k + 1, out, reverse, conflicts + [TransfermarktConflict(tm)])
              else AnchorsRead(rows, official, k + 1, out[code := tm], reverse[tm := code], conflicts)
  {
    AnchorsNext(rows, official, k);
    if UsableAnchor(rows[k], official) {
      var rel, more := Anchors(rows[..k], official), Anchors(rows[..k + 1], official);
      AnchorStep(out, reverse, conflicts == [], rel, rows[k].code.value, rows[k].transfermarkt.value);
      ConflictsStay(conflicts, rel, more);
      var code, tm := rows[k].code.value, rows[k].transfermarkt.value;
      if Clashes(out, code, tm) {
        assert RealConflict(CodeConflict(code), more);
      } else if Clashes(reverse, tm, code) {
        assert RealConflict(TransfermarktConflict(tm), more);
      }
    }
  }

  /** The row loop of `_v0_official_to_transfermarkt`. */
  method ReadAnchors(rows: seq<PeopleRow>, official: set<int>)
    returns (out: map<int, string>, reverse: map<string, int>, conflicts: seq<AnchorConflict>)
    ensures AnchorsRead(rows, official, |rows|, out, reverse, conflicts)
  {
    out, reverse, conflicts := map[], map[], [];
    for k := 0 to |rows|
      invariant AnchorsRead(rows, official, k, out, reverse, conflicts)
    {
      AnchorsStep(rows, official, k, out, reverse, conflicts);
      if UsableAnchor(rows[k], official) {
        var code, tm := rows[k].code.value, rows[k].transfermarkt.value;
        if Clashes(out, code, tm) {
          conflicts := conflicts + [CodeConflict(code)];
        } else if Clashes(reverse, tm, code) {
          conflicts := conflicts + [TransfermarktConflict(tm)];
        } else {
          out := out[code := tm];
          reverse := reverse[tm := code];
        }
      }
    }
  }

  /** `_v0_official_to_transfermarkt`, after the columns are checked. */
  method OfficialToTransfermarkt(rows: seq<PeopleRow>, official: set<int>) returns (r: Result<map<int, string>, seq<AnchorConflict>>)
    ensures r.Ok? <==> OneToOne(Anchors(rows, official))
    ensures r.Ok? ==> Indexed(r.value, {}, Anchors(rows, official))
    ensures r.Err? ==> r.error != [] && RealConflicts(r.error, Anchors(rows, official))
  {
    var out, reverse, conflicts := ReadAnchors(rows, official);
    assert rows[..|rows|] == rows;
    if conflicts != [] {
      return Err(conflicts);
    }
    return Ok(out);
  }

  // ---------------------------------------------------------------- Reep v1 bridges

  datatype Kind = OptaNumeric | Transfermarkt | Understat

  /** A bridge row: its kind when the provider and namespace are among the three used here. */
  datatype BridgeRow = BridgeRow(kind: Option<Kind>, external: Option<string>, reep: Option<string>)

  datatype Side = OptaPerson | OptaReep | TransfermarktPlayer | UnderstatReep

  datatype Conflict = Conflict(side: Side, id: string)

  predicate UsableBridge(row: BridgeRow, kind: Kind) {
    row.kind == Some(kind) && row.external.Some? && row.reep.Some?
  }

  /** The key and the value of a row: provider id to Reep id, and back for Understat. */
  function PairOf(row: BridgeRow): (string, string)
    requires row.external.Some? && row.reep.Some?
  {
    if row.kind == Some(Understat) then (row.reep.value, row.external.value) else (row.external.value, row.reep.value)
  }

  ghost function Bridge(rows: seq<BridgeRow>, kind: Kind): set<(string, string)> {
    set k | 0 <= k < |rows| && UsableBridge(rows[k], kind) :: PairOf(rows[k])
  }

  lemma BridgeNext(rows: seq<BridgeRow>, kind: Kind, k: nat)
    requires k < |rows|
    ensures !UsableBridge(rows[k], kind) ==> Bridge(rows[..k + 1], kind) == Bridge(rows[..k], kind)
    ensures UsableBridge(rows[k], kind) ==> Bridge(rows[..k + 1], kind) == Bridge(rows[..k], kind) + {PairOf(rows[k])}
  {
    var before, now := rows[..k], rows[..k + 1];
    assert now[k] == rows[k] && forall i :: 0 <= i < k ==> now[i] == before[i];
    forall p ensures p in Bridge(now, kind) <==>
                     p in Bridge(before, kind) || (UsableBridge(rows[k], kind) && p == PairOf(rows[k]))
    {
      if p in Bridge(before, kind) {
        var i :| 0 <= i < k && UsableBridge(before[i], kind) && p == PairOf(before[i]);
        assert now[i] == before[i];
      }
    }
  }

  function Tag(side: Side, ids: set<string>): set<Conflict> {
    set id | id in ids :: Conflict(side, id)
  }

  /** All conflicts of the bridge rows: the keys that rows map to different values, in both
      directions for Opta. It depends on which rows there are, not on their order. */
  ghost function Refusals(rows: seq<BridgeRow>): set<Conflict> {
    Tag(OptaPerson, Ambiguous(Bridge(rows, OptaNumeric))) + Tag(OptaReep, Ambiguous(Flip(Bridge(rows, OptaNumeric))))
    + Tag(TransfermarktPlayer, Ambiguous(Bridge(rows, Transfermarkt))) + Tag(UnderstatReep, Ambiguous(Bridge(rows, Understat)))
  }

  // ---------------------------------------------------------------- what the relations hold

  /** A positive code and a positive element of one row. */
  lemma ElementsAre(rows: seq<ElementRow>, code: int, id: int)
    ensures (code, id) in Elements(rows) <==> code > 0 && id > 0 && ElementRow(Some(code), Some(id)) in rows
  {
    if code > 0 && id > 0 && ElementRow(Some(code), Some(id)) in rows {
      var k :| 0 <= k < |rows| && rows[k] == ElementRow(Some(code), Some(id));
      assert UsableElement(rows[k]);
    }
    if (code, id) in Elements(rows) {
      var k :| 0 <= k < |rows| && UsableElement(rows[k]) && (code, id) == (rows[k].code.value, rows[k].id.value);
      assert rows[k] == ElementRow(Some(code), Some(id));
    }
  }

  /** The native id of a row that is not joined. */
  lemma GapsAre(rows: seq<ObservedRow>, native: string)
    ensures native in GapsOf(rows) <==> ObservedRow(Some(native), false) in rows
  {
    if ObservedRow(Some(native), false) in rows {
      var k :| 0 <= k < |rows| && rows[k] == ObservedRow(Some(native), false);
    }
    if native in GapsOf(rows) {
      var k :| 0 <= k < |rows| && rows[k].native.Some? && !rows[k].joined && rows[k].native.value == native;
      assert rows[k] == ObservedRow(Some(native), false);
    }
  }

  /** An Official code and the Transfermarkt id of one player. */
  lemma AnchorsAre(rows: seq<PeopleRow>, official: set<int>, code: int, id: string)
    ensures (code, id) in Anchors(rows, official) <==> code in official && PeopleRow(true, Some(code), Some(id)) in rows
  {
    if code in official && PeopleRow(true, Some(code), Some(id)) in rows {
      var k :| 0 <= k < |rows| && rows[k] == PeopleRow(true, Some(code), Some(id));
      assert UsableAnchor(rows[k], official);
    }
    if (code, id) in Anchors(rows, official) {
      var k :| 0 <= k < |rows| && UsableAnchor(rows[k], official) && (code, id) == (rows[k].code.value, rows[k].transfermarkt.value);
      assert rows[k] == PeopleRow(true, Some(code), Some(id));
    }
  }

  /** The two ids of a row of this provider; for Understat the Reep id is the key. */
  lemma BridgesAre(rows: seq<BridgeRow>, kind: Kind, external: string, reep: string)
    ensures (if kind == Understat then (reep, external) else (external, reep)) in Bridge(rows, kind) <==>
            BridgeRow(Some(kind), Some(external), Some(reep)) in rows
  {
    var row := BridgeRow(Some(kind), Some(external), Some(reep));
    var pair := if kind == Understat then (reep, external) else (external, reep);
    if row in rows {
      var k :| 0 <= k < |rows| && rows[k] == row;
      assert UsableBridge(rows[k], kind) && PairOf(rows[k]) == pair;
    }
    if pair in Bridge(rows, kind) {
      var k :| 0 <= k < |rows| && UsableBridge(rows[k], kind) && PairOf(rows[k]) == pair;
      assert rows[k] == row;
    }
  }

  datatype Indexes = Indexes(opta: map<string, string>, transfermarkt: map<string, string>, understat: map<string, string>)

  /** One index with the conflicts found for it. */
  datatype BridgeSide = BridgeSide(index: map<string, string>, conflicts: set<string>)

  ghost predicate ReadSide(s: BridgeSide, rel: set<(string, string)>) {
    Indexed(s.index, s.conflicts, rel)
  }

  function Enter(s: BridgeSide, k: string, v: string): BridgeSide {
    BridgeSide(Keep(s.index, k, v), Flag(s.conflicts, s.index, k, v))
  }

  lemma EnterReads(s: BridgeSide, rel: set<(string, string)>, k: string, v: string)
    requires ReadSide(s, rel)
    ensures ReadSide(Enter(s, k, v), rel + {(k, v)})
  {
    KeepIndexes(s.index, s.conflicts, rel, k, v);
  }

  lemma FlipAdds(rel: set<(string, string)>, k: string, v: string)
    ensures Flip(rel + {(k, v)}) == Flip(rel) + {(v, k)}
  {
    forall p ensures p in Flip(rel + {(k, v)}) <==> p in Flip(rel) + {(v, k)} {
      if p in Flip(rel) {
        var q :| q in rel && p == (q.1, q.0);
        assert q in rel + {(k, v)};
      }
      assert (k, v) in rel + {(k, v)};
    }
  }

  /** The row loop of `_read_v1_bridge_indexes`. */
  method ReadBridges(rows: seq<BridgeRow>) returns (opta: BridgeSide, current: BridgeSide, transfermarkt: BridgeSide, understat: BridgeSide)
    ensures ReadSide(opta, Bridge(rows, OptaNumeric)) && ReadSide(current, Flip(Bridge(rows, OptaNumeric)))
    ensures ReadSide(transfermarkt, Bridge(rows, Transfermarkt)) && ReadSide(understat, Bridge(rows, Understat))
  {
    opta, current, transfermarkt, understat := BridgeSide(map[], {}), BridgeSide(map[], {}), BridgeSide(map[], {}), BridgeSide(map[], {});
    for k := 0 to |rows|
      invariant ReadSide(opta, Bridge(rows[..k], OptaNumeric)) && ReadSide(current, Flip(Bridge(rows[..k], OptaNumeric)))
      invariant ReadSide(transfermarkt, Bridge(rows[..k], Transfermarkt)) && ReadSide(understat, Bridge(rows[..k], Understat))
    {
      BridgeNext(rows, OptaNumeric, k);
      BridgeNext(rows, Transfermarkt, k);
      BridgeNext(rows, Understat, k);
      var row := rows[k];
      if row.kind.Some? && row.external.Some? && row.reep.Some? {
        var external, reep := row.external.value, row.reep.value;
        match row.kind.value {
          case OptaNumeric =>
            EnterReads(opta, Bridge(rows[..k], OptaNumeric), external, reep);
            EnterReads(current, Flip(Bridge(rows[..k], OptaNumeric)), reep, external);
            FlipAdds(Bridge(rows[..k], OptaNumeric), external, reep);
            opta, current := Enter(opta, external, reep), Enter(current, reep, external);
          case Transfermarkt =>
            EnterReads(transfermarkt, Bridge(rows[..k], Transfermarkt), external, reep);
            transfermarkt := Enter(transfermarkt, external, reep);
          case Understat =>
            EnterReads(understat, Bridge(rows[..k], Understat), reep, external);
            understat := Enter(understat, reep, external);
        }
      }
    }
    assert rows[..|rows|] == rows;
  }

  /** `_read_v1_bridge_indexes`, after the columns are checked. */
  method ReadBridgeIndexes(rows: seq<BridgeRow>) returns (r: Result<Indexes, set<Conflict>>)
    ensures if Refusals(rows) != {} then r == Err(Refusals(rows))
            else r.Ok? && Indexed(r.value.opta, {}, Bridge(rows, OptaNumeric))
                 && Indexed(r.value.transfermarkt, {}, Bridge(rows, Transfermarkt))
                 && Indexed(r.value.understat, {}, Bridge(rows, Understat))
  {
    var opta, current, transfermarkt, understat := ReadBridges(rows);
    var conflicts := Tag(OptaPerson, opta.conflicts) + Tag(OptaReep, current.conflicts)
                     + Tag(TransfermarktPlayer, transfermarkt.conflicts) + Tag(UnderstatReep, understat.conflicts);
    NoTags(rows);
    if conflicts != {} {
      return Err(conflicts);
    }
    return Ok(Indexes(opta.index, transfermarkt.index, understat.index));
  }

  lemma TagEmpty(side: Side, ids: set<string>)
    ensures Tag(side, ids) == {} <==> ids == {}
  {
    forall id | id in ids ensures Conflict(side, id) in Tag(side, ids) {
    }
  }

  lemma NoTags(rows: seq<BridgeRow>)
    ensures Refusals(rows) == {} <==>
            && Ambiguous(Bridge(rows, OptaNumeric)) == {} && Ambiguous(Flip(Bridge(rows, OptaNumeric))) == {}
            && Ambiguous(Bridge(rows, Transfermarkt)) == {} && Ambiguous(Bridge(rows, Understat)) == {}
  {
    TagEmpty(OptaPerson, Ambiguous(Bridge(rows, OptaNumeric)));
    TagEmpty(OptaReep, Ambiguous(Flip(Bridge(rows, OptaNumeric))));
    TagEmpty(TransfermarktPlayer, Ambiguous(Bridge(rows, Transfermarkt)));
    TagEmpty(UnderstatReep, Ambiguous(Bridge(rows, Understat)));
  }

  /** Opta ids and Reep ids correspond one to one, every Transfermarkt id has one Reep id and every
      Reep id one Understat id. */
  ghost predicate CleanBridges(rows: seq<BridgeRow>) {
    OneToOne(Bridge(rows, OptaNumeric)) && Functional(Bridge(rows, Transfermarkt)) && Functional(Bridge(rows, Understat))
  }

  /** The bridges are accepted exactly when they are clean. */
  lemma BridgesAcceptedIff(rows: seq<BridgeRow>)
    ensures Refusals(rows) == {} <==> CleanBridges(rows)
  {
    NoTags(rows);
    UnambiguousIff(Bridge(rows, OptaNumeric));
    UnambiguousIff(Flip(Bridge(rows, OptaNumeric)));
    FlipIff(Bridge(rows, OptaNumeric));
    UnambiguousIff(Bridge(rows, Transfermarkt));
    UnambiguousIff(Bridge(rows, Understat));
  }

  /** Reordering the rows changes neither the refusals nor the relations. */
  lemma OrderIsIrrelevant(rows: seq<BridgeRow>, shuffled: seq<BridgeRow>)
    requires multiset(rows) == multiset(shuffled)
    ensures forall kind :: Bridge(rows, kind) == Bridge(shuffled, kind)
    ensures Refusals(rows) == Refusals(shuffled)
  {
    forall row ensures row in rows <==> row in shuffled {
      assert row in rows <==> row in multiset(rows);
      assert row in shuffled <==> row in multiset(shuffled);
    }
    forall kind ensures Bridge(rows, kind) == Bridge(shuffled, kind) {
      BridgeWithin(rows, shuffled, kind);
      BridgeWithin(shuffled, rows, kind);
    }
  }

  lemma BridgeWithin(rows: seq<BridgeRow>, others: seq<BridgeRow>, kind: Kind)
    requires forall row :: row in rows ==> row in others
    ensures Bridge(rows, kind) <= Bridge(others, kind)
  {
    forall p | p in Bridge(rows, kind) ensures p in Bridge(others, kind) {
      var k :| 0 <= k < |rows| && UsableBridge(rows[k], kind) && p == PairOf(rows[k]);
      assert rows[k] in rows;
      var j :| 0 <= j < |others| && others[j] == rows[k];
    }
  }
}
