/** The candidates built from the indexes: first over the direct bridge, then over the fallback. */
module IdentityCandidates {
  import opened Wrappers
  import opened Counting
  import opened SortedSets
  import opened Sorting

  /** The indexes and the observed gaps. */
  datatype Sources = Sources(elements: map<int, int>, gaps: set<string>, anchors: map<int, string>,
                             opta: map<string, string>, transfermarkt: map<string, string>, understat: map<string, string>)

  datatype Candidate = Candidate(native: string, code: int, element: int, direct: bool, reep: string)

  datatype Fault = NativeTwice(native: string) | ElementTwice(element: int)

  /** What the readers guarantee: codes are positive and name distinct elements, and anchored codes are Official. */
  ghost predicate Coherent(s: Sources) {
    && (forall c :: c in s.elements ==> c > 0)
    && (forall c, d :: c in s.elements && d in s.elements && s.elements[c] == s.elements[d] ==> c == d)
    && s.anchors.Keys <= s.elements.Keys
  }

  function Decimal(n: nat): string {
    if n < 10 then [('0' as int + n) as char] else Decimal(n / 10) + [('0' as int + n % 10) as char]
  }

  /** The candidate of a code through a Reep id, if that id has a native id among the gaps. */
  function Through(s: Sources, code: int, direct: bool, reep: string): Option<Candidate>
    requires code in s.elements
  {
    if reep in s.understat && s.understat[reep] in s.gaps then
      Some(Candidate(s.understat[reep], code, s.elements[code], direct, reep))
    else None
  }

  /** Code to Opta person number to Reep id to native id. */
  function DirectOf(s: Sources, code: int): Option<Candidate>
    requires code in s.elements && code > 0
  {
    if Decimal(code) in s.opta then Through(s, code, true, s.opta[Decimal(code)]) else None
  }

  /** Code to frozen Transfermarkt key to Reep id to native id. */
  function FallbackOf(s: Sources, code: int): Option<Candidate>
    requires code in s.elements && code in s.anchors
  {
    if s.anchors[code] in s.transfermarkt then Through(s, code, false, s.transfermarkt[s.anchors[code]]) else None
  }

  function Natives(cs: seq<Candidate>): set<string> {
    set k | 0 <= k < |cs| :: cs[k].native
  }

  function ElementsOf(cs: seq<Candidate>): set<int> {
    set k | 0 <= k < |cs| :: cs[k].element
  }

  predicate Official(s: Sources, codes: seq<int>) {
    forall k :: 0 <= k < |codes| ==> codes[k] in s.elements && codes[k] > 0
  }

  predicate Anchored(s: Sources, codes: seq<int>) {
    forall k :: 0 <= k < |codes| ==> codes[k] in s.elements && codes[k] in s.anchors
  }

  /** The first pass over the codes, in order. */
  function DirectPass(s: Sources, codes: seq<int>): Result<seq<Candidate>, Fault>
    requires Official(s, codes)
  {
    if codes == [] then Ok([])
    else
      var n := |codes| - 1;
      var front := DirectPass(s, codes[..n]);
      var found := DirectOf(s, codes[n]);
      if front.Err? || found.None? then front
      else if found.value.native in Natives(front.value) then Err(NativeTwice(found.value.native))
      else if found.value.element in ElementsOf(front.value) then Err(ElementTwice(found.value.element))
      else Ok(front.value + [found.value])
  }

  /** The second pass over the anchored codes, in order: what it adds to the candidates of the first. */
  function FallbackPass(s: Sources, first: seq<Candidate>, codes: seq<int>): seq<Candidate>
    requires Anchored(s, codes)
  {
    if codes == [] then []
    else
      var n := |codes| - 1;
      var front := FallbackPass(s, first, codes[..n]);
      var found := FallbackOf(s, codes[n]);
      if found.None? || found.value.element in ElementsOf(first + front) || found.value.native in Natives(first + front) then front
      else front + [found.value]
  }

  /** Anchored codes whose element is free when they are reached and whose Transfermarkt key the bridges lack. */
  function Unanchored(s: Sources, first: seq<Candidate>, codes: seq<int>): nat
    requires Anchored(s, codes)
  {
    if codes == [] then 0
    else
      var n := |codes| - 1;
      var taken := ElementsOf(first + FallbackPass(s, first, codes[..n]));
      Unanchored(s, first, codes[..n])
      + if s.elements[codes[n]] !in taken && s.anchors[codes[n]] !in s.transfermarkt then 1 else 0
  }

  predicate ByElement(a: Candidate, b: Candidate) {
    a.element <= b.element
  }

  // ---------------------------------------------------------------- native ids as numbers

  predicate IsDigits(n: string) {
    n != "" && forall k :: 0 <= k < |n| ==> '0' <= n[k] <= '9'
  }

  /** `str(int(n))` for a string of digits: leading zeros go, one digit stays. */
  function StripZeros(n: string): string {
    if |n| > 1 && n[0] == '0' then StripZeros(n[1..]) else n
  }

  /** How a candidate's native id reads back from its record. */
  function Recorded(n: string): string {
    if IsDigits(n) then StripZeros(n) else n
  }

  predicate Canonical(n: string) {
    IsDigits(n) && |n| > 1 ==> n[0] != '0'
  }

  function RecordedNatives(cs: seq<Candidate>): set<string> {
    set k | 0 <= k < |cs| :: Recorded(cs[k].native)
  }

  datatype Report = Report(candidates: seq<Candidate>, direct: nat, fallback: nat, unresolved: set<string>, unanchored: nat)

  // ---------------------------------------------------------------- the two loops

  lemma DirectPassStops(s: Sources, codes: seq<int>, k: nat)
    requires Official(s, codes) && k <= |codes|
    ensures DirectPass(s, codes[..k]).Err? ==> DirectPass(s, codes) == DirectPass(s, codes[..k])
    decreases |codes|
  {
    if k == |codes| {
      assert codes[..k] == codes;
    } else {
      var n := |codes| - 1;
      assert codes[..n][..k] == codes[..k];
      DirectPassStops(s, codes[..n], k);
    }
  }

  lemma TakenNext(cs: seq<Candidate>, c: Candidate)
    ensures Natives(cs + [c]) == Natives(cs) + {c.native}
    ensures ElementsOf(cs + [c]) == ElementsOf(cs) + {c.element}
  {
    assert (cs + [c])[|cs|] == c;
    forall k | 0 <= k < |cs| ensures (cs + [c])[k] == cs[k] {
    }
    forall n ensures n in Natives(cs + [c]) <==> n in Natives(cs) || n == c.native {
      if n in Natives(cs) {
        var k :| 0 <= k < |cs| && cs[k].native == n;
        assert (cs + [c])[k].native == n;
      }
    }
    forall e ensures e in ElementsOf(cs + [c]) <==> e in ElementsOf(cs) || e == c.element {
      if e in ElementsOf(cs) {
        var k :| 0 <= k < |cs| && cs[k].element == e;
        assert (cs + [c])[k].element == e;
      }
    }
  }

  /** The direct loop of `build_understat_candidates`. */
  method FindDirect(s: Sources, codes: seq<int>) returns (r: Result<seq<Candidate>, Fault>)
    requires Official(s, codes)
    ensures r == DirectPass(s, codes)
  {
    var candidates: seq<Candidate> := [];
    var seenNative: set<string> := {};
    var seenElement: set<int> := {};
    for k := 0 to |codes|
      invariant DirectPass(s, codes[..k]) == Ok(candidates)
      invariant seenNative == Natives(candidates) && seenElement == ElementsOf(candidates)
    {
      assert codes[..k + 1][..k] == codes[..k];
      DirectPassStops(s, codes, k + 1);
      var found := DirectOf(s, codes[k]);
      if found.Some? {
        var c := found.value;
        if c.native in seenNative {
          return Err(NativeTwice(c.native));
        }
        if c.element in seenElement {
          return Err(ElementTwice(c.element));
        }
        TakenNext(candidates, c);
        seenNative := seenNative + {c.native};
        seenElement := seenElement + {c.element};
        candidates := candidates + [c];
      }
    }
    assert codes[..|codes|] == codes;
    return Ok(candidates);
  }

  /** The fallback loop of `build_understat_candidates`. */
  method FindFallback(s: Sources, first: seq<Candidate>, codes: seq<int>) returns (added: seq<Candidate>, unanchored: nat)
    requires Anchored(s, codes)
    ensures added == FallbackPass(s, first, codes) && unanchored == Unanchored(s, first, codes)
  {
    added, unanchored := [], 0;
    assert first + [] == first;
    var seenNative := Natives(first);
    var seenElement := ElementsOf(first);
    for k := 0 to |codes|
      invariant added == FallbackPass(s, first, codes[..k]) && unanchored == Unanchored(s, first, codes[..k])
      invariant seenNative == Natives(first + added) && seenElement == ElementsOf(first + added)
    {
      assert codes[..k + 1][..k] == codes[..k];
      var code := codes[k];
      if s.elements[code] !in seenElement {
        if s.anchors[code] !in s.transfermarkt {
          unanchored := unanchored + 1;
        } else {
          var reep := s.transfermarkt[s.anchors[code]];
          if reep in s.understat && s.understat[reep] in s.gaps && s.understat[reep] !in seenNative {
            var c := Candidate(s.understat[reep], code, s.elements[code], false, reep);
            TakenNext(first + added, c);
            assert first + (added + [c]) == (first + added) + [c];
            seenNative := seenNative + {c.native};
            seenElement := seenElement + {c.element};
            added := added + [c];
          }
        }
      }
    }
    assert codes[..|codes|] == codes;
  }

  function Codes(m: map<int, int>): seq<int> {
    Ascending(m.Keys)
  }

  function AnchoredCodes(m: map<int, string>): seq<int> {
    Ascending(m.Keys)
  }

  /** `build_understat_candidates`, from the indexes on. */
  method BuildCandidates(s: Sources) returns (r: Result<Report, Fault>)
    requires Coherent(s)
    ensures var first := DirectPass(s, Codes(s.elements));
            match first
            case Err(fault) => r == Err(fault)
            case Ok(direct) =>
              var added := FallbackPass(s, direct, AnchoredCodes(s.anchors));
              var candidates := Sort(direct + added, ByElement);
              r == Ok(Report(candidates, |direct|, |added|, Unresolved(s),
                             Unanchored(s, direct, AnchoredCodes(s.anchors))))
  {
    var first := FindDirect(s, Codes(s.elements));
    if first.Err? {
      return Err(first.error);
    }
    var added, unanchored := FindFallback(s, first.value, AnchoredCodes(s.anchors));
    var candidates := Sort(first.value + added, ByElement);
    return Ok(Report(candidates, |first.value|, |added|, s.gaps - RecordedNatives(candidates), unanchored));
  }

  // ---------------------------------------------------------------- what the candidates are

  /** No native id and no element is proposed twice. */
  ghost predicate OnePerSide(cs: seq<Candidate>) {
    forall i, j :: 0 <= i < j < |cs| ==> cs[i].native != cs[j].native && cs[i].element != cs[j].element
  }

  /** A code's direct candidate has the same native id as an earlier code's. */
  ghost predicate NativesClash(s: Sources, c: int, d: int)
    requires c in s.elements && d in s.elements && c > 0 && d > 0
  {
    c != d && DirectOf(s, c).Some? && DirectOf(s, d).Some? && DirectOf(s, c).value.native == DirectOf(s, d).value.native
  }

  /** Every candidate of the first pass is the direct candidate of its code, and no direct candidate is missing. */
  ghost predicate AllDirect(s: Sources, codes: seq<int>, cs: seq<Candidate>)
    requires Official(s, codes)
  {
    && (forall x :: x in cs ==> x.code in codes && DirectOf(s, x.code) == Some(x))
    && (forall c :: c in codes && DirectOf(s, c).Some? ==> DirectOf(s, c).value in cs)
  }

  ghost predicate SomeClash(s: Sources, codes: seq<int>)
    requires Official(s, codes)
  {
    exists c, d :: c in codes && d in codes && NativesClash(s, c, d)
  }

  /** Two of the codes lead over the direct bridge to this native id. */
  ghost predicate ClashOn(s: Sources, codes: seq<int>, native: string)
    requires Official(s, codes)
  {
    exists c, d :: c in codes && d in codes && NativesClash(s, c, d) && DirectOf(s, c).value.native == native
  }

  ghost predicate DirectVerdict(s: Sources, codes: seq<int>, r: Result<seq<Candidate>, Fault>)
    requires Official(s, codes)
  {
    match r
    case Ok(cs) => OnePerSide(cs) && AllDirect(s, codes, cs) && !SomeClash(s, codes)
    case Err(fault) => fault.NativeTwice? && ClashOn(s, codes, fault.native)
  }

  lemma {:induction false} DirectPassIsSound(s: Sources, codes: seq<int>)
    requires Coherent(s) && Distinct(codes) && Official(s, codes)
    ensures DirectVerdict(s, codes, DirectPass(s, codes))
  {
    if codes == [] {
    } else {
      var n := |codes| - 1;
      DirectPassIsSound(s, codes[..n]);
      assert codes == codes[..n] + [codes[n]];
      LastDirect(s, codes[..n], codes[n], DirectPass(s, codes[..n]));
    }
  }

  /** The verdict on one more code. */
  lemma LastDirect(s: Sources, front: seq<int>, last: int, before: Result<seq<Candidate>, Fault>)
    requires Coherent(s) && Official(s, front + [last]) && Official(s, front) && last in s.elements && last > 0 && last !in front
    requires DirectVerdict(s, front, before)
    ensures DirectVerdict(s, front + [last],
                          var found := DirectOf(s, last);
                          if before.Err? || found.None? then before
                          else if found.value.native in Natives(before.value) then Err(NativeTwice(found.value.native))
                          else if found.value.element in ElementsOf(before.value) then Err(ElementTwice(found.value.element))
                          else Ok(before.value + [found.value]))
  {
    var codes := front + [last];
    assert codes[|front|] == last;
    forall c ensures c in codes <==> c in front || c == last {
    }
    if SomeClash(s, front) {
      var c, d :| c in front && d in front && NativesClash(s, c, d);
      assert c in codes && d in codes;
    }
  }

  /** The build fails exactly when two Official codes lead over the direct bridge to the same gap;
      two candidates for one element cannot arise. */
  lemma BuildFailsIff(s: Sources)
    requires Coherent(s)
    ensures var r := DirectPass(s, Codes(s.elements));
            && (r.Err? <==> exists c, d :: c in s.elements && d in s.elements && NativesClash(s, c, d))
            && (r.Err? ==> r.error.NativeTwice? && ClashOn(s, Codes(s.elements), r.error.native))
  {
    DirectPassIsSound(s, Codes(s.elements));
    assert SomeClash(s, Codes(s.elements)) <==> exists c, d :: c in s.elements && d in s.elements && NativesClash(s, c, d);
  }

  /** A fallback candidate cannot be added to cs: its element or its native id is taken. */
  predicate Blocked(x: Candidate, cs: seq<Candidate>) {
    x.element in ElementsOf(cs) || x.native in Natives(cs)
  }

  lemma BlockedStays(x: Candidate, cs: seq<Candidate>, y: Candidate)
    requires Blocked(x, cs)
    ensures Blocked(x, cs + [y])
  {
    TakenNext(cs, y);
  }

  lemma OneMore(cs: seq<Candidate>, y: Candidate)
    requires OnePerSide(cs) && !Blocked(y, cs)
    ensures OnePerSide(cs + [y]) && Blocked(y, cs + [y])
  {
    TakenNext(cs, y);
  }

  ghost predicate AllBlocked(s: Sources, codes: seq<int>, cs: seq<Candidate>)
    requires Anchored(s, codes)
  {
    forall c :: c in codes && FallbackOf(s, c).Some? ==> Blocked(FallbackOf(s, c).value, cs)
  }

  ghost predicate FromFallback(s: Sources, codes: seq<int>, added: seq<Candidate>)
    requires Anchored(s, codes)
  {
    forall x :: x in added ==> x.code in codes && FallbackOf(s, x.code) == Some(x)
  }

  /** The second pass keeps native ids and elements unique, adds only fallback candidates, and
      leaves none that could still be added. */
  lemma {:induction false} FallbackPassIsSound(s: Sources, first: seq<Candidate>, codes: seq<int>)
    requires Anchored(s, codes) && OnePerSide(first)
    ensures var added := FallbackPass(s, first, codes);
            OnePerSide(first + added) && FromFallback(s, codes, added) && AllBlocked(s, codes, first + added)
  {
    if codes == [] {
      assert first + [] == first;
    } else {
      var n := |codes| - 1;
      FallbackPassIsSound(s, first, codes[..n]);
      var added, found := FallbackPass(s, first, codes[..n]), FallbackOf(s, codes[n]);
      if found.Some? && !Blocked(found.value, first + added) {
        assert first + (added + [found.value]) == (first + added) + [found.value];
        OneMore(first + added, found.value);
        forall c | c in codes[..n] && FallbackOf(s, c).Some?
          ensures Blocked(FallbackOf(s, c).value, first + (added + [found.value]))
        {
          BlockedStays(FallbackOf(s, c).value, first + added, found.value);
        }
      }
      assert forall c :: c in codes <==> c in codes[..n] || c == codes[n];
    }
  }

  /** A candidate follows bridge entries from its Official code to its native id. */
  ghost predicate RealPath(s: Sources, x: Candidate) {
    && x.code in s.elements && s.elements[x.code] == x.element
    && x.reep in s.understat && s.understat[x.reep] == x.native && x.native in s.gaps
    && (x.direct ==> x.code > 0 && Decimal(x.code) in s.opta && s.opta[Decimal(x.code)] == x.reep)
    && (!x.direct ==> x.code in s.anchors && s.anchors[x.code] in s.transfermarkt
                      && s.transfermarkt[s.anchors[x.code]] == x.reep)
  }

  /** Either side of a bridge path that was not proposed is taken by a candidate. */
  ghost predicate NothingLeft(s: Sources, cs: seq<Candidate>) {
    forall x :: RealPath(s, x) ==> Blocked(x, cs)
  }

  /** The candidates, before they are sorted. */
  function AllCandidates(s: Sources): Result<seq<Candidate>, Fault>
    requires Coherent(s)
  {
    var first := DirectPass(s, Codes(s.elements));
    if first.Err? then first else Ok(first.value + FallbackPass(s, first.value, AnchoredCodes(s.anchors)))
  }

  lemma SoundTogether(s: Sources, first: seq<Candidate>, added: seq<Candidate>)
    requires Coherent(s)
    requires AllDirect(s, Codes(s.elements), first) && FromFallback(s, AnchoredCodes(s.anchors), added)
    requires AllBlocked(s, AnchoredCodes(s.anchors), first + added)
    ensures (forall x :: x in first + added ==> RealPath(s, x)) && NothingLeft(s, first + added)
  {
    forall x | x in first + added ensures RealPath(s, x) {
      if x in first {
        assert DirectOf(s, x.code) == Some(x);
      } else {
        assert FallbackOf(s, x.code) == Some(x);
      }
    }
    forall x | RealPath(s, x) ensures Blocked(x, first + added) {
      PathIsBlocked(s, first, added, x);
    }
  }

  /** On success: native ids and elements are matched one to one, along real bridge paths only, and
      no path of either bridge could still be proposed. */
  lemma CandidatesAreSound(s: Sources)
    requires Coherent(s) && AllCandidates(s).Ok?
    ensures var cs := AllCandidates(s).value;
            && OnePerSide(cs) && (forall x :: x in cs ==> RealPath(s, x)) && NothingLeft(s, cs)
  {
    var codes, anchored := Codes(s.elements), AnchoredCodes(s.anchors);
    DirectPassIsSound(s, codes);
    var first := DirectPass(s, codes).value;
    FallbackPassIsSound(s, first, anchored);
    SoundTogether(s, first, FallbackPass(s, first, anchored));
  }

  lemma PathIsBlocked(s: Sources, first: seq<Candidate>, added: seq<Candidate>, x: Candidate)
    requires Coherent(s) && RealPath(s, x)
    requires AllDirect(s, Codes(s.elements), first) && AllBlocked(s, AnchoredCodes(s.anchors), first + added)
    ensures Blocked(x, first + added)
  {
    if x.direct {
      assert DirectOf(s, x.code) == Some(x);
      var k :| 0 <= k < |first| && first[k] == x;
      assert (first + added)[k] == x;
    } else {
      assert FallbackOf(s, x.code) == Some(x);
    }
  }

  // ---------------------------------------------------------------- who goes first

  lemma BlockedAppend(x: Candidate, cs: seq<Candidate>, ds: seq<Candidate>)
    ensures Blocked(x, cs + ds) <==> Blocked(x, cs) || Blocked(x, ds)
  {
    forall k | 0 <= k < |cs| ensures (cs + ds)[k] == cs[k] {
    }
    forall k | 0 <= k < |ds| ensures (cs + ds)[|cs| + k] == ds[k] {
    }
    if x.element in ElementsOf(cs) || x.element in ElementsOf(ds) {
      assert x.element in ElementsOf(cs + ds);
    }
    if x.native in Natives(cs) || x.native in Natives(ds) {
      assert x.native in Natives(cs + ds);
    }
  }

  ghost predicate Rising(codes: seq<int>) {
    forall i, j :: 0 <= i < j < |codes| ==> codes[i] < codes[j]
  }

  /** A candidate added before has x's native id. */
  ghost predicate Outrun(x: Candidate, added: seq<Candidate>) {
    exists y :: y in added && y.code < x.code && y.native == x.native
  }

  /** A fallback candidate is added unless the first pass blocks it or a smaller code was added with its native id. */
  ghost predicate InTurn(s: Sources, first: seq<Candidate>, codes: seq<int>, added: seq<Candidate>)
    requires Anchored(s, codes)
  {
    forall c :: c in codes && FallbackOf(s, c).Some? ==>
      var x := FallbackOf(s, c).value; (x in added <==> !Blocked(x, first) && !Outrun(x, added))
  }

  /** Among candidates of smaller codes, only a shared native id blocks. */
  lemma BlockedBySmaller(s: Sources, codes: seq<int>, added: seq<Candidate>, x: Candidate)
    requires Coherent(s) && Anchored(s, codes) && FromFallback(s, codes, added)
    requires x.code in s.anchors && FallbackOf(s, x.code) == Some(x) && forall c :: c in codes ==> c < x.code
    ensures Blocked(x, added) <==> Outrun(x, added)
  {
    forall k | 0 <= k < |added| ensures added[k].element != x.element && added[k].code < x.code {
      assert added[k] in added;
    }
    if x.native in Natives(added) {
      var k :| 0 <= k < |added| && added[k].native == x.native;
      assert added[k] in added;
    }
  }

  lemma {:induction false} FallbackInTurn(s: Sources, first: seq<Candidate>, codes: seq<int>)
    requires Coherent(s) && Anchored(s, codes) && Rising(codes)
    ensures FromFallback(s, codes, FallbackPass(s, first, codes)) && InTurn(s, first, codes, FallbackPass(s, first, codes))
  {
    if codes == [] {
    } else {
      var n := |codes| - 1;
      FallbackInTurn(s, first, codes[..n]);
      assert codes == codes[..n] + [codes[n]];
      LastInTurn(s, first, codes[..n], codes[n], FallbackPass(s, first, codes[..n]));
    }
  }

  lemma LastInTurn(s: Sources, first: seq<Candidate>, front: seq<int>, last: int, added: seq<Candidate>)
    requires Coherent(s) && Anchored(s, front + [last]) && Anchored(s, front) && last in s.elements && last in s.anchors
    requires forall c :: c in front ==> c < last
    requires FromFallback(s, front, added) && InTurn(s, first, front, added)
    ensures var found := FallbackOf(s, last);
            var after := if found.None? || Blocked(found.value, first + added) then added else added + [found.value];
            FromFallback(s, front + [last], after) && InTurn(s, first, front + [last], after)
  {
    var codes, found := front + [last], FallbackOf(s, last);
    var after := if found.None? || Blocked(found.value, first + added) then added else added + [found.value];
    assert forall c :: c in codes <==> c in front || c == last;
    if found.Some? {
      BlockedAppend(found.value, first, added);
      BlockedBySmaller(s, front, added, found.value);
      assert Outrun(found.value, after) <==> Outrun(found.value, added);
      assert found.value !in added;
    }
    forall c | c in front && FallbackOf(s, c).Some?
      ensures var x := FallbackOf(s, c).value; x in after <==> !Blocked(x, first) && !Outrun(x, after)
    {
      var x := FallbackOf(s, c).value;
      assert x in after <==> x in added;
      assert Outrun(x, after) <==> Outrun(x, added);
    }
  }

  /** Codes whose element the first pass leaves free and whose Transfermarkt key is unknown. */
  function Adrift(s: Sources, first: seq<Candidate>, codes: seq<int>): set<int>
    requires Anchored(s, codes)
  {
    set c | c in codes && s.elements[c] !in ElementsOf(first) && s.anchors[c] !in s.transfermarkt
  }

  lemma {:induction false} UnanchoredCounts(s: Sources, first: seq<Candidate>, codes: seq<int>)
    requires Coherent(s) && Anchored(s, codes) && Rising(codes)
    ensures Unanchored(s, first, codes) == |Adrift(s, first, codes)|
  {
    if codes == [] {
    } else {
      var n := |codes| - 1;
      var front, last := codes[..n], codes[n];
      UnanchoredCounts(s, first, front);
      FallbackInTurn(s, first, front);
      StillFree(s, first, front, FallbackPass(s, first, front), last);
      assert codes == front + [last];
      AdriftNext(s, first, front, last);
    }
  }

  lemma AdriftNext(s: Sources, first: seq<Candidate>, front: seq<int>, last: int)
    requires Anchored(s, front) && Anchored(s, front + [last]) && last in s.elements && last in s.anchors && last !in front
    ensures |Adrift(s, first, front + [last])| == |Adrift(s, first, front)|
            + if s.elements[last] !in ElementsOf(first) && s.anchors[last] !in s.transfermarkt then 1 else 0
  {
    var here := if s.elements[last] !in ElementsOf(first) && s.anchors[last] !in s.transfermarkt then {last} else {};
    assert forall c :: c in front + [last] <==> c in front || c == last;
    assert Adrift(s, first, front + [last]) == Adrift(s, first, front) + here;
  }

  /** A candidate has x's native id and goes before it: a direct one, or one of a smaller code. */
  ghost predicate Preceded(x: Candidate, cs: seq<Candidate>) {
    exists y :: y in cs && y.native == x.native && (y.direct || y.code < x.code)
  }

  /** Who is proposed. A code that reaches a gap over the direct bridge always is; one that reaches it
      over the fallback is exactly when it does not do so directly and the native id goes to no direct
      candidate and to no fallback candidate of a smaller code. */
  lemma WhoIsProposed(s: Sources)
    requires Coherent(s) && AllCandidates(s).Ok?
    ensures var cs := AllCandidates(s).value;
            && (forall c :: c in s.elements && DirectOf(s, c).Some? ==> DirectOf(s, c).value in cs)
            && (forall c :: c in s.anchors && FallbackOf(s, c).Some? ==>
                  (FallbackOf(s, c).value in cs <==> DirectOf(s, c).None? && !Preceded(FallbackOf(s, c).value, cs)))
  {
    var codes, anchored := Codes(s.elements), AnchoredCodes(s.anchors);
    DirectPassIsSound(s, codes);
    var first := DirectPass(s, codes).value;
    FallbackInTurn(s, first, anchored);
    forall c | c in s.anchors && FallbackOf(s, c).Some?
      ensures FallbackOf(s, c).value in AllCandidates(s).value <==>
              DirectOf(s, c).None? && !Preceded(FallbackOf(s, c).value, AllCandidates(s).value)
    {
      FallbackIsProposedIff(s, first, FallbackPass(s, first, anchored), c);
    }
  }

  /** The first pass blocks a fallback candidate by its code or by its native id. */
  lemma BlockedByDirect(s: Sources, first: seq<Candidate>, x: Candidate)
    requires Coherent(s) && AllDirect(s, Codes(s.elements), first) && x.code in s.elements && x.element == s.elements[x.code]
    ensures Blocked(x, first) <==> DirectOf(s, x.code).Some? || Preceded(x, first)
  {
    ElementsAreDirect(s, first, x.code);
    forall y | y in first ensures y.direct {
      assert DirectOf(s, y.code) == Some(y);
    }
    NativesPrecede(x, first);
  }

  lemma NativesPrecede(x: Candidate, first: seq<Candidate>)
    requires forall y :: y in first ==> y.direct
    ensures x.native in Natives(first) <==> Preceded(x, first)
  {
    if x.native in Natives(first) {
      var k :| 0 <= k < |first| && first[k].native == x.native;
      assert first[k] in first;
    }
  }

  lemma PrecededAppend(x: Candidate, first: seq<Candidate>, added: seq<Candidate>)
    requires forall y :: y in added ==> !y.direct
    ensures Preceded(x, first + added) <==> Preceded(x, first) || Outrun(x, added)
  {
    assert forall y :: y in first + added <==> y in first || y in added;
  }

  lemma FallbackIsProposedIff(s: Sources, first: seq<Candidate>, added: seq<Candidate>, c: int)
    requires Coherent(s) && c in s.anchors && FallbackOf(s, c).Some?
    requires AllDirect(s, Codes(s.elements), first) && FromFallback(s, AnchoredCodes(s.anchors), added)
    requires InTurn(s, first, AnchoredCodes(s.anchors), added)
    ensures var x := FallbackOf(s, c).value;
            x in first + added <==> DirectOf(s, c).None? && !Preceded(x, first + added)
  {
    var x := FallbackOf(s, c).value;
    BlockedByDirect(s, first, x);
    assert c in AnchoredCodes(s.anchors);
    assert x in added <==> !Blocked(x, first) && !Outrun(x, added);
    BySource(s, first, added);
    PrecededAppend(x, first, added);
  }

  /** Which pass a candidate comes from can be told from the candidate. */
  lemma BySource(s: Sources, first: seq<Candidate>, added: seq<Candidate>)
    requires Coherent(s) && AllDirect(s, Codes(s.elements), first) && FromFallback(s, AnchoredCodes(s.anchors), added)
    ensures (forall y :: y in first ==> y.direct) && (forall y :: y in added ==> !y.direct)
  {
    forall y | y in first ensures y.direct {
      assert DirectOf(s, y.code) == Some(y);
    }
    forall y | y in added ensures !y.direct {
      assert FallbackOf(s, y.code) == Some(y);
    }
  }

  /** The codes that reach a gap over the direct bridge. */
  function DirectCodes(s: Sources): set<int>
    requires Coherent(s)
  {
    set c | c in s.elements && DirectOf(s, c).Some?
  }

  /** The anchored codes that do not, and whose Transfermarkt key no bridge knows. */
  function Stranded(s: Sources): set<int>
    requires Coherent(s)
  {
    set c | c in s.anchors && DirectOf(s, c).None? && s.anchors[c] !in s.transfermarkt
  }

  /** The counts of the report are the sizes of these two sets. */
  lemma CountsMean(s: Sources)
    requires Coherent(s) && AllCandidates(s).Ok?
    ensures var first := DirectPass(s, Codes(s.elements)).value;
            |first| == |DirectCodes(s)| && Unanchored(s, first, AnchoredCodes(s.anchors)) == |Stranded(s)|
  {
    var codes, anchored := Codes(s.elements), AnchoredCodes(s.anchors);
    DirectPassIsSound(s, codes);
    var first := DirectPass(s, codes).value;
    UnanchoredCounts(s, first, anchored);
    AdriftAreStranded(s, first);
    DirectCount(s, first);
  }

  lemma AdriftAreStranded(s: Sources, first: seq<Candidate>)
    requires Coherent(s) && AllDirect(s, Codes(s.elements), first)
    ensures Adrift(s, first, AnchoredCodes(s.anchors)) == Stranded(s)
  {
    var anchored := AnchoredCodes(s.anchors);
    forall c ensures c in Adrift(s, first, anchored) <==> c in Stranded(s) {
      if c in s.anchors {
        ElementsAreDirect(s, first, c);
      }
    }
  }

  lemma ElementsAreDirect(s: Sources, first: seq<Candidate>, c: int)
    requires Coherent(s) && AllDirect(s, Codes(s.elements), first) && c in s.elements
    ensures s.elements[c] in ElementsOf(first) <==> DirectOf(s, c).Some?
  {
    if s.elements[c] in ElementsOf(first) {
      var k :| 0 <= k < |first| && first[k].element == s.elements[c];
      assert first[k] in first && DirectOf(s, first[k].code) == Some(first[k]);
    }
    if DirectOf(s, c).Some? {
      var k :| 0 <= k < |first| && first[k] == DirectOf(s, c).value;
    }
  }

  function CodesOf(cs: seq<Candidate>): set<int> {
    set k | 0 <= k < |cs| :: cs[k].code
  }

  lemma {:induction false} CodesSize(cs: seq<Candidate>)
    requires forall i, j :: 0 <= i < j < |cs| ==> cs[i].code != cs[j].code
    ensures |CodesOf(cs)| == |cs|
  {
    if cs == [] {
    } else {
      var n := |cs| - 1;
      CodesSize(cs[..n]);
      forall c ensures c in CodesOf(cs) <==> c in CodesOf(cs[..n]) || c == cs[n].code {
        if c in CodesOf(cs[..n]) {
          var k :| 0 <= k < n && cs[..n][k].code == c;
          assert cs[k].code == c;
        }
      }
      assert CodesOf(cs) == CodesOf(cs[..n]) + {cs[n].code};
    }
  }

  lemma DirectCount(s: Sources, first: seq<Candidate>)
    requires Coherent(s) && OnePerSide(first) && AllDirect(s, Codes(s.elements), first)
    ensures |first| == |DirectCodes(s)|
  {
    forall k | 0 <= k < |first| ensures DirectOf(s, first[k].code) == Some(first[k]) {
      assert first[k] in first;
    }
    CodesSize(first);
    forall c ensures c in CodesOf(first) <==> c in DirectCodes(s) {
      if c in s.elements && DirectOf(s, c).Some? {
        var k :| 0 <= k < |first| && first[k] == DirectOf(s, c).value;
      }
    }
    assert CodesOf(first) == DirectCodes(s);
  }

  /** A code's element is not taken by the candidates of other codes. */
  lemma StillFree(s: Sources, first: seq<Candidate>, front: seq<int>, added: seq<Candidate>, last: int)
    requires Coherent(s) && Anchored(s, front) && FromFallback(s, front, added) && last in s.elements && last !in front
    ensures s.elements[last] in ElementsOf(first + added) <==> s.elements[last] in ElementsOf(first)
  {
    var both := first + added;
    forall k | 0 <= k < |added| ensures added[k].element != s.elements[last] {
      assert added[k] in added;
    }
    if s.elements[last] in ElementsOf(first) {
      var k :| 0 <= k < |first| && first[k].element == s.elements[last];
      assert both[k] == first[k];
    }
  }

  // ---------------------------------------------------------------- the report

  lemma {:induction false} StripIsCanonical(n: string)
    requires IsDigits(n)
    ensures IsDigits(StripZeros(n)) && Canonical(StripZeros(n))
    ensures StripZeros(n) == n <==> Canonical(n)
  {
    if |n| > 1 && n[0] == '0' {
      StripIsCanonical(n[1..]);
      assert |StripZeros(n[1..])| <= |n| - 1 by { StripShortens(n[1..]); }
    }
  }

  lemma {:induction false} StripShortens(n: string)
    ensures |StripZeros(n)| <= |n|
  {
    if |n| > 1 && n[0] == '0' {
      StripShortens(n[1..]);
    }
  }

  /** The number a string of digits stands for. */
  function Value(digits: string): nat
    requires forall k :: 0 <= k < |digits| ==> '0' <= digits[k] <= '9'
  {
    if digits == "" then 0 else Value(digits[..|digits| - 1]) * 10 + (digits[|digits| - 1] as int - '0' as int)
  }

  /** The decimal text of a number: digits without leading zeros that stand for it. */
  lemma {:induction false} DecimalStandsFor(n: nat)
    ensures IsDigits(Decimal(n)) && Canonical(Decimal(n)) && Value(Decimal(n)) == n
    ensures n > 0 ==> Decimal(n)[0] != '0'
  {
    if n >= 10 {
      DecimalStandsFor(n / 10);
      var front, last := Decimal(n / 10), ('0' as int + n % 10) as char;
      assert Decimal(n) == front + [last] && Decimal(n)[..|front|] == front;
    }
  }

  lemma DecimalNext(front: nat, digit: char)
    requires front > 0 && '0' <= digit <= '9'
    ensures Decimal(front * 10 + (digit as int - '0' as int)) == Decimal(front) + [digit]
  {
    var n := front * 10 + (digit as int - '0' as int);
    assert n >= 10 && n / 10 == front && n % 10 == digit as int - '0' as int;
  }

  /** Only one such text stands for a number. */
  lemma {:induction false} DecimalIsOnly(digits: string)
    requires IsDigits(digits) && Canonical(digits)
    ensures Decimal(Value(digits)) == digits
  {
    if |digits| == 1 {
      assert digits[..0] == "";
    } else {
      var front := digits[..|digits| - 1];
      assert front[0] == digits[0];
      DecimalIsOnly(front);
      assert Decimal(0) == "0";
      DecimalNext(Value(front), digits[|digits| - 1]);
    }
  }

  lemma {:induction false} LeadingZero(digits: string)
    requires IsDigits(digits) && |digits| > 1 && digits[0] == '0'
    ensures Value(digits[1..]) == Value(digits)
    decreases |digits|
  {
    var n := |digits| - 1;
    assert digits[1..][..n - 1] == digits[..n][1..];
    if n == 1 {
      assert digits[..1][..0] == "";
    } else {
      LeadingZero(digits[..n]);
    }
  }

  lemma {:induction false} StripKeepsValue(n: string)
    requires IsDigits(n)
    ensures IsDigits(StripZeros(n)) && Value(StripZeros(n)) == Value(n)
  {
    if |n| > 1 && n[0] == '0' {
      LeadingZero(n);
      StripKeepsValue(n[1..]);
    }
  }

  /** A native id of digits is recorded as the number it stands for; any other as it is. */
  lemma RecordedIsNumber(n: string)
    ensures Recorded(n) == if IsDigits(n) then Decimal(Value(n)) else n
  {
    if IsDigits(n) {
      StripKeepsValue(n);
      StripIsCanonical(n);
      DecimalIsOnly(StripZeros(n));
    }
  }

  lemma RecordedIsCanonical(n: string)
    ensures Canonical(Recorded(n))
    ensures Recorded(n) == n <==> Canonical(n)
  {
    if IsDigits(n) {
      StripIsCanonical(n);
    }
  }

  lemma RecordedSame(gaps: set<string>, cs: seq<Candidate>)
    requires forall x :: x in cs ==> x.native in gaps
    ensures gaps - RecordedNatives(cs) == gaps - Natives(cs) <==> forall x :: x in cs ==> Canonical(x.native)
  {
    forall k | 0 <= k < |cs| ensures Canonical(Recorded(cs[k].native)) && (Recorded(cs[k].native) == cs[k].native <==> Canonical(cs[k].native)) {
      RecordedIsCanonical(cs[k].native);
    }
    if x :| x in cs && !Canonical(x.native) {
      var k :| 0 <= k < |cs| && cs[k] == x;
      assert x.native in Natives(cs);
      forall j | 0 <= j < |cs| ensures Recorded(cs[j].native) != x.native {
      }
      assert x.native in gaps - RecordedNatives(cs);
    } else {
      forall n ensures n in RecordedNatives(cs) <==> n in Natives(cs) {
        if n in RecordedNatives(cs) {
          var k :| 0 <= k < |cs| && Recorded(cs[k].native) == n;
          assert cs[k] in cs;
        }
        if n in Natives(cs) {
          var k :| 0 <= k < |cs| && cs[k].native == n;
          assert cs[k] in cs;
        }
      }
    }
  }

  /** The ids reported as unresolved: the gaps that no record of a candidate reads back to. */
  function Unresolved(s: Sources): set<string>
    requires Coherent(s) && AllCandidates(s).Ok?
  {
    s.gaps - RecordedNatives(Sort(AllCandidates(s).value, ByElement))
  }

  lemma UnresolvedAnyOrder(s: Sources)
    requires Coherent(s) && AllCandidates(s).Ok?
    ensures Unresolved(s) == s.gaps - RecordedNatives(AllCandidates(s).value)
  {
    var cs := AllCandidates(s).value;
    var sorted := Sort(cs, ByElement);
    SortMembers(cs, ByElement);
    RecordedWithin(cs, sorted);
    RecordedWithin(sorted, cs);
  }

  lemma RecordedWithin(cs: seq<Candidate>, ds: seq<Candidate>)
    requires forall x :: x in cs ==> x in ds
    ensures RecordedNatives(cs) <= RecordedNatives(ds)
  {
    forall n | n in RecordedNatives(cs) ensures n in RecordedNatives(ds) {
      var k :| 0 <= k < |cs| && Recorded(cs[k].native) == n;
      assert cs[k] in cs;
      var j :| 0 <= j < |ds| && ds[j] == cs[k];
    }
  }

  lemma CandidatesInGaps(s: Sources)
    requires Coherent(s) && AllCandidates(s).Ok?
    ensures forall x :: x in AllCandidates(s).value ==> x.native in s.gaps
  {
    CandidatesAreSound(s);
    forall x | x in AllCandidates(s).value ensures x.native in s.gaps {
      assert RealPath(s, x);
    }
  }

  /** Candidates and unresolved ids partition the gaps exactly when no candidate's native id has
      leading zeros: the record keeps such an id as a number, and the id is then listed as unresolved too. */
  lemma UnresolvedIff(s: Sources)
    requires Coherent(s) && AllCandidates(s).Ok?
    ensures var cs := AllCandidates(s).value;
            Unresolved(s) == s.gaps - Natives(cs) <==> forall x :: x in cs ==> Canonical(x.native)
  {
    CandidatesInGaps(s);
    UnresolvedAnyOrder(s);
    RecordedSame(s.gaps, AllCandidates(s).value);
  }

  /** What can be said before the build: gaps without leading zeros are always partitioned. */
  lemma CleanGapsPartition(s: Sources)
    requires Coherent(s) && AllCandidates(s).Ok?
    ensures (forall n :: n in s.gaps ==> Canonical(n)) ==> Unresolved(s) == s.gaps - Natives(AllCandidates(s).value)
  {
    CandidatesInGaps(s);
    UnresolvedIff(s);
  }

  /** And a gap with leading zeros that the direct bridge reaches never is: it becomes a candidate and
      is reported as unresolved all the same. */
  lemma PaddedGapIsListedTwice(s: Sources, code: int)
    requires Coherent(s) && AllCandidates(s).Ok?
    requires code in s.elements && DirectOf(s, code).Some? && !Canonical(DirectOf(s, code).value.native)
    ensures var n := DirectOf(s, code).value.native;
            n in Natives(AllCandidates(s).value) && n in Unresolved(s)
  {
    var x, cs := DirectOf(s, code).value, AllCandidates(s).value;
    DirectPassIsSound(s, Codes(s.elements));
    assert code in Codes(s.elements);
    var first := DirectPass(s, Codes(s.elements)).value;
    var k :| 0 <= k < |first| && first[k] == x;
    assert cs[k] == x;
    UnresolvedAnyOrder(s);
    forall j | 0 <= j < |cs| ensures Recorded(cs[j].native) != x.native {
      RecordedIsCanonical(cs[j].native);
    }
  }

  /** One player, whose code leads over the direct bridge to the gap n. */
  function OnePlayer(gaps: set<string>, n: string): Sources {
    Sources(map[1 := 1], gaps, map[], map[Decimal(1) := "r"], map[], map["r" := n])
  }

  lemma OneCode(s: Sources, code: int)
    requires Coherent(s) && s.elements.Keys == {code}
    ensures AllCandidates(s).Ok?
  {
    BuildFailsIff(s);
  }

  lemma OnePlayerIsListedTwice(gaps: set<string>, n: string)
    requires n in gaps && !Canonical(n)
    ensures var s := OnePlayer(gaps, n);
            && Coherent(s) && AllCandidates(s).Ok?
            && n in Natives(AllCandidates(s).value) && n in Unresolved(s)
  {
    OneCode(OnePlayer(gaps, n), 1);
    PaddedGapIsListedTwice(OnePlayer(gaps, n), 1);
  }

  ghost predicate Partitions(s: Sources)
    requires Coherent(s) && AllCandidates(s).Ok?
  {
    Unresolved(s) == s.gaps - Natives(AllCandidates(s).value)
  }

  /** What a caller can check: every successful build on these gaps partitions them, whatever the bridges,
      if and only if no gap has leading zeros. */
  lemma GapsAreSafeIff(gaps: set<string>)
    ensures (forall s: Sources :: s.gaps == gaps && Coherent(s) && AllCandidates(s).Ok? ==> Partitions(s)) <==>
            (forall n :: n in gaps ==> Canonical(n))
  {
    if forall n :: n in gaps ==> Canonical(n) {
      forall s: Sources | s.gaps == gaps && Coherent(s) && AllCandidates(s).Ok? ensures Partitions(s) {
        CleanGapsPartition(s);
      }
    }
    if n :| n in gaps && !Canonical(n) {
      OnePlayerIsListedTwice(gaps, n);
      assert !Partitions(OnePlayer(gaps, n));
    }
  }

  /** For example, when a native id is written 07. */
  lemma PaddedGapExample()
    ensures !Canonical("07")
    ensures var s := OnePlayer({"07"}, "07");
            && Coherent(s) && AllCandidates(s).Ok?
            && "07" in Natives(AllCandidates(s).value) && "07" in Unresolved(s)
  {
    assert IsDigits("07");
    OnePlayerIsListedTwice({"07"}, "07");
  }

  lemma SortedByElement(cs: seq<Candidate>)
    requires OnePerSide(cs)
    ensures var sorted := Sort(cs, ByElement);
            && (forall x :: x in sorted <==> x in cs) && |sorted| == |cs|
            && (forall i, j :: 0 <= i < j < |sorted| ==> sorted[i].element < sorted[j].element)
  {
    var sorted := Sort(cs, ByElement);
    SortPermutes(cs, ByElement);
    SortMembers(cs, ByElement);
    SortOrders(cs, ByElement);
    SortDistinct(cs, ByElement);
    forall i, j | 0 <= i < j < |sorted| ensures sorted[i].element < sorted[j].element {
      assert sorted[i] in cs && sorted[j] in cs && ByElement(sorted[i], sorted[j]) && sorted[i] != sorted[j];
    }
  }

  lemma NativesAccount(gaps: set<string>, cs: seq<Candidate>)
    requires OnePerSide(cs) && forall x :: x in cs ==> x.native in gaps
    ensures |Natives(cs)| == |cs| && |gaps - Natives(cs)| == |gaps| - |cs|
  {
    NativesSize(cs);
    forall k | 0 <= k < |cs| ensures cs[k].native in gaps {
      assert cs[k] in cs;
    }
    assert gaps == Natives(cs) + (gaps - Natives(cs));
  }

  /** The report lists the candidates once each by ascending element, and they and the ids left
      over count up to the gaps. */
  lemma ReportAccounts(s: Sources)
    requires Coherent(s) && AllCandidates(s).Ok?
    ensures var cs := AllCandidates(s).value;
            var sorted := Sort(cs, ByElement);
            && (forall x :: x in sorted <==> x in cs) && |sorted| == |cs|
            && (forall i, j :: 0 <= i < j < |sorted| ==> sorted[i].element < sorted[j].element)
            && |Natives(cs)| == |cs| && |s.gaps - Natives(cs)| == |s.gaps| - |cs|
  {
    CandidatesAreSound(s);
    var cs := AllCandidates(s).value;
    SortedByElement(cs);
    forall x | x in cs ensures x.native in s.gaps {
      assert RealPath(s, x);
    }
    NativesAccount(s.gaps, cs);
  }

  lemma {:induction false} NativesSize(cs: seq<Candidate>)
    requires OnePerSide(cs)
    ensures |Natives(cs)| == |cs|
  {
    if cs == [] {
    } else {
      var front, last := cs[..|cs| - 1], cs[|cs| - 1];
      NativesSize(front);
      assert cs == front + [last];
      TakenNext(front, last);
    }
  }
}
