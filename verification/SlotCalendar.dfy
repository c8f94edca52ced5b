/** Report slots in two time zones: enumeration of the due ones and resolution of a clock tick.

    Instants are seconds since the epoch. WIB is UTC+7 all year. London is given by the offset in
    minutes, 0 or 60, that holds at 23:30 of each London day, and by the offset in force at `now`. */
module SlotCalendar {
  import opened Wrappers
  import opened SortedSets

  const DAY := 86400
  const MINUTE := 60
  const WIB := 25200
  const PRICE_TIME := 84600

  /** Resolver window around a slot: five minutes early to one hour late. */
  const EARLY := -5 * MINUTE
  const LATE := 60 * MINUTE

  datatype Mode = Deep | Price

  datatype Occurrence = Occurrence(mode: Mode, slot: int)

  datatype CalendarError = LookbackOutOfRange

  type Zone = int -> int

  ghost predicate Civil(london: Zone) {
    forall d :: london(d) == 0 || london(d) == 60
  }

  /** 04:30, 12:30 and 21:30, in seconds of the WIB day. */
  function Checkpoint(k: int): int {
    if k == 0 then 16200 else if k == 1 then 45000 else 77400
  }

  function DeepSlot(day: int, k: int): int {
    day * DAY - WIB + Checkpoint(k)
  }

  function PriceSlot(london: Zone, day: int): int {
    day * DAY + PRICE_TIME - london(day) * MINUTE
  }

  /** The calendar day at `now` in a zone `offset` seconds ahead of UTC. */
  function LocalDay(now: int, offset: int): int {
    (now + offset) / DAY
  }

  ghost predicate IsDeep(s: int) {
    exists d, k :: 0 <= k < 3 && s == DeepSlot(d, k)
  }

  ghost predicate IsPrice(london: Zone, s: int) {
    exists d :: s == PriceSlot(london, d)
  }

  /** The governed calendar, without any horizon. */
  ghost predicate Governed(london: Zone, o: Occurrence) {
    match o.mode
    case Deep => IsDeep(o.slot)
    case Price => IsPrice(london, o.slot)
  }

  // ---------------------------------------------------------------- distances

  lemma DeepGap(d: int, k: int, e: int, l: int)
    requires 0 <= k < 3 && 0 <= l < 3
    ensures DeepSlot(d, k) < DeepSlot(e, l) ==> DeepSlot(e, l) - DeepSlot(d, k) >= 420 * MINUTE
  {
  }

  lemma PriceGap(london: Zone, d: int, e: int)
    requires Civil(london)
    ensures PriceSlot(london, d) < PriceSlot(london, e) ==> PriceSlot(london, e) - PriceSlot(london, d) >= 23 * 60 * MINUTE
  {
    assert d < e || e < d || d == e;
  }

  /** A PRICE slot falls at 05:30 or 06:30 WIB: never on a DEEP slot, and within 65 minutes of one
      only when it follows 04:30 by exactly an hour. */
  lemma MixedGap(london: Zone, d: int, k: int, e: int)
    requires Civil(london) && 0 <= k < 3
    ensures var gap := PriceSlot(london, e) - DeepSlot(d, k);
            gap == 60 * MINUTE || gap > 65 * MINUTE || gap < -65 * MINUTE
    ensures PriceSlot(london, e) - DeepSlot(d, k) == 60 * MINUTE <==> k == 0 && e == d - 1 && london(e) == 60
  {
  }

  /** Slots of one mode are at least seven hours apart. */
  lemma SameModeGap(london: Zone, a: Occurrence, b: Occurrence)
    requires Civil(london) && Governed(london, a) && Governed(london, b) && a.mode == b.mode && a.slot < b.slot
    ensures b.slot - a.slot >= 420 * MINUTE
  {
    match a.mode {
      case Deep =>
        var d, k :| 0 <= k < 3 && a.slot == DeepSlot(d, k);
        var e, l :| 0 <= l < 3 && b.slot == DeepSlot(e, l);
        DeepGap(d, k, e, l);
      case Price =>
        var d :| a.slot == PriceSlot(london, d);
        var e :| b.slot == PriceSlot(london, e);
        PriceGap(london, d, e);
    }
  }

  lemma NoSharedKey(london: Zone, s: int)
    requires Civil(london)
    ensures !(IsDeep(s) && IsPrice(london, s))
  {
    if IsDeep(s) && IsPrice(london, s) {
      var d, k :| 0 <= k < 3 && s == DeepSlot(d, k);
      var e :| s == PriceSlot(london, e);
      MixedGap(london, d, k, e);
    }
  }

  // ---------------------------------------------------------------- due occurrences

  ghost predicate Due(london: Zone, now: int, hours: int, o: Occurrence) {
    Governed(london, o) && now - hours * 60 * MINUTE <= o.slot <= now
  }

  /** Exactly the due occurrences, each once, oldest first. */
  ghost predicate DueList(london: Zone, now: int, hours: int, rows: seq<Occurrence>) {
    && (forall o :: o in rows <==> Due(london, now, hours, o))
    && (forall i, j :: 0 <= i < j < |rows| ==> rows[i].slot < rows[j].slot)
  }

  /** Six days around today reach every DEEP slot of the last 72 hours. */
  lemma DeepDaysSuffice(now: int, hours: int, d: int, k: int)
    requires 1 <= hours <= 72 && 0 <= k < 3 && now - hours * 60 * MINUTE <= DeepSlot(d, k) <= now
    ensures LocalDay(now, WIB) - 4 <= d <= LocalDay(now, WIB) + 1
  {
  }

  /** And every PRICE slot, whether or not London changes its clocks in between. */
  lemma PriceDaysSuffice(london: Zone, now: int, nowOffset: int, hours: int, d: int)
    requires Civil(london) && (nowOffset == 0 || nowOffset == 60) && 1 <= hours <= 72
    requires now - hours * 60 * MINUTE <= PriceSlot(london, d) <= now
    ensures LocalDay(now, nowOffset * MINUTE) - 4 <= d <= LocalDay(now, nowOffset * MINUTE) + 1
  {
  }

  /** The dictionary of the enumeration, keyed by slot. */
  ghost predicate Sound(london: Zone, start: int, end: int, slots: map<int, Mode>) {
    forall s :: s in slots ==> start <= s <= end && Governed(london, Occurrence(slots[s], s))
  }

  ghost predicate HasDeep(slots: map<int, Mode>, start: int, end: int, day: int) {
    forall k :: 0 <= k < 3 && start <= DeepSlot(day, k) <= end ==> DeepSlot(day, k) in slots
  }

  ghost predicate HasPrice(london: Zone, slots: map<int, Mode>, start: int, end: int, day: int) {
    start <= PriceSlot(london, day) <= end ==> PriceSlot(london, day) in slots
  }

  method AddDay(slots: map<int, Mode>, start: int, end: int, day: int, london: Zone, londonDay: int) returns (r: map<int, Mode>)
    requires Sound(london, start, end, slots)
    ensures Sound(london, start, end, r) && slots.Keys <= r.Keys
    ensures HasDeep(r, start, end, day) && HasPrice(london, r, start, end, londonDay)
  {
    r := slots;
    for k := 0 to 3
      invariant Sound(london, start, end, r) && slots.Keys <= r.Keys
      invariant forall l :: 0 <= l < k && start <= DeepSlot(day, l) <= end ==> DeepSlot(day, l) in r
    {
      var slot := DeepSlot(day, k);
      assert IsDeep(slot);
      if start <= slot <= end {
        r := r[slot := Deep];
      }
    }
    var slot := PriceSlot(london, londonDay);
    if start <= slot <= end {
      r := r[slot := Price];
    }
  }

  /** `due_report_occurrences`. */
  method DueReportOccurrences(now: int, nowOffset: int, london: Zone, lookbackHours: int)
    returns (r: Result<seq<Occurrence>, CalendarError>)
    requires Civil(london) && (nowOffset == 0 || nowOffset == 60)
    ensures r.Err? <==> !(1 <= lookbackHours <= 72)
    ensures r.Ok? ==> DueList(london, now, lookbackHours, r.value)
  {
    if !(1 <= lookbackHours <= 72) {
      return Err(LookbackOutOfRange);
    }
    var start := now - lookbackHours * 60 * MINUTE;
    var today, londonToday := LocalDay(now, WIB), LocalDay(now, nowOffset * MINUTE);
    var slots: map<int, Mode> := map[];
    for offset := -4 to 2
      invariant Sound(london, start, now, slots)
      invariant forall d :: today - 4 <= d < today + offset ==> HasDeep(slots, start, now, d)
      invariant forall d :: londonToday - 4 <= d < londonToday + offset ==> HasPrice(london, slots, start, now, d)
    {
      var next := AddDay(slots, start, now, today + offset, london, londonToday + offset);
      forall d | HasDeep(slots, start, now, d) ensures HasDeep(next, start, now, d) {
      }
      forall d | HasPrice(london, slots, start, now, d) ensures HasPrice(london, next, start, now, d) {
      }
      slots := next;
    }
    var keys := Ascending(slots.Keys);
    var rows := seq(|keys|, i requires 0 <= i < |keys| => Occurrence(if keys[i] in slots then slots[keys[i]] else Deep, keys[i]));
    Exact(london, now, nowOffset, lookbackHours, start, today, londonToday, slots, keys, rows);
    r := Ok(rows);
  }

  lemma Exact(london: Zone, now: int, nowOffset: int, hours: int, start: int, today: int, londonToday: int,
              slots: map<int, Mode>, keys: seq<int>, rows: seq<Occurrence>)
    requires Civil(london) && (nowOffset == 0 || nowOffset == 60) && 1 <= hours <= 72
    requires start == now - hours * 60 * MINUTE
    requires today == LocalDay(now, WIB) && londonToday == LocalDay(now, nowOffset * MINUTE)
    requires Sound(london, start, now, slots)
    requires forall d :: today - 4 <= d < today + 2 ==> HasDeep(slots, start, now, d)
    requires forall d :: londonToday - 4 <= d < londonToday + 2 ==> HasPrice(london, slots, start, now, d)
    requires (forall x :: x in keys <==> x in slots) && forall i, j :: 0 <= i < j < |keys| ==> keys[i] < keys[j]
    requires |rows| == |keys| && forall i :: 0 <= i < |keys| ==> keys[i] in slots && rows[i] == Occurrence(slots[keys[i]], keys[i])
    ensures DueList(london, now, hours, rows)
  {
    forall o | Due(london, now, hours, o) ensures o in rows {
      match o.mode {
        case Deep =>
          var d, k :| 0 <= k < 3 && o.slot == DeepSlot(d, k);
          DeepDaysSuffice(now, hours, d, k);
          assert HasDeep(slots, start, now, d);
        case Price =>
          var d :| o.slot == PriceSlot(london, d);
          PriceDaysSuffice(london, now, nowOffset, hours, d);
          assert HasPrice(london, slots, start, now, d);
      }
      assert o.slot in slots && Governed(london, Occurrence(slots[o.slot], o.slot));
      NoSharedKey(london, o.slot);
      assert o.slot in keys;
      var i :| 0 <= i < |keys| && keys[i] == o.slot;
      assert rows[i] == o;
    }
  }

  // ---------------------------------------------------------------- resolving a tick

  predicate InWindow(now: int, slot: int) {
    EARLY <= now - slot <= LATE
  }

  function Distance(now: int, slot: int): int {
    if now >= slot then now - slot else slot - now
  }

  /** o is the one slot of the calendar a tick at `now` stands for: in the window, and strictly
      nearer than any other slot in the window. */
  ghost predicate Resolves(london: Zone, now: int, o: Occurrence) {
    && Governed(london, o) && InWindow(now, o.slot)
    && forall p :: Governed(london, p) && InWindow(now, p.slot) && p != o ==> Distance(now, o.slot) < Distance(now, p.slot)
  }

  /** Two windows overlap only in one place: the last five minutes of DEEP 04:30 and the first five
      of PRICE 05:30, in British summer time. PRICE is nearer there, so there is no tie to break. */
  lemma WindowsOverlap(london: Zone, now: int, a: Occurrence, b: Occurrence)
    requires Civil(london) && Governed(london, a) && Governed(london, b) && a != b
    requires InWindow(now, a.slot) && InWindow(now, b.slot)
    ensures a.mode != b.mode
    ensures a.mode == Deep ==>
              && b.slot == a.slot + 60 * MINUTE && a.slot + 55 * MINUTE <= now <= a.slot + 60 * MINUTE
              && Distance(now, b.slot) < Distance(now, a.slot)
              && exists d :: a.slot == DeepSlot(d, 0) && london(d - 1) == 60
  {
    if a.mode == b.mode {
      if a.slot < b.slot { SameModeGap(london, a, b); } else { SameModeGap(london, b, a); }
    } else if a.mode == Deep {
      var d, k :| 0 <= k < 3 && a.slot == DeepSlot(d, k);
      var e :| b.slot == PriceSlot(london, e);
      MixedGap(london, d, k, e);
    }
  }

  /** The slots tried for a tick, in the order they are tried. */
  method Candidates(now: int, nowOffset: int, london: Zone) returns (r: seq<Occurrence>)
    requires Civil(london) && (nowOffset == 0 || nowOffset == 60)
    ensures forall o :: o in r ==> Governed(london, o)
    ensures forall o :: Governed(london, o) && InWindow(now, o.slot) ==> o in r
  {
    var today, londonToday := LocalDay(now, WIB), LocalDay(now, nowOffset * MINUTE);
    r := [];
    for offset := -1 to 2
      invariant forall o :: o in r ==> Governed(london, o)
      invariant forall d, k :: today - 1 <= d < today + offset && 0 <= k < 3 ==> Occurrence(Deep, DeepSlot(d, k)) in r
    {
      var day := today + offset;
      for k := 0 to 3
        invariant forall o :: o in r ==> Governed(london, o)
        invariant forall d, l :: today - 1 <= d < day && 0 <= l < 3 ==> Occurrence(Deep, DeepSlot(d, l)) in r
        invariant forall l :: 0 <= l < k ==> Occurrence(Deep, DeepSlot(day, l)) in r
      {
        assert IsDeep(DeepSlot(day, k));
        r := r + [Occurrence(Deep, DeepSlot(day, k))];
      }
    }
    ghost var deeps := r;
    for offset := -1 to 2
      invariant forall o :: o in r ==> Governed(london, o)
      invariant forall o :: o in deeps ==> o in r
      invariant forall d :: londonToday - 1 <= d < londonToday + offset ==> Occurrence(Price, PriceSlot(london, d)) in r
    {
      r := r + [Occurrence(Price, PriceSlot(london, londonToday + offset))];
    }
    forall o | Governed(london, o) && InWindow(now, o.slot) ensures o in r {
      match o.mode {
        case Deep =>
          var d, k :| 0 <= k < 3 && o.slot == DeepSlot(d, k);
          assert today - 1 <= d < today + 2;
        case Price =>
          var d :| o.slot == PriceSlot(london, d);
          assert londonToday - 1 <= d < londonToday + 2;
      }
    }
  }

  /** `resolve_tick`: deterministic, and the nearest slot whenever there is one in the window. */
  method ResolveTick(now: int, nowOffset: int, london: Zone) returns (r: Option<Occurrence>)
    requires Civil(london) && (nowOffset == 0 || nowOffset == 60)
    ensures r.Some? ==> Resolves(london, now, r.value)
    ensures r.None? ==> forall o :: Governed(london, o) ==> !InWindow(now, o.slot)
  {
    var candidates := Candidates(now, nowOffset, london);
    r := None;
    for n := 0 to |candidates|
      invariant r.Some? ==> r.value in candidates[..n] && InWindow(now, r.value.slot)
      invariant forall o :: o in candidates[..n] && InWindow(now, o.slot) ==>
                              r.Some? && Distance(now, r.value.slot) <= Distance(now, o.slot)
    {
      var o := candidates[n];
      if InWindow(now, o.slot) && (r.None? || Distance(now, o.slot) < Distance(now, r.value.slot)) {
        r := Some(o);
      }
    }
    assert candidates[..|candidates|] == candidates;
    if r.Some? {
      forall p | Governed(london, p) && InWindow(now, p.slot) && p != r.value
        ensures Distance(now, r.value.slot) < Distance(now, p.slot)
      {
        WindowsOverlap(london, now, r.value, p);
        WindowsOverlap(london, now, p, r.value);
      }
    }
  }

  // ---------------------------------------------------------------- why a slot is missing

  datatype Diagnosis = NoTickInWindow | TickNoDispatch | TickEvidenceUnavailable

  /** `diagnose_missing`. */
  function Diagnose(slot: int, ticks: Option<seq<int>>): Diagnosis {
    if ticks.None? then TickEvidenceUnavailable
    else if exists t :: t in ticks.value && InWindow(t, slot) then TickNoDispatch
    else NoTickInWindow
  }

  /** Without tick evidence nothing is concluded; NO_TICK takes evidence, and none of it from five minutes
      before the slot to an hour after. */
  lemma DiagnosisNeedsEvidence(slot: int, ticks: Option<seq<int>>)
    ensures Diagnose(slot, ticks) == TickEvidenceUnavailable <==> ticks == None
    ensures Diagnose(slot, ticks) == NoTickInWindow <==>
            ticks.Some? && forall t :: t in ticks.value ==> t < slot - 5 * MINUTE || t > slot + 60 * MINUTE
  {
    if ticks.Some? {
      forall t ensures InWindow(t, slot) <==> !(t < slot - 5 * MINUTE || t > slot + 60 * MINUTE) {
      }
    }
  }

  /** Where the slots are: 04:30, 12:30 and 21:30 of the WIB day, and 23:30 of the London day. */
  lemma SlotsAreAt(london: Zone, day: int, k: int)
    requires Civil(london) && 0 <= k < 3
    ensures var local := DeepSlot(day, k) + 7 * 60 * MINUTE;
            local / DAY == day && local % DAY == (if k == 0 then 4 * 60 + 30 else if k == 1 then 12 * 60 + 30 else 21 * 60 + 30) * MINUTE
    ensures var local := PriceSlot(london, day) + london(day) * MINUTE;
            local / DAY == day && local % DAY == (23 * 60 + 30) * MINUTE
  {
  }

  /** What is due: the slots of the last hours, at 04:30, 12:30 or 21:30 seven hours ahead of UTC, or at
      23:30 of a London day. */
  lemma DueMeans(london: Zone, now: int, hours: int, o: Occurrence)
    ensures Due(london, now, hours, o) <==>
            && 0 <= now - o.slot <= hours * 3600
            && match o.mode
               case Deep => (o.slot + 7 * 3600) % 86400 in {4 * 3600 + 30 * 60, 12 * 3600 + 30 * 60, 21 * 3600 + 30 * 60}
               case Price => exists d :: o.slot + london(d) * 60 == d * 86400 + 23 * 3600 + 30 * 60
  {
    DeepTimes(o.slot);
    PriceTimes(london, o.slot);
  }

  lemma DeepTimes(s: int)
    ensures IsDeep(s) <==> (s + 7 * 3600) % 86400 in {4 * 3600 + 30 * 60, 12 * 3600 + 30 * 60, 21 * 3600 + 30 * 60}
  {
    var local := s + 7 * 3600;
    var k := if local % 86400 == 16200 then 0 else if local % 86400 == 45000 then 1 else 2;
    if local % 86400 in {16200, 45000, 77400} {
      assert s == DeepSlot(local / 86400, k);
    }
    if d, j :| 0 <= j < 3 && s == DeepSlot(d, j) {
      SlotsAreAt(_ => 0, d, j);
    }
  }

  lemma PriceTimes(london: Zone, s: int)
    ensures IsPrice(london, s) <==> exists d :: s + london(d) * 60 == d * 86400 + 23 * 3600 + 30 * 60
  {
    forall d ensures s == PriceSlot(london, d) <==> s + london(d) * 60 == d * 86400 + 23 * 3600 + 30 * 60 {
    }
    if d :| s + london(d) * 60 == d * 86400 + 23 * 3600 + 30 * 60 {
      assert s == PriceSlot(london, d);
    }
  }

  /** The tick falls in the five minutes of a DEEP 04:30 window that belong to PRICE 05:30. */
  ghost predicate Shadowed(london: Zone, o: Occurrence, tick: int) {
    && o.mode == Deep && o.slot + 55 * MINUTE <= tick <= o.slot + 60 * MINUTE
    && exists d :: o.slot == DeepSlot(d, 0) && london(d - 1) == 60
  }

  lemma TickResolvesIff(london: Zone, o: Occurrence, tick: int)
    requires Civil(london) && Governed(london, o)
    ensures Resolves(london, tick, o) <==> InWindow(tick, o.slot) && !Shadowed(london, o, tick)
  {
    if Shadowed(london, o, tick) {
      var d :| o.slot == DeepSlot(d, 0) && london(d - 1) == 60;
      var price := Occurrence(Price, PriceSlot(london, d - 1));
      assert Governed(london, price) && InWindow(tick, price.slot);
    } else if InWindow(tick, o.slot) {
      forall p | Governed(london, p) && InWindow(tick, p.slot) && p != o
        ensures Distance(tick, o.slot) < Distance(tick, p.slot)
      {
        WindowsOverlap(london, tick, o, p);
        WindowsOverlap(london, tick, p, o);
      }
    }
  }

  /** The overlap is real: on any WIB day whose eve is summer time in London, a tick at 05:27 is in the
      window of DEEP 04:30 and resolves to PRICE 05:30, so the diagnosis sees a tick for the DEEP slot
      although none resolved to it. */
  lemma TickIsShadowed(london: Zone, day: int)
    requires Civil(london) && london(day - 1) == 60
    ensures var deep, price := Occurrence(Deep, DeepSlot(day, 0)), Occurrence(Price, PriceSlot(london, day - 1));
            var tick := DeepSlot(day, 0) + 57 * MINUTE;
            && Diagnose(deep.slot, Some([tick])) == TickNoDispatch
            && !Resolves(london, tick, deep) && Resolves(london, tick, price)
  {
    var deep, price := Occurrence(Deep, DeepSlot(day, 0)), Occurrence(Price, PriceSlot(london, day - 1));
    var tick := DeepSlot(day, 0) + 57 * MINUTE;
    assert tick in [tick];
    assert Governed(london, deep) && Governed(london, price);
    TickResolvesIff(london, deep, tick);
    TickResolvesIff(london, price, tick);
  }

  /** What the diagnosis says about the clock: no tick in the window means that no tick resolved to
      the slot, and a tick in the window means that one did unless every such tick was shadowed. */
  lemma DiagnosisMeans(london: Zone, o: Occurrence, ticks: seq<int>)
    requires Civil(london) && Governed(london, o)
    ensures Diagnose(o.slot, Some(ticks)) == NoTickInWindow ==> forall t :: t in ticks ==> !Resolves(london, t, o)
    ensures (exists t :: t in ticks && Resolves(london, t, o)) <==>
            && Diagnose(o.slot, Some(ticks)) == TickNoDispatch
            && !(forall t :: t in ticks && InWindow(t, o.slot) ==> Shadowed(london, o, t))
  {
    forall t ensures Resolves(london, t, o) <==> InWindow(t, o.slot) && !Shadowed(london, o, t) {
      TickResolvesIff(london, o, t);
    }
  }
}
