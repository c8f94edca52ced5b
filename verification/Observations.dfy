/** Intake of optional competitive-load observations: validation, deduplication, accounting. */
module Observations {
  import opened Wrappers
  import opened Counting
  import opened Sorting
  import opened Tally

  /** A row as read: unparsable numbers carry their default, an unparsable time is None, times are instants. */
  datatype Row =
    | NotObject
    | Row(verified: bool, element: int, competition: string, matchTime: Option<int>, source: string, url: string, urlOk: bool,
          level: string, started: Option<bool>, minutes: real, extra: real, subOn: Option<real>, subOff: Option<real>,
          travel: string, venue: string, international: bool, longHaul: bool)

  datatype Config = Config(known: set<string>, levels: seq<string>, travels: set<string>, retention: int, tolerance: int,
                           maxMinutes: real, maxExtra: real, requireUrl: bool)

  datatype Reason =
    | RowNotObject | NotVerified | UnknownElement | InvalidOrNativeCompetition | InvalidMatchTime | FutureMatch
    | MissingSource | InvalidSourceUrl | InvalidVerificationLevel | StartedNotBoolean | MinutesOutOfRange
    | ExtraTimeOutOfRange | StartedWithZeroMinutes | SubOnOutOfRange | SubOffOutOfRange | InvalidTravelContext
    | InvalidContract

  datatype Key = Key(element: int, competition: string, matchTime: int)

  datatype Item = Item(competition: string, matchTime: int, venue: string, started: bool, minutes: real, subOn: Option<real>,
                       subOff: Option<real>, extra: real, travel: string, international: bool, longHaul: bool,
                       source: string, url: string, level: string)

  datatype Verdict = Rejected(reason: Reason) | Stale | Valid(key: Key, item: Item)

  const NATIVE := "Premier League"

  /** What a validator works with: the configuration, the known elements when given, and the time. */
  datatype Context = Context(config: Config, canonical: Option<set<int>>, now: int)

  predicate InRange(minute: Option<real>, config: Config) {
    minute.Some? ==> 0.0 <= minute.value <= config.maxMinutes
  }

  /** The checks on one row, in order. */
  function Judge(c: Context, row: Row): Verdict {
    if row.NotObject? then Rejected(RowNotObject)
    else if !row.verified then Rejected(NotVerified)
    else if row.element <= 0 || (c.canonical.Some? && row.element !in c.canonical.value) then Rejected(UnknownElement)
    else if row.competition !in c.config.known || row.competition == NATIVE then Rejected(InvalidOrNativeCompetition)
    else if row.matchTime.None? then Rejected(InvalidMatchTime)
    else if row.matchTime.value > c.now + c.config.tolerance then Rejected(FutureMatch)
    else if c.now - row.matchTime.value > c.config.retention then Stale
    else JudgeDetails(c.config, row)
  }

  function JudgeDetails(config: Config, row: Row): Verdict
    requires row.Row? && row.matchTime.Some?
  {
    if row.source == "" then Rejected(MissingSource)
    else if config.requireUrl && !row.urlOk then Rejected(InvalidSourceUrl)
    else if row.level !in config.levels then Rejected(InvalidVerificationLevel)
    else if row.started.None? then Rejected(StartedNotBoolean)
    else if row.minutes < 0.0 || row.minutes > config.maxMinutes then Rejected(MinutesOutOfRange)
    else if row.extra < 0.0 || row.extra > config.maxExtra || row.extra > row.minutes then Rejected(ExtraTimeOutOfRange)
    else if row.started.value && row.minutes <= 0.0 then Rejected(StartedWithZeroMinutes)
    else if !InRange(row.subOn, config) then Rejected(SubOnOutOfRange)
    else if !InRange(row.subOff, config) then Rejected(SubOffOutOfRange)
    else if row.travel !in config.travels then Rejected(InvalidTravelContext)
    else
      Valid(Key(row.element, row.competition, row.matchTime.value),
            Item(row.competition, row.matchTime.value, row.venue, row.started.value, row.minutes, row.subOn, row.subOff,
                 row.extra, row.travel, row.competition == "International" || row.international, row.longHaul,
                 row.source, row.url, row.level))
  }

  /** `_verification_rank`: the position among the allowed levels, worse than all for an unknown one. */
  function Rank(level: string, levels: seq<string>): nat {
    if level in levels then FirstIndex(level, levels) else |levels| + 1
  }

  function FirstIndex(level: string, levels: seq<string>): nat
    requires level in levels
  {
    if levels[0] == level then 0 else 1 + FirstIndex(level, levels[1..])
  }

  // ---------------------------------------------------------------- what a verdict means

  /** What a row must satisfy, by the reason it is rejected for when it does not. */
  predicate Meets(c: Context, row: Row, reason: Reason) {
    row.Row? &&
    match reason
    case NotVerified => row.verified
    case UnknownElement => row.element > 0 && (c.canonical.Some? ==> row.element in c.canonical.value)
    case InvalidOrNativeCompetition => row.competition in c.config.known && row.competition != "Premier League"
    case InvalidMatchTime => row.matchTime != None
    case FutureMatch => row.matchTime.Some? ==> row.matchTime.value - c.now <= c.config.tolerance
    case MissingSource => row.source != ""
    case InvalidSourceUrl => c.config.requireUrl ==> row.urlOk
    case InvalidVerificationLevel => row.level in c.config.levels
    case StartedNotBoolean => row.started != None
    case MinutesOutOfRange => 0.0 <= row.minutes <= c.config.maxMinutes
    case ExtraTimeOutOfRange => 0.0 <= row.extra <= c.config.maxExtra && row.extra <= row.minutes
    case StartedWithZeroMinutes => row.started == Some(true) ==> row.minutes > 0.0
    case SubOnOutOfRange => row.subOn.Some? ==> 0.0 <= row.subOn.value <= c.config.maxMinutes
    case SubOffOutOfRange => row.subOff.Some? ==> 0.0 <= row.subOff.value <= c.config.maxMinutes
    case InvalidTravelContext => row.travel in c.config.travels
    case _ => true
  }

  /** The match lies within the retention period. */
  predicate IsRecent(c: Context, row: Row) {
    row.Row? && row.matchTime.Some? && row.matchTime.value >= c.now - c.config.retention
  }

  /** The order of the checks. The age of the match is looked at after the sixth. */
  function Place(reason: Reason): nat {
    match reason
    case RowNotObject => 0 case NotVerified => 1 case UnknownElement => 2 case InvalidOrNativeCompetition => 3
    case InvalidMatchTime => 4 case FutureMatch => 5
    case MissingSource => 6 case InvalidSourceUrl => 7 case InvalidVerificationLevel => 8 case StartedNotBoolean => 9
    case MinutesOutOfRange => 10 case ExtraTimeOutOfRange => 11 case StartedWithZeroMinutes => 12
    case SubOnOutOfRange => 13 case SubOffOutOfRange => 14 case InvalidTravelContext => 15
    case InvalidContract => 16
  }

  /** The row passes the first k checks. */
  ghost predicate Passes(c: Context, row: Row, k: nat) {
    && (k > 0 ==> Meets(c, row, RowNotObject)) && (k > 1 ==> Meets(c, row, NotVerified))
    && (k > 2 ==> Meets(c, row, UnknownElement)) && (k > 3 ==> Meets(c, row, InvalidOrNativeCompetition))
    && (k > 4 ==> Meets(c, row, InvalidMatchTime)) && (k > 5 ==> Meets(c, row, FutureMatch))
    && (k > 6 ==> Meets(c, row, MissingSource)) && (k > 7 ==> Meets(c, row, InvalidSourceUrl))
    && (k > 8 ==> Meets(c, row, InvalidVerificationLevel)) && (k > 9 ==> Meets(c, row, StartedNotBoolean))
    && (k > 10 ==> Meets(c, row, MinutesOutOfRange)) && (k > 11 ==> Meets(c, row, ExtraTimeOutOfRange))
    && (k > 12 ==> Meets(c, row, StartedWithZeroMinutes)) && (k > 13 ==> Meets(c, row, SubOnOutOfRange))
    && (k > 14 ==> Meets(c, row, SubOffOutOfRange)) && (k > 15 ==> Meets(c, row, InvalidTravelContext))
  }

  /** The row fails for this reason and passes whatever is looked at before. */
  ghost predicate FailsFirst(c: Context, row: Row, reason: Reason) {
    !Meets(c, row, reason) && Passes(c, row, Place(reason)) && (Place(reason) >= 6 ==> IsRecent(c, row))
  }

  /** What a valid row is filed under and published as. */
  predicate Describes(row: Row, key: Key, item: Item) {
    && row.Row? && key.element == row.element && key.competition == row.competition == item.competition
    && row.matchTime == Some(key.matchTime) == Some(item.matchTime)
    && row.started == Some(item.started) && item.minutes == row.minutes && item.extra == row.extra
    && item.subOn == row.subOn && item.subOff == row.subOff
    && item.venue == row.venue && item.travel == row.travel && item.longHaul == row.longHaul
    && (item.international <==> row.international || row.competition == "International")
    && item.source == row.source && item.url == row.url && item.level == row.level
  }

  /** The verdict: a row is rejected for the first check it fails, stale when it passes the first six and
      is too old, and valid when it passes all of them and is recent; it is then published as it stands. */
  lemma VerdictMeans(c: Context, row: Row)
    ensures Judge(c, row).Stale? <==> Passes(c, row, 6) && !IsRecent(c, row)
    ensures Judge(c, row).Valid? <==> Passes(c, row, 16) && IsRecent(c, row)
    ensures forall reason :: Judge(c, row) == Rejected(reason) <==> FailsFirst(c, row, reason)
    ensures Judge(c, row).Valid? ==> Describes(row, Judge(c, row).key, Judge(c, row).item)
  {
    forall reason ensures Judge(c, row) == Rejected(reason) <==> FailsFirst(c, row, reason) {
      RejectedIff(c, row, reason);
    }
  }

  lemma RejectedIff(c: Context, row: Row, reason: Reason)
    ensures Judge(c, row) == Rejected(reason) <==> FailsFirst(c, row, reason)
  {
    if Place(reason) < 6 {
      RejectedEarly(c, row, reason);
    } else {
      DetailsDecide(c, row, reason);
      if Passes(c, row, 6) && IsRecent(c, row) {
        RejectedLate(c, row, reason);
      } else if FailsFirst(c, row, reason) {
        FailsLate(c, row, reason);
      }
    }
  }

  lemma FailsLate(c: Context, row: Row, reason: Reason)
    requires Place(reason) >= 6 && FailsFirst(c, row, reason)
    ensures Passes(c, row, 6) && IsRecent(c, row)
  {
  }

  lemma RejectedEarly(c: Context, row: Row, reason: Reason)
    requires Place(reason) < 6
    ensures Judge(c, row) == Rejected(reason) <==> FailsFirst(c, row, reason)
  {
  }

  /** The last ten checks only see recent rows that pass the first six. */
  lemma DetailsDecide(c: Context, row: Row, reason: Reason)
    requires Place(reason) >= 6
    ensures Judge(c, row) == Rejected(reason) <==>
            Passes(c, row, 6) && IsRecent(c, row) && JudgeDetails(c.config, row) == Rejected(reason)
  {
  }

  lemma RejectedLate(c: Context, row: Row, reason: Reason)
    requires Place(reason) >= 6 && Passes(c, row, 6) && IsRecent(c, row)
    ensures JudgeDetails(c.config, row) == Rejected(reason) <==> FailsFirst(c, row, reason)
  {
  }

  /** The rank of an allowed level is its first position; any other level ranks behind them all. */
  lemma {:induction false} RankIsPosition(level: string, levels: seq<string>)
    ensures level in levels ==> var r := Rank(level, levels); r < |levels| && levels[r] == level && level !in levels[..r]
    ensures level !in levels ==> Rank(level, levels) > |levels|
  {
    if level in levels && levels[0] != level {
      RankIsPosition(level, levels[1..]);
    }
  }

  function IsValid(c: Context): Row -> bool {
    (row: Row) => Judge(c, row).Valid?
  }

  function IsStale(c: Context): Row -> bool {
    (row: Row) => Judge(c, row).Stale?
  }

  function IsRejected(c: Context): Row -> bool {
    (row: Row) => Judge(c, row).Rejected?
  }

  function RejectedFor(c: Context, reason: Reason): Row -> bool {
    (row: Row) => Judge(c, row) == Rejected(reason)
  }

  // ---------------------------------------------------------------- what is kept

  /** Row i, among the first n, is valid under this key. */
  predicate Holds(c: Context, rows: seq<Row>, n: nat, key: Key, i: nat)
    requires n <= |rows|
  {
    i < n && Judge(c, rows[i]).Valid? && Judge(c, rows[i]).key == key
  }

  function RankAt(c: Context, rows: seq<Row>, i: nat): nat
    requires i < |rows|
  {
    match Judge(c, rows[i])
    case Valid(_, item) => Rank(item.level, c.config.levels)
    case _ => 0
  }

  /** Among the first n rows, row i is the earliest of the best-ranked valid rows of its key. */
  ghost predicate Kept(c: Context, rows: seq<Row>, n: nat, key: Key, i: nat)
    requires n <= |rows|
  {
    && Holds(c, rows, n, key, i)
    && forall j: nat :: Holds(c, rows, n, key, j) ==>
         RankAt(c, rows, i) <= RankAt(c, rows, j) && (j < i ==> RankAt(c, rows, i) < RankAt(c, rows, j))
  }

  /** The candidate of a key is the item of its kept row, which `from` names. */
  ghost predicate KeptFrom(c: Context, rows: seq<Row>, n: nat, candidates: map<Key, Item>, from: map<Key, nat>, key: Key)
    requires n <= |rows| && key in candidates && key in from
  {
    Kept(c, rows, n, key, from[key]) && Judge(c, rows[from[key]]).item == candidates[key]
  }

  /** The candidates after the first n rows: one for each valid key. */
  ghost predicate Collected(c: Context, rows: seq<Row>, n: nat, candidates: map<Key, Item>, from: map<Key, nat>)
    requires n <= |rows|
  {
    && from.Keys == candidates.Keys
    && (forall key :: key in candidates ==> KeptFrom(c, rows, n, candidates, from, key))
    && (forall i: nat :: i < n && Judge(c, rows[i]).Valid? ==> Judge(c, rows[i]).key in candidates)
  }

  /** One more row of another key changes nothing for this key. */
  lemma KeptStays(c: Context, rows: seq<Row>, n: nat, candidates: map<Key, Item>, from: map<Key, nat>, key: Key)
    requires n < |rows| && key in candidates && key in from && KeptFrom(c, rows, n, candidates, from, key)
    requires Holds(c, rows, n + 1, key, n) ==> RankAt(c, rows, n) >= RankAt(c, rows, from[key])
    ensures KeptFrom(c, rows, n + 1, candidates, from, key)
  {
    forall j: nat | Holds(c, rows, n + 1, key, j)
      ensures RankAt(c, rows, from[key]) <= RankAt(c, rows, j)
      ensures j < from[key] ==> RankAt(c, rows, from[key]) < RankAt(c, rows, j)
    {
      assert j < n ==> Holds(c, rows, n, key, j);
    }
  }

  /** A row that is not valid, or does not beat the kept one, changes no candidate. */
  lemma CollectedStays(c: Context, rows: seq<Row>, n: nat, candidates: map<Key, Item>, from: map<Key, nat>)
    requires n < |rows| && Collected(c, rows, n, candidates, from)
    requires forall key :: Holds(c, rows, n + 1, key, n) ==> key in candidates && RankAt(c, rows, n) >= RankAt(c, rows, from[key])
    ensures Collected(c, rows, n + 1, candidates, from)
  {
    forall key | key in candidates ensures KeptFrom(c, rows, n + 1, candidates, from, key) {
      KeptStays(c, rows, n, candidates, from, key);
    }
    if Judge(c, rows[n]).Valid? {
      assert Holds(c, rows, n + 1, Judge(c, rows[n]).key, n);
    }
  }

  /** A row that beats every earlier row of its key is the kept one. */
  lemma NewBest(c: Context, rows: seq<Row>, n: nat, key: Key)
    requires n < |rows| && Holds(c, rows, n + 1, key, n)
    requires forall j: nat :: Holds(c, rows, n, key, j) ==> RankAt(c, rows, n) < RankAt(c, rows, j)
    ensures Kept(c, rows, n + 1, key, n)
  {
    forall j: nat | Holds(c, rows, n + 1, key, j)
      ensures RankAt(c, rows, n) <= RankAt(c, rows, j) && (j < n ==> RankAt(c, rows, n) < RankAt(c, rows, j))
    {
      assert j < n ==> Holds(c, rows, n, key, j);
    }
  }

  /** The first valid row of a key, or one that beats the kept one, becomes the candidate. */
  lemma CollectedMoves(c: Context, rows: seq<Row>, n: nat, candidates: map<Key, Item>, from: map<Key, nat>)
    requires n < |rows| && Collected(c, rows, n, candidates, from) && Judge(c, rows[n]).Valid?
    requires var key := Judge(c, rows[n]).key; key in candidates ==> RankAt(c, rows, n) < RankAt(c, rows, from[key])
    ensures var v := Judge(c, rows[n]); Collected(c, rows, n + 1, candidates[v.key := v.item], from[v.key := n])
  {
    var v := Judge(c, rows[n]);
    var after, origin := candidates[v.key := v.item], from[v.key := n];
    forall key | key in after ensures KeptFrom(c, rows, n + 1, after, origin, key) {
      if key == v.key {
        forall j: nat | Holds(c, rows, n, key, j) ensures RankAt(c, rows, n) < RankAt(c, rows, j) {
          assert KeptFrom(c, rows, n, candidates, from, key);
        }
        NewBest(c, rows, n, key);
      } else {
        KeptStays(c, rows, n, candidates, from, key);
      }
    }
  }

  // ---------------------------------------------------------------- the validation loop

  /** The counters after some rows. */
  ghost predicate Counted(c: Context, rows: seq<Row>, rejected: multiset<Reason>, stale: nat, valid: nat) {
    && (forall reason :: rejected[reason] == CountIf(rows, RejectedFor(c, reason)))
    && |rejected| == CountIf(rows, IsRejected(c)) && stale == CountIf(rows, IsStale(c)) && valid == CountIf(rows, IsValid(c))
  }

  lemma CountedNext(c: Context, rows: seq<Row>, n: nat, rejected: multiset<Reason>, stale: nat, valid: nat)
    requires n < |rows| && Counted(c, rows[..n], rejected, stale, valid)
    ensures match Judge(c, rows[n])
            case Rejected(reason) => Counted(c, rows[..n + 1], rejected + multiset{reason}, stale, valid)
            case Stale => Counted(c, rows[..n + 1], rejected, stale + 1, valid)
            case Valid(_, _) => Counted(c, rows[..n + 1], rejected, stale, valid + 1)
  {
    var next := rows[..n + 1];
    assert next[..|next| - 1] == rows[..n] && next[|next| - 1] == rows[n];
  }

  /** The keys of the candidates, each once. */
  ghost predicate Ordering(order: seq<Key>, candidates: map<Key, Item>) {
    Distinct(order) && forall key :: key in order <==> key in candidates
  }

  lemma OrderingNext(order: seq<Key>, candidates: map<Key, Item>, key: Key, item: Item)
    requires Ordering(order, candidates)
    ensures key in candidates ==> Ordering(order, candidates[key := item])
    ensures key !in candidates ==> Ordering(order + [key], candidates[key := item])
  {
    if key !in candidates {
      forall i | 0 <= i < |order| ensures order[i] != key {
        assert order[i] in order;
      }
    }
  }

  /** Some row of key a comes before every row of key b. */
  ghost predicate SeenBefore(c: Context, rows: seq<Row>, n: nat, a: Key, b: Key)
    requires n <= |rows|
  {
    exists i: nat :: Holds(c, rows, n, a, i) && forall j: nat :: Holds(c, rows, n, b, j) ==> i < j
  }

  /** The keys stand in the order of their first valid rows. */
  ghost predicate AsSeen(c: Context, rows: seq<Row>, n: nat, order: seq<Key>)
    requires n <= |rows|
  {
    forall p, q :: 0 <= p < q < |order| ==> SeenBefore(c, rows, n, order[p], order[q])
  }

  lemma SeenStays(c: Context, rows: seq<Row>, n: nat, a: Key, b: Key)
    requires n < |rows| && SeenBefore(c, rows, n, a, b)
    ensures SeenBefore(c, rows, n + 1, a, b)
  {
    var i: nat :| Holds(c, rows, n, a, i) && forall j: nat :: Holds(c, rows, n, b, j) ==> i < j;
    var next := n + 1;
    forall j: nat | Holds(c, rows, next, b, j) ensures i < j {
      assert j < n ==> Holds(c, rows, n, b, j);
    }
    assert Holds(c, rows, next, a, i);
  }

  lemma AsSeenStays(c: Context, rows: seq<Row>, n: nat, order: seq<Key>)
    requires n < |rows| && AsSeen(c, rows, n, order)
    ensures AsSeen(c, rows, n + 1, order)
  {
    forall p, q | 0 <= p < q < |order| ensures SeenBefore(c, rows, n + 1, order[p], order[q]) {
      SeenStays(c, rows, n, order[p], order[q]);
    }
  }

  /** A key that appears for the first time goes to the end. */
  lemma AsSeenNext(c: Context, rows: seq<Row>, n: nat, candidates: map<Key, Item>, from: map<Key, nat>, order: seq<Key>, key: Key)
    requires n < |rows| && Collected(c, rows, n, candidates, from) && AsSeen(c, rows, n, order)
    requires (forall k :: k in order ==> k in candidates) && key !in candidates && Holds(c, rows, n + 1, key, n)
    ensures AsSeen(c, rows, n + 1, order + [key])
  {
    AsSeenStays(c, rows, n, order);
    forall p | 0 <= p < |order| ensures SeenBefore(c, rows, n + 1, order[p], key) {
      assert order[p] in order && KeptFrom(c, rows, n, candidates, from, order[p]);
      assert Holds(c, rows, n + 1, order[p], from[order[p]]);
    }
  }

  /** The rank compared with is the one of the kept row. */
  lemma PriorRank(c: Context, rows: seq<Row>, n: nat, candidates: map<Key, Item>, from: map<Key, nat>, key: Key)
    requires n <= |rows| && Collected(c, rows, n, candidates, from) && key in candidates
    ensures key in from && from[key] < n && Rank(candidates[key].level, c.config.levels) == RankAt(c, rows, from[key])
  {
    assert KeptFrom(c, rows, n, candidates, from, key);
  }

  /** The loop of `_validated_optional_observations`: `order` lists the keys as they first appear. */
  method CollectCandidates(c: Context, rows: seq<Row>)
    returns (candidates: map<Key, Item>, order: seq<Key>, rejected: multiset<Reason>, stale: nat, duplicates: nat,
             ghost from: map<Key, nat>)
    ensures Collected(c, rows, |rows|, candidates, from)
    ensures Ordering(order, candidates) && AsSeen(c, rows, |rows|, order)
    ensures Counted(c, rows, rejected, stale, |order| + duplicates)
  {
    candidates, order, rejected, stale, duplicates, from := map[], [], multiset{}, 0, 0, map[];
    for n := 0 to |rows|
      invariant Collected(c, rows, n, candidates, from)
      invariant Ordering(order, candidates) && AsSeen(c, rows, n, order)
      invariant Counted(c, rows[..n], rejected, stale, |order| + duplicates)
    {
      CountedNext(c, rows, n, rejected, stale, |order| + duplicates);
      AsSeenStays(c, rows, n, order);
      match Judge(c, rows[n]) {
        case Rejected(reason) =>
          CollectedStays(c, rows, n, candidates, from);
          rejected := rejected + multiset{reason};
        case Stale =>
          CollectedStays(c, rows, n, candidates, from);
          stale := stale + 1;
        case Valid(key, item) =>
          OrderingNext(order, candidates, key, item);
          if key in candidates {
            duplicates := duplicates + 1;
            PriorRank(c, rows, n, candidates, from, key);
            if Rank(item.level, c.config.levels) >= Rank(candidates[key].level, c.config.levels) {
              CollectedStays(c, rows, n, candidates, from);
              continue;
            }
          } else {
            AsSeenNext(c, rows, n, candidates, from, order, key);
            order := order + [key];
          }
          CollectedMoves(c, rows, n, candidates, from);
          candidates := candidates[key := item];
          from := from[key := n];
      }
    }
    assert rows[..|rows|] == rows;
  }

  // ---------------------------------------------------------------- the output

  predicate Earlier(a: Item, b: Item) {
    a.matchTime <= b.matchTime
  }

  /** The items of an element's keys, in order. */
  function ItemsOf(candidates: map<Key, Item>, order: seq<Key>, element: int): seq<Item>
    requires forall k :: 0 <= k < |order| ==> order[k] in candidates
  {
    if order == [] then []
    else
      var n := |order| - 1;
      var front := ItemsOf(candidates, order[..n], element);
      if order[n].element == element then front + [candidates[order[n]]] else front
  }

  function LevelsOf(candidates: map<Key, Item>, order: seq<Key>): (levels: multiset<string>)
    requires forall k :: 0 <= k < |order| ==> order[k] in candidates
    ensures |levels| == |order|
  {
    if order == [] then multiset{}
    else LevelsOf(candidates, order[..|order| - 1]) + multiset{candidates[order[|order| - 1]].level}
  }

  /** The elements of the output, each once. */
  ghost predicate Lists(elements: seq<int>, out: map<int, seq<Item>>) {
    && Distinct(elements) && (forall k :: 0 <= k < |elements| ==> elements[k] in out)
    && (forall e :: e in out ==> e in elements)
  }

  /** The lengths of the lists of some elements, added up. */
  function TotalRows(out: map<int, seq<Item>>, elements: seq<int>): nat
    requires forall k :: 0 <= k < |elements| ==> elements[k] in out
  {
    if elements == [] then 0 else TotalRows(out, elements[..|elements| - 1]) + |out[elements[|elements| - 1]]|
  }

  lemma {:induction false} TotalUnchanged(out: map<int, seq<Item>>, after: map<int, seq<Item>>, elements: seq<int>)
    requires forall k :: 0 <= k < |elements| ==> elements[k] in out && elements[k] in after
                                                 && |after[elements[k]]| == |out[elements[k]]|
    ensures TotalRows(after, elements) == TotalRows(out, elements)
  {
    if elements == [] {
    } else {
      TotalUnchanged(out, after, elements[..|elements| - 1]);
    }
  }

  lemma {:induction false} TotalGrows(out: map<int, seq<Item>>, elements: seq<int>, element: int, item: Item)
    requires (forall k :: 0 <= k < |elements| ==> elements[k] in out) && Distinct(elements) && element in elements
    ensures TotalRows(out[element := out[element] + [item]], elements) == TotalRows(out, elements) + 1
  {
    var n := |elements| - 1;
    var after := out[element := out[element] + [item]];
    if elements[n] == element {
      TotalUnchanged(out, after, elements[..n]);
    } else {
      assert element in elements[..n];
      TotalGrows(out, elements[..n], element, item);
    }
  }

  lemma {:induction false} ItemsMembers(candidates: map<Key, Item>, order: seq<Key>, element: int, item: Item)
    requires forall k :: 0 <= k < |order| ==> order[k] in candidates
    ensures item in ItemsOf(candidates, order, element) <==>
            exists k :: 0 <= k < |order| && order[k].element == element && candidates[order[k]] == item
  {
    if order == [] {
    } else {
      var n := |order| - 1;
      ItemsMembers(candidates, order[..n], element, item);
      if item in ItemsOf(candidates, order[..n], element) {
        var k :| 0 <= k < n && order[..n][k].element == element && candidates[order[..n][k]] == item;
        assert order[k] == order[..n][k];
      }
      if k :| 0 <= k < |order| && order[k].element == element && candidates[order[k]] == item {
        assert k < n ==> order[..n][k] == order[k];
      }
    }
  }

  /** The output groups the candidates by element: those without any are not in it. */
  ghost predicate Grouped(candidates: map<Key, Item>, order: seq<Key>, out: map<int, seq<Item>>)
    requires forall k :: 0 <= k < |order| ==> order[k] in candidates
  {
    forall e :: (if e in out then out[e] != [] && out[e] == ItemsOf(candidates, order, e) else ItemsOf(candidates, order, e) == [])
  }

  /** `out.setdefault(element, []).append(item)`. */
  function Append(out: map<int, seq<Item>>, element: int, item: Item): map<int, seq<Item>> {
    out[element := if element in out then out[element] + [item] else [item]]
  }

  lemma GroupedNext(candidates: map<Key, Item>, order: seq<Key>, n: nat, out: map<int, seq<Item>>)
    requires (forall k :: 0 <= k < |order| ==> order[k] in candidates) && n < |order|
    requires Grouped(candidates, order[..n], out)
    ensures Grouped(candidates, order[..n + 1], Append(out, order[n].element, candidates[order[n]]))
  {
    var next := order[..n + 1];
    assert next[..|next| - 1] == order[..n] && next[|next| - 1] == order[n];
    var after := Append(out, order[n].element, candidates[order[n]]);
    forall e ensures if e in after then after[e] != [] && after[e] == ItemsOf(candidates, next, e) else ItemsOf(candidates, next, e) == [] {
    }
  }

  /** Appending one item under an element adds one row, and the element when it is new. */
  lemma TotalNext(out: map<int, seq<Item>>, elements: seq<int>, element: int, item: Item)
    requires Lists(elements, out)
    ensures var more := if element in out then elements else elements + [element];
            Lists(more, Append(out, element, item)) && TotalRows(Append(out, element, item), more) == TotalRows(out, elements) + 1
  {
    var after := Append(out, element, item);
    if element in out {
      TotalGrows(out, elements, element, item);
    } else {
      var more := elements + [element];
      assert more[..|more| - 1] == elements;
      TotalUnchanged(out, after, elements);
    }
  }

  /** The output after the first n keys. */
  ghost predicate Grouping(candidates: map<Key, Item>, order: seq<Key>, n: nat, out: map<int, seq<Item>>, elements: seq<int>)
    requires (forall k :: 0 <= k < |order| ==> order[k] in candidates) && n <= |order|
  {
    Grouped(candidates, order[..n], out) && Lists(elements, out) && TotalRows(out, elements) == n
  }

  lemma GroupingNext(candidates: map<Key, Item>, order: seq<Key>, n: nat, out: map<int, seq<Item>>, elements: seq<int>)
    requires (forall k :: 0 <= k < |order| ==> order[k] in candidates) && n < |order|
    requires Grouping(candidates, order, n, out, elements)
    ensures var e := order[n].element;
            Grouping(candidates, order, n + 1, Append(out, e, candidates[order[n]]), if e in out then elements else elements + [e])
  {
    GroupedNext(candidates, order, n, out);
    TotalNext(out, elements, order[n].element, candidates[order[n]]);
  }

  lemma LevelsNext(candidates: map<Key, Item>, order: seq<Key>, n: nat)
    requires (forall k :: 0 <= k < |order| ==> order[k] in candidates) && n < |order|
    ensures LevelsOf(candidates, order[..n + 1]) == LevelsOf(candidates, order[..n]) + multiset{candidates[order[n]].level}
  {
    assert order[..n + 1][..n] == order[..n];
  }

  /** The grouping loop: `elements` lists the output's elements as they first appear. */
  method GroupByElement(candidates: map<Key, Item>, order: seq<Key>)
    returns (out: map<int, seq<Item>>, elements: seq<int>, levels: multiset<string>)
    requires forall k :: 0 <= k < |order| ==> order[k] in candidates
    ensures Grouping(candidates, order, |order|, out, elements)
    ensures levels == LevelsOf(candidates, order)
  {
    out, elements, levels := map[], [], multiset{};
    for n := 0 to |order|
      invariant Grouping(candidates, order, n, out, elements)
      invariant levels == LevelsOf(candidates, order[..n])
    {
      LevelsNext(candidates, order, n);
      GroupingNext(candidates, order, n, out, elements);
      var item, element := candidates[order[n]], order[n].element;
      levels := levels + multiset{item.level};
      elements := if element in out then elements else elements + [element];
      out := Append(out, element, item);
    }
    assert order[..|order|] == order;
  }

  /** Every list sorted by match time. */
  method SortRows(out: map<int, seq<Item>>, elements: seq<int>) returns (sorted: map<int, seq<Item>>)
    requires Lists(elements, out)
    ensures sorted.Keys == out.Keys && forall e :: e in out ==> sorted[e] == Sort(out[e], Earlier)
  {
    sorted := out;
    for n := 0 to |elements|
      invariant sorted.Keys == out.Keys
      invariant forall k :: 0 <= k < n ==> sorted[elements[k]] == Sort(out[elements[k]], Earlier)
      invariant forall k :: n <= k < |elements| ==> sorted[elements[k]] == out[elements[k]]
    {
      sorted := sorted[elements[n] := Sort(sorted[elements[n]], Earlier)];
    }
    forall e | e in out ensures sorted[e] == Sort(out[e], Earlier) {
      assert e in elements;
      var k :| 0 <= k < |elements| && elements[k] == e;
    }
  }

  // ---------------------------------------------------------------- the whole intake

  /** The stored payload; None when it is missing or empty. */
  datatype Payload = Payload(contractValid: bool, rows: seq<Row>)

  datatype Status = NoExternalObservations | InvalidContractRejected | Validated | NoValidExternalRows

  datatype Audit = Audit(status: Status, inputRows: nat, accepted: nat, rejected: nat, stale: nat, deduplicated: nat,
                         reasons: multiset<Reason>, levels: multiset<string>)

  /** Row i of the payload is the kept row of its key. */
  ghost predicate KeptRow(c: Context, rows: seq<Row>, i: nat) {
    i < |rows| && Judge(c, rows[i]).Valid? && Kept(c, rows, |rows|, Judge(c, rows[i]).key, i)
  }

  /** The item of row i is listed under its element. */
  ghost predicate Delivers(c: Context, rows: seq<Row>, i: nat, element: int, item: Item) {
    KeptRow(c, rows, i) && Judge(c, rows[i]).key.element == element && Judge(c, rows[i]).item == item
  }

  /** The keys of the valid rows. */
  ghost function ValidKeys(c: Context, rows: seq<Row>): set<Key> {
    set i | 0 <= i < |rows| && Judge(c, rows[i]).Valid? :: Judge(c, rows[i]).key
  }

  /** The keys whose kept row has this level. */
  ghost function KeysAt(c: Context, rows: seq<Row>, level: string): set<Key> {
    set i: nat | i < |rows| && KeptRow(c, rows, i) && Judge(c, rows[i]).item.level == level :: Judge(c, rows[i]).key
  }

  function KeysWith(candidates: map<Key, Item>, order: seq<Key>, level: string): set<Key>
    requires forall k :: 0 <= k < |order| ==> order[k] in candidates
  {
    set k | 0 <= k < |order| && candidates[order[k]].level == level :: order[k]
  }

  lemma KeysWithNext(candidates: map<Key, Item>, order: seq<Key>, last: Key, level: string)
    requires (forall k :: 0 <= k < |order| ==> order[k] in candidates) && last in candidates
    ensures var next := order + [last];
            KeysWith(candidates, next, level) ==
            KeysWith(candidates, order, level) + if candidates[last].level == level then {last} else {}
  {
    var next := order + [last];
    assert next[|order|] == last;
    forall key | key in KeysWith(candidates, order, level) ensures key in KeysWith(candidates, next, level) {
      var k :| 0 <= k < |order| && candidates[order[k]].level == level && order[k] == key;
      assert next[k] == key;
    }
  }

  lemma {:induction false} LevelsCount(candidates: map<Key, Item>, order: seq<Key>, level: string)
    requires Distinct(order) && forall k :: 0 <= k < |order| ==> order[k] in candidates
    ensures LevelsOf(candidates, order)[level] == |KeysWith(candidates, order, level)|
  {
    if order == [] {
    } else {
      var front, last := order[..|order| - 1], order[|order| - 1];
      LevelsCount(candidates, front, level);
      assert order == front + [last];
      KeysWithNext(candidates, front, last, level);
      assert last !in KeysWith(candidates, front, level);
    }
  }

  /** The levels counted are those of the kept rows. */
  lemma LevelsAre(c: Context, rows: seq<Row>, candidates: map<Key, Item>, order: seq<Key>, from: map<Key, nat>, level: string)
    requires Collected(c, rows, |rows|, candidates, from) && Ordering(order, candidates)
    requires forall k :: 0 <= k < |order| ==> order[k] in candidates
    ensures LevelsOf(candidates, order)[level] == |KeysAt(c, rows, level)|
  {
    LevelsCount(candidates, order, level);
    forall key ensures key in KeysWith(candidates, order, level) <==> key in KeysAt(c, rows, level) {
      if key in candidates {
        assert KeptFrom(c, rows, |rows|, candidates, from, key) && KeptRow(c, rows, from[key]);
        assert key in order;
        var k :| 0 <= k < |order| && order[k] == key;
      }
    }
    assert KeysWith(candidates, order, level) == KeysAt(c, rows, level);
  }

  /** Every row is rejected, stale or valid. */
  lemma {:induction false} EveryRowIsJudged(c: Context, rows: seq<Row>)
    ensures CountIf(rows, IsRejected(c)) + CountIf(rows, IsStale(c)) + CountIf(rows, IsValid(c)) == |rows|
  {
    if rows == [] {
    } else {
      EveryRowIsJudged(c, rows[..|rows| - 1]);
    }
  }

  lemma KeysAre(c: Context, rows: seq<Row>, candidates: map<Key, Item>, order: seq<Key>, from: map<Key, nat>)
    requires Collected(c, rows, |rows|, candidates, from) && Ordering(order, candidates)
    ensures |order| == |ValidKeys(c, rows)|
  {
    forall key ensures key in ValidKeys(c, rows) <==> key in order {
      if key in order {
        assert KeptFrom(c, rows, |rows|, candidates, from, key);
      }
    }
    DistinctLength(order);
    assert (set key | key in order) == ValidKeys(c, rows);
  }

  /** The output lists exactly the items of the kept rows. */
  lemma OutputIsKept(c: Context, rows: seq<Row>, candidates: map<Key, Item>, order: seq<Key>, from: map<Key, nat>,
                     element: int, item: Item)
    requires Collected(c, rows, |rows|, candidates, from)
    requires forall k :: 0 <= k < |order| ==> order[k] in candidates
    requires forall key :: key in candidates ==> key in order
    ensures item in ItemsOf(candidates, order, element) <==> exists i: nat :: Delivers(c, rows, i, element, item)
  {
    ItemsMembers(candidates, order, element, item);
    if item in ItemsOf(candidates, order, element) {
      var k :| 0 <= k < |order| && order[k].element == element && candidates[order[k]] == item;
      assert KeptFrom(c, rows, |rows|, candidates, from, order[k]);
      assert Delivers(c, rows, from[order[k]], element, item);
    }
    if i: nat :| Delivers(c, rows, i, element, item) {
      var key := Judge(c, rows[i]).key;
      assert KeptFrom(c, rows, |rows|, candidates, from, key);
      var k :| 0 <= k < |order| && order[k] == key;
    }
  }

  ghost predicate Listed(out: map<int, seq<Item>>, element: int, item: Item) {
    element in out && item in out[element]
  }

  /** The key an item of an element is filed under. */
  function KeyOf(element: int, item: Item): Key {
    Key(element, item.competition, item.matchTime)
  }

  /** The output: each kept row's item under its element, in time order, and those of one time in the
      order in which their keys were first seen. */
  ghost predicate Publishes(c: Context, rows: seq<Row>, out: map<int, seq<Item>>) {
    && (forall e, item :: Listed(out, e, item) <==> exists i: nat :: Delivers(c, rows, i, e, item))
    && (forall e, i, j :: e in out && 0 <= i < j < |out[e]| && out[e][i].matchTime == out[e][j].matchTime ==>
          SeenBefore(c, rows, |rows|, KeyOf(e, out[e][i]), KeyOf(e, out[e][j])))
    && (forall e :: e in out ==> out[e] != [] && Ordered(out[e], Earlier))
  }

  /** Items of one element that precede each other belong to keys that do. */
  lemma {:induction false} KeysPrecede(candidates: map<Key, Item>, order: seq<Key>, element: int, a: Item, b: Item) returns (p: nat, q: nat)
    requires (forall k :: 0 <= k < |order| ==> order[k] in candidates) && Precedes(ItemsOf(candidates, order, element), a, b)
    ensures p < q < |order| && order[p].element == order[q].element == element
    ensures candidates[order[p]] == a && candidates[order[q]] == b
  {
    var n := |order| - 1;
    var front, items := ItemsOf(candidates, order[..n], element), ItemsOf(candidates, order, element);
    if Precedes(front, a, b) {
      p, q := KeysPrecede(candidates, order[..n], element, a, b);
    } else {
      var i, j :| 0 <= i < j < |items| && items[i] == a && items[j] == b;
      assert j == |front| && front[i] == a;
      ItemsMembers(candidates, order[..n], element, a);
      var k :| 0 <= k < n && order[..n][k].element == element && candidates[order[..n][k]] == a;
      p, q := k, n;
    }
  }

  lemma FiledUnder(c: Context, rows: seq<Row>, candidates: map<Key, Item>, from: map<Key, nat>, key: Key)
    requires Collected(c, rows, |rows|, candidates, from) && key in candidates
    ensures KeyOf(key.element, candidates[key]) == key
  {
    assert KeptFrom(c, rows, |rows|, candidates, from, key);
  }

  lemma TiesAsSeen(c: Context, rows: seq<Row>, candidates: map<Key, Item>, order: seq<Key>, from: map<Key, nat>,
                   e: int, i: nat, j: nat)
    requires Collected(c, rows, |rows|, candidates, from) && AsSeen(c, rows, |rows|, order)
    requires forall k :: 0 <= k < |order| ==> order[k] in candidates
    requires var sorted := Sort(ItemsOf(candidates, order, e), Earlier);
             i < j < |sorted| && sorted[i].matchTime == sorted[j].matchTime
    ensures var sorted := Sort(ItemsOf(candidates, order, e), Earlier);
            SeenBefore(c, rows, |rows|, KeyOf(e, sorted[i]), KeyOf(e, sorted[j]))
  {
    var sorted := Sort(ItemsOf(candidates, order, e), Earlier);
    SortIsStable(ItemsOf(candidates, order, e), Earlier);
    assert Earlier(sorted[j], sorted[i]);
    var p, q := KeysPrecede(candidates, order, e, sorted[i], sorted[j]);
    FiledUnder(c, rows, candidates, from, order[p]);
    FiledUnder(c, rows, candidates, from, order[q]);
  }

  lemma OutputPublishes(c: Context, rows: seq<Row>, candidates: map<Key, Item>, order: seq<Key>, from: map<Key, nat>,
                        grouped: map<int, seq<Item>>, out: map<int, seq<Item>>)
    requires Collected(c, rows, |rows|, candidates, from)
    requires (forall k :: 0 <= k < |order| ==> order[k] in candidates) && forall key :: key in candidates ==> key in order
    requires Grouped(candidates, order, grouped) && AsSeen(c, rows, |rows|, order)
    requires out.Keys == grouped.Keys && forall e :: e in grouped ==> out[e] == Sort(grouped[e], Earlier)
    ensures Publishes(c, rows, out)
  {
    forall e, item ensures Listed(out, e, item) <==> exists i: nat :: Delivers(c, rows, i, e, item) {
      OutputIsKept(c, rows, candidates, order, from, e, item);
      if e in grouped {
        SortMembers(grouped[e], Earlier);
      }
    }
    forall e, i, j | e in out && 0 <= i < j < |out[e]| && out[e][i].matchTime == out[e][j].matchTime
      ensures SeenBefore(c, rows, |rows|, KeyOf(e, out[e][i]), KeyOf(e, out[e][j]))
    {
      TiesAsSeen(c, rows, candidates, order, from, e, i, j);
    }
    forall e | e in out ensures out[e] != [] && Ordered(out[e], Earlier) {
      SortOrders(grouped[e], Earlier);
      SortPermutes(grouped[e], Earlier);
    }
  }

  lemma SortedTotal(grouped: map<int, seq<Item>>, out: map<int, seq<Item>>, elements: seq<int>)
    requires Lists(elements, grouped)
    requires out.Keys == grouped.Keys && forall e :: e in grouped ==> out[e] == Sort(grouped[e], Earlier)
    ensures Lists(elements, out) && TotalRows(out, elements) == TotalRows(grouped, elements)
  {
    forall k | 0 <= k < |elements| ensures elements[k] in out && |out[elements[k]]| == |grouped[elements[k]]| {
      var e := elements[k];
      assert e in grouped && out[e] == Sort(grouped[e], Earlier);
      SortPermutes(grouped[e], Earlier);
    }
    TotalUnchanged(grouped, out, elements);
  }

  /** The audit of a valid payload. */
  ghost predicate Accounts(c: Context, rows: seq<Row>, audit: Audit) {
    && audit.inputRows == |rows| == audit.accepted + audit.rejected + audit.stale + audit.deduplicated
    && audit.accepted == |ValidKeys(c, rows)| && audit.stale == CountIf(rows, IsStale(c)) && |audit.reasons| == audit.rejected
    && |audit.levels| == audit.accepted && (forall level :: audit.levels[level] == |KeysAt(c, rows, level)|)
    && (forall reason :: audit.reasons[reason] == CountIf(rows, RejectedFor(c, reason)))
    && audit.status == if audit.accepted > 0 then Validated else NoValidExternalRows
  }

  lemma CountsAccount(c: Context, rows: seq<Row>, candidates: map<Key, Item>, order: seq<Key>, from: map<Key, nat>,
                      rejected: multiset<Reason>, stale: nat, duplicates: nat)
    requires Collected(c, rows, |rows|, candidates, from) && Ordering(order, candidates)
    requires Counted(c, rows, rejected, stale, |order| + duplicates)
    requires forall k :: 0 <= k < |order| ==> order[k] in candidates
    ensures Accounts(c, rows, Audit(if |order| > 0 then Validated else NoValidExternalRows, |rows|, |order|, |rejected|, stale,
                                    duplicates, rejected, LevelsOf(candidates, order)))
  {
    KeysAre(c, rows, candidates, order, from);
    forall level ensures LevelsOf(candidates, order)[level] == |KeysAt(c, rows, level)| {
      LevelsAre(c, rows, candidates, order, from, level);
    }
    EveryRowIsJudged(c, rows);
  }

  /** The part after the loop: group the candidates, sort each list, count. */
  method PublishCandidates(c: Context, rows: seq<Row>, candidates: map<Key, Item>, order: seq<Key>, ghost from: map<Key, nat>)
    returns (out: map<int, seq<Item>>, accepted: nat, levels: multiset<string>)
    requires Collected(c, rows, |rows|, candidates, from) && AsSeen(c, rows, |rows|, order)
    requires (forall k :: 0 <= k < |order| ==> order[k] in candidates) && forall key :: key in candidates ==> key in order
    ensures Publishes(c, rows, out) && accepted == |order| && levels == LevelsOf(candidates, order)
  {
    var grouped, elements, counted := GroupByElement(candidates, order);
    assert order[..|order|] == order;
    out := SortRows(grouped, elements);
    OutputPublishes(c, rows, candidates, order, from, grouped, out);
    SortedTotal(grouped, out, elements);
    accepted, levels := TotalRows(out, elements), counted;
  }

  /** The intake of a payload with a valid contract. */
  method Intake(c: Context, rows: seq<Row>) returns (out: map<int, seq<Item>>, audit: Audit)
    ensures Publishes(c, rows, out) && Accounts(c, rows, audit)
  {
    var candidates, order, rejected, stale, duplicates, from := CollectCandidates(c, rows);
    forall k | 0 <= k < |order| ensures order[k] in candidates {
      assert order[k] in order;
    }
    var accepted, levels;
    out, accepted, levels := PublishCandidates(c, rows, candidates, order, from);
    CountsAccount(c, rows, candidates, order, from, rejected, stale, duplicates);
    audit := Audit(if accepted > 0 then Validated else NoValidExternalRows, |rows|, accepted, |rejected|, stale, duplicates,
                   rejected, levels);
  }

  /** `_validated_optional_observations`. */
  method ValidatedOptionalObservations(c: Context, payload: Option<Payload>) returns (out: map<int, seq<Item>>, audit: Audit)
    ensures audit.inputRows == audit.accepted + audit.rejected + audit.stale + audit.deduplicated
    ensures payload.None? ==> out == map[] && audit == Audit(NoExternalObservations, 0, 0, 0, 0, 0, multiset{}, multiset{})
    ensures payload.Some? && !payload.value.contractValid ==>
              var n := |payload.value.rows|;
              out == map[] && audit == Audit(InvalidContractRejected, n, 0, n, 0, 0, multiset{}[InvalidContract := n], multiset{})
    ensures payload.Some? && payload.value.contractValid ==>
              Publishes(c, payload.value.rows, out) && Accounts(c, payload.value.rows, audit)
  {
    if payload.None? {
      return map[], Audit(NoExternalObservations, 0, 0, 0, 0, 0, multiset{}, multiset{});
    }
    var rows := payload.value.rows;
    if !payload.value.contractValid {
      return map[], Audit(InvalidContractRejected, |rows|, 0, |rows|, 0, 0, multiset{}[InvalidContract := |rows|], multiset{});
    }
    out, audit := Intake(c, rows);
  }
}
