/** Lifecycle of a scoring gameweek, and what successive published runs report about it. */
module FixtureLifecycle {
  import opened Wrappers
  import opened Counting
  import opened Tally

  /** A flag of the feed: absent or unusable values are None. `id` is None when it is not a number;
      `scheduled` is false when both the kickoff time and the event are missing. */
  datatype Fixture = Fixture(id: Option<int>, event: Option<int>, started: Option<bool>, finished: Option<bool>,
                             provisional: Option<bool>, kickoffDate: Option<string>, scheduled: bool)

  datatype FixtureState = NotStarted | Live | Provisional90 | Final | UnknownState

  datatype Substate =
    | InsufficientLifecycle | OfficialFinished | OfficialProvisional | ConflictingFlags | InProgress | Postponed | Scheduled

  /** `classify_fixture_state`. */
  function Classify(f: Fixture): (FixtureState, Substate) {
    if f.started.None? || f.finished.None? then (UnknownState, InsufficientLifecycle)
    else if f.finished.value then (Final, OfficialFinished)
    else if f.provisional == Some(true) && f.started.value then (Provisional90, OfficialProvisional)
    else if f.provisional == Some(true) then (UnknownState, ConflictingFlags)
    else if f.started.value then (Live, InProgress)
    else (NotStarted, if f.scheduled then Scheduled else Postponed)
  }

  datatype PrimaryMode = PreDeadline | Match | PostAllMatch

  datatype Transition = Stay(mode: PrimaryMode) | PostMatchThenMatch | PostMatchThenPostAllMatch

  datatype Lifecycle = Lifecycle(mode: PrimaryMode, transition: Transition, fixtureCount: nat,
                                 live: seq<int>, provisional: seq<int>, completed: seq<int>, notStarted: seq<int>,
                                 sincePrevious: seq<int>)

  function Identity(f: Fixture, index: nat): int {
    if f.id.Some? then f.id.value else -(index + 1)
  }

  /** The gameweek of a row, -1 when it has none. */
  function EventOf(event: Option<int>): int {
    if event.None? || event.value == 0 then -1 else event.value
  }

  function InGameweek(gw: int): Fixture -> bool {
    (f: Fixture) => EventOf(f.event) == gw
  }

  /** Identities of the rows in state st, in feed order. */
  function IdsIn(rows: seq<Fixture>, st: FixtureState): seq<int> {
    if rows == [] then []
    else
      var n := |rows| - 1;
      IdsIn(rows[..n], st) + if Classify(rows[n]).0 == st then [Identity(rows[n], n)] else []
  }

  /** Rows that are neither final, provisional nor live. */
  function OtherIds(rows: seq<Fixture>): seq<int> {
    if rows == [] then []
    else
      var n := |rows| - 1;
      OtherIds(rows[..n])
      + if Classify(rows[n]).0 == NotStarted || Classify(rows[n]).0 == UnknownState then [Identity(rows[n], n)] else []
  }

  function ToSet(ids: seq<int>): set<int> {
    set x | x in ids
  }

  function NotIn(ids: set<int>): int -> bool {
    (x: int) => x !in ids
  }

  function ModeOf(rows: seq<Fixture>): PrimaryMode {
    if rows != [] && |IdsIn(rows, Final)| == |rows| then PostAllMatch
    else if IdsIn(rows, Live) != [] || IdsIn(rows, Provisional90) != [] || IdsIn(rows, Final) != [] then Match
    else PreDeadline
  }

  /** The lifecycle of the gameweek's rows, given the fixtures completed at the previous run. */
  function Resolve(rows: seq<Fixture>, previous: set<int>): Lifecycle {
    var completed := IdsIn(rows, Final);
    var newly := Filter(completed, NotIn(previous));
    var mode := ModeOf(rows);
    Lifecycle(mode,
              if newly == [] then Stay(mode) else if mode == PostAllMatch then PostMatchThenPostAllMatch else PostMatchThenMatch,
              |rows|, IdsIn(rows, Live), IdsIn(rows, Provisional90), completed, OtherIds(rows), newly)
  }

  /** `classify_scoring_gw_lifecycle`. */
  method ClassifyLifecycle(fixtures: seq<Fixture>, scoringGw: Option<int>, previousCompleted: seq<int>) returns (r: Lifecycle)
    ensures scoringGw == None ==> r == Lifecycle(PreDeadline, Stay(PreDeadline), 0, [], [], [], [], [])
    ensures scoringGw.Some? ==>
              r == Resolve(Filter(fixtures, InGameweek(scoringGw.value)), ToSet(previousCompleted))
  {
    if scoringGw == None {
      return Lifecycle(PreDeadline, Stay(PreDeadline), 0, [], [], [], [], []);
    }
    var rows := Filter(fixtures, InGameweek(scoringGw.value));
    var live: seq<int>, provisional: seq<int>, completed: seq<int>, notStarted: seq<int> := [], [], [], [];
    for index := 0 to |rows|
      invariant live == IdsIn(rows[..index], Live)
      invariant provisional == IdsIn(rows[..index], Provisional90)
      invariant completed == IdsIn(rows[..index], Final)
      invariant notStarted == OtherIds(rows[..index])
    {
      assert rows[..index + 1][..index] == rows[..index];
      var identity := Identity(rows[index], index);
      match Classify(rows[index]).0 {
        case Final => completed := completed + [identity];
        case Provisional90 => provisional := provisional + [identity];
        case Live => live := live + [identity];
        case _ => notStarted := notStarted + [identity];
      }
    }
    assert rows[..|rows|] == rows;
    var anyStarted := live != [] || provisional != [] || completed != [];
    var allComplete := |rows| > 0 && |completed| == |rows|;
    var mode := if allComplete then PostAllMatch else if anyStarted then Match else PreDeadline;
    var previous := ToSet(previousCompleted);
    var newly := Filter(completed, NotIn(previous));
    var transition :=
      if newly != [] && allComplete then PostMatchThenPostAllMatch
      else if newly != [] then PostMatchThenMatch
      else Stay(mode);
    return Lifecycle(mode, transition, |rows|, live, provisional, completed, notStarted, newly);
  }

  // ---------------------------------------------------------------- one run

  /** The state of a fixture, read off its flags. A provisional fixture that has not started is in none
      of the four known states. */
  lemma StateMeans(f: Fixture)
    ensures var (state, substate) := Classify(f);
            && (state == Final <==> f.finished == Some(true) && f.started != None)
            && (state == Provisional90 <==> f.started == Some(true) && f.finished == Some(false) && f.provisional == Some(true))
            && (state == Live <==> f.started == Some(true) && f.finished == Some(false) && f.provisional != Some(true))
            && (state == NotStarted <==> f.started == Some(false) && f.finished == Some(false) && f.provisional != Some(true))
            && (substate == OfficialFinished <==> state == Final) && (substate == OfficialProvisional <==> state == Provisional90)
            && (substate == InProgress <==> state == Live)
            && (substate == Scheduled <==> state == NotStarted && f.scheduled)
            && (substate == Postponed <==> state == NotStarted && !f.scheduled)
            && (substate == InsufficientLifecycle <==> f.started == None || f.finished == None)
  {
  }

  function InState(states: set<FixtureState>): Fixture -> bool {
    (f: Fixture) => Classify(f).0 in states
  }

  /** The ids listed are those of the rows in the given states, in feed order: the row that is the m-th
      such row has its id, or failing that minus its position counted from one, at place m. */
  ghost predicate ListsIds(rows: seq<Fixture>, states: set<FixtureState>, ids: seq<int>) {
    && |ids| == CountIf(rows, InState(states))
    && forall k :: 0 <= k < |rows| && Classify(rows[k]).0 in states ==>
         var m := CountIf(rows[..k], InState(states));
         m < |ids| && (if rows[k].id != None then rows[k].id == Some(ids[m]) else ids[m] == -1 - k)
  }

  lemma ListsNext(rows: seq<Fixture>, n: nat, states: set<FixtureState>, ids: seq<int>)
    requires n + 1 == |rows| && ListsIds(rows[..n], states, ids)
    ensures ListsIds(rows, states, ids + if Classify(rows[n]).0 in states then [Identity(rows[n], n)] else [])
  {
    forall k | 0 <= k < n ensures rows[..n][..k] == rows[..k] && rows[..n][k] == rows[k] {
    }
  }

  lemma {:induction false} IdsInOrder(rows: seq<Fixture>, st: FixtureState)
    ensures ListsIds(rows, {st}, IdsIn(rows, st))
  {
    if rows != [] {
      IdsInOrder(rows[..|rows| - 1], st);
      ListsNext(rows, |rows| - 1, {st}, IdsIn(rows[..|rows| - 1], st));
    }
  }

  lemma {:induction false} OthersInOrder(rows: seq<Fixture>)
    ensures ListsIds(rows, {NotStarted, UnknownState}, OtherIds(rows))
  {
    if rows != [] {
      OthersInOrder(rows[..|rows| - 1]);
      ListsNext(rows, |rows| - 1, {NotStarted, UnknownState}, OtherIds(rows[..|rows| - 1]));
    }
  }

  /** What a run publishes about a gameweek: its fixtures by state, each list in feed order. */
  lemma ListsMean(rows: seq<Fixture>, previous: set<int>)
    ensures var r := Resolve(rows, previous);
            && r.fixtureCount == |rows| && ListsIds(rows, {Live}, r.live) && ListsIds(rows, {Provisional90}, r.provisional)
            && ListsIds(rows, {Final}, r.completed) && ListsIds(rows, {NotStarted, UnknownState}, r.notStarted)
  {
    IdsInOrder(rows, Live);
    IdsInOrder(rows, Provisional90);
    IdsInOrder(rows, Final);
    OthersInOrder(rows);
  }

  /** The mode follows from the states, and the transition goes through POST_MATCH exactly when some
      completed fixture was not completed before. */
  lemma TransitionMeans(rows: seq<Fixture>, previous: set<int>)
    ensures var r := Resolve(rows, previous);
            && (r.mode == PostAllMatch <==> rows != [] && forall f :: f in rows ==> Classify(f).0 == Final)
            && (r.mode == PreDeadline <==> forall f :: f in rows ==> Classify(f).0 in {NotStarted, UnknownState})
            && (forall x :: x in r.sincePrevious <==> x in r.completed && x !in previous)
            && (r.transition == Stay(r.mode) <==> r.sincePrevious == [])
            && (r.sincePrevious != [] ==>
                  r.transition == if r.mode == PostAllMatch then PostMatchThenPostAllMatch else PostMatchThenMatch)
  {
    FilterMembers(IdsIn(rows, Final), NotIn(previous));
    ModeOfStates(rows);
  }

  lemma ModeOfStates(rows: seq<Fixture>)
    ensures ModeOf(rows) == PostAllMatch <==> rows != [] && forall f :: f in rows ==> Classify(f).0 == Final
    ensures ModeOf(rows) == PreDeadline <==> forall f :: f in rows ==> Classify(f).0 in {NotStarted, UnknownState}
  {
    AllFinalIff(rows);
    if forall f :: f in rows ==> Classify(f).0 in {NotStarted, UnknownState} {
      NothingIn(rows, Final);
      NothingIn(rows, Live);
      NothingIn(rows, Provisional90);
    } else {
      var f :| f in rows && Classify(f).0 !in {NotStarted, UnknownState};
      var k :| 0 <= k < |rows| && rows[k] == f;
      IdsMembers(rows, Classify(f).0, Identity(f, k));
    }
  }

  /** The rows of a gameweek are those that name it; those without one, or with zero, count as minus one. */
  lemma GameweekRows(fixtures: seq<Fixture>, gw: int, f: Fixture)
    ensures f in Filter(fixtures, InGameweek(gw)) <==>
            f in fixtures && ((gw != 0 && f.event == Some(gw)) || (gw == -1 && f.event in {None, Some(0)}))
  {
    FilterMembers(fixtures, InGameweek(gw));
  }

  /** The four lists account for every fixture of the gameweek once. */
  lemma {:induction false} ListsPartition(rows: seq<Fixture>)
    ensures |IdsIn(rows, Live)| + |IdsIn(rows, Provisional90)| + |IdsIn(rows, Final)| + |OtherIds(rows)| == |rows|
  {
    if rows == [] {
    } else {
      ListsPartition(rows[..|rows| - 1]);
    }
  }

  lemma {:induction false} IdsMembers(rows: seq<Fixture>, st: FixtureState, x: int)
    ensures x in IdsIn(rows, st) <==> exists k :: 0 <= k < |rows| && Classify(rows[k]).0 == st && Identity(rows[k], k) == x
  {
    if rows == [] {
    } else {
      var n := |rows| - 1;
      IdsMembers(rows[..n], st, x);
      if x in IdsIn(rows[..n], st) {
        var k :| 0 <= k < n && Classify(rows[..n][k]).0 == st && Identity(rows[..n][k], k) == x;
        assert rows[k] == rows[..n][k];
      }
      if k :| 0 <= k < |rows| && Classify(rows[k]).0 == st && Identity(rows[k], k) == x {
        assert k < n ==> rows[..n][k] == rows[k];
      }
    }
  }

  lemma AllFinalIff(rows: seq<Fixture>)
    ensures |IdsIn(rows, Final)| == |rows| <==> forall k :: 0 <= k < |rows| ==> Classify(rows[k]).0 == Final
  {
    AllFinalPrefix(rows);
  }

  lemma {:induction false} AllFinalPrefix(rows: seq<Fixture>)
    ensures |IdsIn(rows, Final)| <= |rows|
    ensures |IdsIn(rows, Final)| == |rows| <==> forall k :: 0 <= k < |rows| ==> Classify(rows[k]).0 == Final
  {
    if rows == [] {
    } else {
      var n := |rows| - 1;
      AllFinalPrefix(rows[..n]);
      assert forall k :: 0 <= k < n ==> rows[..n][k] == rows[k];
      assert rows[n] == rows[|rows| - 1];
    }
  }

  // ---------------------------------------------------------------- bonus finalisation

  datatype StatusRow = StatusRow(event: Option<int>, date: Option<string>, bonusAdded: Option<bool>)

  datatype EventMeta = EventMeta(finished: Option<bool>, dataChecked: Option<bool>)

  datatype BonusState =
    Unavailable | BonusNotStarted | BonusFinal | AwaitingBonus | PartiallyFinalized | LiveProvisional

  datatype MatchState = NoMatchState | NoneStarted | Finalized | AwaitingDataCheck | InPlay

  function FinalizedDates(statuses: seq<StatusRow>, gw: int): set<string> {
    set k | 0 <= k < |statuses| && EventOf(statuses[k].event) == gw && statuses[k].bonusAdded == Some(true)
            && statuses[k].date.Some? && statuses[k].date.value != "" :: statuses[k].date.value
  }

  function AllFinished(rows: seq<Fixture>): bool {
    rows != [] && forall f :: f in rows ==> f.finished == Some(true)
  }

  /** `classify_bonus_lifecycle`. */
  function BonusLifecycle(fixtures: seq<Fixture>, scoringGw: Option<int>, statuses: seq<StatusRow>, meta: EventMeta): (BonusState, MatchState) {
    if scoringGw == None then (Unavailable, NoMatchState)
    else Bonus(Filter(fixtures, InGameweek(scoringGw.value)), FinalizedDates(statuses, scoringGw.value), meta)
  }

  /** The known dates of the finished fixtures. */
  function FinishedDates(rows: seq<Fixture>): set<string> {
    set f | f in rows && f.finished == Some(true) && f.kickoffDate.Some? :: f.kickoffDate.value
  }

  /** The same on the gameweek's rows and the finalized dates. */
  function Bonus(rows: seq<Fixture>, finalized: set<string>, meta: EventMeta): (BonusState, MatchState) {
    var finishedDates := FinishedDates(rows);
    var missingDate := exists f :: f in rows && f.finished == Some(true) && f.kickoffDate.None?;
    var anyFinished := exists f :: f in rows && f.finished == Some(true);
    var anyStarted := exists f :: f in rows && (f.started == Some(true) || f.finished == Some(true));
    var bonusDone := anyFinished && !missingDate && finishedDates <= finalized;
    var dataFinal := meta.finished == Some(true) && meta.dataChecked == Some(true) && AllFinished(rows);
    if rows == [] then (Unavailable, NoMatchState)
    else if !anyStarted then (BonusNotStarted, NoneStarted)
    else if AllFinished(rows) && bonusDone && dataFinal then (BonusFinal, Finalized)
    else if AllFinished(rows) then (AwaitingBonus, if dataFinal then Finalized else AwaitingDataCheck)
    else if finalized * finishedDates != {} then (PartiallyFinalized, InPlay)
    else (LiveProvisional, InPlay)
  }

  ghost predicate Begun(rows: seq<Fixture>) {
    exists f :: f in rows && (f.started == Some(true) || f.finished == Some(true))
  }

  predicate DatedIn(f: Fixture, dates: set<string>) {
    f.kickoffDate.Some? && f.kickoffDate.value in dates
  }

  /** The state of the bonus and of the matches, read off the flags and the finalized dates. */
  lemma BonusMeans(rows: seq<Fixture>, finalized: set<string>, meta: EventMeta)
    ensures var (bonus, matches) := Bonus(rows, finalized, meta);
            && (bonus == Unavailable <==> rows == []) && (matches == NoMatchState <==> rows == [])
            && (bonus == BonusNotStarted <==> rows != [] && !Begun(rows)) && (matches == NoneStarted <==> bonus == BonusNotStarted)
            && (matches == InPlay <==> Begun(rows) && !AllFinished(rows))
            && (matches == Finalized <==> AllFinished(rows) && meta == EventMeta(Some(true), Some(true)))
            && (bonus == PartiallyFinalized <==>
                matches == InPlay && exists f :: f in rows && f.finished == Some(true) && DatedIn(f, finalized))
            && (bonus == BonusFinal <==>
                matches == Finalized && forall f :: f in rows ==> DatedIn(f, finalized))
            && (bonus == AwaitingBonus <==> AllFinished(rows) && bonus != BonusFinal)
  {
    if AllFinished(rows) {
      assert rows[0] in rows && Begun(rows);
    }
    var dates := FinishedDates(rows);
    if f :| f in rows && f.finished == Some(true) && DatedIn(f, finalized) {
      assert f.kickoffDate.value in dates * finalized;
    }
    if dates * finalized != {} {
      var date :| date in dates * finalized;
    }
  }

  /** A date is finalized when a row of the gameweek says that its bonus was added. */
  lemma FinalizedIff(statuses: seq<StatusRow>, gw: int, date: string)
    ensures gw > 0 && date != "" ==>
              (date in FinalizedDates(statuses, gw) <==>
               exists s :: s in statuses && s.event == Some(gw) && s.date == Some(date) && s.bonusAdded == Some(true))
  {
    if s :| s in statuses && s.event == Some(gw) && s.date == Some(date) && s.bonusAdded == Some(true) {
      var k :| 0 <= k < |statuses| && statuses[k] == s;
    }
  }

  /** The two classifiers read the same feed but not the same flags. When the bonus is final the
      lifecycle agrees that the gameweek is over if and only if every `started` flag is a boolean. */
  lemma BonusFinalMeansOver(fixtures: seq<Fixture>, gw: int, statuses: seq<StatusRow>, meta: EventMeta, previous: set<int>)
    requires BonusLifecycle(fixtures, Some(gw), statuses, meta).0 == BonusFinal
    ensures var rows := Filter(fixtures, InGameweek(gw));
            Resolve(rows, previous).mode == PostAllMatch <==> forall f :: f in rows ==> f.started.Some?
  {
    var rows := Filter(fixtures, InGameweek(gw));
    AllFinalIff(rows);
    if forall f :: f in rows ==> f.started.Some? {
      forall k | 0 <= k < |rows| ensures Classify(rows[k]).0 == Final {
        assert rows[k] in rows;
      }
    } else {
      var f :| f in rows && f.started.None?;
      var k :| 0 <= k < |rows| && rows[k] == f;
      assert Classify(rows[k]).0 != Final;
    }
  }

  /** A fixture that is finished on a finalized date, with a `started` flag that is no boolean. */
  const FLAGLESS := Fixture(Some(1), Some(7), None, Some(true), None, Some("2026-09-12"), true)

  /** With it the bonus of the gameweek is final while the lifecycle has not even begun. */
  lemma BonusWithoutLifecycle()
    ensures BonusLifecycle([FLAGLESS], Some(7), [StatusRow(Some(7), Some("2026-09-12"), Some(true))],
                           EventMeta(Some(true), Some(true))).0 == BonusFinal
    ensures Resolve(Filter([FLAGLESS], InGameweek(7)), {}).mode == PreDeadline
  {
    var row := StatusRow(Some(7), Some("2026-09-12"), Some(true));
    OneFlagless();
    assert [row][0] == row;
    FlaglessIsFinal([row]);
    ModeOfStates([FLAGLESS]);
  }

  lemma FlaglessIsFinal(statuses: seq<StatusRow>)
    requires StatusRow(Some(7), FLAGLESS.kickoffDate, Some(true)) in statuses
    ensures BonusLifecycle([FLAGLESS], Some(7), statuses, EventMeta(Some(true), Some(true))).0 == BonusFinal
  {
    OneFlagless();
    FinalizedIff(statuses, 7, FLAGLESS.kickoffDate.value);
    ProvisionalIsNoAuthority([FLAGLESS], 7, statuses, EventMeta(Some(true), Some(true)));
  }

  lemma OneFlagless()
    ensures Filter([FLAGLESS], InGameweek(7)) == [FLAGLESS]
  {
    assert [FLAGLESS][..0] == [];
  }

  /** What finalises the bonus: every fixture finished on a date whose bonus was added, and an event
      that is finished and data-checked. The provisional flags have no say. */
  lemma ProvisionalIsNoAuthority(fixtures: seq<Fixture>, gw: int, statuses: seq<StatusRow>, meta: EventMeta)
    ensures BonusLifecycle(fixtures, Some(gw), statuses, meta).0 == BonusFinal <==>
            && var rows := Filter(fixtures, InGameweek(gw));
            && AllFinished(rows) && meta == EventMeta(Some(true), Some(true))
            && forall f :: f in rows ==> f.kickoffDate.Some? && f.kickoffDate.value in FinalizedDates(statuses, gw)
  {
    var rows := Filter(fixtures, InGameweek(gw));
    if AllFinished(rows) {
      assert rows[0] in rows;
    }
  }

  // ---------------------------------------------------------------- successive runs

  ghost predicate DistinctIds(rows: seq<Fixture>) {
    forall i, j :: 0 <= i < j < |rows| ==> rows[i].id != rows[j].id
  }

  /** Usable rows: an id of their own and both lifecycle flags. */
  ghost predicate Usable(rows: seq<Fixture>) {
    DistinctIds(rows) && forall f :: f in rows ==> f.id.Some? && f.started.Some? && f.finished.Some?
  }

  ghost predicate Reaches(f: Fixture, later: seq<Fixture>) {
    exists g :: g in later && g.id == f.id
                && (f.started == Some(true) ==> g.started == Some(true))
                && (f.finished == Some(true) ==> g.finished == Some(true))
  }

  ghost predicate Appears(f: Fixture, earlier: seq<Fixture>) {
    exists g :: g in earlier && g.id == f.id
  }

  /** The same fixtures, in any order, with flags that only go from false to true. */
  ghost predicate Evolves(earlier: seq<Fixture>, later: seq<Fixture>) {
    && (forall f :: f in earlier ==> Reaches(f, later))
    && (forall g :: g in later ==> Appears(g, earlier))
  }

  /** The gameweek's rows at each published run. */
  ghost predicate Season(feeds: seq<seq<Fixture>>) {
    && (forall k :: 0 <= k < |feeds| ==> Usable(feeds[k]))
    && (forall k :: 0 < k < |feeds| ==> Follows(feeds, k))
  }

  ghost predicate Follows(feeds: seq<seq<Fixture>>, k: nat)
    requires 0 < k < |feeds|
  {
    Evolves(feeds[k - 1], feeds[k])
  }

  ghost predicate Finished(rows: seq<Fixture>, x: int) {
    exists f :: f in rows && f.id == Some(x) && f.finished == Some(true)
  }

  /** What run k publishes: the lifecycle of its rows, given the completed ids run k - 1 published. */
  function Published(feeds: seq<seq<Fixture>>, before: set<int>, k: nat): Lifecycle
    requires k < |feeds|
  {
    if k == 0 then Resolve(feeds[0], before)
    else Resolve(feeds[k], ToSet(Published(feeds, before, k - 1).completed))
  }

  lemma CompletedAre(rows: seq<Fixture>, x: int)
    requires Usable(rows)
    ensures x in IdsIn(rows, Final) <==> Finished(rows, x)
  {
    IdsMembers(rows, Final, x);
    if x in IdsIn(rows, Final) {
      var k :| 0 <= k < |rows| && Classify(rows[k]).0 == Final && Identity(rows[k], k) == x;
      assert rows[k] in rows;
    }
    if Finished(rows, x) {
      var f :| f in rows && f.id == Some(x) && f.finished == Some(true);
      var k :| 0 <= k < |rows| && rows[k] == f;
      assert Classify(rows[k]).0 == Final && Identity(rows[k], k) == x;
    }
  }

  lemma ModeMeans(rows: seq<Fixture>)
    requires Usable(rows)
    ensures ModeOf(rows) == PostAllMatch <==> AllFinished(rows)
    ensures ModeOf(rows) == PreDeadline <==> forall f :: f in rows ==> f.started == f.finished == Some(false)
  {
    AllFinalIff(rows);
    forall k | 0 <= k < |rows| ensures Classify(rows[k]).0 == Final <==> rows[k].finished == Some(true) {
      assert rows[k] in rows;
    }
    assert AllFinished(rows) <==> rows != [] && forall k :: 0 <= k < |rows| ==> rows[k].finished == Some(true);
    if f :| f in rows && !(f.started == f.finished == Some(false)) {
      var k :| 0 <= k < |rows| && rows[k] == f;
      IdsMembers(rows, Classify(f).0, Identity(f, k));
    } else {
      NothingIn(rows, Final);
      NothingIn(rows, Live);
      NothingIn(rows, Provisional90);
    }
  }

  lemma {:induction false} NothingIn(rows: seq<Fixture>, st: FixtureState)
    requires forall f :: f in rows ==> Classify(f).0 != st
    ensures IdsIn(rows, st) == []
  {
    if rows == [] {
    } else {
      NothingIn(rows[..|rows| - 1], st);
    }
  }

  lemma {:induction false} FinishedStays(feeds: seq<seq<Fixture>>, x: int, j: nat, k: nat)
    requires Season(feeds) && j <= k < |feeds| && Finished(feeds[j], x)
    ensures Finished(feeds[k], x)
    decreases k - j
  {
    if j == k {
    } else {
      FinishedStays(feeds, x, j, k - 1);
      var f :| f in feeds[k - 1] && f.id == Some(x) && f.finished == Some(true);
      assert Follows(feeds, k) && Reaches(f, feeds[k]);
    }
  }

  /** A fixture is new at run k when it is finished there and was not at run k - 1. */
  lemma NewAt(feeds: seq<seq<Fixture>>, before: set<int>, k: nat, x: int)
    requires Season(feeds) && k < |feeds|
    ensures x in Published(feeds, before, k).sincePrevious <==>
            Finished(feeds[k], x) && (k == 0 ==> x !in before) && (k > 0 ==> !Finished(feeds[k - 1], x))
  {
    CompletedAre(feeds[k], x);
    if k == 0 {
      FilterMembers(IdsIn(feeds[0], Final), NotIn(before));
    } else {
      CompletedAre(feeds[k - 1], x);
      var previous := ToSet(Published(feeds, before, k - 1).completed);
      FilterMembers(IdsIn(feeds[k], Final), NotIn(previous));
    }
  }

  /** Every fixture that is finished by the last run is reported as newly completed at exactly one
      run, the first at which it is finished, unless it was known as completed before the first run. */
  lemma ReportedExactlyOnce(feeds: seq<seq<Fixture>>, before: set<int>, x: int) returns (at: nat)
    requires Season(feeds) && feeds != [] && Finished(feeds[|feeds| - 1], x)
    requires Finished(feeds[0], x) ==> x !in before
    ensures at < |feeds| && Finished(feeds[at], x)
    ensures forall k :: 0 <= k < |feeds| ==> (x in Published(feeds, before, k).sincePrevious <==> k == at)
  {
    at := 0;
    while !Finished(feeds[at], x)
      invariant at < |feeds| && forall k :: 0 <= k < at ==> !Finished(feeds[k], x)
      decreases |feeds| - at
    {
      at := at + 1;
    }
    forall k | 0 <= k < |feeds| ensures x in Published(feeds, before, k).sincePrevious <==> k == at {
      NewAt(feeds, before, k, x);
      if k > at {
        FinishedStays(feeds, x, at, k - 1);
      }
    }
  }

  /** A fixture that is not finished by the last run is never reported. */
  lemma NeverReported(feeds: seq<seq<Fixture>>, before: set<int>, x: int, k: nat)
    requires Season(feeds) && k < |feeds| && !Finished(feeds[|feeds| - 1], x)
    ensures x !in Published(feeds, before, k).sincePrevious
  {
    NotYetFinished(feeds, x, k);
    NewAt(feeds, before, k, x);
  }

  lemma NotYetFinished(feeds: seq<seq<Fixture>>, x: int, k: nat)
    requires Season(feeds) && k < |feeds| && !Finished(feeds[|feeds| - 1], x)
    ensures !Finished(feeds[k], x)
  {
    if Finished(feeds[k], x) {
      FinishedStays(feeds, x, k, |feeds| - 1);
    }
  }

  function Rank(m: PrimaryMode): nat {
    match m case PreDeadline => 0 case Match => 1 case PostAllMatch => 2
  }

  lemma AllFinishedStays(a: seq<Fixture>, b: seq<Fixture>)
    requires Usable(a) && Usable(b) && Evolves(a, b) && AllFinished(a)
    ensures AllFinished(b)
  {
    assert a[0] in a && Reaches(a[0], b);
    forall g | g in b ensures g.finished == Some(true) {
      assert Appears(g, a);
      var f :| f in a && f.id == g.id;
      assert Reaches(f, b);
      var h :| h in b && h.id == f.id && h.finished == Some(true);
    }
  }

  ghost predicate Underway(rows: seq<Fixture>) {
    exists f :: f in rows && !(f.started == f.finished == Some(false))
  }

  lemma UnderwayStays(a: seq<Fixture>, b: seq<Fixture>)
    requires Usable(a) && Usable(b) && Evolves(a, b) && Underway(a)
    ensures Underway(b)
  {
    var f :| f in a && !(f.started == f.finished == Some(false));
    assert Reaches(f, b);
    var g :| g in b && g.id == f.id && (f.started == Some(true) ==> g.started == Some(true))
             && (f.finished == Some(true) ==> g.finished == Some(true));
    assert f.started.value || f.finished.value;
    assert !(g.started == g.finished == Some(false));
  }

  lemma ModeStep(a: seq<Fixture>, b: seq<Fixture>)
    requires Usable(a) && Usable(b) && Evolves(a, b)
    ensures Rank(ModeOf(a)) <= Rank(ModeOf(b))
  {
    ModeMeans(a);
    ModeMeans(b);
    if AllFinished(a) {
      AllFinishedStays(a, b);
    } else if Underway(a) {
      UnderwayStays(a, b);
    }
  }

  lemma {:induction false} RankOnlyGrows(feeds: seq<seq<Fixture>>, j: nat, k: nat)
    requires Season(feeds) && j <= k < |feeds|
    ensures Rank(ModeOf(feeds[j])) <= Rank(ModeOf(feeds[k]))
    decreases k - j
  {
    if j == k {
    } else {
      RankOnlyGrows(feeds, j, k - 1);
      assert Follows(feeds, k);
      ModeStep(feeds[k - 1], feeds[k]);
    }
  }

  /** The mode only ever moves PRE_DEADLINE, MATCH, POST_ALL_MATCH. */
  lemma ModeOnlyAdvances(feeds: seq<seq<Fixture>>, before: set<int>, j: nat, k: nat)
    requires Season(feeds) && j <= k < |feeds|
    ensures Rank(Published(feeds, before, j).mode) <= Rank(Published(feeds, before, k).mode)
  {
    RankOnlyGrows(feeds, j, k);
  }

  lemma {:induction false} StaysOver(feeds: seq<seq<Fixture>>, j: nat, k: nat)
    requires Season(feeds) && j <= k < |feeds| && AllFinished(feeds[j])
    ensures AllFinished(feeds[k])
    decreases k - j
  {
    if j == k {
    } else {
      StaysOver(feeds, j, k - 1);
      assert Follows(feeds, k);
      AllFinishedStays(feeds[k - 1], feeds[k]);
    }
  }

  lemma NothingNew(xs: seq<int>, known: set<int>)
    requires forall x :: x in xs ==> x in known
    ensures Filter(xs, NotIn(known)) == []
  {
    FilterMembers(xs, NotIn(known));
    CountIfZero(xs, NotIn(known));
    assert forall x :: x in xs ==> !NotIn(known)(x);
    assert |Filter(xs, NotIn(known))| == 0;
  }

  /** A run whose gameweek was already over at the run before it reports nothing new. */
  lemma NothingAfterTheEnd(feeds: seq<seq<Fixture>>, before: set<int>, k: nat)
    requires Season(feeds) && 0 < k < |feeds| && AllFinished(feeds[k - 1])
    ensures Published(feeds, before, k).sincePrevious == []
  {
    var known := ToSet(Published(feeds, before, k - 1).completed);
    forall x | x in IdsIn(feeds[k], Final) ensures x in known {
      CompletedAre(feeds[k], x);
      assert Follows(feeds, k);
      CompletedAre(feeds[k - 1], x);
    }
    NothingNew(IdsIn(feeds[k], Final), known);
  }

  /** The closing transition is emitted exactly when the gameweek is over and was not at the run before. */
  lemma FinalTransitionIff(feeds: seq<seq<Fixture>>, before: set<int>, k: nat)
    requires Season(feeds) && k < |feeds| && forall x :: Finished(feeds[0], x) ==> x !in before
    ensures Published(feeds, before, k).transition == PostMatchThenPostAllMatch <==>
            AllFinished(feeds[k]) && (k > 0 ==> !AllFinished(feeds[k - 1]))
  {
    ModeMeans(feeds[k]);
    if AllFinished(feeds[k]) {
      if k == 0 {
        var f := feeds[0][0];
        assert f in feeds[0] && Finished(feeds[0], f.id.value);
        NewAt(feeds, before, 0, f.id.value);
      } else if AllFinished(feeds[k - 1]) {
        NothingAfterTheEnd(feeds, before, k);
      } else {
        assert Follows(feeds, k);
        var x := Straggler(feeds[k - 1], feeds[k]);
        NewAt(feeds, before, k, x);
      }
    }
  }

  /** Somebody finished between a run that was not over and one that is. */
  lemma Straggler(a: seq<Fixture>, b: seq<Fixture>) returns (x: int)
    requires Usable(a) && Usable(b) && Evolves(a, b) && !AllFinished(a) && AllFinished(b)
    ensures Finished(b, x) && !Finished(a, x)
  {
    assert b[0] in b && Appears(b[0], a);
    var f :| f in a && f.finished != Some(true);
    assert Reaches(f, b);
    var g :| g in b && g.id == f.id;
    x := f.id.value;
    assert Finished(b, x);
    assert forall h :: h in a && h.id == Some(x) ==> h.finished != Some(true);
  }

  /** If the gameweek is over by the last run, the closing transition is emitted at exactly one run. */
  lemma ClosesExactlyOnce(feeds: seq<seq<Fixture>>, before: set<int>) returns (at: nat)
    requires Season(feeds) && feeds != [] && (forall x :: Finished(feeds[0], x) ==> x !in before)
    requires Published(feeds, before, |feeds| - 1).mode == PostAllMatch
    ensures at < |feeds|
    ensures forall k :: 0 <= k < |feeds| ==>
                          (Published(feeds, before, k).transition == PostMatchThenPostAllMatch <==> k == at)
  {
    ModeMeans(feeds[|feeds| - 1]);
    at := 0;
    while !AllFinished(feeds[at])
      invariant at < |feeds| && forall k :: 0 <= k < at ==> !AllFinished(feeds[k])
      decreases |feeds| - at
    {
      at := at + 1;
    }
    forall k | 0 <= k < |feeds| ensures Published(feeds, before, k).transition == PostMatchThenPostAllMatch <==> k == at {
      ClosesAt(feeds, before, at, k);
    }
  }

  lemma ClosesAt(feeds: seq<seq<Fixture>>, before: set<int>, at: nat, k: nat)
    requires Season(feeds) && at < |feeds| && k < |feeds| && (forall x :: Finished(feeds[0], x) ==> x !in before)
    requires AllFinished(feeds[at]) && forall j :: 0 <= j < at ==> !AllFinished(feeds[j])
    ensures Published(feeds, before, k).transition == PostMatchThenPostAllMatch <==> k == at
  {
    FinalTransitionIff(feeds, before, k);
    if at < k {
      StaysOver(feeds, at, k - 1);
    }
  }
}
