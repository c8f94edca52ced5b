/** Missed-slot audit and the advisory recovery plan built on it. */
module Recovery {
  import opened Wrappers
  import opened SlotCalendar
  import Sorting

  datatype State = VerifiedPublished | Active | Failed | Missing | Unknown

  datatype Terminality = ReadyFull | ReadyDegraded | ReadyDegradedPublicFirst | OtherTerminality

  /** A private readback: its terminality, its failures and the occurrence it is bound to. */
  datatype Verification = Verification(terminality: Terminality, failures: seq<string>, bound: Occurrence)

  datatype Evidence = Evidence(verified: map<Occurrence, Verification>, active: set<Occurrence>,
                               failed: set<Occurrence>, unknown: set<Occurrence>)

  datatype Row = Row(occurrence: Occurrence, state: State, diagnosis: Option<Diagnosis>)

  const PIPELINE_GRACE := 70 * MINUTE
  const MAX_OVERDUE := 180 * MINUTE

  /** `_published`. */
  predicate Published(v: Verification, o: Occurrence) {
    v.failures == [] && v.terminality != OtherTerminality && v.bound == o
  }

  /** `classify_due_occurrences`: one row per due occurrence. */
  method ClassifyDue(now: int, nowOffset: int, london: Zone, evidence: Evidence, lookbackHours: int)
    returns (r: Result<seq<Row>, CalendarError>)
    requires Civil(london) && (nowOffset == 0 || nowOffset == 60)
    ensures r.Err? <==> !(1 <= lookbackHours <= 72)
    ensures r.Ok? ==> Audited(london, now, lookbackHours, evidence, r.value)
  {
    var due := DueReportOccurrences(now, nowOffset, london, lookbackHours);
    if due.Err? {
      return Err(due.error);
    }
    var rows: seq<Row> := [];
    for n := 0 to |due.value|
      invariant |rows| == n
      invariant forall k :: 0 <= k < n ==> rows[k] == Row(due.value[k], StateOf(now, evidence, due.value[k]), None)
    {
      var o := due.value[n];
      var age := now - o.slot;
      var state := Missing;
      var verifiedFailure := false;
      if o in evidence.verified {
        if Published(evidence.verified[o], o) {
          state := VerifiedPublished;
        } else {
          verifiedFailure := true;
        }
      }
      if state != VerifiedPublished {
        if o in evidence.active {
          state := Active;
        } else if verifiedFailure {
          state := Failed;
        } else if o in evidence.failed {
          state := Failed;
        } else if o in evidence.unknown {
          state := Unknown;
        } else if age < PIPELINE_GRACE {
          state := Unknown;
        }
      }
      rows := rows + [Row(o, state, None)];
    }
    forall o ensures Due(london, now, lookbackHours, o) <==> exists k :: 0 <= k < |rows| && rows[k].occurrence == o {
      if Due(london, now, lookbackHours, o) {
        var k :| 0 <= k < |due.value| && due.value[k] == o;
        assert rows[k].occurrence == o;
      }
    }
    return Ok(rows);
  }

  /** What the evidence says about a due occurrence. */
  function StateOf(now: int, evidence: Evidence, o: Occurrence): State {
    var published := o in evidence.verified && Published(evidence.verified[o], o);
    if published then VerifiedPublished
    else if o in evidence.active then Active
    else if o in evidence.verified || o in evidence.failed then Failed
    else if o in evidence.unknown || now - o.slot < PIPELINE_GRACE then Unknown
    else Missing
  }

  /** The rows are the due occurrences in time order, each with the state its evidence supports. */
  ghost predicate Audited(london: Zone, now: int, hours: int, evidence: Evidence, rows: seq<Row>) {
    && (forall o :: Due(london, now, hours, o) <==> exists k :: 0 <= k < |rows| && rows[k].occurrence == o)
    && (forall i, j :: 0 <= i < j < |rows| ==> rows[i].occurrence.slot < rows[j].occurrence.slot)
    && (forall k :: 0 <= k < |rows| ==> rows[k].state == StateOf(now, evidence, rows[k].occurrence))
  }

  /** `annotate`: a diagnosis on every MISSING row. */
  function Annotated(rows: seq<Row>, ticks: Option<seq<int>>): (r: seq<Row>)
    ensures |r| == |rows|
    ensures forall k :: 0 <= k < |rows| ==>
                          r[k] == if rows[k].state == Missing
                                  then rows[k].(diagnosis := Some(Diagnose(rows[k].occurrence.slot, ticks)))
                                  else rows[k]
  {
    seq(|rows|, k requires 0 <= k < |rows| =>
      if rows[k].state == Missing
      then rows[k].(diagnosis := Some(Diagnose(rows[k].occurrence.slot, ticks)))
      else rows[k])
  }

  // ---------------------------------------------------------------- the plan

  datatype Decision =
    Eligible | Historical | Superseded | ClockDefect | NotMissing | RetryLoop | NotNewest | NoDiagnosis | WithinWindow

  datatype Decided = Decided(row: Row, decision: Decision)

  predicate NewestFirst(a: Row, b: Row) {
    a.occurrence.slot >= b.occurrence.slot
  }

  ghost predicate NextStarted(london: Zone, now: int, o: Occurrence) {
    exists p :: Due(london, now, 72, p) && p.mode == o.mode && p.slot > o.slot
  }

  predicate ModeFailed(rows: seq<Row>, m: Mode) {
    exists r :: r in rows && r.state == Failed && r.occurrence.mode == m
  }

  /** An earlier row of the same mode was already found eligible. */
  predicate ModeTaken(decisions: seq<Decided>, m: Mode) {
    exists d :: d in decisions && d.decision == Eligible && d.row.occurrence.mode == m
  }

  /** The ladder of the plan for one row. */
  ghost function Ruling(london: Zone, now: int, rows: seq<Row>, row: Row, taken: bool): Decision {
    var overdue := now - row.occurrence.slot;
    if row.state != Missing then NotMissing
    else if row.diagnosis != Some(NoTickInWindow) then (if row.diagnosis == None then NoDiagnosis else ClockDefect)
    else if overdue > MAX_OVERDUE then Historical
    else if overdue <= LATE then WithinWindow
    else if NextStarted(london, now, row.occurrence) then Superseded
    else if ModeFailed(rows, row.occurrence.mode) then RetryLoop
    else if taken then NotNewest
    else Eligible
  }

  /** Every row is ruled on, newest first, knowing the decisions made before it. */
  ghost predicate Planned(london: Zone, now: int, rows: seq<Row>, decisions: seq<Decided>) {
    && |decisions| == |rows|
    && forall k :: 0 <= k < |decisions| ==> RuledAt(london, now, rows, decisions, k)
  }

  ghost predicate RuledAt(london: Zone, now: int, rows: seq<Row>, decisions: seq<Decided>, k: nat)
    requires k < |decisions|
  {
    var sorted := Sorting.Sort(rows, NewestFirst);
    && k < |sorted| && decisions[k].row == sorted[k]
    && decisions[k].decision == Ruling(london, now, rows, sorted[k], ModeTaken(decisions[..k], sorted[k].occurrence.mode))
  }

  /** The candidates of a plan: one eligible row for each mode that has one. */
  ghost predicate Chosen(decisions: seq<Decided>, candidates: map<Mode, Row>) {
    && (forall m :: m in candidates <==> ModeTaken(decisions, m))
    && (forall m :: m in candidates ==> candidates[m].occurrence.mode == m && Decided(candidates[m], Eligible) in decisions)
  }

  method NextSlotStarted(now: int, nowOffset: int, london: Zone, o: Occurrence) returns (b: bool)
    requires Civil(london) && (nowOffset == 0 || nowOffset == 60)
    ensures b <==> NextStarted(london, now, o)
  {
    var due := DueReportOccurrences(now, nowOffset, london, 72);
    b := exists p :: p in due.value && p.mode == o.mode && p.slot > o.slot;
  }

  /** `plan`. */
  method Plan(now: int, nowOffset: int, london: Zone, rows: seq<Row>) returns (decisions: seq<Decided>, candidates: map<Mode, Row>)
    requires Civil(london) && (nowOffset == 0 || nowOffset == 60)
    ensures Planned(london, now, rows, decisions)
    ensures Chosen(decisions, candidates)
  {
    var sorted := Sorting.Sort(rows, NewestFirst);
    Sorting.SortPermutes(rows, NewestFirst);
    decisions, candidates := [], map[];
    for n := 0 to |sorted|
      invariant |decisions| == n
      invariant forall k :: 0 <= k < n ==> RuledAt(london, now, rows, decisions, k)
      invariant Chosen(decisions, candidates)
    {
      var row := sorted[n];
      var overdue := now - row.occurrence.slot;
      var started := NextSlotStarted(now, nowOffset, london, row.occurrence);
      var decision: Decision;
      if row.state != Missing {
        decision := NotMissing;
      } else if row.diagnosis != Some(NoTickInWindow) {
        decision := if row.diagnosis == None then NoDiagnosis else ClockDefect;
      } else if overdue > MAX_OVERDUE {
        decision := Historical;
      } else if overdue <= LATE {
        decision := WithinWindow;
      } else if started {
        decision := Superseded;
      } else if ModeFailed(rows, row.occurrence.mode) {
        decision := RetryLoop;
      } else if row.occurrence.mode in candidates {
        decision := NotNewest;
      } else {
        decision := Eligible;
        candidates := candidates[row.occurrence.mode := row];
      }
      PlanNext(london, now, rows, decisions, Decided(row, decision));
      decisions := decisions + [Decided(row, decision)];
    }
  }

  lemma PlanNext(london: Zone, now: int, rows: seq<Row>, decisions: seq<Decided>, d: Decided)
    requires forall k :: 0 <= k < |decisions| ==> RuledAt(london, now, rows, decisions, k)
    requires var sorted := Sorting.Sort(rows, NewestFirst);
             && |decisions| < |sorted| && d.row == sorted[|decisions|]
             && d.decision == Ruling(london, now, rows, d.row, ModeTaken(decisions, d.row.occurrence.mode))
    ensures var next := decisions + [d];
            && (forall k :: 0 <= k < |next| ==> RuledAt(london, now, rows, next, k))
            && (forall m :: ModeTaken(next, m) <==> ModeTaken(decisions, m) || (d.decision == Eligible && d.row.occurrence.mode == m))
  {
    var next := decisions + [d];
    forall k | 0 <= k < |next| ensures RuledAt(london, now, rows, next, k) {
      if k < |decisions| {
        assert RuledAt(london, now, rows, decisions, k);
        assert next[..k] == decisions[..k];
      } else {
        assert next[..k] == decisions;
      }
    }
    forall m ensures ModeTaken(next, m) <==> ModeTaken(decisions, m) || (d.decision == Eligible && d.row.occurrence.mode == m) {
      assert forall x :: x in next <==> x in decisions || x == d;
    }
  }

  // ---------------------------------------------------------------- audit and plan together

  /** A readback that publishes: no failures, one of the three ready terminalities, and bound to this very
      occurrence. */
  ghost predicate Verifies(evidence: Evidence, o: Occurrence) {
    && o in evidence.verified && evidence.verified[o].failures == [] && evidence.verified[o].bound == o
    && evidence.verified[o].terminality in {ReadyFull, ReadyDegraded, ReadyDegradedPublicFirst}
  }

  /** What each state means, by the precedence of the evidence: verified publication, activity, failure,
      unknown or too early, missing. */
  lemma StateMeans(now: int, evidence: Evidence, o: Occurrence)
    ensures StateOf(now, evidence, o) == VerifiedPublished <==> Verifies(evidence, o)
    ensures StateOf(now, evidence, o) == Active <==> !Verifies(evidence, o) && o in evidence.active
    ensures StateOf(now, evidence, o) == Failed <==>
            !Verifies(evidence, o) && o !in evidence.active && (o in evidence.verified || o in evidence.failed)
    ensures StateOf(now, evidence, o) == Unknown <==>
            && o !in evidence.verified && o !in evidence.active && o !in evidence.failed
            && (o in evidence.unknown || now - o.slot < 70 * MINUTE)
  {
  }

  /** What each decision means, for any row: the conditions of the ladder up to it. */
  lemma RulingMeans(london: Zone, now: int, rows: seq<Row>, row: Row, taken: bool)
    ensures var d := Ruling(london, now, rows, row, taken);
            var overdue, quiet := now - row.occurrence.slot, row.state == Missing && row.diagnosis == Some(NoTickInWindow);
            var timely := quiet && 60 * MINUTE < overdue <= 180 * MINUTE;
            var next := exists p :: Due(london, now, 72, p) && p.mode == row.occurrence.mode && p.slot > row.occurrence.slot;
            var failed := exists r :: r in rows && r.state == Failed && r.occurrence.mode == row.occurrence.mode;
            && (d == Eligible <==> timely && !next && !failed && !taken)
            && (d == NotMissing <==> row.state != Missing)
            && (d == NoDiagnosis <==> row.state == Missing && row.diagnosis == None)
            && (d == ClockDefect <==> row.state == Missing && row.diagnosis != None && row.diagnosis != Some(NoTickInWindow))
            && (d == Historical <==> quiet && overdue > 180 * MINUTE)
            && (d == WithinWindow <==> quiet && overdue <= 60 * MINUTE)
            && (d == Superseded <==> timely && next)
            && (d == RetryLoop <==> timely && !next && failed)
            && (d == NotNewest <==> timely && !next && !failed && taken)
  {
  }

  lemma StateMissingIff(now: int, evidence: Evidence, o: Occurrence)
    ensures StateOf(now, evidence, o) == Missing <==>
            && o !in evidence.verified && o !in evidence.active && o !in evidence.failed && o !in evidence.unknown
            && now - o.slot >= 70 * MINUTE
  {
  }

  /** The annotated audit as the plan visits it: distinct due occurrences, newest first. */
  lemma SortedAudit(london: Zone, now: int, hours: int, evidence: Evidence, audit: seq<Row>, ticks: Option<seq<int>>)
    requires Audited(london, now, hours, evidence, audit)
    ensures var rows := Annotated(audit, ticks);
            var sorted := Sorting.Sort(rows, NewestFirst);
            && |sorted| == |rows|
            && (forall k :: 0 <= k < |sorted| ==> sorted[k] in rows)
            && (forall i, j :: 0 <= i < j < |sorted| ==> sorted[i].occurrence.slot > sorted[j].occurrence.slot)
  {
    var rows := Annotated(audit, ticks);
    var sorted := Sorting.Sort(rows, NewestFirst);
    Sorting.SortPermutes(rows, NewestFirst);
    Sorting.SortMembers(rows, NewestFirst);
    Sorting.SortOrders(rows, NewestFirst);
    Sorting.SortDistinct(rows, NewestFirst);
    forall i, j | 0 <= i < j < |sorted| ensures sorted[i].occurrence.slot > sorted[j].occurrence.slot {
      assert sorted[i] in rows && sorted[j] in rows;
      var a :| 0 <= a < |rows| && rows[a] == sorted[i];
      var b :| 0 <= b < |rows| && rows[b] == sorted[j];
      assert a != b;
    }
  }

  lemma AuditRow(london: Zone, now: int, hours: int, evidence: Evidence, audit: seq<Row>, ticks: Option<seq<int>>, row: Row)
    requires Audited(london, now, hours, evidence, audit) && row in Annotated(audit, ticks)
    ensures Due(london, now, hours, row.occurrence) && row.state == StateOf(now, evidence, row.occurrence)
    ensures row.state == Missing ==> row.diagnosis == Some(Diagnose(row.occurrence.slot, ticks))
  {
    var rows := Annotated(audit, ticks);
    var k :| 0 <= k < |rows| && rows[k] == row;
    assert audit[k].occurrence == row.occurrence;
  }

  /** Nothing of the same mode starts within three hours of a slot. */
  lemma NoNextSlot(london: Zone, now: int, o: Occurrence)
    requires Civil(london) && Governed(london, o) && now - o.slot <= MAX_OVERDUE
    ensures !NextStarted(london, now, o)
  {
    if p :| Due(london, now, 72, p) && p.mode == o.mode && p.slot > o.slot {
      SameModeGap(london, o, p);
    }
  }

  lemma FailedInAudit(london: Zone, now: int, hours: int, evidence: Evidence, audit: seq<Row>, ticks: Option<seq<int>>, m: Mode)
    requires Audited(london, now, hours, evidence, audit)
    ensures ModeFailed(Annotated(audit, ticks), m) <==>
            exists p :: Due(london, now, hours, p) && p.mode == m && StateOf(now, evidence, p) == Failed
  {
    var rows := Annotated(audit, ticks);
    if r :| r in rows && r.state == Failed && r.occurrence.mode == m {
      AuditRow(london, now, hours, evidence, audit, ticks, r);
    }
    if p :| Due(london, now, hours, p) && p.mode == m && StateOf(now, evidence, p) == Failed {
      var k :| 0 <= k < |audit| && audit[k].occurrence == p;
      assert rows[k] in rows && rows[k].state == Failed && rows[k].occurrence == p;
    }
  }

  /** In any plan a mode has at most one eligible row, and a row is passed over as not newest only when
      an earlier row of its mode is eligible. */
  lemma OnePerMode(london: Zone, now: int, rows: seq<Row>, decisions: seq<Decided>)
    requires Planned(london, now, rows, decisions)
    ensures forall i, j :: 0 <= i < j < |decisions| && decisions[i].decision == decisions[j].decision == Eligible ==>
              decisions[i].row.occurrence.mode != decisions[j].row.occurrence.mode
    ensures forall j :: 0 <= j < |decisions| && decisions[j].decision == NotNewest ==>
              exists i :: 0 <= i < j && decisions[i].decision == Eligible && decisions[i].row.occurrence.mode == decisions[j].row.occurrence.mode
  {
    forall i, j | 0 <= i < j < |decisions| && decisions[i].decision == decisions[j].decision == Eligible
      ensures decisions[i].row.occurrence.mode != decisions[j].row.occurrence.mode
    {
      assert RuledAt(london, now, rows, decisions, j);
      assert decisions[..j][i] == decisions[i];
    }
    forall j | 0 <= j < |decisions| && decisions[j].decision == NotNewest
      ensures exists i :: 0 <= i < j && decisions[i].decision == Eligible && decisions[i].row.occurrence.mode == decisions[j].row.occurrence.mode
    {
      assert RuledAt(london, now, rows, decisions, j);
      var d :| d in decisions[..j] && d.decision == Eligible && d.row.occurrence.mode == decisions[j].row.occurrence.mode;
      var i :| 0 <= i < j && decisions[..j][i] == d;
    }
  }

  /** For rows that come from the audit at the same instant, the ladder collapses: three of its
      outcomes and the missing-diagnosis one cannot occur, and ELIGIBLE means exactly a missing slot
      without a tick, at most three hours old, of a mode without a failed run. */
  lemma LadderCollapses(london: Zone, now: int, hours: int, evidence: Evidence, audit: seq<Row>,
                        ticks: Option<seq<int>>, decisions: seq<Decided>, k: nat)
    requires Civil(london) && Audited(london, now, hours, evidence, audit) && k < |decisions|
    requires Planned(london, now, Annotated(audit, ticks), decisions)
    ensures var row, d := decisions[k].row, decisions[k].decision;
            && row in Annotated(audit, ticks)
            && d != Superseded && d != NotNewest && d != WithinWindow && d != NoDiagnosis
            && (d == Eligible <==>
                  && row.state == Missing
                  && ticks.Some?
                  && (forall t :: t in ticks.value ==> t < row.occurrence.slot - 5 * MINUTE || t > row.occurrence.slot + 60 * MINUTE)
                  && now - row.occurrence.slot <= 180 * MINUTE
                  && forall p :: Due(london, now, hours, p) && p.mode == row.occurrence.mode ==> StateOf(now, evidence, p) != Failed)
  {
    var rows := Annotated(audit, ticks);
    var sorted := Sorting.Sort(rows, NewestFirst);
    assert RuledAt(london, now, rows, decisions, k);
    SortedAudit(london, now, hours, evidence, audit, ticks);
    var row := sorted[k];
    AuditRow(london, now, hours, evidence, audit, ticks, row);
    DiagnosisNeedsEvidence(row.occurrence.slot, ticks);
    StateMissingIff(now, evidence, row.occurrence);
    FailedInAudit(london, now, hours, evidence, audit, ticks, row.occurrence.mode);
    if row.state == Missing && now - row.occurrence.slot <= MAX_OVERDUE {
      NoNextSlot(london, now, row.occurrence);
      forall d | d in decisions[..k] ensures d.row.occurrence.mode != row.occurrence.mode {
        var j :| 0 <= j < k && decisions[j] == d;
        assert RuledAt(london, now, rows, decisions, j);
        AuditRow(london, now, hours, evidence, audit, ticks, sorted[j]);
      }
    }
  }

  /** Every due occurrence is ruled on. */
  lemma DueIsRuled(london: Zone, now: int, hours: int, evidence: Evidence, audit: seq<Row>,
                   ticks: Option<seq<int>>, decisions: seq<Decided>, o: Occurrence) returns (k: nat)
    requires Audited(london, now, hours, evidence, audit) && Due(london, now, hours, o)
    requires Planned(london, now, Annotated(audit, ticks), decisions)
    ensures k < |decisions| && decisions[k].row.occurrence == o && decisions[k].row.state == StateOf(now, evidence, o)
  {
    var rows := Annotated(audit, ticks);
    var sorted := Sorting.Sort(rows, NewestFirst);
    var j :| 0 <= j < |audit| && audit[j].occurrence == o;
    Sorting.SortMembers(rows, NewestFirst);
    Sorting.SortPermutes(rows, NewestFirst);
    assert rows[j] in sorted;
    k :| 0 <= k < |sorted| && sorted[k] == rows[j];
    assert RuledAt(london, now, rows, decisions, k);
  }

  /** Without tick evidence nothing is eligible, whatever the rows: a failed tick listing recovers nothing. */
  lemma NoEvidenceNoRecovery(london: Zone, now: int, rows: seq<Row>, decisions: seq<Decided>, candidates: map<Mode, Row>)
    requires Planned(london, now, Annotated(rows, None), decisions) && Chosen(decisions, candidates)
    ensures forall k :: 0 <= k < |decisions| ==>
              decisions[k].decision == if decisions[k].row.state == Missing then ClockDefect else NotMissing
    ensures candidates == map[]
  {
    var annotated := Annotated(rows, None);
    Sorting.SortMembers(annotated, NewestFirst);
    forall k | 0 <= k < |decisions|
      ensures decisions[k].decision == if decisions[k].row.state == Missing then ClockDefect else NotMissing
    {
      assert RuledAt(london, now, annotated, decisions, k);
      assert decisions[k].row in annotated;
    }
    forall m ensures m !in candidates {
    }
  }

  /** Safety of recovery. An eligible row is 70 to 180 minutes overdue, no slot of its mode has come
      since, no other row of its mode is eligible, nothing was ever seen of it, no observed tick
      resolved to it, and the clock running at this very moment does not select it either. */
  lemma EligibleIsSafe(london: Zone, now: int, hours: int, evidence: Evidence, audit: seq<Row>,
                       ticks: Option<seq<int>>, decisions: seq<Decided>, k: nat)
    requires Civil(london) && Audited(london, now, hours, evidence, audit) && k < |decisions|
    requires Planned(london, now, Annotated(audit, ticks), decisions) && decisions[k].decision == Eligible
    ensures var o := decisions[k].row.occurrence;
            && 70 * MINUTE <= now - o.slot <= 180 * MINUTE
            && (forall p :: Governed(london, p) && p.mode == o.mode && p.slot <= now ==> p.slot <= o.slot)
            && (forall j :: 0 <= j < |decisions| && j != k && decisions[j].decision == Eligible ==>
                              decisions[j].row.occurrence.mode != o.mode)
            && o !in evidence.verified && o !in evidence.active && o !in evidence.failed && o !in evidence.unknown
            && ticks.Some? && (forall t :: t in ticks.value ==> !Resolves(london, t, o))
            && !Resolves(london, now, o)
  {
    var rows := Annotated(audit, ticks);
    LadderCollapses(london, now, hours, evidence, audit, ticks, decisions, k);
    var o := decisions[k].row.occurrence;
    AuditRow(london, now, hours, evidence, audit, ticks, decisions[k].row);
    StateMissingIff(now, evidence, o);
    DiagnosisNeedsEvidence(o.slot, ticks);
    DiagnosisMeans(london, o, ticks.value);
    forall p | Governed(london, p) && p.mode == o.mode && p.slot <= now ensures p.slot <= o.slot {
      if p.slot > o.slot { SameModeGap(london, o, p); }
    }
    forall j | 0 <= j < |decisions| && j != k && decisions[j].decision == Eligible
      ensures decisions[j].row.occurrence.mode != o.mode
    {
      var a, b := if j < k then j else k, if j < k then k else j;
      LadderCollapses(london, now, hours, evidence, audit, ticks, decisions, b);
      assert RuledAt(london, now, rows, decisions, b);
      assert decisions[a] in decisions[..b] by { assert decisions[..b][a] == decisions[a]; }
    }
  }
}
