/** From the missed-slot audit to a dispatched run: the plan's output is what recovery selects from. */
module RecoveryPipeline {
  import opened Wrappers
  import opened SlotCalendar
  import opened Announcement
  import R = Recovery
  import D = Dispatch

  function ModeName(m: Mode): string {
    match m case Deep => "DEEP" case Price => "PRICE"
  }

  /** How the plan writes slots and overdue times. */
  datatype Texts = Texts(slot: int -> string, overdue: int -> string)

  /** An eligible row of the plan, as written to its output. */
  function CandidateOf(t: Texts, now: int, row: R.Row): D.Candidate {
    var o := row.occurrence;
    var id := OccurrenceId(ModeName(o.mode), t.slot(o.slot));
    D.Candidate(ModeName(o.mode), t.slot(o.slot), id, D.ELIGIBLE, D.LABEL, "RECOVERY|" + id, Some(false), t.overdue(now - o.slot))
  }

  /** The output of `plan`: it is advisory, and its eligible rows are listed by id, DEEP before PRICE. */
  function Output(t: Texts, now: int, candidates: map<Mode, R.Row>): D.PlanFile {
    D.PlanFile(Some(false), (if Deep in candidates then [CandidateOf(t, now, candidates[Deep])] else [])
                            + if Price in candidates then [CandidateOf(t, now, candidates[Price])] else [])
  }

  /** Slots are written without blanks and equals signs, and later slots as later texts. */
  ghost predicate Legible(t: Texts, now: int, candidates: map<Mode, R.Row>) {
    && (forall m :: m in candidates ==>
          Plain(t.slot(candidates[m].occurrence.slot)) && '=' !in t.overdue(now - candidates[m].occurrence.slot))
    && (forall m, n :: m in candidates && n in candidates ==>
          (D.TextLe(t.slot(candidates[m].occurrence.slot), t.slot(candidates[n].occurrence.slot)) <==>
           candidates[m].occurrence.slot <= candidates[n].occurrence.slot))
  }

  /** The output holds exactly what the plan writes for its candidates. */
  lemma OutputHolds(t: Texts, now: int, candidates: map<Mode, R.Row>, c: D.Candidate)
    ensures c in Output(t, now, candidates).eligible <==> exists m :: m in candidates && c == CandidateOf(t, now, candidates[m])
  {
    var eligible := Output(t, now, candidates).eligible;
    if m :| m in candidates && c == CandidateOf(t, now, candidates[m]) {
      match m {
        case Deep => assert eligible[0] == c;
        case Price => assert eligible[|eligible| - 1] == c;
      }
    }
  }

  /** Everything the plan writes passes the checks of `select`, and its ids are bound to mode and slot. */
  lemma OutputIsGenuine(t: Texts, now: int, candidates: map<Mode, R.Row>, c: D.Candidate)
    requires Legible(t, now, candidates) && c in Output(t, now, candidates).eligible
    ensures D.Genuine(c) && D.Bound(c) && D.Tidy(c) && (c.mode == "DEEP" || c.mode == "PRICE")
  {
    OutputHolds(t, now, candidates, c);
    var m :| m in candidates && c == CandidateOf(t, now, candidates[m]);
    WrittenIsGenuine(t, now, candidates[m]);
  }

  lemma WrittenIsGenuine(t: Texts, now: int, row: R.Row)
    requires Plain(t.slot(row.occurrence.slot)) && '=' !in t.overdue(now - row.occurrence.slot)
    ensures var c := CandidateOf(t, now, row);
            D.Genuine(c) && D.Bound(c) && D.Tidy(c) && (c.mode == "DEEP" || c.mode == "PRICE")
  {
  }

  /** What makes a recovery of o safe at `now`. */
  ghost predicate Safe(london: Zone, now: int, evidence: R.Evidence, ticks: Option<seq<int>>, o: Occurrence) {
    && 70 * MINUTE <= now - o.slot <= 180 * MINUTE
    && (forall p :: Governed(london, p) && p.mode == o.mode && p.slot <= now ==> p.slot <= o.slot)
    && o !in evidence.verified && o !in evidence.active && o !in evidence.failed && o !in evidence.unknown
    && ticks.Some? && (forall t :: t in ticks.value ==> !Resolves(london, t, o)) && !Resolves(london, now, o)
  }

  /** What a recovery run leaves when it starts a run for o: one run more, titled for o, where no run of
      that title was, and one comment more, which announces exactly o. */
  ghost predicate RunStarted(t: Texts, w: D.World, v: D.World, o: Occurrence) {
    var title, id := RecoveryTitle(ModeName(o.mode), t.slot(o.slot)), OccurrenceId(ModeName(o.mode), t.slot(o.slot));
    && v.runs == w.runs + [D.NewRun(title)] && (forall r :: r in w.runs ==> D.TitleOf(r) != title)
    && RecoveryAnnounced(v.comments, id)
    && forall other :: Plain(other) && other != id ==> (RecoveryAnnounced(v.comments, other) <==> RecoveryAnnounced(w.comments, other))
  }

  /** A run is only started for a candidate of the plan. */
  lemma StartsTheSelected(now: int, candidates: map<Mode, R.Row>, t: Texts,
                          w: D.World, listed: seq<D.Run>, comment: D.CommentOutcome, dispatch: D.DispatchOutcome) returns (m: Mode)
    requires Legible(t, now, candidates)
    requires D.Executed(w, Output(t, now, candidates), listed, comment, dispatch).1.runs != w.runs
    ensures m in candidates && D.Select(Output(t, now, candidates)) == Some(CandidateOf(t, now, candidates[m]))
    ensures RunStarted(t, w, D.Executed(w, Output(t, now, candidates), listed, comment, dispatch).1, candidates[m].occurrence)
  {
    var plan := Output(t, now, candidates);
    m := SelectedFrom(now, candidates, t, w, listed, comment, dispatch);
    WrittenIsTidy(t, now, candidates, m);
    RunFits(t, now, candidates[m], w, plan, listed, comment, dispatch);
  }

  lemma WrittenIsTidy(t: Texts, now: int, candidates: map<Mode, R.Row>, m: Mode)
    requires Legible(t, now, candidates) && m in candidates
    ensures D.Tidy(CandidateOf(t, now, candidates[m]))
  {
    WrittenIsGenuine(t, now, candidates[m]);
  }

  lemma RunFits(t: Texts, now: int, row: R.Row, w: D.World, plan: D.PlanFile, listed: seq<D.Run>,
                comment: D.CommentOutcome, dispatch: D.DispatchOutcome)
    requires D.Executed(w, plan, listed, comment, dispatch).1.runs != w.runs
    requires D.Select(plan) == Some(CandidateOf(t, now, row)) && D.Tidy(CandidateOf(t, now, row))
    ensures RunStarted(t, w, D.Executed(w, plan, listed, comment, dispatch).1, row.occurrence)
  {
    RunFitsCandidate(w, plan, listed, comment, dispatch);
    OthersUnchanged(w, plan, listed, comment, dispatch);
  }

  lemma SelectedFrom(now: int, candidates: map<Mode, R.Row>, t: Texts,
                     w: D.World, listed: seq<D.Run>, comment: D.CommentOutcome, dispatch: D.DispatchOutcome) returns (m: Mode)
    requires D.Executed(w, Output(t, now, candidates), listed, comment, dispatch).1.runs != w.runs
    ensures m in candidates && D.Select(Output(t, now, candidates)) == Some(CandidateOf(t, now, candidates[m]))
  {
    var plan := Output(t, now, candidates);
    D.RecoveryIsAnnounced(w, plan, listed, comment, dispatch, "");
    var c := D.Select(plan).value;
    OutputHolds(t, now, candidates, c);
    m :| m in candidates && c == CandidateOf(t, now, candidates[m]);
  }

  lemma RunFitsCandidate(w: D.World, plan: D.PlanFile, listed: seq<D.Run>, comment: D.CommentOutcome, dispatch: D.DispatchOutcome)
    requires D.Executed(w, plan, listed, comment, dispatch).1.runs != w.runs && D.Select(plan).Some?
    ensures var v, c := D.Executed(w, plan, listed, comment, dispatch).1, D.Select(plan).value;
            var title := RecoveryTitle(c.mode, c.slot);
            && v.runs == w.runs + [D.NewRun(title)] && (forall r :: r in w.runs ==> D.TitleOf(r) != title)
            && RecoveryAnnounced(v.comments, c.occurrenceId)
  {
    D.RecoveryIsAnnounced(w, plan, listed, comment, dispatch, "");
    D.UnattemptedIff(w.runs, D.Select(plan).value);
  }

  lemma OthersUnchanged(w: D.World, plan: D.PlanFile, listed: seq<D.Run>, comment: D.CommentOutcome, dispatch: D.DispatchOutcome)
    requires D.Executed(w, plan, listed, comment, dispatch).1.runs != w.runs && D.Select(plan).Some?
    requires D.Tidy(D.Select(plan).value)
    ensures var v := D.Executed(w, plan, listed, comment, dispatch).1;
            forall other :: Plain(other) && other != D.Select(plan).value.occurrenceId ==>
              (RecoveryAnnounced(v.comments, other) <==> RecoveryAnnounced(w.comments, other))
  {
    var v := D.Executed(w, plan, listed, comment, dispatch).1;
    forall other | Plain(other) && other != D.Select(plan).value.occurrenceId
      ensures RecoveryAnnounced(v.comments, other) <==> RecoveryAnnounced(w.comments, other)
    {
      D.RecoveryIsAnnounced(w, plan, listed, comment, dispatch, other);
    }
  }

  lemma LaterText(t: Texts, now: int, candidates: map<Mode, R.Row>, m: Mode, n: Mode)
    requires Legible(t, now, candidates) && m in candidates && n in candidates
    requires D.TextLe(CandidateOf(t, now, candidates[n]).slot, CandidateOf(t, now, candidates[m]).slot)
    ensures candidates[n].occurrence.slot <= candidates[m].occurrence.slot
  {
  }

  lemma WrittenIsListed(t: Texts, now: int, candidates: map<Mode, R.Row>, n: Mode)
    requires Legible(t, now, candidates) && n in candidates
    ensures CandidateOf(t, now, candidates[n]) in Output(t, now, candidates).eligible
    ensures D.Genuine(CandidateOf(t, now, candidates[n]))
  {
    OutputHolds(t, now, candidates, CandidateOf(t, now, candidates[n]));
    WrittenIsGenuine(t, now, candidates[n]);
  }

  lemma SelectedIsNewest(t: Texts, now: int, candidates: map<Mode, R.Row>, plan: D.PlanFile, m: Mode, n: Mode)
    requires Legible(t, now, candidates) && m in candidates && n in candidates && plan == Output(t, now, candidates)
    requires D.Select(plan) == Some(CandidateOf(t, now, candidates[m]))
    ensures candidates[n].occurrence.slot <= candidates[m].occurrence.slot
  {
    WrittenIsListed(t, now, candidates, n);
    D.NoneIsNewer(plan, CandidateOf(t, now, candidates[m]), CandidateOf(t, now, candidates[n]));
    LaterText(t, now, candidates, m, n);
  }

  lemma EligibleRowIsSafe(london: Zone, now: int, hours: int, evidence: R.Evidence, audit: seq<R.Row>, ticks: Option<seq<int>>,
                          decisions: seq<R.Decided>, row: R.Row)
    requires Civil(london) && R.Audited(london, now, hours, evidence, audit)
    requires R.Planned(london, now, R.Annotated(audit, ticks), decisions) && R.Decided(row, R.Eligible) in decisions
    ensures Safe(london, now, evidence, ticks, row.occurrence)
  {
    var k :| 0 <= k < |decisions| && decisions[k] == R.Decided(row, R.Eligible);
    R.EligibleIsSafe(london, now, hours, evidence, audit, ticks, decisions, k);
  }

  /** End to end. A recovery that executes the plan of an audit made at the same instant, and starts a
      run, starts it for the newest eligible occurrence, and recovering that occurrence is safe. */
  lemma DispatchedIsSafe(london: Zone, now: int, hours: int, evidence: R.Evidence, audit: seq<R.Row>, ticks: Option<seq<int>>,
                         decisions: seq<R.Decided>, candidates: map<Mode, R.Row>, t: Texts,
                         w: D.World, listed: seq<D.Run>, comment: D.CommentOutcome, dispatch: D.DispatchOutcome) returns (o: Occurrence)
    requires Civil(london) && R.Audited(london, now, hours, evidence, audit)
    requires R.Planned(london, now, R.Annotated(audit, ticks), decisions) && R.Chosen(decisions, candidates)
    requires Legible(t, now, candidates)
    requires D.Executed(w, Output(t, now, candidates), listed, comment, dispatch).1.runs != w.runs
    ensures Safe(london, now, evidence, ticks, o)
    ensures forall m :: m in candidates ==> candidates[m].occurrence.slot <= o.slot
    ensures RunStarted(t, w, D.Executed(w, Output(t, now, candidates), listed, comment, dispatch).1, o)
  {
    var m := StartsTheSelected(now, candidates, t, w, listed, comment, dispatch);
    o := candidates[m].occurrence;
    EligibleRowIsSafe(london, now, hours, evidence, audit, ticks, decisions, candidates[m]);
    forall n | n in candidates ensures candidates[n].occurrence.slot <= o.slot {
      SelectedIsNewest(t, now, candidates, Output(t, now, candidates), m, n);
    }
  }

  /** Nothing was seen of o, which is due and late but not too late, no tick fell in its window, and no
      run of its mode has failed. */
  ghost predicate Overdue(london: Zone, now: int, hours: int, evidence: R.Evidence, ticks: seq<int>, o: Occurrence) {
    && Due(london, now, hours, o) && 70 * MINUTE <= now - o.slot <= 180 * MINUTE
    && o !in evidence.verified && o !in evidence.active && o !in evidence.failed && o !in evidence.unknown
    && (forall t :: t in ticks ==> t < o.slot - 5 * MINUTE || t > o.slot + 60 * MINUTE)
    && (forall p :: Due(london, now, hours, p) && p.mode == o.mode ==> R.StateOf(now, evidence, p) != R.Failed)
  }

  lemma OverdueIsChosen(london: Zone, now: int, hours: int, evidence: R.Evidence, audit: seq<R.Row>, ticks: seq<int>,
                        decisions: seq<R.Decided>, candidates: map<Mode, R.Row>, o: Occurrence)
    requires Civil(london) && R.Audited(london, now, hours, evidence, audit)
    requires R.Planned(london, now, R.Annotated(audit, Some(ticks)), decisions) && R.Chosen(decisions, candidates)
    requires Overdue(london, now, hours, evidence, ticks, o)
    ensures o.mode in candidates
  {
    var k := R.DueIsRuled(london, now, hours, evidence, audit, Some(ticks), decisions, o);
    R.StateMissingIff(now, evidence, o);
    R.LadderCollapses(london, now, hours, evidence, audit, Some(ticks), decisions, k);
    assert decisions[k] in decisions && R.ModeTaken(decisions, o.mode);
  }

  /** A plan with a candidate starts a run when nothing it lists was attempted and GitHub accepts. */
  lemma PlanIsExecuted(t: Texts, now: int, candidates: map<Mode, R.Row>, w: D.World, listed: seq<D.Run>)
    requires Legible(t, now, candidates) && candidates != map[]
    requires forall c :: c in Output(t, now, candidates).eligible ==> D.Unattempted(listed, c) && D.Unattempted(w.runs, c)
    ensures D.Executed(w, Output(t, now, candidates), listed, D.Posted, D.Accepted).1.runs != w.runs
  {
    var plan := Output(t, now, candidates);
    var m :| m in candidates;
    WrittenIsListed(t, now, candidates, m);
    D.SelectIsNewest(plan);
    D.EffectsIff(w, plan, listed, D.Posted, D.Accepted);
  }

  /** And the other way round: an overdue occurrence does lead to a recovery. The plan of an audit that
      has one starts a run, by the theorem above for the newest eligible occurrence. */
  lemma OverdueIsRecovered(london: Zone, now: int, hours: int, evidence: R.Evidence, audit: seq<R.Row>, ticks: seq<int>,
                           decisions: seq<R.Decided>, candidates: map<Mode, R.Row>, t: Texts,
                           w: D.World, listed: seq<D.Run>, o: Occurrence) returns (started: Occurrence)
    requires Civil(london) && R.Audited(london, now, hours, evidence, audit)
    requires R.Planned(london, now, R.Annotated(audit, Some(ticks)), decisions) && R.Chosen(decisions, candidates)
    requires Legible(t, now, candidates) && Overdue(london, now, hours, evidence, ticks, o)
    requires forall c :: c in Output(t, now, candidates).eligible ==> D.Unattempted(listed, c) && D.Unattempted(w.runs, c)
    ensures Safe(london, now, evidence, Some(ticks), started) && started.slot >= o.slot
    ensures RunStarted(t, w, D.Executed(w, Output(t, now, candidates), listed, D.Posted, D.Accepted).1, started)
  {
    OverdueIsChosen(london, now, hours, evidence, audit, ticks, decisions, candidates, o);
    PlanIsExecuted(t, now, candidates, w, listed);
    started := DispatchedIsSafe(london, now, hours, evidence, audit, Some(ticks), decisions, candidates, t,
                                w, listed, D.Posted, D.Accepted);
    var chosen := candidates[o.mode].occurrence;
    EligibleRowIsSafe(london, now, hours, evidence, audit, Some(ticks), decisions, candidates[o.mode]);
    assert chosen.mode == o.mode && o.slot <= now;
  }
}
