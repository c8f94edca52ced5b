/** Recovery dispatch and the external clock gate, working one after the other on a shared run log. */
module Dispatch {
  import opened Wrappers
  import opened Announcement
  import opened Tally
  import Sorting

  const ELIGIBLE := "ELIGIBLE_IF_AUTHORIZED"
  const LABEL := "RECOVERY"

  /** An entry of the plan's eligible list, as read back from the audit file. */
  datatype Candidate = Candidate(mode: string, slot: string, occurrenceId: string, decision: string, tag: string,
                                 key: string, natural: Option<bool>, overdue: string)

  datatype PlanFile = PlanFile(dispatchEnabled: Option<bool>, eligible: seq<Candidate>)

  /** A listed workflow run; `title` or `altTitle` is empty when the listing lacks it. */
  datatype Run = Run(title: string, altTitle: string, status: string, conclusion: string)

  datatype Action =
    | NoEligibleCandidate
    | SkippedAlreadyAttempted(oid: string)
    | EvidenceCommentFailed(oid: string)
    | SkippedOnRecheck(oid: string)
    | DispatchStateUnknown(oid: string)
    | DispatchFailed(oid: string)
    | DispatchedRecovery(oid: string)

  datatype CommentOutcome = Posted | CommentRefused | CommentTimedOut(posted: bool)

  datatype DispatchOutcome = Accepted | Refused | DispatchTimedOut(created: bool)

  // ---------------------------------------------------------------- selection

  /** Alphabetical order of ISO texts. */
  predicate TextLe(a: string, b: string) {
    if a == [] then true
    else if b == [] then false
    else if a[0] != b[0] then a[0] < b[0]
    else TextLe(a[1..], b[1..])
  }

  predicate SlotLe(a: Candidate, b: Candidate) {
    TextLe(a.slot, b.slot)
  }

  predicate Genuine(c: Candidate) {
    c.decision == ELIGIBLE && c.tag == LABEL && c.key == "RECOVERY|" + c.occurrenceId && c.natural == Some(false)
  }

  /** `select`: the newest genuine candidate of an advisory plan. */
  function Select(plan: PlanFile): Option<Candidate> {
    var rows := Filter(plan.eligible, Genuine);
    if rows == [] || plan.dispatchEnabled != Some(false) then None
    else
      var sorted := Sorting.Sort(rows, SlotLe);
      if sorted == [] then None else Some(sorted[|sorted| - 1])
  }

  lemma {:induction false} TextTotal(a: string, b: string)
    ensures TextLe(a, b) || TextLe(b, a)
  {
    if a == [] || b == [] {
    } else {
      TextTotal(a[1..], b[1..]);
    }
  }

  lemma {:induction false} TextTransitive(a: string, b: string, c: string)
    requires TextLe(a, b) && TextLe(b, c)
    ensures TextLe(a, c)
  {
    if a == [] {
    } else if a[0] == b[0] == c[0] {
      TextTransitive(a[1..], b[1..], c[1..]);
    }
  }

  lemma SelectIsNewest(plan: PlanFile)
    ensures Select(plan) == None <==>
            plan.dispatchEnabled != Some(false) || forall c :: c in plan.eligible ==> !Genuine(c)
    ensures match Select(plan)
            case None => true
            case Some(c) =>
              && c in plan.eligible && Genuine(c)
              && forall d :: d in plan.eligible && Genuine(d) ==> SlotLe(d, c)
  {
    var rows := Filter(plan.eligible, Genuine);
    var sorted := Sorting.Sort(rows, SlotLe);
    FilterMembers(plan.eligible, Genuine);
    CountIfZero(plan.eligible, Genuine);
    Sorting.SortPermutes(rows, SlotLe);
    Sorting.SortMembers(rows, SlotLe);
    assert Sorting.TotalPreorder(SlotLe) by {
      forall x, y ensures SlotLe(x, y) || SlotLe(y, x) { TextTotal(x.slot, y.slot); }
      forall x, y, z | SlotLe(x, y) && SlotLe(y, z) ensures SlotLe(x, z) { TextTransitive(x.slot, y.slot, z.slot); }
    }
    Sorting.SortOrders(rows, SlotLe);
    if Select(plan).Some? {
      var last := sorted[|sorted| - 1];
      forall d | d in plan.eligible && Genuine(d) ensures SlotLe(d, last) {
        assert d in sorted;
        var k :| 0 <= k < |sorted| && sorted[k] == d;
        TextTotal(d.slot, d.slot);
      }
    }
  }

  /** What was selected passed every check, and nothing is selected only when nothing does. */
  lemma SelectedIsChecked(plan: PlanFile)
    ensures match Select(plan)
            case Some(c) =>
              && plan.dispatchEnabled == Some(false) && c in plan.eligible
              && c.decision == "ELIGIBLE_IF_AUTHORIZED" && c.tag == "RECOVERY" && c.key == "RECOVERY|" + c.occurrenceId
              && c.natural == Some(false)
            case None =>
              plan.dispatchEnabled == Some(false) ==>
                forall c :: c in plan.eligible ==>
                              || c.decision != "ELIGIBLE_IF_AUTHORIZED" || c.tag != "RECOVERY" || c.key != "RECOVERY|" + c.occurrenceId
                              || c.natural != Some(false)
  {
    SelectIsNewest(plan);
  }

  /** The order is alphabetical: one text begins the other, or they first differ in a smaller character. */
  lemma {:induction false} AlphabeticalIff(a: string, b: string)
    ensures TextLe(a, b) <==> a <= b || exists k :: DiffersAt(a, b, k) && a[k] < b[k]
  {
    if a == [] {
    } else if b == [] || a[0] != b[0] {
      if b != [] {
        assert DiffersAt(a, b, 0);
      }
    } else {
      AlphabeticalIff(a[1..], b[1..]);
      if k :| DiffersAt(a[1..], b[1..], k) && a[1..][k] < b[1..][k] {
        assert a[..k + 1] == [a[0]] + a[1..][..k] && b[..k + 1] == [b[0]] + b[1..][..k];
        assert DiffersAt(a, b, k + 1);
      }
      if k :| DiffersAt(a, b, k) && a[k] < b[k] {
        assert a[1..][..k - 1] == a[..k][1..] && b[1..][..k - 1] == b[..k][1..];
        assert DiffersAt(a[1..], b[1..], k - 1);
      }
    }
  }

  ghost predicate DiffersAt(a: string, b: string, k: int) {
    0 <= k < |a| && k < |b| && a[..k] == b[..k] && a[k] != b[k]
  }

  lemma NoneIsNewer(plan: PlanFile, c: Candidate, d: Candidate)
    requires Select(plan) == Some(c) && d in plan.eligible && Genuine(d)
    ensures TextLe(d.slot, c.slot)
  {
    SelectIsNewest(plan);
    assert SlotLe(d, c);
  }

  // ---------------------------------------------------------------- one recovery run

  function TitleOf(r: Run): string {
    if r.title != "" then r.title else r.altTitle
  }

  predicate AlreadyAttempted(runs: seq<Run>, c: Candidate) {
    exists r :: r in runs && TitleOf(r) == RecoveryTitle(c.mode, c.slot)
  }

  function Evidence(c: Candidate): string {
    EvidenceComment(c.occurrenceId, c.key, c.overdue)
  }

  function NewRun(title: string): Run {
    Run(title, "", "queued", "")
  }

  /** The run log and the comment thread. */
  datatype World = World(runs: seq<Run>, comments: seq<string>)

  /** `execute` on a listing of the runs and a re-listing just before the dispatch. */
  function Executed(w: World, plan: PlanFile, listed: seq<Run>, comment: CommentOutcome, dispatch: DispatchOutcome): (Action, World) {
    match Select(plan)
    case None => (NoEligibleCandidate, w)
    case Some(c) =>
      if AlreadyAttempted(listed, c) then (SkippedAlreadyAttempted(c.occurrenceId), w)
      else if comment == CommentRefused || comment == CommentTimedOut(false) then (EvidenceCommentFailed(c.occurrenceId), w)
      else
        var told := w.(comments := w.comments + [Evidence(c)]);
        if comment != Posted then (EvidenceCommentFailed(c.occurrenceId), told)
        else if AlreadyAttempted(w.runs, c) then (SkippedOnRecheck(c.occurrenceId), told)
        else
          var started := told.(runs := told.runs + [NewRun(RecoveryTitle(c.mode, c.slot))]);
          match dispatch
          case Accepted => (DispatchedRecovery(c.occurrenceId), started)
          case Refused => (DispatchFailed(c.occurrenceId), told)
          case DispatchTimedOut(created) => (DispatchStateUnknown(c.occurrenceId), if created then started else told)
  }

  class Repository {
    var runs: seq<Run>
    var comments: seq<string>

    method PostComment(body: string, outcome: CommentOutcome) returns (ok: bool)
      modifies this`comments
      ensures ok <==> outcome == Posted
      ensures comments == if outcome == Posted || outcome == CommentTimedOut(true) then old(comments) + [body] else old(comments)
    {
      if outcome == Posted || outcome == CommentTimedOut(true) {
        comments := comments + [body];
      }
      ok := outcome == Posted;
    }

    method StartRun(title: string, outcome: DispatchOutcome)
      modifies this`runs
      ensures runs == if outcome == Accepted || outcome == DispatchTimedOut(true) then old(runs) + [NewRun(title)] else old(runs)
    {
      if outcome == Accepted || outcome == DispatchTimedOut(true) {
        runs := runs + [NewRun(title)];
      }
    }

    /** `execute`: announce, look again, dispatch; in that order. */
    method Execute(plan: PlanFile, listed: seq<Run>, comment: CommentOutcome, dispatch: DispatchOutcome) returns (action: Action)
      modifies this
      ensures (action, World(runs, comments)) == Executed(World(old(runs), old(comments)), plan, listed, comment, dispatch)
    {
      var candidate := Select(plan);
      if candidate == None {
        return NoEligibleCandidate;
      }
      var c := candidate.value;
      if AlreadyAttempted(listed, c) {
        return SkippedAlreadyAttempted(c.occurrenceId);
      }
      var ok := PostComment(Evidence(c), comment);
      if !ok {
        return EvidenceCommentFailed(c.occurrenceId);
      }
      if AlreadyAttempted(runs, c) {
        return SkippedOnRecheck(c.occurrenceId);
      }
      StartRun(RecoveryTitle(c.mode, c.slot), dispatch);
      return match dispatch
        case Accepted => DispatchedRecovery(c.occurrenceId)
        case Refused => DispatchFailed(c.occurrenceId)
        case DispatchTimedOut(_) => DispatchStateUnknown(c.occurrenceId);
    }
  }

  /** No run in the list carries the candidate's title, nor does one without a title under its other name. */
  ghost predicate Unattempted(runs: seq<Run>, c: Candidate) {
    var title := "FPL EXTERNAL_CLOCK_FALLBACK occurrence " + c.mode + " " + c.slot;
    forall r :: r in runs ==> r.title != title && (r.title == "" ==> r.altTitle != title)
  }

  lemma UnattemptedIff(runs: seq<Run>, c: Candidate)
    ensures Unattempted(runs, c) <==> !AlreadyAttempted(runs, c)
  {
    assert RecoveryTitle(c.mode, c.slot) == "FPL EXTERNAL_CLOCK_FALLBACK occurrence " + c.mode + " " + c.slot;
  }

  /** The effects of one recovery, whatever was listed first. It comments exactly when it has a candidate
      that was not listed as attempted and the comment goes through; it starts a run exactly when the
      comment was posted, a second look finds the candidate unattempted, and the dispatch goes through. */
  lemma EffectsIff(w: World, plan: PlanFile, listed: seq<Run>, comment: CommentOutcome, dispatch: DispatchOutcome)
    ensures var v := Executed(w, plan, listed, comment, dispatch).1;
            match Select(plan)
            case None => v == w
            case Some(c) =>
              && v.comments == (if Unattempted(listed, c) && (comment == Posted || comment == CommentTimedOut(true))
                                then w.comments + [Evidence(c)] else w.comments)
              && v.runs == if && Unattempted(listed, c) && comment == Posted && Unattempted(w.runs, c)
                              && (dispatch == Accepted || dispatch == DispatchTimedOut(true))
                           then w.runs + [NewRun(RecoveryTitle(c.mode, c.slot))] else w.runs
  {
    if Select(plan).Some? {
      UnattemptedIff(listed, Select(plan).value);
      UnattemptedIff(w.runs, Select(plan).value);
    }
  }

  /** What the reported action means. */
  lemma ActionMeans(w: World, plan: PlanFile, listed: seq<Run>, comment: CommentOutcome, dispatch: DispatchOutcome)
    ensures var action := Executed(w, plan, listed, comment, dispatch).0;
            match Select(plan)
            case None => action == NoEligibleCandidate
            case Some(c) =>
              var unseen := Unattempted(listed, c);
              var clear := unseen && comment == Posted && Unattempted(w.runs, c);
              var oid := c.occurrenceId;
              && (action == SkippedAlreadyAttempted(oid) <==> !unseen)
              && (action == EvidenceCommentFailed(oid) <==> unseen && comment != Posted)
              && (action == SkippedOnRecheck(oid) <==> unseen && comment == Posted && !Unattempted(w.runs, c))
              && (action == DispatchedRecovery(oid) <==> clear && dispatch == Accepted)
              && (action == DispatchFailed(oid) <==> clear && dispatch == Refused)
              && (action == DispatchStateUnknown(oid) <==> clear && dispatch.DispatchTimedOut?)
  {
    if Select(plan).Some? {
      UnattemptedIff(listed, Select(plan).value);
      UnattemptedIff(w.runs, Select(plan).value);
    }
  }

  // ---------------------------------------------------------------- the external clock gate

  datatype Reason = NotExternal | Disabled | NoReportDue | RunStateUnknown | RunActive | AlreadySucceeded | PriorAttemptFailed | Clear

  datatype Gate = Proceed(reason: Reason) | Skip(reason: Reason)

  const ACTIVE: set<string> := {"queued", "in_progress", "waiting", "pending", "requested"}

  function Titled(title: string): Run -> bool {
    (r: Run) => r.title == title
  }

  /** `decide`. */
  function Decide(external: bool, enabled: bool, mode: string, slot: string, runs: Option<seq<Run>>): Gate {
    if !external then Proceed(NotExternal)
    else if !enabled then Skip(Disabled)
    else if (mode != "DEEP" && mode != "PRICE") || slot == "" then Skip(NoReportDue)
    else if runs == None then Skip(RunStateUnknown)
    else
      var mine := Filter(runs.value, Titled(ClockTitle(mode, slot)));
      if exists r :: r in mine && r.status in ACTIVE then Skip(RunActive)
      else if exists r :: r in mine && r.status == "completed" && r.conclusion == "success" then Skip(AlreadySucceeded)
      else if mine != [] then Skip(PriorAttemptFailed)
      else Proceed(Clear)
  }

  /** The gate opens for an external trigger exactly when it is enabled, names a report, and the
      listing is there and shows no run of that title in any state. */
  lemma GateOpensIff(enabled: bool, mode: string, slot: string, runs: Option<seq<Run>>)
    ensures Decide(true, enabled, mode, slot, runs).Proceed? <==>
            && enabled && (mode == "DEEP" || mode == "PRICE") && slot != "" && runs.Some?
            && forall r :: r in runs.value ==> r.title != ClockTitle(mode, slot)
  {
    if runs.Some? {
      FilterMembers(runs.value, Titled(ClockTitle(mode, slot)));
      CountIfZero(runs.value, Titled(ClockTitle(mode, slot)));
    }
  }

  /** What each answer of the gate means: a foreign origin passes; otherwise the first of these that
      applies: disabled, no report, unknown runs, an active run, a success, a failed attempt, clear. */
  lemma GateMeans(external: bool, enabled: bool, mode: string, slot: string, runs: Option<seq<Run>>)
    ensures var gate := Decide(external, enabled, mode, slot, runs);
            var report := (mode == "DEEP" || mode == "PRICE") && slot != "";
            var asked := external && enabled && report && runs.Some?;
            && (gate == Proceed(NotExternal) <==> !external)
            && (gate == Skip(Disabled) <==> external && !enabled)
            && (gate == Skip(NoReportDue) <==> external && enabled && !report)
            && (gate == Skip(RunStateUnknown) <==> external && enabled && report && runs == None)
            && (gate == Skip(RunActive) <==> asked && HasActive(runs.value, ClockTitle(mode, slot)))
            && (gate == Skip(AlreadySucceeded) <==>
                  asked && !HasActive(runs.value, ClockTitle(mode, slot)) && HasSuccess(runs.value, ClockTitle(mode, slot)))
            && (gate == Skip(PriorAttemptFailed) <==>
                  && asked && !HasActive(runs.value, ClockTitle(mode, slot)) && !HasSuccess(runs.value, ClockTitle(mode, slot))
                  && exists r :: r in runs.value && r.title == ClockTitle(mode, slot))
  {
    if runs.Some? {
      FilterMembers(runs.value, Titled(ClockTitle(mode, slot)));
      CountIfZero(runs.value, Titled(ClockTitle(mode, slot)));
    }
  }

  ghost predicate HasActive(runs: seq<Run>, title: string) {
    exists r :: r in runs && r.title == title && r.status in ["queued", "in_progress", "waiting", "pending", "requested"]
  }

  ghost predicate HasSuccess(runs: seq<Run>, title: string) {
    exists r :: r in runs && r.title == title && r.status == "completed" && r.conclusion == "success"
  }

  // ---------------------------------------------------------------- any sequence of triggers

  /** A recovery, with whatever it saw in its first listing, an external clock trigger, or progress of a
      run already in the log. An external trigger that passes the gate starts, sooner or later or not at
      all, one orchestrator run. Triggers of other origins, which the gate lets through without looking
      at the run log, are no events here. */
  datatype Event =
    | Recover(enabled: bool, plan: PlanFile, listed: seq<Run>, comment: CommentOutcome, dispatch: DispatchOutcome)
    | ExternalTrigger(enabled: bool, mode: string, slot: string, listingOk: bool, created: bool)
    | Progress(at: nat, status: string, conclusion: string)

  function Apply(w: World, e: Event): World {
    match e
    case Recover(enabled, plan, listed, comment, dispatch) =>
      if enabled then Executed(w, plan, listed, comment, dispatch).1 else w
    case ExternalTrigger(enabled, mode, slot, listingOk, created) =>
      var gate := Decide(true, enabled, mode, slot, if listingOk then Some(w.runs) else None);
      if gate.Proceed? && created then w.(runs := w.runs + [NewRun(ClockTitle(mode, slot))]) else w
    case Progress(at, status, conclusion) =>
      if at < |w.runs| then w.(runs := w.runs[at := w.runs[at].(status := status, conclusion := conclusion)]) else w
  }

  function ApplyAll(w: World, events: seq<Event>): World {
    if events == [] then w else Apply(ApplyAll(w, events[..|events| - 1]), events[|events| - 1])
  }

  function Titles(runs: seq<Run>): (r: seq<string>)
    ensures |r| == |runs| && forall k :: 0 <= k < |runs| ==> r[k] == runs[k].title
  {
    seq(|runs|, k requires 0 <= k < |runs| => runs[k].title)
  }

  /** How many runs carry the title. */
  function Attempts(w: World, title: string): nat {
    multiset(Titles(w.runs))[title]
  }

  ghost predicate Listed(w: World) {
    forall r :: r in w.runs ==> r.title != ""
  }

  lemma AttemptsZero(w: World, title: string)
    ensures Attempts(w, title) == 0 <==> forall r :: r in w.runs ==> r.title != title
  {
    assert title in multiset(Titles(w.runs)) <==> title in Titles(w.runs);
    if r :| r in w.runs && r.title == title {
      var k :| 0 <= k < |w.runs| && w.runs[k] == r;
      assert Titles(w.runs)[k] == title;
    }
  }

  /** What an event does to the run log. A recovery starts a run exactly when recoveries are enabled, its
      candidate was attempted neither in its first listing nor now, and comment and dispatch go through;
      an external trigger exactly when it is enabled and asks for a report whose title a run list that
      could be read does not show. Progress touches the state of one run only. */
  lemma EventMeans(w: World, e: Event)
    requires Listed(w)
    ensures var v := Apply(w, e);
            match e
            case Recover(enabled, plan, listed, comment, dispatch) =>
              v.runs != w.runs <==>
              && enabled && Select(plan).Some? && Unattempted(listed, Select(plan).value) && comment == Posted
              && Unattempted(w.runs, Select(plan).value) && (dispatch == Accepted || dispatch == DispatchTimedOut(true))
            case ExternalTrigger(enabled, mode, slot, listingOk, created) =>
              && v.comments == w.comments
              && v.runs == if && enabled && (mode == "DEEP" || mode == "PRICE") && slot != "" && listingOk && created
                              && forall r :: r in w.runs ==> r.title != ClockTitle(mode, slot)
                           then w.runs + [Run(ClockTitle(mode, slot), "", "queued", "")] else w.runs
            case Progress(at, status, conclusion) =>
              && v.comments == w.comments && |v.runs| == |w.runs|
              && forall k :: 0 <= k < |w.runs| ==>
                   if k == at then v.runs[k] == Run(w.runs[k].title, w.runs[k].altTitle, status, conclusion) else v.runs[k] == w.runs[k]
  {
    match e {
      case Recover(enabled, plan, listed, comment, dispatch) =>
        EffectsIff(w, plan, listed, comment, dispatch);
      case ExternalTrigger(enabled, mode, slot, listingOk, created) =>
        GateOpensIff(enabled, mode, slot, if listingOk then Some(w.runs) else None);
      case Progress(at, status, conclusion) =>
    }
  }

  /** Whoever starts a run closes the gate behind it: an external trigger for the same report then finds
      the run active. */
  lemma StartClosesGate(w: World, e: Event, mode: string, slot: string)
    requires Listed(w) && (mode == "DEEP" || mode == "PRICE") && slot != ""
    requires Titles(Apply(w, e).runs) == Titles(w.runs) + [ClockTitle(mode, slot)]
    ensures Decide(true, true, mode, slot, Some(Apply(w, e).runs)) == Skip(RunActive)
  {
    var v := Apply(w, e);
    EventMeans(w, e);
    assert |v.runs| == |w.runs| + 1;
    var last := v.runs[|w.runs|];
    assert last.title == Titles(v.runs)[|w.runs|] == ClockTitle(mode, slot);
    if e.Recover? {
      EffectsIff(w, e.plan, e.listed, e.comment, e.dispatch);
    }
    assert last.status == "queued";
    GateMeans(true, true, mode, slot, Some(v.runs));
  }

  /** Each event either leaves the titles alone or adds one that was not there. */
  lemma StepAddsFreshTitle(w: World, e: Event)
    requires Listed(w)
    ensures var v := Apply(w, e);
            && Listed(v)
            && (Titles(v.runs) == Titles(w.runs)
                || exists t :: Titles(v.runs) == Titles(w.runs) + [t] && Attempts(w, t) == 0)
  {
    var v := Apply(w, e);
    match e {
      case Recover(enabled, plan, listed, comment, dispatch) =>
        if v.runs != w.runs {
          var c := Select(plan).value;
          AttemptsZero(w, RecoveryTitle(c.mode, c.slot));
          assert Titles(v.runs) == Titles(w.runs) + [RecoveryTitle(c.mode, c.slot)];
        }
      case ExternalTrigger(enabled, mode, slot, listingOk, created) =>
        if v.runs != w.runs {
          GateOpensIff(enabled, mode, slot, Some(w.runs));
          AttemptsZero(w, ClockTitle(mode, slot));
          assert Titles(v.runs) == Titles(w.runs) + [ClockTitle(mode, slot)];
        }
      case Progress(at, status, conclusion) =>
        assert Titles(v.runs) == Titles(w.runs);
    }
  }

  /** At most once: over any sequence of recovery runs, external clock triggers and run progress, whatever
      fails or times out on the way, a title that has been attempted is never attempted again and a
      new one is attempted at most once. */
  lemma {:induction false} AtMostOnce(w: World, events: seq<Event>, title: string)
    requires Listed(w)
    ensures Listed(ApplyAll(w, events))
    ensures Attempts(w, title) <= Attempts(ApplyAll(w, events), title)
    ensures Attempts(ApplyAll(w, events), title) <= if Attempts(w, title) > 0 then Attempts(w, title) else 1
  {
    if events == [] {
    } else {
      AtMostOnce(w, events[..|events| - 1], title);
      StepAddsFreshTitle(ApplyAll(w, events[..|events| - 1]), events[|events| - 1]);
    }
  }

  /** The id of a candidate is the one of its mode and slot. */
  predicate Bound(c: Candidate) {
    c.occurrenceId == OccurrenceId(c.mode, c.slot)
  }

  /** Texts as the audit writes them: nothing in them could be taken for the parts of a comment. */
  predicate Tidy(c: Candidate) {
    Plain(c.occurrenceId) && '=' !in c.overdue
  }

  /** The comment of a genuine, tidy candidate announces its own id and no other. */
  lemma EvidenceAnnouncesId(c: Candidate, other: string)
    requires Genuine(c) && Tidy(c) && Plain(other)
    ensures RecoveryAnnounced([Evidence(c)], other) <==> other == c.occurrenceId
  {
    EvidenceAnnounces(c.occurrenceId, c.key, c.overdue);
    if RecoveryAnnounced([Evidence(c)], other) {
      EvidenceAnnouncesOnly(c.occurrenceId, c.key, c.overdue, other);
    }
  }

  /** What a recovery that starts a run leaves: one run more, titled by the candidate's mode and slot,
      and one comment more, which announces the candidate's id and changes nothing for other ids. */
  lemma RecoveryIsAnnounced(w: World, plan: PlanFile, listed: seq<Run>, comment: CommentOutcome, dispatch: DispatchOutcome, other: string)
    requires Executed(w, plan, listed, comment, dispatch).1.runs != w.runs
    ensures Select(plan).Some?
    ensures var v, c := Executed(w, plan, listed, comment, dispatch).1, Select(plan).value;
            && c in plan.eligible && Genuine(c) && Unattempted(w.runs, c)
            && v.runs == w.runs + [NewRun(RecoveryTitle(c.mode, c.slot))]
            && v.comments == w.comments + [Evidence(c)]
            && RecoveryAnnounced(v.comments, c.occurrenceId)
            && (Tidy(c) && Plain(other) && other != c.occurrenceId ==>
                  (RecoveryAnnounced(v.comments, other) <==> RecoveryAnnounced(w.comments, other)))
  {
    var c := Select(plan).value;
    SelectIsNewest(plan);
    EffectsIff(w, plan, listed, comment, dispatch);
    EvidenceAnnounces(c.occurrenceId, c.key, c.overdue);
    if Tidy(c) && Plain(other) {
      EvidenceAnnouncesId(c, other);
    }
  }

  /** The comment announces the occurrence of the run exactly when the candidate's id is bound to its
      mode and slot, which `select` does not check: otherwise the run goes unannounced by it. */
  lemma RunIsAnnouncedIff(c: Candidate)
    requires Genuine(c) && Tidy(c) && Plain(c.mode) && Plain(c.slot)
    ensures RecoveryAnnounced([Evidence(c)], OccurrenceId(c.mode, c.slot)) <==> Bound(c)
  {
    EvidenceAnnouncesId(c, OccurrenceId(c.mode, c.slot));
  }

  /** For a bound candidate comment and run speak of the same occurrence: the comment announces an
      occurrence exactly when the run carries its title. */
  lemma CommentMatchesRun(c: Candidate, mode: string, slot: string)
    requires Genuine(c) && Tidy(c) && Bound(c) && ' ' !in c.mode && '|' !in c.mode
    requires Plain(mode) && '|' !in mode && Plain(slot)
    ensures RecoveryAnnounced([Evidence(c)], OccurrenceId(mode, slot)) <==> RecoveryTitle(mode, slot) == RecoveryTitle(c.mode, c.slot)
  {
    EvidenceAnnouncesId(c, OccurrenceId(mode, slot));
    if OccurrenceId(mode, slot) == c.occurrenceId {
      IdNamesOccurrence(mode, slot, c.mode, c.slot);
    }
    if RecoveryTitle(mode, slot) == RecoveryTitle(c.mode, c.slot) {
      TitleNamesOccurrence(mode, slot, c.mode, c.slot);
    }
  }
}
