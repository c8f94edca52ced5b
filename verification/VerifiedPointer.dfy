/** `merge_pointer`: the value-level update of the verified pointer document. */
module PointerMerge {
  import opened Wrappers

  const SCHEMA := "FPL_VERIFIED_POINTER_V1"
  const MAX_CAS_ATTEMPTS := 3

  /** A verified occurrence. `slot` is the instant its ISO text denotes; `evidence` stands for the
      remaining identifiers and hashes, which are copied and never inspected. */
  datatype Entry = Entry(mode: string, occurrenceId: string, slot: int, bodySha: string,
                         verifiedAt: string, evidence: map<string, string>)

  /** What the document holds for one mode. `sequence` is 0 when the stored text has none. */
  datatype Record = Record(entry: Entry, sequence: int, supersedes: Option<string>)

  datatype Document = Document(schema: string, updatedAt: string, modes: map<string, Record>)

  datatype Action = Advanced | Noop | RefusedOlder | RefusedImmutable

  function ModesOf(current: Option<Document>): map<string, Record> {
    if current.Some? then current.value.modes else map[]
  }

  /** The document to publish and the action; any action but Advanced hands back the current text. */
  function Merge(current: Option<Document>, entry: Entry): (Option<Document>, Action) {
    var modes := ModesOf(current);
    if entry.mode in modes then
      var prior := modes[entry.mode];
      if entry.slot < prior.entry.slot then
        (current, RefusedOlder)
      else if entry.slot == prior.entry.slot then
        var same := prior.entry.occurrenceId == entry.occurrenceId && prior.entry.bodySha == entry.bodySha;
        (current, if same then Noop else RefusedImmutable)
      else
        var advanced := Record(entry, prior.sequence + 1, Some(prior.entry.occurrenceId));
        (Some(Document(SCHEMA, entry.verifiedAt, modes[entry.mode := advanced])), Advanced)
    else
      var advanced := Record(entry, 1, None);
      (Some(Document(SCHEMA, entry.verifiedAt, modes[entry.mode := advanced])), Advanced)
  }

  function Readable(current: Option<Document>): bool {
    current.Some? ==> current.value.schema == SCHEMA
  }

  /** No mode disappears and no slot moves backwards from `a` to `b`. */
  ghost predicate NotOlder(a: Option<Document>, b: Option<Document>) {
    && (a.Some? ==> b.Some?)
    && (forall m :: m in ModesOf(a) ==> m in ModesOf(b) && ModesOf(a)[m].entry.slot <= ModesOf(b)[m].entry.slot)
  }

  /** `b` is not older than `a` and has moved on in mode `m`. */
  ghost predicate NewerIn(m: string, a: Option<Document>, b: Option<Document>) {
    && NotOlder(a, b)
    && m in ModesOf(b)
    && (m in ModesOf(a) ==> ModesOf(a)[m].entry.slot < ModesOf(b)[m].entry.slot)
  }

  lemma MergeMovesOn(current: Option<Document>, entry: Entry)
    requires Merge(current, entry).1 == Advanced
    ensures NewerIn(entry.mode, current, Merge(current, entry).0)
    ensures Merge(current, entry).0.Some? && Readable(Merge(current, entry).0)
  {
  }

  /** Whatever `merge_pointer` answers, the text it hands back is at least as recent as the entry. */
  lemma MergeReachesEntry(current: Option<Document>, entry: Entry)
    ensures var after := Merge(current, entry).0;
            entry.mode in ModesOf(after) && entry.slot <= ModesOf(after)[entry.mode].entry.slot
    ensures Merge(current, entry).1 != Advanced ==> Merge(current, entry).0 == current
  {
  }

  /** What an answer says about the text it was given for. NOOP: this very occurrence and body are
      recorded. REFUSED_IMMUTABLE: its slot is taken by another occurrence or body. REFUSED_OLDER: a
      later slot is recorded. ADVANCED: nothing is recorded for the mode, or an earlier slot. */
  ghost predicate Answers(current: Option<Document>, entry: Entry, action: Action) {
    var modes := ModesOf(current);
    match action
    case Advanced => entry.mode in modes ==> modes[entry.mode].entry.slot < entry.slot
    case Noop => entry.mode in modes && modes[entry.mode].entry.slot == entry.slot
                 && modes[entry.mode].entry.occurrenceId == entry.occurrenceId && modes[entry.mode].entry.bodySha == entry.bodySha
    case RefusedImmutable => entry.mode in modes && modes[entry.mode].entry.slot == entry.slot
                             && (modes[entry.mode].entry.occurrenceId != entry.occurrenceId || modes[entry.mode].entry.bodySha != entry.bodySha)
    case RefusedOlder => entry.mode in modes && entry.slot < modes[entry.mode].entry.slot
  }

  /** Every answer is true of the text, and the true answer is the one given. */
  lemma AnswerIff(current: Option<Document>, entry: Entry, action: Action)
    ensures Merge(current, entry).1 == action <==> Answers(current, entry, action)
  {
  }

  /** Submitting an entry again after it was published changes nothing and says so. */
  lemma PublishedTwiceIsNoop(current: Option<Document>, entry: Entry)
    requires Merge(current, entry).1 == Advanced
    ensures Merge(Merge(current, entry).0, entry) == (Merge(current, entry).0, Noop)
  {
  }

  /** The same slot with another body is refused, and the published body stays. */
  lemma ChangedBodyIsRefused(current: Option<Document>, entry: Entry, other: Entry)
    requires Merge(current, entry).1 == Advanced && other.mode == entry.mode && other.slot == entry.slot
    requires other.bodySha != entry.bodySha
    ensures Merge(Merge(current, entry).0, other) == (Merge(current, entry).0, RefusedImmutable)
  {
  }
}

/** Any number of `advance` calls running against one shared blob.

    The blob sha is a collision-free hash of the text, so a guarded put is modelled as a comparison
    with the text that was read. Every get and every put is one atomic step of one caller. */
module PointerProtocol {
  import opened Wrappers
  import opened Counting
  import opened PointerMerge

  datatype Outcome = Returned(action: Action) | SchemaUnknown | RetriesExhausted

  /** Where one call stands. `lost` names, by position in the write log, one foreign write for every
      failed attempt; its length is the loop counter. `since` is the log length at the last get. */
  datatype Phase =
    | Fetch(lost: seq<nat>)
    | Commit(lost: seq<nat>, since: nat, seen: Option<Document>, doc: Option<Document>)
    | Done(lost: seq<nat>, outcome: Outcome, since: nat)

  datatype Write = Write(writer: nat, before: Option<Document>, after: Option<Document>)

  datatype State = State(blob: Option<Document>, phases: seq<Phase>, log: seq<Write>)

  function Start(entries: seq<Entry>, blob: Option<Document>): State {
    State(blob, seq(|entries|, _ => Fetch([])), [])
  }

  function AfterGet(lost: seq<nat>, blob: Option<Document>, logged: nat, entry: Entry): Phase {
    if !Readable(blob) then
      Done(lost, SchemaUnknown, logged)
    else
      var (doc, action) := Merge(blob, entry);
      if action != Advanced then Done(lost, Returned(action), logged) else Commit(lost, logged, blob, doc)
  }

  function AfterConflict(lost: seq<nat>, since: nat): Phase {
    if |lost| < MAX_CAS_ATTEMPTS then Fetch(lost) else Done(lost, RetriesExhausted, since)
  }

  /** Caller i takes its next step. */
  function Step(entries: seq<Entry>, s: State, i: nat): State
    requires i < |entries| == |s.phases|
  {
    match s.phases[i]
    case Fetch(lost) =>
      s.(phases := s.phases[i := AfterGet(lost, s.blob, |s.log|, entries[i])])
    case Commit(lost, since, seen, doc) =>
      if s.blob == seen then
        State(doc, s.phases[i := Done(lost, Returned(Advanced), since)], s.log + [Write(i, seen, doc)])
      else
        s.(phases := s.phases[i := AfterConflict(lost + [since], since)])
    case Done(_, _, _) => s
  }

  ghost predicate Schedule(entries: seq<Entry>, schedule: seq<nat>) {
    forall k :: 0 <= k < |schedule| ==> schedule[k] < |entries|
  }

  /** The state after the callers named in `schedule` have stepped, in that order. */
  function Run(entries: seq<Entry>, blob: Option<Document>, schedule: seq<nat>): (s: State)
    requires Schedule(entries, schedule)
    ensures |s.phases| == |entries|
  {
    if schedule == [] then
      Start(entries, blob)
    else
      Step(entries, Run(entries, blob, schedule[..|schedule| - 1]), schedule[|schedule| - 1])
  }

  // ---------------------------------------------------------------- history of the blob

  /** The text after the first k writes. */
  function BlobAt(init: Option<Document>, log: seq<Write>, k: nat): Option<Document>
    requires k <= |log|
  {
    if k == 0 then init else log[k - 1].after
  }

  /** Write k replaced exactly the text its merge was computed from. */
  ghost predicate Replaces(entries: seq<Entry>, init: Option<Document>, log: seq<Write>, k: nat)
    requires k < |log|
  {
    && log[k].writer < |entries|
    && log[k].before == BlobAt(init, log, k)
    && Readable(log[k].before)
    && Merge(log[k].before, entries[log[k].writer]) == (log[k].after, Advanced)
  }

  ghost predicate History(entries: seq<Entry>, init: Option<Document>, log: seq<Write>) {
    forall k {:trigger Replaces(entries, init, log, k)} :: 0 <= k < |log| ==> Replaces(entries, init, log, k)
  }

  ghost predicate OneWriteEach(log: seq<Write>) {
    forall j, k :: 0 <= j < k < |log| ==> log[j].writer != log[k].writer
  }

  lemma {:induction false} HistoryMonotone(entries: seq<Entry>, init: Option<Document>, log: seq<Write>, j: nat, k: nat)
    requires History(entries, init, log) && j <= k <= |log|
    ensures NotOlder(BlobAt(init, log, j), BlobAt(init, log, k))
    decreases k - j
  {
    if j == k {
    } else {
      HistoryMonotone(entries, init, log, j, k - 1);
      assert Replaces(entries, init, log, k - 1);
      MergeMovesOn(log[k - 1].before, entries[log[k - 1].writer]);
    }
  }

  /** No text ever comes back, so an unchanged sha really means that nobody wrote in between. */
  lemma {:induction false} NoTextRecurs(entries: seq<Entry>, init: Option<Document>, log: seq<Write>, j: nat, k: nat)
    requires History(entries, init, log) && j < k <= |log|
    ensures BlobAt(init, log, j) != BlobAt(init, log, k)
  {
    HistoryMonotone(entries, init, log, j + 1, k);
    assert Replaces(entries, init, log, j);
    MergeMovesOn(log[j].before, entries[log[j].writer]);
    var m := entries[log[j].writer].mode;
    assert NewerIn(m, BlobAt(init, log, j), BlobAt(init, log, j + 1));
    assert m in ModesOf(BlobAt(init, log, k));
  }

  // ---------------------------------------------------------------- invariant

  /** The failed attempts of caller i are matched by distinct writes of other callers. */
  ghost predicate ForeignWrites(log: seq<Write>, i: nat, lost: seq<nat>) {
    && (forall a, b :: 0 <= a < b < |lost| ==> lost[a] < lost[b])
    && (forall a :: 0 <= a < |lost| ==> lost[a] < |log| && log[lost[a]].writer != i)
  }

  ghost predicate PhaseOk(entries: seq<Entry>, init: Option<Document>, s: State, i: nat)
    requires i < |entries| == |s.phases|
  {
    && ForeignWrites(s.log, i, s.phases[i].lost)
    && match s.phases[i]
       case Fetch(lost) => |lost| < MAX_CAS_ATTEMPTS
       case Commit(lost, since, seen, doc) =>
         && |lost| < MAX_CAS_ATTEMPTS
         && since <= |s.log|
         && (forall a :: 0 <= a < |lost| ==> lost[a] < since)
         && seen == BlobAt(init, s.log, since)
         && Readable(seen)
         && Merge(seen, entries[i]) == (doc, Advanced)
       case Done(lost, Returned(action), since) =>
         && |lost| < MAX_CAS_ATTEMPTS
         && entries[i].mode in ModesOf(s.blob)
         && entries[i].slot <= ModesOf(s.blob)[entries[i].mode].entry.slot
         && since <= |s.log| && Answers(BlobAt(init, s.log, since), entries[i], action)
         && (action == Advanced ==> since < |s.log| && s.log[since].writer == i)
       case Done(lost, SchemaUnknown, since) => !Readable(init)
       case Done(lost, RetriesExhausted, since) => |lost| == MAX_CAS_ATTEMPTS && since <= |s.log|
  }

  /** Caller i has written exactly when it has reported ADVANCED. */
  ghost predicate WroteIffAdvanced(s: State, i: nat)
    requires i < |s.phases|
  {
    (exists k :: 0 <= k < |s.log| && s.log[k].writer == i)
    <==> s.phases[i].Done? && s.phases[i].outcome == Returned(Advanced)
  }

  ghost predicate Inv(entries: seq<Entry>, init: Option<Document>, s: State) {
    && |s.phases| == |entries|
    && History(entries, init, s.log)
    && OneWriteEach(s.log)
    && s.blob == BlobAt(init, s.log, |s.log|)
    && (!Readable(init) ==> s.log == [])
    && (forall i :: 0 <= i < |entries| ==> PhaseOk(entries, init, s, i))
    && (forall i :: 0 <= i < |entries| ==> WroteIffAdvanced(s, i))
  }

  /** What caller i knows survives a step of another caller that leaves the blob alone or moves it on. */
  lemma PhaseSurvives(entries: seq<Entry>, init: Option<Document>, s: State, t: State, i: nat)
    requires i < |entries| == |s.phases| == |t.phases|
    requires PhaseOk(entries, init, s, i) && t.phases[i] == s.phases[i]
    requires s.log <= t.log && NotOlder(s.blob, t.blob)
    ensures PhaseOk(entries, init, t, i)
  {
  }

  lemma StepGet(entries: seq<Entry>, init: Option<Document>, s: State, i: nat)
    requires Inv(entries, init, s) && i < |entries| && s.phases[i].Fetch?
    ensures Inv(entries, init, Step(entries, s, i))
  {
    var t := Step(entries, s, i);
    MergeReachesEntry(s.blob, entries[i]);
    AnswerIff(s.blob, entries[i], Merge(s.blob, entries[i]).1);
    if s.log != [] {
      var last := s.log[|s.log| - 1];
      assert Replaces(entries, init, s.log, |s.log| - 1);
      MergeMovesOn(last.before, entries[last.writer]);
    }
    forall j | 0 <= j < |entries| ensures PhaseOk(entries, init, t, j) && WroteIffAdvanced(t, j) {
      assert PhaseOk(entries, init, s, j) && WroteIffAdvanced(s, j);
      if j != i { PhaseSurvives(entries, init, s, t, j); }
    }
  }

  lemma StepConflict(entries: seq<Entry>, init: Option<Document>, s: State, i: nat)
    requires Inv(entries, init, s) && i < |entries| && s.phases[i].Commit? && s.blob != s.phases[i].seen
    ensures Inv(entries, init, Step(entries, s, i))
    // the attempt failed because of a write made inside it by somebody else
    ensures var since := s.phases[i].since; since < |s.log| && s.log[since].writer != i
  {
    var t := Step(entries, s, i);
    assert PhaseOk(entries, init, s, i) && WroteIffAdvanced(s, i);
    forall j | 0 <= j < |entries| ensures PhaseOk(entries, init, t, j) && WroteIffAdvanced(t, j) {
      assert PhaseOk(entries, init, s, j) && WroteIffAdvanced(s, j);
      if j != i { PhaseSurvives(entries, init, s, t, j); }
    }
  }

  lemma StepPut(entries: seq<Entry>, init: Option<Document>, s: State, i: nat)
    requires Inv(entries, init, s) && i < |entries| && s.phases[i].Commit? && s.blob == s.phases[i].seen
    ensures Inv(entries, init, Step(entries, s, i))
    // the attempt succeeded because nobody wrote inside it
    ensures s.phases[i].since == |s.log|
  {
    var t := Step(entries, s, i);
    assert PhaseOk(entries, init, s, i) && WroteIffAdvanced(s, i);
    var since := s.phases[i].since;
    if since < |s.log| {
      NoTextRecurs(entries, init, s.log, since, |s.log|);
    }
    MergeMovesOn(s.blob, entries[i]);
    AnswerIff(s.blob, entries[i], Advanced);
    assert t.log[|s.log|].writer == i;
    forall k | 0 <= k < |t.log| ensures Replaces(entries, init, t.log, k) {
      if k < |s.log| { assert Replaces(entries, init, s.log, k); }
    }
    assert Replaces(entries, init, t.log, |s.log|);
    forall j | 0 <= j < |entries| ensures PhaseOk(entries, init, t, j) && WroteIffAdvanced(t, j) {
      assert PhaseOk(entries, init, s, j) && WroteIffAdvanced(s, j);
      if j != i {
        PhaseSurvives(entries, init, s, t, j);
        assert forall k :: 0 <= k < |s.log| ==> t.log[k] == s.log[k];
      }
    }
  }

  /** Every state reachable under any interleaving satisfies the invariant. */
  lemma {:induction false} RunInv(entries: seq<Entry>, init: Option<Document>, schedule: seq<nat>)
    requires Schedule(entries, schedule)
    ensures Inv(entries, init, Run(entries, init, schedule))
  {
    if schedule == [] {
    } else {
      var before := schedule[..|schedule| - 1];
      var i := schedule[|schedule| - 1];
      RunInv(entries, init, before);
      var s := Run(entries, init, before);
      if s.phases[i].Fetch? {
        StepGet(entries, init, s, i);
      } else if s.phases[i].Commit? {
        if s.blob == s.phases[i].seen {
          StepPut(entries, init, s, i);
        } else {
          StepConflict(entries, init, s, i);
        }
      }
    }
  }

  // ---------------------------------------------------------------- safety

  /** The writes to mode m among the first k. */
  ghost function WritesTo(entries: seq<Entry>, log: seq<Write>, m: string, k: nat): nat
    requires k <= |log|
  {
    if k == 0 then 0
    else
      var w := log[k - 1].writer;
      WritesTo(entries, log, m, k - 1) + if w < |entries| && entries[w].mode == m then 1 else 0
  }

  function SequenceOf(blob: Option<Document>, m: string): int {
    if m in ModesOf(blob) then ModesOf(blob)[m].sequence else 0
  }

  /** What one successful put does to the document it replaces. */
  ghost predicate SoundWrite(before: Option<Document>, after: Option<Document>, entry: Entry) {
    && after.Some? && after.value.schema == SCHEMA && after.value.updatedAt == entry.verifiedAt
    && ModesOf(after).Keys == ModesOf(before).Keys + {entry.mode}
    && (forall m :: m in ModesOf(before) && m != entry.mode ==> ModesOf(after)[m] == ModesOf(before)[m])
    && ModesOf(after)[entry.mode].entry == entry
    && SequenceOf(after, entry.mode) == SequenceOf(before, entry.mode) + 1
    && ModesOf(after)[entry.mode].supersedes
       == (if entry.mode in ModesOf(before) then Some(ModesOf(before)[entry.mode].entry.occurrenceId) else None)
    && (entry.mode in ModesOf(before) ==> ModesOf(before)[entry.mode].entry.slot < entry.slot)
  }

  /** Main safety result. Whatever the interleaving: the texts form one chain in which each put
      keeps the other modes, strictly advances its own slot, numbers it and names what it replaces;
      a call writes at most once, exactly when it reports ADVANCED; and the chain ends in the blob. */
  lemma EveryWriteIsSound(entries: seq<Entry>, init: Option<Document>, schedule: seq<nat>)
    requires Schedule(entries, schedule)
    ensures var s := Run(entries, init, schedule);
            && s.blob == BlobAt(init, s.log, |s.log|)
            && OneWriteEach(s.log)
            && (forall k :: 0 <= k < |s.log| ==>
                  && s.log[k].writer < |entries|
                  && s.log[k].before == BlobAt(init, s.log, k)
                  && SoundWrite(s.log[k].before, s.log[k].after, entries[s.log[k].writer]))
            && (forall i :: 0 <= i < |entries| ==> WroteIffAdvanced(s, i))
  {
    RunInv(entries, init, schedule);
    var s := Run(entries, init, schedule);
    forall k | 0 <= k < |s.log|
      ensures s.log[k].writer < |entries| && s.log[k].before == BlobAt(init, s.log, k)
      ensures SoundWrite(s.log[k].before, s.log[k].after, entries[s.log[k].writer])
    {
      assert Replaces(entries, init, s.log, k);
    }
  }

  /** Every answer is true. Whatever the interleaving, a call that has returned read a text of the
      chain for which its answer holds, and the put of an ADVANCED call followed that text directly. */
  lemma EveryAnswerIsTrue(entries: seq<Entry>, init: Option<Document>, schedule: seq<nat>, i: nat)
    requires Schedule(entries, schedule) && i < |entries|
    ensures var s := Run(entries, init, schedule);
            s.phases[i].Done? && s.phases[i].outcome.Returned? ==>
              && s.phases[i].since <= |s.log|
              && Answers(BlobAt(init, s.log, s.phases[i].since), entries[i], s.phases[i].outcome.action)
              && (s.phases[i].outcome.action == Advanced ==>
                    s.phases[i].since < |s.log| && s.log[s.phases[i].since].writer == i)
  {
    RunInv(entries, init, schedule);
    assert PhaseOk(entries, init, Run(entries, init, schedule), i);
  }

  /** A document of another schema is never overwritten, and every call that ends says so. */
  lemma {:induction false} ForeignSchemaIsKept(entries: seq<Entry>, init: Option<Document>, schedule: seq<nat>)
    requires Schedule(entries, schedule) && init.Some? && init.value.schema != "FPL_VERIFIED_POINTER_V1"
    ensures var s := Run(entries, init, schedule);
            && s.blob == init && s.log == []
            && forall i :: 0 <= i < |entries| ==> s.phases[i] == Fetch([]) || s.phases[i] == Done([], SchemaUnknown, 0)
  {
    if schedule == [] {
    } else {
      ForeignSchemaIsKept(entries, init, schedule[..|schedule| - 1]);
    }
  }

  /** `sequence` counts the writes of the mode. */
  lemma SequenceCountsWrites(entries: seq<Entry>, init: Option<Document>, schedule: seq<nat>, m: string)
    requires Schedule(entries, schedule)
    ensures var s := Run(entries, init, schedule);
            SequenceOf(s.blob, m) == SequenceOf(init, m) + WritesTo(entries, s.log, m, |s.log|)
  {
    RunInv(entries, init, schedule);
    var s := Run(entries, init, schedule);
    SequenceAfter(entries, init, s.log, m, |s.log|);
  }

  lemma {:induction false} SequenceAfter(entries: seq<Entry>, init: Option<Document>, log: seq<Write>, m: string, k: nat)
    requires k <= |log| && History(entries, init, log)
    ensures SequenceOf(BlobAt(init, log, k), m) == SequenceOf(init, m) + WritesTo(entries, log, m, k)
  {
    if k == 0 {
    } else {
      SequenceAfter(entries, init, log, m, k - 1);
      assert Replaces(entries, init, log, k - 1);
    }
  }

  // ---------------------------------------------------------------- progress

  /** Each failed attempt is paid for by its own write of another caller, so a call among n fails
      at most n - 1 times. */
  lemma FailuresAreForeignWrites(entries: seq<Entry>, init: Option<Document>, schedule: seq<nat>, i: nat)
    requires Schedule(entries, schedule) && i < |entries|
    ensures var s := Run(entries, init, schedule);
            && ForeignWrites(s.log, i, s.phases[i].lost)
            && |s.phases[i].lost| <= |entries| - 1
  {
    RunInv(entries, init, schedule);
    var s := Run(entries, init, schedule);
    assert PhaseOk(entries, init, s, i);
    var lost := s.phases[i].lost;
    var writers: seq<nat> := seq(|lost|, a requires 0 <= a < |lost| => s.log[lost[a]].writer);
    forall x | x in writers ensures x < |entries| && x != i {
      var a :| 0 <= a < |lost| && writers[a] == x;
      assert Replaces(entries, init, s.log, lost[a]);
    }
    DistinctBelow(writers, |entries|, i);
  }

  /** With at most three verifiers nobody ever runs out of retries. */
  lemma NeverExhausted(entries: seq<Entry>, init: Option<Document>, schedule: seq<nat>, i: nat)
    requires Schedule(entries, schedule) && i < |entries| <= 3
    ensures var p := Run(entries, init, schedule).phases[i]; p.Done? ==> p.outcome != RetriesExhausted
  {
    FailuresAreForeignWrites(entries, init, schedule, i);
    RunInv(entries, init, schedule);
    assert PhaseOk(entries, init, Run(entries, init, schedule), i);
  }

  /** Steps caller i may still need. */
  function StepsLeft(p: Phase): int {
    match p
    case Fetch(lost) => 2 * (MAX_CAS_ATTEMPTS - |lost|)
    case Commit(lost, _, _, _) => 2 * (MAX_CAS_ATTEMPTS - |lost|) - 1
    case Done(_, _, _) => 0
  }

  function Turns(schedule: seq<nat>, i: nat): nat {
    if schedule == [] then 0
    else Turns(schedule[..|schedule| - 1], i) + if schedule[|schedule| - 1] == i then 1 else 0
  }

  lemma {:induction false} StepsBound(entries: seq<Entry>, init: Option<Document>, schedule: seq<nat>, i: nat)
    requires Schedule(entries, schedule) && i < |entries|
    ensures var p := Run(entries, init, schedule).phases[i];
            p.Done? || (0 < StepsLeft(p) <= 2 * MAX_CAS_ATTEMPTS - Turns(schedule, i))
  {
    if schedule == [] {
    } else {
      var before := schedule[..|schedule| - 1];
      StepsBound(entries, init, before, i);
      RunInv(entries, init, schedule);
      assert PhaseOk(entries, init, Run(entries, init, schedule), i);
    }
  }

  /** No call waits for another: six steps of its own end it, whatever the others do. */
  lemma SixTurnsSuffice(entries: seq<Entry>, init: Option<Document>, schedule: seq<nat>, i: nat)
    requires Schedule(entries, schedule) && i < |entries| && Turns(schedule, i) >= 6
    ensures Run(entries, init, schedule).phases[i].Done?
  {
    StepsBound(entries, init, schedule, i);
  }

  // ---------------------------------------------------------------- outcome

  /** Where the record of mode m comes from: the initial text or a submitted entry. */
  ghost predicate Sourced(entries: seq<Entry>, init: Option<Document>, m: string, slot: int) {
    || (m in ModesOf(init) && ModesOf(init)[m].entry.slot == slot)
    || (exists i :: 0 <= i < |entries| && entries[i].mode == m && entries[i].slot == slot)
  }

  lemma {:induction false} RecordsAreSourced(entries: seq<Entry>, init: Option<Document>, log: seq<Write>, k: nat)
    requires History(entries, init, log) && k <= |log|
    ensures forall m :: m in ModesOf(BlobAt(init, log, k)) ==>
                          Sourced(entries, init, m, ModesOf(BlobAt(init, log, k))[m].entry.slot)
  {
    if k == 0 {
    } else {
      RecordsAreSourced(entries, init, log, k - 1);
      assert Replaces(entries, init, log, k - 1);
      assert entries[log[k - 1].writer] == entries[log[k - 1].writer];
    }
  }

  ghost predicate AllSettled(s: State) {
    forall i :: 0 <= i < |s.phases| ==> s.phases[i].Done? && s.phases[i].outcome != RetriesExhausted
  }

  /** The published slot of mode m is the newest one ever submitted for it. */
  ghost predicate HoldsNewest(entries: seq<Entry>, init: Option<Document>, m: string, slot: int) {
    && Sourced(entries, init, m, slot)
    && (m in ModesOf(init) ==> ModesOf(init)[m].entry.slot <= slot)
    && (forall i :: 0 <= i < |entries| && entries[i].mode == m ==> entries[i].slot <= slot)
  }

  /** Once every call has answered and none ran out of retries, the pointer holds, for each mode,
      the maximum of the initial slot and all submitted slots: the schedule leaves no trace. */
  lemma FinalSlotIsNewest(entries: seq<Entry>, init: Option<Document>, schedule: seq<nat>)
    requires Schedule(entries, schedule) && Readable(init)
    requires AllSettled(Run(entries, init, schedule))
    ensures var modes := ModesOf(Run(entries, init, schedule).blob);
            && (forall m :: m in modes ==> HoldsNewest(entries, init, m, modes[m].entry.slot))
            && (forall m :: m in ModesOf(init) ==> m in modes)
            && (forall i :: 0 <= i < |entries| ==> entries[i].mode in modes)
  {
    RunInv(entries, init, schedule);
    var s := Run(entries, init, schedule);
    RecordsAreSourced(entries, init, s.log, |s.log|);
    HistoryMonotone(entries, init, s.log, 0, |s.log|);
    forall i | 0 <= i < |entries|
      ensures entries[i].mode in ModesOf(s.blob) && entries[i].slot <= ModesOf(s.blob)[entries[i].mode].entry.slot
    {
      assert PhaseOk(entries, init, s, i);
    }
  }

  // ---------------------------------------------------------------- the retry budget is exact

  /** n verifiers of which the first publishes DEEP and verifier k publishes PRICE slot k. */
  function Rivals(n: nat): seq<Entry> {
    seq(n, k requires 0 <= k => Entry(if k == 0 then "DEEP" else "PRICE", "", k, "", "", map[]))
  }

  /** In every round one rival reads and writes between the victim's get and its put. */
  function Starvation(rounds: nat): seq<nat> {
    if rounds == 0 then [] else Starvation(rounds - 1) + [0] + [rounds] + [rounds] + [0]
  }

  lemma {:induction false} RunStep(entries: seq<Entry>, init: Option<Document>, schedule: seq<nat>, i: nat)
    requires Schedule(entries, schedule + [i])
    ensures Schedule(entries, schedule) && i < |entries|
    ensures Run(entries, init, schedule + [i]) == Step(entries, Run(entries, init, schedule), i)
  {
    assert (schedule + [i])[|schedule|] == i && (schedule + [i])[..|schedule|] == schedule;
    forall k | 0 <= k < |schedule| ensures schedule[k] < |entries| {
      assert (schedule + [i])[k] == schedule[k];
    }
  }

  ghost predicate Starving(entries: seq<Entry>, s: State, rounds: nat) {
    && |s.phases| == |entries| > rounds
    && Readable(s.blob) && "DEEP" !in ModesOf(s.blob)
    && ("PRICE" in ModesOf(s.blob) ==> ModesOf(s.blob)["PRICE"].entry.slot <= rounds)
    && |s.phases[0].lost| == rounds
    && (if rounds < MAX_CAS_ATTEMPTS then s.phases[0] == Fetch(s.phases[0].lost)
        else s.phases[0].Done? && s.phases[0].outcome == RetriesExhausted)
    && (forall k :: rounds < k < |entries| ==> s.phases[k] == Fetch([]))
  }

  lemma StarvingRound(n: nat, s: State, rounds: nat)
    requires Starving(Rivals(n), s, rounds) && rounds < MAX_CAS_ATTEMPTS && rounds + 1 < n
    ensures var e := Rivals(n); var r := rounds + 1;
            Starving(e, Step(e, Step(e, Step(e, Step(e, s, 0), r), r), 0), r)
  {
    var e, r := Rivals(n), rounds + 1;
    var s1 := Step(e, s, 0);
    var s2 := Step(e, s1, r);
    assert s2.phases[r].Commit? && s2.phases[r].seen == s2.blob;
    var s3 := Step(e, s2, r);
    assert s3.blob != s1.blob by { MergeMovesOn(s2.blob, e[r]); }
  }

  lemma {:induction false} StarvationStarves(n: nat, rounds: nat)
    requires rounds <= MAX_CAS_ATTEMPTS && rounds < n
    ensures Schedule(Rivals(n), Starvation(rounds))
    ensures Starving(Rivals(n), Run(Rivals(n), None, Starvation(rounds)), rounds)
  {
    if rounds == 0 {
    } else {
      var e, before := Rivals(n), Starvation(rounds - 1);
      StarvationStarves(n, rounds - 1);
      RunRound(e, None, before, rounds);
      StarvingRound(n, Run(e, None, before), rounds - 1);
    }
  }

  lemma RunRound(entries: seq<Entry>, init: Option<Document>, before: seq<nat>, r: nat)
    requires Schedule(entries, before) && 0 < r < |entries|
    ensures var after := before + [0] + [r] + [r] + [0];
            && Schedule(entries, after)
            && var s := Run(entries, init, before);
               Run(entries, init, after)
               == Step(entries, Step(entries, Step(entries, Step(entries, s, 0), r), r), 0)
  {
    RunStep(entries, init, before, 0);
    RunStep(entries, init, before + [0], r);
    RunStep(entries, init, before + [0] + [r], r);
    RunStep(entries, init, before + [0] + [r] + [r], 0);
  }

  ghost predicate NobodyExhausts(n: nat) {
    forall entries: seq<Entry>, init, schedule, i: nat ::
      |entries| == n && Schedule(entries, schedule) && i < n ==>
        var p := Run(entries, init, schedule).phases[i]; p.Done? ==> p.outcome != RetriesExhausted
  }

  /** Three attempts protect three concurrent verifiers and no more. */
  lemma RetryBudgetIsExact(n: nat)
    ensures NobodyExhausts(n) <==> n <= 3
  {
    if n <= 3 {
      forall entries: seq<Entry>, init, schedule, i: nat |
        |entries| == n && Schedule(entries, schedule) && i < n
        ensures var p := Run(entries, init, schedule).phases[i]; p.Done? ==> p.outcome != RetriesExhausted
      {
        NeverExhausted(entries, init, schedule, i);
      }
    } else {
      StarvationStarves(n, MAX_CAS_ATTEMPTS);
      assert Run(Rivals(n), None, Starvation(MAX_CAS_ATTEMPTS)).phases[0].outcome == RetriesExhausted;
    }
  }
}

/** `advance` as the retry loop it is, with the writes other verifiers land around its calls. */
module PointerAdvance {
  import opened Wrappers
  import opened PointerMerge
  import opened PointerProtocol

  /** What other verifiers submit before this call's get and between that get and its put. */
  datatype Window = Window(beforeGet: seq<Entry>, beforePut: seq<Entry>)

  /** One undisturbed foreign call. */
  function LandOne(blob: Option<Document>, entry: Entry): Option<Document> {
    if Readable(blob) then Merge(blob, entry).0 else blob
  }

  function Land(blob: Option<Document>, entries: seq<Entry>): Option<Document> {
    if entries == [] then blob else LandOne(Land(blob, entries[..|entries| - 1]), entries[|entries| - 1])
  }

  class BlobStore {
    var blob: Option<Document>

    method Get() returns (r: Option<Document>)
      ensures r == blob
    {
      r := blob;
    }

    method Put(data: Option<Document>, sha: Option<Document>) returns (conflict: bool)
      modifies this
      ensures conflict == (old(blob) != sha)
      ensures blob == if conflict then old(blob) else data
    {
      conflict := blob != sha;
      if !conflict {
        blob := data;
      }
    }

    method Interfere(others: seq<Entry>)
      modifies this
      ensures blob == Land(old(blob), others)
    {
      for k := 0 to |others|
        invariant blob == Land(old(blob), others[..k])
      {
        assert others[..k + 1][..k] == others[..k];
        blob := LandOne(blob, others[k]);
      }
      assert others[..|others|] == others;
    }
  }

  /** The call as a function of the surrounding writes. */
  function Outcomes(blob: Option<Document>, entry: Entry, windows: seq<Window>): (Option<Document>, Outcome)
    decreases |windows|
  {
    if windows == [] then
      (blob, RetriesExhausted)
    else
      var read := Land(blob, windows[0].beforeGet);
      if !Readable(read) then
        (read, SchemaUnknown)
      else
        var (doc, action) := Merge(read, entry);
        var found := Land(read, windows[0].beforePut);
        if action != Advanced then (read, Returned(action))
        else if found == read then (doc, Returned(Advanced))
        else Outcomes(found, entry, windows[1..])
  }

  method Advance(store: BlobStore, entry: Entry, windows: seq<Window>) returns (outcome: Outcome)
    requires |windows| == MAX_CAS_ATTEMPTS
    modifies store
    ensures (store.blob, outcome) == Outcomes(old(store.blob), entry, windows)
  {
    for k := 0 to MAX_CAS_ATTEMPTS
      invariant Outcomes(old(store.blob), entry, windows) == Outcomes(store.blob, entry, windows[k..])
    {
      store.Interfere(windows[k].beforeGet);
      var existing := store.Get();
      if existing.Some? && existing.value.schema != SCHEMA {
        return SchemaUnknown;
      }
      var (doc, action) := Merge(existing, entry);
      if action != Advanced {
        return Returned(action);
      }
      store.Interfere(windows[k].beforePut);
      var conflict := store.Put(doc, existing);
      if !conflict {
        return Returned(action);
      }
    }
    return RetriesExhausted;
  }

  lemma {:induction false} LandAppend(blob: Option<Document>, a: seq<Entry>, b: seq<Entry>)
    ensures Land(blob, a + b) == Land(Land(blob, a), b)
  {
    if b == [] {
      assert a + b == a;
    } else {
      LandAppend(blob, a, b[..|b| - 1]);
      assert (a + b)[..|a + b| - 1] == a + b[..|b| - 1];
    }
  }

  function Submitted(windows: seq<Window>): seq<Entry> {
    if windows == [] then [] else windows[0].beforeGet + windows[0].beforePut + Submitted(windows[1..])
  }

  /** The call takes effect at one point: after some prefix of what the others submitted it behaves
      like a single merge, and it leaves the text alone unless it reports ADVANCED. */
  lemma AdvanceIsAtomic(blob: Option<Document>, entry: Entry, windows: seq<Window>) returns (point: nat)
    ensures point <= |Submitted(windows)|
    ensures var (after, outcome) := Outcomes(blob, entry, windows);
            var at := Land(blob, Submitted(windows)[..point]);
            match outcome
            case Returned(action) => Readable(at) && Merge(at, entry) == (after, action) && Answers(at, entry, action)
            case SchemaUnknown => at.Some? && at.value.schema != "FPL_VERIFIED_POINTER_V1" && after == at
            case RetriesExhausted => after == at && point == |Submitted(windows)|
  {
    point := ActsAtOnePoint(blob, entry, windows);
    var at := Land(blob, Submitted(windows)[..point]);
    AnswerIff(at, entry, Merge(at, entry).1);
  }

  lemma {:induction false} ActsAtOnePoint(blob: Option<Document>, entry: Entry, windows: seq<Window>) returns (point: nat)
    ensures point <= |Submitted(windows)|
    ensures var (after, outcome) := Outcomes(blob, entry, windows);
            var at := Land(blob, Submitted(windows)[..point]);
            match outcome
            case Returned(action) => Readable(at) && Merge(at, entry) == (after, action)
            case SchemaUnknown => at.Some? && at.value.schema != SCHEMA && after == at
            case RetriesExhausted => after == at && point == |Submitted(windows)|
    decreases |windows|
  {
    if windows == [] {
      point := 0;
    } else {
      var w, rest := windows[0], Submitted(windows[1..]);
      var read := Land(blob, w.beforeGet);
      assert Submitted(windows) == w.beforeGet + (w.beforePut + rest);
      assert Submitted(windows)[..|w.beforeGet|] == w.beforeGet;
      point := |w.beforeGet|;
      if Readable(read) && Merge(read, entry).1 == Advanced && Land(read, w.beforePut) != read {
        var found := Land(read, w.beforePut);
        var later := ActsAtOnePoint(found, entry, windows[1..]);
        point := |w.beforeGet| + |w.beforePut| + later;
        assert Submitted(windows)[..point] == w.beforeGet + (w.beforePut + rest[..later]);
        LandAppend(blob, w.beforeGet, w.beforePut + rest[..later]);
        LandAppend(read, w.beforePut, rest[..later]);
      } else {
        MergeReachesEntry(read, entry);
      }
    }
  }

  /** A call only gives up when every attempt was disturbed: one attempt without a foreign write between
      its get and its put ends it. */
  lemma {:induction false} UndisturbedAttemptEnds(blob: Option<Document>, entry: Entry, windows: seq<Window>, k: nat)
    requires k < |windows| && windows[k].beforePut == []
    ensures Outcomes(blob, entry, windows).1 != RetriesExhausted
    decreases k
  {
    if k == 0 {
    } else {
      UndisturbedAttemptEnds(Land(Land(blob, windows[0].beforeGet), windows[0].beforePut), entry, windows[1..], k - 1);
    }
  }

  /** A foreign call that runs its get and its put back to back is what LandOne says it is. */
  lemma LandIsTwoSteps(entries: seq<Entry>, s: State, i: nat)
    requires i < |entries| == |s.phases| && s.phases[i] == Fetch([])
    ensures var t := Step(entries, Step(entries, s, i), i); t.phases[i].Done? && t.blob == LandOne(s.blob, entries[i])
  {
    MergeReachesEntry(s.blob, entries[i]);
  }
}
