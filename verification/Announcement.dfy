/** Texts exchanged through run titles and issue comments. */
module Announcement {
  const AUTHORITY := "EXTERNAL_CLOCK_FALLBACK"

  /** The title recovery gives and looks for. */
  function RecoveryTitle(mode: string, slot: string): string {
    "FPL " + AUTHORITY + " occurrence " + mode + " " + slot
  }

  /** The title the external clock gate looks for. */
  function ClockTitle(mode: string, slot: string): string {
    "FPL EXTERNAL_CLOCK_FALLBACK occurrence " + mode + " " + slot
  }

  predicate OccursAt(s: string, part: string, i: int) {
    0 <= i <= |s| - |part| && s[i..i + |part|] == part
  }

  ghost predicate Contains(s: string, part: string) {
    exists i :: OccursAt(s, part, i)
  }

  predicate StartsWith(s: string, part: string) {
    part <= s
  }

  const HEAD := "FPL_RECOVERY_DISPATCH | label=RECOVERY | "
  const MARK := "occurrence_id="
  const KEY := " | idempotency_key="
  const OVERDUE := " | overdue_minutes="
  const PROOF := " | natural_proof=false"
  const TAIL := PROOF + " | natural_acceptance_eligible=false"

  /** An evidence comment from the occurrence id on. */
  function Rest(oid: string, key: string, overdue: string): string {
    oid + (KEY + (key + (OVERDUE + (overdue + TAIL))))
  }

  /** The comment posted before a recovery dispatch. */
  function EvidenceComment(oid: string, key: string, overdue: string): string {
    HEAD + (MARK + Rest(oid, key, overdue))
  }

  /** `recovery_announced`: some comment announces the recovery of this occurrence. */
  ghost predicate RecoveryAnnounced(comments: seq<string>, oid: string) {
    exists c :: c in comments && StartsWith(c, "FPL_RECOVERY_DISPATCH") && Contains(c, "label=RECOVERY")
                && Contains(c, "occurrence_id=" + oid + " |")
  }

  /** Neither blanks nor equals signs, as in MODE|2026-10-25T21:30:00+07:00. */
  predicate Plain(s: string) {
    ' ' !in s && '=' !in s
  }

  /** An equals sign that follows a d. */
  predicate MarkAt(s: string, j: int) {
    0 < j < |s| && s[j] == '=' && s[j - 1] == 'd'
  }

  /** No such place, and none created by putting the text after another. */
  ghost predicate Unmarked(s: string) {
    (forall j :: !MarkAt(s, j)) && (s != [] ==> s[0] != '=')
  }

  lemma TitlesAgree(mode: string, slot: string)
    ensures RecoveryTitle(mode, slot) == ClockTitle(mode, slot)
  {
  }

  lemma Joined(a: string, b: string)
    requires Unmarked(a) && Unmarked(b)
    ensures Unmarked(a + b)
  {
    var c := a + b;
    forall j | 0 < j < |c| ensures !MarkAt(c, j) {
      if j < |a| {
        assert MarkAt(c, j) <==> MarkAt(a, j);
      } else if j > |a| {
        assert MarkAt(c, j) <==> MarkAt(b, j - |a|);
      }
    }
  }

  lemma RestUnmarked(oid: string, key: string, overdue: string)
    requires '=' !in oid && '=' !in key && '=' !in overdue
    ensures Unmarked(Rest(oid, key, overdue))
  {
    Joined(overdue, TAIL);
    Joined(OVERDUE, overdue + TAIL);
    Joined(key, OVERDUE + (overdue + TAIL));
    Joined(KEY, key + (OVERDUE + (overdue + TAIL)));
    Joined(oid, KEY + (key + (OVERDUE + (overdue + TAIL))));
  }

  /** The only place of an evidence comment where an equals sign follows a d is its own mark. */
  lemma OneMark(oid: string, key: string, overdue: string, j: int)
    requires '=' !in oid && '=' !in key && '=' !in overdue
    ensures MarkAt(EvidenceComment(oid, key, overdue), j) ==> j == |HEAD| + 13
  {
    RestUnmarked(oid, key, overdue);
    OneMarkIn(HEAD, Rest(oid, key, overdue), j);
  }

  lemma OneMarkIn(head: string, rest: string, j: int)
    requires Unmarked(head) && Unmarked(rest)
    ensures MarkAt(head + (MARK + rest), j) ==> j == |head| + 13
  {
    var c := head + (MARK + rest);
    var i := j - |head|;
    if 0 < j < |head| {
      assert MarkAt(c, j) <==> MarkAt(head, j);
    } else if |head| + 14 < j < |c| {
      assert MarkAt(c, j) <==> MarkAt(rest, i - 14);
    } else if 0 <= i < 14 && 0 < j {
      assert c[j] == MARK[i];
    } else if i == 14 && j < |c| {
      assert c[j] == rest[0];
    }
  }

  lemma MarkerOccurs(head: string, rest: string, oid: string)
    requires |rest| >= |oid| + 2 && rest[..|oid| + 2] == oid + " |"
    ensures OccursAt(head + (MARK + rest), MARK + oid + " |", |head|)
  {
    var c, marker := head + (MARK + rest), MARK + oid + " |";
    assert (MARK + rest)[..|marker|] == MARK + rest[..|oid| + 2] == marker;
    assert c[|head|..|head| + |marker|] == (MARK + rest)[..|marker|];
  }

  lemma LabelOccurs(rest: string)
    ensures StartsWith(HEAD + rest, "FPL_RECOVERY_DISPATCH") && OccursAt(HEAD + rest, "label=RECOVERY", 24)
  {
    var c := HEAD + rest;
    assert HEAD[..21] == "FPL_RECOVERY_DISPATCH" && HEAD[24..38] == "label=RECOVERY";
    assert c[..21] == HEAD[..21] && c[24..38] == HEAD[24..38];
  }

  /** An evidence comment announces its own occurrence ... */
  lemma EvidenceAnnounces(oid: string, key: string, overdue: string)
    ensures RecoveryAnnounced([EvidenceComment(oid, key, overdue)], oid)
  {
    var c, rest := EvidenceComment(oid, key, overdue), Rest(oid, key, overdue);
    LabelOccurs(MARK + rest);
    assert rest[..|oid| + 2] == oid + " |";
    MarkerOccurs(HEAD, rest, oid);
    assert c in [c];
  }

  /** ... and no other. */
  lemma EvidenceAnnouncesOnly(oid: string, key: string, overdue: string, other: string)
    requires Plain(oid) && '=' !in key && '=' !in overdue && Plain(other)
    requires RecoveryAnnounced([EvidenceComment(oid, key, overdue)], other)
    ensures other == oid
  {
    var c, rest := EvidenceComment(oid, key, overdue), Rest(oid, key, overdue);
    var i :| OccursAt(c, "occurrence_id=" + other + " |", i);
    MarkerMark(c, other, i);
    OneMark(oid, key, overdue, i + 13);
    MarkerRest(HEAD, rest, other);
    assert rest == oid + " " + (KEY[1..] + (key + (OVERDUE + (overdue + TAIL))));
    WordsAgree(oid, KEY[1..] + (key + (OVERDUE + (overdue + TAIL))), other, rest[|other| + 1..], ' ', rest);
  }

  lemma MarkerRest(head: string, rest: string, other: string)
    requires OccursAt(head + (MARK + rest), MARK + other + " |", |head|)
    ensures |rest| >= |other| + 2 && rest == other + " " + rest[|other| + 1..]
  {
    var c, marker := head + (MARK + rest), MARK + other + " |";
    assert c[|head|..] == MARK + rest;
    assert (MARK + rest)[..|marker|] == c[|head|..|head| + |marker|] == marker;
    assert rest[..|other| + 2] == (MARK + rest)[..|marker|][14..] == marker[14..] == other + " |";
    assert rest[..|other| + 1] == rest[..|other| + 2][..|other| + 1] == other + " ";
  }

  lemma MarkerMark(c: string, other: string, i: int)
    requires OccursAt(c, "occurrence_id=" + other + " |", i)
    ensures MarkAt(c, i + 13)
  {
    var marker := "occurrence_id=" + other + " |";
    assert c[i..i + |marker|][12] == 'd' && c[i..i + |marker|][13] == '=';
  }

  /** Length of the text up to its first separator. */
  function WordLength(s: string, sep: char): nat {
    if s == [] || s[0] == sep then 0 else 1 + WordLength(s[1..], sep)
  }

  lemma {:induction false} SeparatorAfter(word: string, sep: char, rest: string)
    requires sep !in word
    ensures WordLength(word + [sep] + rest, sep) == |word|
  {
    if word == [] {
    } else {
      assert (word + [sep] + rest)[1..] == word[1..] + [sep] + rest;
      SeparatorAfter(word[1..], sep, rest);
    }
  }

  /** A text is split at its first separator in one way only. */
  lemma WordsAgree(a: string, x: string, b: string, y: string, sep: char, text: string)
    requires sep !in a && sep !in b && text == a + [sep] + x == b + [sep] + y
    ensures a == b && x == y
  {
    SeparatorAfter(a, sep, x);
    SeparatorAfter(b, sep, y);
    assert a == text[..|a|] && b == text[..|b|];
    assert x == text[|a| + 1..] && y == text[|b| + 1..];
  }

  /** A run title determines the occurrence it was given for. */
  lemma TitleNamesOccurrence(mode: string, slot: string, mode2: string, slot2: string)
    requires ' ' !in mode && ' ' !in mode2
    requires RecoveryTitle(mode, slot) == RecoveryTitle(mode2, slot2)
    ensures mode == mode2 && slot == slot2
  {
    var head := "FPL " + AUTHORITY + " occurrence ";
    var a, b := mode + " " + slot, mode2 + " " + slot2;
    assert RecoveryTitle(mode, slot) == head + a && RecoveryTitle(mode2, slot2) == head + b;
    assert (head + a)[|head|..] == a && (head + b)[|head|..] == b;
    WordsAgree(mode, slot, mode2, slot2, ' ', a);
  }

  /** `occurrence_id`. */
  function OccurrenceId(mode: string, slot: string): string {
    mode + "|" + slot
  }

  /** An occurrence id determines its mode and slot. */
  lemma IdNamesOccurrence(mode: string, slot: string, mode2: string, slot2: string)
    requires '|' !in mode && '|' !in mode2 && OccurrenceId(mode, slot) == OccurrenceId(mode2, slot2)
    ensures mode == mode2 && slot == slot2
  {
    WordsAgree(mode, slot, mode2, slot2, '|', OccurrenceId(mode, slot));
  }
}
