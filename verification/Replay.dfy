/**
 Bronze keeps every copy of a re-fetched event. Apart from assignee notes, Silver absorbs all
 copies after the first one.
 */
module Replay {
  import opened Options
  import opened Folds
  import opened Silver

  predicate IsAssigneeNote(env: Env, raw: RawEvent) {
    Classify(env.mapper, raw.payload).Assignment?
  }

  /**
   Once `first` has been processed, `raw` has no effect: it is a copy, or it would be stored under the same
   id, whatever else it says by now.
   */
  predicate Absorbs(env: Env, first: RawEvent, raw: RawEvent) {
    var a, b := Classify(env.mapper, first.payload), Classify(env.mapper, raw.payload);
    || (raw == first && !IsAssigneeNote(env, raw))
    || (raw.issue == first.issue && SameId(first, raw)
        && ((a.Transition? && b.Transition?) || (a.UserComment? && b.UserComment?)))
  }

  predicate AbsorbedBy(env: Env, raws: seq<RawEvent>, raw: RawEvent) {
    exists first :: first in raws && Absorbs(env, first, raw)
  }

  /** The trace an event leaves once it has been processed, or that it can never leave one. */
  ghost predicate Settled(env: Env, t: Tables, raw: RawEvent) {
    var k, p := raw.issue, raw.payload;
    || Fails(env, raw)
    || match Classify(env.mapper, p)
       case NoEffect => true
       case Metadata(key) => k in t.issues && key in t.issues[k].metadata && p.name in t.issues[k].metadata[key]
       case Transition(_) => k in t.issues && HasEvent(t.events, p.id, k.project)
       case UserComment => k in t.issues && HasComment(t.comments, p.id)
       case Assignment(_) => false
  }

  lemma SettledIsIdle(env: Env, t: Tables, raw: RawEvent)
    requires KeysValid(env, t) && Settled(env, t, raw)
    ensures Step(env, t, raw) == t
  {
    FailsIff(env, t, raw);
    var k, effect := raw.issue, Classify(env.mapper, raw.payload);
    if !Fails(env, raw) && effect.Metadata? {
      assert AddLabel(t.issues[k].metadata, effect.key, raw.payload.name) == t.issues[k].metadata;
    }
  }

  lemma StepSettles(env: Env, t: Tables, raw: RawEvent)
    requires KeysValid(env, t) && !IsAssigneeNote(env, raw)
    ensures Settled(env, Step(env, t, raw), raw)
  {
    FailsIff(env, t, raw);
    var k, p, effect, t' := raw.issue, raw.payload, Classify(env.mapper, raw.payload), Step(env, t, raw);
    if !Fails(env, raw) && effect.Transition? && !HasEvent(t.events, p.id, k.project) {
      assert t'.events[|t.events|] in t'.events;
    }
    if !Fails(env, raw) && effect.UserComment? && !HasComment(t.comments, p.id) {
      assert t'.comments[|t.comments|] in t'.comments;
    }
  }

  lemma SettledPersists(env: Env, t: Tables, raw: RawEvent, other: RawEvent)
    requires KeysValid(env, t) && Settled(env, t, raw)
    ensures Settled(env, Step(env, t, other), raw)
  {
    TracesPersist(env, t, other);
  }

  /** Rows are only appended, and labels are only added to an issue. */
  lemma TracesPersist(env: Env, t: Tables, raw: RawEvent)
    ensures var t' := Step(env, t, raw);
            && t.events <= t'.events && t.comments <= t'.comments
            && (forall k :: k in t.issues ==> k in t'.issues && LabelsKept(t.issues[k].metadata, t'.issues[k].metadata))
  {
    StepShape(env, t, raw);
    if raw.issue in t.issues {
      IssueKeepsLabels(env, raw.issue, t.issues[raw.issue], raw.payload, true);
      IssueKeepsLabels(env, raw.issue, t.issues[raw.issue], raw.payload, false);
    }
  }

  ghost predicate LabelsKept(a: map<string, seq<string>>, b: map<string, seq<string>>) {
    forall key :: key in a ==> key in b && a[key] <= b[key]
  }

  lemma IssueKeepsLabels(env: Env, k: IssueKey, issue: Issue, p: Payload, duplicate: bool)
    ensures LabelsKept(issue.metadata, IssueAfter(env, k, Some(issue), p, duplicate).metadata)
  {
  }

  lemma {:induction false} ProcessedIsSettled(env: Env, t: Tables, raws: seq<RawEvent>, raw: RawEvent)
    requires KeysValid(env, t) && raw in raws && !IsAssigneeNote(env, raw)
    ensures Settled(env, Fold(Stepper(env), t, raws), raw)
  {
    var n := |raws| - 1;
    FoldKeepsKeysValid(env, t, raws[..n]);
    if raw == raws[n] {
      StepSettles(env, Fold(Stepper(env), t, raws[..n]), raw);
    } else {
      assert raw in raws[..n];
      ProcessedIsSettled(env, t, raws[..n], raw);
      SettledPersists(env, Fold(Stepper(env), t, raws[..n]), raw, raws[n]);
    }
  }

  lemma AbsorbedIsSettled(env: Env, t: Tables, raws: seq<RawEvent>, first: RawEvent, raw: RawEvent)
    requires KeysValid(env, t) && first in raws && Absorbs(env, first, raw)
    ensures Settled(env, Fold(Stepper(env), t, raws), raw)
  {
    ProcessedIsSettled(env, t, raws, first);
  }

  /** An event with the id of an earlier one changes nothing, now or later, even if it was edited meanwhile. */
  lemma CopyIsAbsorbed(env: Env, t: Tables, a: seq<RawEvent>, first: RawEvent, raw: RawEvent, b: seq<RawEvent>)
    requires KeysValid(env, t) && first in a && Absorbs(env, first, raw)
    ensures Fold(Stepper(env), t, a + [raw] + b) == Fold(Stepper(env), t, a + b)
  {
    FoldKeepsKeysValid(env, t, a);
    AbsorbedIsSettled(env, t, a, first, raw);
    SettledIsIdle(env, Fold(Stepper(env), t, a), raw);
    FoldSnoc(Stepper(env), t, a, raw);
    FoldConcat(Stepper(env), t, a + [raw], b);
    FoldConcat(Stepper(env), t, a, b);
  }

  /** The stream without the label events and user notes that an earlier one of the same id absorbs. */
  function FirstCopies(env: Env, raws: seq<RawEvent>): seq<RawEvent> {
    if raws == [] then []
    else
      var n := |raws| - 1;
      if AbsorbedBy(env, raws[..n], raws[n]) then FirstCopies(env, raws[..n])
      else FirstCopies(env, raws[..n]) + [raws[n]]
  }

  lemma AbsorbedIsIdle(env: Env, t: Tables, raws: seq<RawEvent>, raw: RawEvent)
    requires KeysValid(env, t) && AbsorbedBy(env, raws, raw)
    ensures Step(env, Fold(Stepper(env), t, raws), raw) == Fold(Stepper(env), t, raws)
  {
    var first :| first in raws && Absorbs(env, first, raw);
    FoldKeepsKeysValid(env, t, raws);
    AbsorbedIsSettled(env, t, raws, first, raw);
    SettledIsIdle(env, Fold(Stepper(env), t, raws), raw);
  }

  /** Replay safety: only the first event of each id matters. */
  lemma {:induction false} OnlyFirstCopiesMatter(env: Env, t: Tables, raws: seq<RawEvent>)
    requires KeysValid(env, t)
    ensures Fold(Stepper(env), t, raws) == Fold(Stepper(env), t, FirstCopies(env, raws))
  {
    if raws != [] {
      var n := |raws| - 1;
      OnlyFirstCopiesMatter(env, t, raws[..n]);
      FoldSnoc(Stepper(env), t, FirstCopies(env, raws[..n]), raws[n]);
      if AbsorbedBy(env, raws[..n], raws[n]) {
        AbsorbedIsIdle(env, t, raws[..n], raws[n]);
      }
    }
  }

  // ---- Re-fetching a growing list ----

  /** No event of the list absorbs a later one: each has its own id. */
  ghost predicate DistinctEvents(env: Env, list: seq<RawEvent>) {
    forall i, j :: 0 <= i < j < |list| ==> !Absorbs(env, list[i], list[j])
  }

  lemma FirstCopiesSnoc(env: Env, raws: seq<RawEvent>, raw: RawEvent)
    ensures FirstCopies(env, raws + [raw]) ==
            if AbsorbedBy(env, raws, raw) then FirstCopies(env, raws) else FirstCopies(env, raws) + [raw]
  {
    assert (raws + [raw])[..|raws|] == raws;
  }

  /** The part of the list that has been fetched when the first n events were fetched after the first m. */
  function Longer(m: nat, n: nat): nat {
    if m < n then n else m
  }

  /** The next event of the list is absorbed exactly when it was fetched before. */
  lemma NextIsAbsorbedIff(env: Env, list: seq<RawEvent>, raws: seq<RawEvent>, m: nat, n: nat)
    requires m <= |list| && n < |list| && DistinctEvents(env, list) && !IsAssigneeNote(env, list[n])
    requires forall raw :: raw in raws <==> raw in list[..Longer(m, n)]
    ensures AbsorbedBy(env, raws, list[n]) <==> n < m
  {
    if n < m {
      assert list[n] in list[..m] && Absorbs(env, list[n], list[n]);
    } else if first :| first in raws && Absorbs(env, first, list[n]) {
      assert first in list[..n];
    }
  }

  lemma NextIsNew(list: seq<RawEvent>, raws: seq<RawEvent>, m: nat, n: nat)
    requires m <= |list| && n < |list| && forall raw :: raw in raws <==> raw in list[..Longer(m, n)]
    ensures forall raw :: raw in raws + [list[n]] <==> raw in list[..Longer(m, n + 1)]
  {
    if m <= n {
      assert list[..n + 1] == list[..n] + [list[n]];
    } else {
      assert list[n] in list[..m];
    }
  }

  lemma AppendNext(raws: seq<RawEvent>, list: seq<RawEvent>, n: nat)
    requires 0 < n <= |list|
    ensures list[..n] == list[..n - 1] + [list[n - 1]]
    ensures raws + list[..n] == (raws + list[..n - 1]) + [list[n - 1]]
  {
  }

  lemma {:induction false} RefetchedRows(list: seq<RawEvent>, raws: seq<RawEvent>, m: nat, n: nat)
    requires m <= |list| && n <= |list| && forall raw :: raw in raws <==> raw in list[..m]
    ensures forall raw :: raw in raws + list[..n] <==> raw in list[..Longer(m, n)]
  {
    if n == 0 {
      assert raws + list[..0] == raws;
    } else {
      RefetchedRows(list, raws, m, n - 1);
      AppendNext(raws, list, n);
      NextIsNew(list, raws + list[..n - 1], m, n - 1);
    }
  }

  lemma {:induction false} RefetchAddsTheNew(env: Env, list: seq<RawEvent>, raws: seq<RawEvent>, m: nat, n: nat)
    requires m <= |list| && n <= |list| && DistinctEvents(env, list)
    requires forall raw :: raw in list ==> !IsAssigneeNote(env, raw)
    requires FirstCopies(env, raws) == list[..m] && forall raw :: raw in raws <==> raw in list[..m]
    ensures FirstCopies(env, raws + list[..n]) == list[..Longer(m, n)]
  {
    if n == 0 {
      assert raws + list[..0] == raws;
    } else {
      var e, before := list[n - 1], raws + list[..n - 1];
      RefetchAddsTheNew(env, list, raws, m, n - 1);
      RefetchedRows(list, raws, m, n - 1);
      NextIsAbsorbedIff(env, list, before, m, n - 1);
      FirstCopiesSnoc(env, before, e);
      AppendNext(raws, list, n);
    }
  }

  /** However often a growing list is fetched, its first copies are the list fetched last, in its own order. */
  lemma {:induction false} RefetchedListCountsOnce(env: Env, list: seq<RawEvent>, lengths: seq<nat>)
    requires Growing(lengths, |list|)
    requires DistinctEvents(env, list) && forall raw :: raw in list ==> !IsAssigneeNote(env, raw)
    ensures var n := if lengths == [] then 0 else lengths[|lengths| - 1];
            && FirstCopies(env, Refetched(list, lengths)) == list[..n]
            && forall raw :: raw in Refetched(list, lengths) <==> raw in list[..n]
  {
    if lengths != [] {
      var front := lengths[..|lengths| - 1];
      RefetchedListCountsOnce(env, list, front);
      var m := if front == [] then 0 else front[|front| - 1];
      assert front != [] ==> m == lengths[|front| - 1];
      RefetchAddsTheNew(env, list, Refetched(list, front), m, lengths[|lengths| - 1]);
      RefetchedRows(list, Refetched(list, front), m, lengths[|lengths| - 1]);
    }
  }
}
