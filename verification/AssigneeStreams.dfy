/** The assignee history in Silver after a stream: the changes of the notes of the issue, one after the other. */
module AssigneeStreams {
  import opened Folds
  import opened Assignees
  import opened AssigneeReplay
  import opened Silver
  import opened Replay
  import NoteParser

  function Stamped(changes: seq<Change>, at: int): (cs: seq<TimedChange>)
    ensures |cs| == |changes| && forall i :: 0 <= i < |cs| ==> cs[i] == TimedChange(changes[i], at)
  {
    seq(|changes|, i requires 0 <= i < |changes| => TimedChange(changes[i], at))
  }

  /** What one event changes about the assignees of its issue; an event that fails changes nothing. */
  function ChangesOf(env: Env, raw: RawEvent): seq<TimedChange> {
    if raw.payload.Note? && raw.payload.system && raw.issue.project in env.projects
    then Stamped(NoteParser.Parse(raw.payload.body), raw.payload.at) else []
  }

  function ChangesFor(env: Env, raws: seq<RawEvent>, k: IssueKey): seq<TimedChange> {
    if raws == [] then []
    else
      var front, last := raws[..|raws| - 1], raws[|raws| - 1];
      ChangesFor(env, front, k) + if last.issue == k then ChangesOf(env, last) else []
  }

  lemma {:induction false} StampedRun(h: History, changes: seq<Change>, at: int)
    ensures Continue(h, Stamped(changes, at)) == ApplyAll(h, changes, at)
  {
    if changes != [] {
      var front := changes[..|changes| - 1];
      StampedRun(h, front, at);
      assert Stamped(changes, at)[..|front|] == Stamped(front, at);
    }
  }

  function StoredHistory(t: Tables, k: IssueKey): History {
    if k in t.issues then HistoryOf(t.issues[k]) else EMPTY
  }

  lemma StepAppliesChanges(env: Env, t: Tables, raw: RawEvent, k: IssueKey)
    requires KeysValid(env, t)
    ensures StoredHistory(Step(env, t, raw), k) ==
            Continue(StoredHistory(t, k), if raw.issue == k then ChangesOf(env, raw) else [])
  {
    StepShape(env, t, raw);
    var effect := Classify(env.mapper, raw.payload);
    if effect.Assignment? {
      StampedRun(StoredHistory(t, raw.issue), effect.changes, raw.payload.at);
    }
  }

  lemma {:induction false} StoredHistoryContinues(env: Env, t: Tables, raws: seq<RawEvent>, k: IssueKey)
    requires KeysValid(env, t)
    ensures KeysValid(env, Fold(Stepper(env), t, raws))
    ensures StoredHistory(Fold(Stepper(env), t, raws), k) == Continue(StoredHistory(t, k), ChangesFor(env, raws, k))
  {
    FoldKeepsKeysValid(env, t, raws);
    if raws != [] {
      var front, last := raws[..|raws| - 1], raws[|raws| - 1];
      StoredHistoryContinues(env, t, front, k);
      StepAppliesChanges(env, Fold(Stepper(env), t, front), last, k);
      ContinueConcat(StoredHistory(t, k), ChangesFor(env, front, k),
                     if last.issue == k then ChangesOf(env, last) else []);
    }
  }

  /** The history stored for an issue is the run of the changes in the notes of that issue. */
  lemma StoredHistoryIsRun(env: Env, raws: seq<RawEvent>, k: IssueKey)
    ensures KeysValid(env, Fold(Stepper(env), EMPTY_TABLES, raws))
    ensures StoredHistory(Fold(Stepper(env), EMPTY_TABLES, raws), k) == Run(ChangesFor(env, raws, k))
  {
    StoredHistoryContinues(env, EMPTY_TABLES, raws, k);
    RunIsContinue(ChangesFor(env, raws, k));
  }

  lemma {:induction false} ChangesConcat(env: Env, a: seq<RawEvent>, b: seq<RawEvent>, k: IssueKey)
    ensures ChangesFor(env, a + b, k) == ChangesFor(env, a, k) + ChangesFor(env, b, k)
  {
    if b == [] {
      assert a + b == a;
    } else {
      var front, last := b[..|b| - 1], b[|b| - 1];
      assert (a + b)[..|a + b| - 1] == a + front;
      ChangesConcat(env, a, front, k);
      Assoc(ChangesFor(env, a, k), ChangesFor(env, front, k), if last.issue == k then ChangesOf(env, last) else []);
    }
  }

  // ---- Rows that are transformed twice ----

  lemma {:induction false} IdleEvents(env: Env, t: Tables, raws: seq<RawEvent>)
    requires forall raw :: raw in raws ==> Step(env, t, raw) == t
    ensures Fold(Stepper(env), t, raws) == t
  {
    if raws != [] {
      assert raws[|raws| - 1] in raws;
      IdleEvents(env, t, raws[..|raws| - 1]);
    }
  }

  /** The issue of an event that was transformed is there. */
  lemma {:induction false} IssueIsThere(env: Env, t: Tables, raws: seq<RawEvent>, raw: RawEvent)
    requires KeysValid(env, t) && raw in raws && !Fails(env, raw) && !Classify(env.mapper, raw.payload).NoEffect?
    ensures raw.issue in Fold(Stepper(env), t, raws).issues
  {
    var front, last := raws[..|raws| - 1], raws[|raws| - 1];
    var before := Fold(Stepper(env), t, front);
    FoldKeepsKeysValid(env, t, front);
    TracesPersist(env, before, last);
    if raw == last {
      StepShape(env, before, raw);
    } else {
      assert raw in front;
      IssueIsThere(env, t, front, raw);
    }
  }

  lemma ChangesOfMember(env: Env, raws: seq<RawEvent>, raw: RawEvent)
    requires raw in raws
    ensures forall c :: c in ChangesOf(env, raw) ==> c in ChangesFor(env, raws, raw.issue)
  {
    if raw != raws[|raws| - 1] {
      assert raw in raws[..|raws| - 1];
      ChangesOfMember(env, raws[..|raws| - 1], raw);
    }
  }

  /** An assignee note whose changes the stored history absorbs has no effect. */
  lemma AbsorbedNoteIsIdle(env: Env, t: Tables, raw: RawEvent)
    requires KeysValid(env, t) && raw.issue in t.issues && IsAssigneeNote(env, raw)
    requires Continue(StoredHistory(t, raw.issue), ChangesOf(env, raw)) == StoredHistory(t, raw.issue)
    ensures Step(env, t, raw) == t
  {
    StepShape(env, t, raw);
    StampedRun(StoredHistory(t, raw.issue), Classify(env.mapper, raw.payload).changes, raw.payload.at);
  }

  lemma ReappliedNoteIsIdle(env: Env, t: Tables, a: seq<RawEvent>, b: seq<RawEvent>, raw: RawEvent)
    requires KeysValid(env, t) && raw in b && IsAssigneeNote(env, raw) && OneWay(ChangesFor(env, b, raw.issue))
    requires ChangesFor(env, b, raw.issue) != [] ==> Consistent(StoredHistory(t, raw.issue))
    ensures Step(env, Fold(Stepper(env), t, a + b), raw) == Fold(Stepper(env), t, a + b)
  {
    var k, t' := raw.issue, Fold(Stepper(env), t, a + b);
    StoredHistoryContinues(env, t, a + b, k);
    FailingStepIsIdle(env, t', raw);
    if !Fails(env, raw) {
      var h, cs := Continue(StoredHistory(t, k), ChangesFor(env, a, k)), ChangesFor(env, b, k);
      assert raw in a + b;
      IssueIsThere(env, t, a + b, raw);
      ChangesConcat(env, a, b, k);
      ContinueConcat(StoredHistory(t, k), ChangesFor(env, a, k), cs);
      ChangesOfMember(env, b, raw);
      if ChangesOf(env, raw) != [] {
        assert ChangesOf(env, raw)[0] in cs;
        ContinueCounts(StoredHistory(t, k), ChangesFor(env, a, k), "");
        ContinueCounts(h, cs, "");
        OneWayIsAbsorbed(h, cs);
        AbsorbedStream(Continue(h, cs), ChangesOf(env, raw));
      }
      AbsorbedNoteIsIdle(env, t', raw);
    }
  }

  lemma ReappliedRowIsIdle(env: Env, t: Tables, a: seq<RawEvent>, b: seq<RawEvent>, raw: RawEvent)
    requires KeysValid(env, t) && raw in b && OneWay(ChangesFor(env, b, raw.issue))
    requires ChangesFor(env, b, raw.issue) != [] ==> Consistent(StoredHistory(t, raw.issue))
    ensures Step(env, Fold(Stepper(env), t, a + b), raw) == Fold(Stepper(env), t, a + b)
  {
    if IsAssigneeNote(env, raw) {
      ReappliedNoteIsIdle(env, t, a, b, raw);
    } else {
      assert raw in a + b;
      FoldKeepsKeysValid(env, t, a + b);
      ProcessedIsSettled(env, t, a + b, raw);
      SettledIsIdle(env, Fold(Stepper(env), t, a + b), raw);
    }
  }

  lemma {:induction false} ReappliedHistory(
    env: Env, t: Tables, a: seq<RawEvent>, b: seq<RawEvent>, c: seq<RawEvent>, k: IssueKey)
    requires KeysValid(env, t)
    ensures var h := Continue(StoredHistory(t, k), ChangesFor(env, a, k));
            var bs, cs := ChangesFor(env, b, k), ChangesFor(env, c, k);
            && StoredHistory(Fold(Stepper(env), t, a + b + b + c), k) == Continue(Continue(Continue(h, bs), bs), cs)
            && StoredHistory(Fold(Stepper(env), t, a + b + c), k) == Continue(Continue(h, bs), cs)
  {
    FoldConcat(Stepper(env), t, a, b);
    FoldConcat(Stepper(env), t, a + b, b);
    FoldConcat(Stepper(env), t, a + b + b, c);
    FoldConcat(Stepper(env), t, a + b, c);
    StoredHistoryContinues(env, t, a, k);
    StoredHistoryContinues(env, Fold(Stepper(env), t, a), b, k);
    StoredHistoryContinues(env, Fold(Stepper(env), t, a + b), b, k);
    StoredHistoryContinues(env, Fold(Stepper(env), t, a + b), c, k);
    StoredHistoryContinues(env, Fold(Stepper(env), t, a + b + b), c, k);
  }

  /**
   When the rows of a batch could not be marked, the next run transforms them once more: Silver does not
   notice exactly when nobody is both assigned and unassigned on one issue by those rows.
   */
  lemma ReappliedRowsAreAbsorbedIff(env: Env, t: Tables, a: seq<RawEvent>, b: seq<RawEvent>, c: seq<RawEvent>)
    requires KeysValid(env, t)
    requires forall k :: ChangesFor(env, b, k) != [] ==> Consistent(StoredHistory(t, k))
    ensures Fold(Stepper(env), t, a + b + b + c) == Fold(Stepper(env), t, a + b + c) <==>
            forall k :: OneWay(ChangesFor(env, b, k))
  {
    if forall k :: OneWay(ChangesFor(env, b, k)) {
      forall raw | raw in b
        ensures Step(env, Fold(Stepper(env), t, a + b), raw) == Fold(Stepper(env), t, a + b)
      {
        ReappliedRowIsIdle(env, t, a, b, raw);
      }
      IdleEvents(env, Fold(Stepper(env), t, a + b), b);
      FoldConcat(Stepper(env), t, a + b, b);
      FoldConcat(Stepper(env), t, a + b + b, c);
      FoldConcat(Stepper(env), t, a + b, c);
    } else {
      var k :| !OneWay(ChangesFor(env, b, k));
      ReappliedHistory(env, t, a, b, c, k);
      assert ChangesFor(env, b, k) != [];
      ContinueCounts(StoredHistory(t, k), ChangesFor(env, a, k), "");
      RepeatIsAbsorbedIff(Continue(StoredHistory(t, k), ChangesFor(env, a, k)), ChangesFor(env, b, k),
                          ChangesFor(env, c, k));
    }
  }

  /** The histories that streams leave are consistent. */
  lemma StoredHistoriesAreConsistent(env: Env, raws: seq<RawEvent>, k: IssueKey)
    ensures Consistent(StoredHistory(Fold(Stepper(env), EMPTY_TABLES, raws), k))
  {
    StoredHistoryIsRun(env, raws, k);
    ReachableIsConsistent(ChangesFor(env, raws, k));
  }

  // ---- Re-fetched notes ----

  /** How many changes the fetched parts of the list hold. */
  function ChangeLengths(env: Env, list: seq<RawEvent>, lengths: seq<nat>, k: IssueKey): (r: seq<nat>)
    requires forall i :: 0 <= i < |lengths| ==> lengths[i] <= |list|
    ensures |r| == |lengths|
    ensures forall i :: 0 <= i < |r| ==> r[i] == |ChangesFor(env, list[..lengths[i]], k)|
  {
    seq(|lengths|, i requires 0 <= i < |lengths| => |ChangesFor(env, list[..lengths[i]], k)|)
  }

  lemma PrefixChanges(env: Env, list: seq<RawEvent>, m: nat, n: nat, k: IssueKey)
    requires m <= n <= |list|
    ensures ChangesFor(env, list[..m], k) <= ChangesFor(env, list[..n], k)
  {
    assert list[..n] == list[..m] + list[m..n];
    ChangesConcat(env, list[..m], list[m..n], k);
  }

  lemma {:induction false} PartsOfChanges(env: Env, list: seq<RawEvent>, lengths: seq<nat>, k: IssueKey)
    requires Growing(lengths, |list|)
    ensures var cs, ns := ChangesFor(env, list, k), ChangeLengths(env, list, lengths, k);
            Growing(ns, |cs|) && forall i :: 0 <= i < |ns| ==> cs[..ns[i]] == ChangesFor(env, list[..lengths[i]], k)
  {
    assert list[..|list|] == list;
    forall i | 0 <= i < |lengths| {
      PrefixChanges(env, list, lengths[i], |list|, k);
    }
    forall i, j | 0 <= i < j < |lengths|
      ensures |ChangesFor(env, list[..lengths[i]], k)| <= |ChangesFor(env, list[..lengths[j]], k)|
    {
      PrefixChanges(env, list, lengths[i], lengths[j], k);
    }
  }

  lemma {:induction false} ChangesOfRefetched(env: Env, list: seq<RawEvent>, lengths: seq<nat>, k: IssueKey)
    requires Growing(lengths, |list|)
    ensures Growing(ChangeLengths(env, list, lengths, k), |ChangesFor(env, list, k)|)
    ensures ChangesFor(env, Refetched(list, lengths), k) ==
            Refetched(ChangesFor(env, list, k), ChangeLengths(env, list, lengths, k))
  {
    PartsOfChanges(env, list, lengths, k);
    if lengths != [] {
      var front, n := lengths[..|lengths| - 1], lengths[|lengths| - 1];
      ChangesOfRefetched(env, list, front, k);
      ChangesConcat(env, Refetched(list, front), list[..n], k);
      assert ChangeLengths(env, list, lengths, k)[..|front|] == ChangeLengths(env, list, front, k);
    }
  }

  /**
   What it makes of a history to fetch a growing list of changes again and again, given what each fetch found: the
   stored periods cover exactly the instants of assignment that the last fetch speaks of. The history is that of a
   single pass exactly when nobody is both assigned and unassigned in what was fetched more than once, and its
   periods are in order exactly when every part fetched again is repeatable.
   */
  ghost predicate HistoryOfFetches(h: History, parts: seq<seq<TimedChange>>)
    requires parts != []
  {
    var n := |parts|;
    && (forall u, t :: Covered(h, u, t) <==> AssignedAt(parts[n - 1], u, t))
    && (h == Run(parts[n - 1]) <==> n == 1 || OneWay(parts[n - 2]))
    && (WellFormed(h) <==> forall j :: 0 <= j < n - 1 ==> Repeatable(parts[j]))
  }

  /** What the fetches of a growing list found. */
  function PartsOf(cs: seq<TimedChange>, ns: seq<nat>): (parts: seq<seq<TimedChange>>)
    requires forall i :: 0 <= i < |ns| ==> ns[i] <= |cs|
    ensures |parts| == |ns| && forall i :: 0 <= i < |ns| ==> parts[i] == cs[..ns[i]]
  {
    seq(|ns|, i requires 0 <= i < |ns| => cs[..ns[i]])
  }

  lemma {:induction false} RepeatableParts(cs: seq<TimedChange>, ns: seq<nat>, parts: seq<seq<TimedChange>>)
    requires Growing(ns, |cs|) && parts == PartsOf(cs, ns)
    ensures (forall j :: 0 <= j < |ns| - 1 ==> Repeatable(cs[..ns[j]])) <==>
            (forall j :: 0 <= j < |parts| - 1 ==> Repeatable(parts[j]))
  {
    assert forall j :: 0 <= j < |ns| ==> parts[j] == cs[..ns[j]];
  }

  lemma {:induction false} RefetchedRun(cs: seq<TimedChange>, ns: seq<nat>, h: History, parts: seq<seq<TimedChange>>)
    requires Growing(ns, |cs|) && ns != [] && Ordered(cs) && h == Run(Refetched(cs, ns)) && parts == PartsOf(cs, ns)
    ensures HistoryOfFetches(h, parts)
  {
    var last := parts[|parts| - 1];
    assert last == FetchedPart(cs, ns);
    forall u, t
      ensures Covered(h, u, t) <==> AssignedAt(last, u, t)
    {
      RefetchKeepsMeaning(cs, ns, u, t);
    }
    RefetchIsAbsorbedIff(cs, ns);
    RefetchStaysWellFormedIff(cs, ns);
    RepeatableParts(cs, ns, parts);
  }

  /** Any stream in which the changes of an issue are such a list, among whatever else. */
  lemma {:induction false} RefetchedHistory(
    env: Env, raws: seq<RawEvent>, k: IssueKey, cs: seq<TimedChange>, ns: seq<nat>)
    requires Growing(ns, |cs|) && ns != [] && ChangesFor(env, raws, k) == Refetched(cs, ns) && Ordered(cs)
    ensures HistoryOfFetches(StoredHistory(Fold(Stepper(env), EMPTY_TABLES, raws), k), PartsOf(cs, ns))
  {
    StoredHistoryIsRun(env, raws, k);
    RefetchedRun(cs, ns, Run(Refetched(cs, ns)), PartsOf(cs, ns));
  }
}
