/**
 What the transformer's one-event-at-a-time decisions amount to over the whole timeline of an
 issue: noise flags, rework counts and the cached state.
 */
module IncrementalEvents {
  import opened Options
  import opened Labels
  import opened Folds
  import opened Silver
  import opened EventTimelines
  import opened Locality
  import opened Replay

  ghost predicate Coherent(v: IssueView, k: IssueKey) {
    && Sorted(v.events)
    && (forall r :: r in v.events ==> r.issue == k)
    && Incremental(v.events)
    && (v.issue.None? ==> v.events == [])
    && (v.issue.Some? ==> v.issue.value.state == LastKnown(v.events))
  }

  /** In time order the newest non-noise event is the last one inserted. */
  lemma {:induction false} NewestIsLastKept(rows: seq<IssueEvent>, k: IssueKey)
    requires Sorted(rows) && forall r :: r in rows ==> r.issue == k
    ensures LastEvent(rows, k) == LastOf(Kept(rows))
    ensures forall r :: r in Kept(rows) ==> r in rows
  {
    if rows != [] {
      var front, last := rows[..|rows| - 1], rows[|rows| - 1];
      NewestIsLastKept(front, k);
      assert last in rows && forall r :: r in front ==> r.at <= last.at;
      assert Kept(front) != [] ==> Kept(front)[|Kept(front)| - 1] in Kept(front);
    }
  }

  lemma {:induction false} JudgedRowFollows(rows: seq<IssueEvent>, k: IssueKey, p: Payload, state: State)
    requires Sorted(rows) && Incremental(rows) && p.LabelEvent? && forall r :: r in rows ==> r.issue == k
    ensures Incremental(rows + [NewRow(rows, k, p, state)])
  {
    NewestIsLastKept(rows, k);
    assert (rows + [NewRow(rows, k, p, state)])[..|rows|] == rows;
  }

  lemma {:induction false} LaterRowFollows(rows: seq<IssueEvent>, r: IssueEvent)
    requires Sorted(rows) && forall q :: q in rows ==> q.at <= r.at
    ensures Sorted(rows + [r])
  {
    assert forall i :: 0 <= i < |rows| ==> rows[i] in rows;
  }

  lemma {:induction false} InsertKeepsTimeline(rows: seq<IssueEvent>, k: IssueKey, p: Payload, state: State)
    requires Sorted(rows) && Incremental(rows) && p.LabelEvent?
    requires forall r :: r in rows ==> r.issue == k && r.at <= p.at
    ensures var rows' := InsertEvent(rows, k, p, state);
            Sorted(rows') && Incremental(rows') && forall r :: r in rows' ==> r.issue == k
  {
    JudgedRowFollows(rows, k, p, state);
    LaterRowFollows(rows, NewRow(rows, k, p, state));
  }

  lemma {:induction false} InsertMovesLastKnown(rows: seq<IssueEvent>, k: IssueKey, p: Payload, state: State)
    requires p.LabelEvent?
    ensures LastKnown(InsertEvent(rows, k, p, state)) ==
            if HasEvent(rows, p.id, k.project) || state == UNKNOWN then LastKnown(rows) else Some(state)
  {
    assert (rows + [NewRow(rows, k, p, state)])[..|rows|] == rows;
  }

  lemma {:induction false} StateAfter(
    env: Env, k: IssueKey, before: Option<Issue>, p: Payload, state: State, duplicate: bool)
    requires Classify(env.mapper, p) == Transition(state)
    ensures IssueAfter(env, k, before, p, duplicate).state ==
            if !duplicate && state != UNKNOWN then Some(state) else if before.Some? then before.value.state else None
  {
  }

  lemma {:induction false} CoherentAfter(issue: Issue, rows: seq<IssueEvent>, comments: seq<Comment>, k: IssueKey)
    requires Sorted(rows) && Incremental(rows) && issue.state == LastKnown(rows)
    requires forall r :: r in rows ==> r.issue == k
    ensures Coherent(IssueView(Some(issue), rows, comments), k)
  {
  }

  lemma {:induction false} TransitionKeepsCoherent(env: Env, v: IssueView, raw: RawEvent, state: State)
    requires Coherent(v, raw.issue) && raw.payload.LabelEvent? && Classify(env.mapper, raw.payload) == Transition(state)
    requires forall r :: r in v.events ==> r.at <= raw.payload.at
    ensures Coherent(StepView(env, v, raw), raw.issue)
  {
    var k, p := raw.issue, raw.payload;
    if v.issue.Some? || k.project in env.projects {
      var duplicate := HasEvent(v.events, p.id, k.project);
      InsertKeepsTimeline(v.events, k, p, state);
      InsertMovesLastKnown(v.events, k, p, state);
      StateAfter(env, k, v.issue, p, state, duplicate);
      CoherentAfter(IssueAfter(env, k, v.issue, p, duplicate), InsertEvent(v.events, k, p, state), v.comments, k);
    }
  }

  lemma {:induction false} StepKeepsCoherent(env: Env, v: IssueView, raw: RawEvent)
    requires Coherent(v, raw.issue)
    requires raw.payload.LabelEvent? ==> forall r :: r in v.events ==> r.at <= raw.payload.at
    ensures Coherent(StepView(env, v, raw), raw.issue)
  {
    var effect := Classify(env.mapper, raw.payload);
    if effect.Transition? {
      TransitionKeepsCoherent(env, v, raw, effect.state);
    }
  }

  /** Label events of each issue arrive in time order, as the API lists them. */
  ghost predicate Chronological(raws: seq<RawEvent>) {
    forall i, j | 0 <= i < j < |raws| && raws[i].issue == raws[j].issue ::
      raws[i].payload.LabelEvent? && raws[j].payload.LabelEvent? ==> raws[i].payload.at <= raws[j].payload.at
  }

  lemma {:induction false} RowsAreEarlier(env: Env, raws: seq<RawEvent>, raw: RawEvent)
    requires Chronological(raws + [raw]) && raw.payload.LabelEvent?
    ensures forall r ::
              r in EventsFor(Fold(Stepper(env), EMPTY_TABLES, raws).events, raw.issue) ==> r.at <= raw.payload.at
  {
    var t, all := Fold(Stepper(env), EMPTY_TABLES, raws), raws + [raw];
    RowsComeFrom(env, raws);
    EventsForMembers(t.events, raw.issue);
    forall r | r in EventsFor(t.events, raw.issue)
      ensures r.at <= raw.payload.at
    {
      var a :| a in raws && Made(a, r);
      var i :| 0 <= i < |raws| && raws[i] == a;
      assert all[i] == a && all[|raws|] == raw;
    }
  }

  lemma {:induction false} ChronologicalIsCoherent(env: Env, raws: seq<RawEvent>, k: IssueKey)
    requires IdsIdentifyIssues(raws) && Chronological(raws)
    ensures Coherent(ViewOf(Fold(Stepper(env), EMPTY_TABLES, raws), k), k)
  {
    if raws != [] {
      var front, last := raws[..|raws| - 1], raws[|raws| - 1];
      var t := Fold(Stepper(env), EMPTY_TABLES, front);
      assert raws == front + [last];
      assert IdsIdentifyIssues(front) && Chronological(front);
      ChronologicalIsCoherent(env, front, k);
      FoldSnoc(Stepper(env), EMPTY_TABLES, front, last);
      if last.issue == k {
        IdsAreOwn(env, front, last);
        StepIsLocal(env, t, last);
        if last.payload.LabelEvent? {
          RowsAreEarlier(env, front, last);
        }
        StepKeepsCoherent(env, ViewOf(t, k), last);
      } else {
        StepLeavesOthers(env, t, last, k);
      }
    }
  }

  /** Later copies may arrive in any order: it is enough that the first copies are in time order. */
  lemma {:induction false} StreamsAreCoherent(env: Env, raws: seq<RawEvent>, k: IssueKey)
    requires IdsIdentifyIssues(FirstCopies(env, raws)) && Chronological(FirstCopies(env, raws))
    ensures Coherent(ViewOf(Fold(Stepper(env), EMPTY_TABLES, raws), k), k)
  {
    OnlyFirstCopiesMatter(env, EMPTY_TABLES, raws);
    ChronologicalIsCoherent(env, FirstCopies(env, raws), k);
  }
}
