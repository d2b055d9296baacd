/**
 Every coherent timeline arises from a stream: the converse of what streams leave behind. It turns
 rows written down by hand into rows that the transformer really stores.
 */
module Timelines {
  import opened Labels
  import opened Folds
  import opened Silver
  import opened Locality
  import opened EventTimelines
  import opened IncrementalEvents

  /** The label event a row comes from. */
  function RawOf(r: IssueEvent): RawEvent {
    RawEvent(r.issue, LabelEvent(r.gitlabEventId, Add, r.labelAdded, r.author, r.at))
  }

  function RawsOf(rows: seq<IssueEvent>): (raws: seq<RawEvent>)
    ensures |raws| == |rows| && forall i :: 0 <= i < |rows| ==> raws[i] == RawOf(rows[i])
  {
    seq(|rows|, i requires 0 <= i < |rows| => RawOf(rows[i]))
  }

  /** The rows of one issue, each with its own id, from additions of labels that mean the state stored. */
  ghost predicate Plausible(env: Env, rows: seq<IssueEvent>, k: IssueKey) {
    && k.project in env.projects
    && (forall i, j :: 0 <= i < j < |rows| ==> rows[i].gitlabEventId != rows[j].gitlabEventId)
    && (forall r :: r in rows ==>
          r.issue == k && r.labelRemoved == "" && Classify(env.mapper, RawOf(r).payload) == Transition(r.state))
  }

  lemma NextRowIsNew(env: Env, rows: seq<IssueEvent>, r: IssueEvent, k: IssueKey)
    requires Plausible(env, rows + [r], k)
    ensures r.issue == k && forall q :: q in rows ==> q.issue == k && q.gitlabEventId != r.gitlabEventId
  {
    var all := rows + [r];
    assert all[|rows|] == r && r in all;
    forall q | q in rows
      ensures q.issue == k && q.gitlabEventId != r.gitlabEventId
    {
      var i :| 0 <= i < |rows| && rows[i] == q;
      assert all[i] == q && q in all;
    }
  }

  lemma NextRowIsStored(rows: seq<IssueEvent>, r: IssueEvent, k: IssueKey)
    requires Sorted(rows) && Incremental(rows + [r]) && r.issue == k && r.labelRemoved == ""
    requires forall q :: q in rows ==> q.issue == k
    ensures NewRow(rows, k, RawOf(r).payload, r.state) == r
  {
    assert (rows + [r])[..|rows|] == rows;
    NewestIsLastKept(rows, k);
  }

  lemma NextRowArises(env: Env, t: Tables, rows: seq<IssueEvent>, r: IssueEvent, k: IssueKey)
    requires t.events == rows && Sorted(rows) && Incremental(rows + [r]) && Plausible(env, rows + [r], k)
    ensures Step(env, t, RawOf(r)).events == rows + [r] && k in Step(env, t, RawOf(r)).issues
  {
    assert (rows + [r])[|rows|] == r && r in rows + [r];
    NextRowIsNew(env, rows, r, k);
    NextRowIsStored(rows, r, k);
    StepShape(env, t, RawOf(r));
  }

  lemma PrefixIsPlausible(env: Env, rows: seq<IssueEvent>, k: IssueKey)
    requires rows != [] && Sorted(rows) && Incremental(rows) && Plausible(env, rows, k)
    ensures var front := rows[..|rows| - 1];
            Sorted(front) && Incremental(front) && Plausible(env, front, k) && rows == front + [rows[|rows| - 1]]
  {
  }

  lemma RawsSnoc(rows: seq<IssueEvent>, r: IssueEvent)
    ensures RawsOf(rows + [r]) == RawsOf(rows) + [RawOf(r)]
  {
  }

  /** Over tables without events, the label events the rows come from leave the rows. */
  lemma {:induction false} StreamLeavesRows(env: Env, t: Tables, rows: seq<IssueEvent>, k: IssueKey)
    requires t.events == [] && Sorted(rows) && Incremental(rows) && Plausible(env, rows, k)
    ensures Fold(Stepper(env), t, RawsOf(rows)).events == rows
    ensures rows != [] ==> k in Fold(Stepper(env), t, RawsOf(rows)).issues
  {
    if rows != [] {
      var front, last := rows[..|rows| - 1], rows[|rows| - 1];
      PrefixIsPlausible(env, rows, k);
      StreamLeavesRows(env, t, front, k);
      RawsSnoc(front, last);
      FoldSnoc(Stepper(env), t, RawsOf(front), RawOf(last));
      NextRowArises(env, Fold(Stepper(env), t, RawsOf(front)), front, last, k);
    }
  }

  /** A stream of label events in the order of their timestamps that leaves exactly these rows. */
  ghost predicate Arises(env: Env, rows: seq<IssueEvent>, k: IssueKey) {
    var raws, t := RawsOf(rows), Fold(Stepper(env), EMPTY_TABLES, RawsOf(rows));
    && IdsIdentifyIssues(raws) && Chronological(raws)
    && (rows != [] ==> k in t.issues) && EventsFor(t.events, k) == rows
  }

  lemma {:induction false} OwnRows(rows: seq<IssueEvent>, k: IssueKey)
    requires forall r :: r in rows ==> r.issue == k
    ensures EventsFor(rows, k) == rows
  {
    if rows != [] {
      OwnRows(rows[..|rows| - 1], k);
      assert rows[|rows| - 1] in rows;
    }
  }

  lemma RawsAreInOrder(rows: seq<IssueEvent>, k: IssueKey)
    requires Sorted(rows) && forall r :: r in rows ==> r.issue == k
    ensures IdsIdentifyIssues(RawsOf(rows)) && Chronological(RawsOf(rows))
  {
    var raws := RawsOf(rows);
    forall a | a in raws
      ensures a.issue == k
    {
      var i :| 0 <= i < |raws| && raws[i] == a;
      assert rows[i] in rows;
    }
  }

  /** Every coherent timeline arises from a stream. */
  lemma CoherentTimelinesArise(env: Env, rows: seq<IssueEvent>, k: IssueKey)
    requires Sorted(rows) && Incremental(rows) && Plausible(env, rows, k)
    ensures Arises(env, rows, k)
  {
    StreamLeavesRows(env, EMPTY_TABLES, rows, k);
    OwnRows(rows, k);
    RawsAreInOrder(rows, k);
  }

  // ---- Rows for examples: one issue, with a label for each of the states used ----

  const ISSUE := IssueKey(7, 1)

  const LABELS: map<string, State> :=
    map["backlog" := BACKLOG, "dev" := IN_PROGRESS, "qa" := QA_REVIEW, "blocked" := BLOCKED, "done" := DONE]

  const WORKFLOW := Env(Mapper(name => name, LABELS, map[]), {7}, map[])

  function LabelOf(s: State): string {
    match s
    case BACKLOG => "backlog"
    case IN_PROGRESS => "dev"
    case QA_REVIEW => "qa"
    case BLOCKED => "blocked"
    case _ => "done"
  }

  function Row(id: int, state: State, at: int, noise: bool, cycles: int): IssueEvent {
    IssueEvent(id, ISSUE, "", LabelOf(state), "", state, at, noise, cycles)
  }

  predicate IsRow(r: IssueEvent) {
    && r == Row(r.gitlabEventId, r.state, r.at, r.noise, r.cycles)
    && r.state in {BACKLOG, IN_PROGRESS, QA_REVIEW, BLOCKED, DONE}
  }

  lemma RowMeansItsState(r: IssueEvent)
    requires IsRow(r)
    ensures Classify(WORKFLOW.mapper, RawOf(r).payload) == Transition(r.state)
  {
    assert LabelOf(r.state) in LABELS && LABELS[LabelOf(r.state)] == r.state;
  }

  /** Numbered rows in time order. */
  ghost predicate Example(rows: seq<IssueEvent>) {
    Sorted(rows) && forall i :: 0 <= i < |rows| ==> IsRow(rows[i]) && rows[i].gitlabEventId == i
  }

  lemma ExampleSnoc(rows: seq<IssueEvent>, r: IssueEvent)
    requires Example(rows) && IsRow(r) && r.gitlabEventId == |rows| && (rows != [] ==> rows[|rows| - 1].at <= r.at)
    ensures Example(rows + [r])
  {
  }

  lemma ExampleIsPlausible(rows: seq<IssueEvent>)
    requires Example(rows)
    ensures Plausible(WORKFLOW, rows, ISSUE)
  {
    forall r | r in rows {
      RowMeansItsState(r);
    }
  }

  lemma ExampleArises(rows: seq<IssueEvent>)
    requires Example(rows) && Incremental(rows)
    ensures Arises(WORKFLOW, rows, ISSUE)
  {
    ExampleIsPlausible(rows);
    CoherentTimelinesArise(WORKFLOW, rows, ISSUE);
  }
}
