/** Streams after which the two rework counts differ. */
module ReworkExamples {
  import opened Options
  import opened Labels
  import opened Folds
  import opened Silver
  import opened Locality
  import opened EventTimelines
  import opened Timelines
  import opened StateTimeline
  import opened ReworkCounts

  /** What is counted of an example: the last non-noise row, and the counts of the theorem above. */
  ghost predicate Counts(rows: seq<IssueEvent>, last: IssueEvent, all: nat, kept: nat, hanging: nat) {
    && rows != [] && Incremental(rows) && LastOf(Kept(rows)) == Some(last)
    && Returns(rows) == all && Returns(Kept(rows)) == kept && Hanging(rows) == hanging
  }

  lemma {:induction false} IncrementalSnoc(rows: seq<IssueEvent>, r: IssueEvent)
    ensures Kept(rows + [r]) == if r.noise then Kept(rows) else Kept(rows) + [r]
    ensures Incremental(rows + [r]) <==>
            Incremental(rows) && r.noise == DetectNervousFinger(LastOf(Kept(rows)), r.state, r.at)
            && r.cycles == CalculateCycleCount(LastOf(Kept(rows)), r.state)
    ensures Hanging(rows + [r]) == if GoesBack(rows, r) then (if r.noise then 1 else 0) else Hanging(rows)
  {
    assert (rows + [r])[..|rows|] == rows;
  }

  lemma {:induction false} FirstCounts(r: IssueEvent)
    requires !r.noise && r.cycles == 0
    ensures Counts([r], r, 0, 0, 0)
  {
    assert [] + [r] == [r];
    IncrementalSnoc([], r);
  }

  lemma {:induction false} NextCounts(
    rows: seq<IssueEvent>, last: IssueEvent, all: nat, kept: nat, hanging: nat, r: IssueEvent)
    requires Counts(rows, last, all, kept, hanging)
    requires r.noise == DetectNervousFinger(Some(last), r.state, r.at)
    requires r.cycles == CalculateCycleCount(Some(last), r.state)
    ensures var back := last.state == QA_REVIEW && r.state == IN_PROGRESS;
            Counts(rows + [r], if r.noise then last else r,
                   all + if rows[|rows| - 1].state == QA_REVIEW && r.state == IN_PROGRESS then 1 else 0,
                   kept + if back && !r.noise then 1 else 0,
                   if back then (if r.noise then 1 else 0) else hanging)
  {
    assert (rows + [r])[..|rows|] == rows;
    CountsSnoc(rows, r);
    ReturnsAfter(rows, r);
  }

  lemma {:induction false} ViewCounts(rows: seq<IssueEvent>, last: IssueEvent, all: nat, kept: nat, hanging: nat)
    requires Counts(rows, last, all, kept, hanging)
    ensures Returns(Collapse(rows)) == all
  {
    CollapseKeepsReturns(rows);
  }

  lemma {:induction false} StoredCounts(rows: seq<IssueEvent>, last: IssueEvent, all: nat, kept: nat, hanging: nat)
    requires Counts(rows, last, all, kept, hanging)
    ensures MaxCyclesIs(Collapse(rows), kept + hanging)
  {
    MaxCyclesAre(rows);
  }

  /** One more row of an example. */
  lemma {:induction false} Extended(
    rows: seq<IssueEvent>, last: IssueEvent, all: nat, kept: nat, hanging: nat, r: IssueEvent)
    returns (more: seq<IssueEvent>)
    requires Example(rows) && Counts(rows, last, all, kept, hanging)
    requires IsRow(r) && r.gitlabEventId == |rows| && rows[|rows| - 1].at <= r.at
    requires r.noise == DetectNervousFinger(Some(last), r.state, r.at)
    requires r.cycles == CalculateCycleCount(Some(last), r.state)
    ensures more == rows + [r] && Example(more) && more[|more| - 1] == r
    ensures var back := last.state == QA_REVIEW && r.state == IN_PROGRESS;
            Counts(more, if r.noise then last else r,
                   all + if rows[|rows| - 1].state == QA_REVIEW && r.state == IN_PROGRESS then 1 else 0,
                   kept + if back && !r.noise then 1 else 0,
                   if back then (if r.noise then 1 else 0) else hanging)
  {
    more := rows + [r];
    NextCounts(rows, last, all, kept, hanging, r);
    ExampleSnoc(rows, r);
  }

  /** A stream leaves these rows, and the view and the stored counts say so many returns. */
  ghost predicate Reported(rows: seq<IssueEvent>, view: nat, stored: nat) {
    && Arises(WORKFLOW, rows, ISSUE)
    && Returns(Collapse(rows)) == view
    && MaxCyclesIs(Collapse(rows), stored)
  }

  lemma {:induction false} CountsAreReported(rows: seq<IssueEvent>, last: IssueEvent, all: nat, kept: nat, hanging: nat)
    requires Example(rows) && Counts(rows, last, all, kept, hanging)
    ensures Reported(rows, all, kept + hanging)
  {
    ExampleArises(rows);
    ViewCounts(rows, last, all, kept, hanging);
    StoredCounts(rows, last, all, kept, hanging);
  }

  const MINUTE := 60 * 1000

  /** From QA_REVIEW to IN_PROGRESS within a minute. */
  lemma {:induction false} QuickReturn() returns (rows: seq<IssueEvent>)
    ensures Example(rows) && |rows| == 2 && rows[1] == Row(1, IN_PROGRESS, MINUTE, true, 1)
    ensures Counts(rows, Row(0, QA_REVIEW, 0, false, 0), 1, 0, 1)
  {
    var a, b := Row(0, QA_REVIEW, 0, false, 0), Row(1, IN_PROGRESS, MINUTE, true, 1);
    FirstCounts(a);
    rows := Extended([a], a, 0, 0, 0, b);
  }

  lemma {:induction false} Flurry() returns (rows: seq<IssueEvent>, last: IssueEvent, all: nat)
    ensures Example(rows) && Counts(rows, last, all, 0, 1) && all == 2
  {
    all := 2;
    last := Row(2, QA_REVIEW, 2 * MINUTE, false, 0);
    rows := QuickReturn();
    rows := Extended(rows, Row(0, QA_REVIEW, 0, false, 0), 1, 0, 1, last);
    rows := Extended(rows, last, 1, 0, 1, Row(3, IN_PROGRESS, 3 * MINUTE, true, 1));
  }

  /**
   QA_REVIEW, IN_PROGRESS, QA_REVIEW and IN_PROGRESS again, a minute apart, so that the second and the
   fourth row are noise: the view counts two returns, the stored counts one.
   */
  lemma {:induction false} NoiseHidesReturns() returns (rows: seq<IssueEvent>)
    ensures Reported(rows, 2, 1)
  {
    var last: IssueEvent;
    var all: nat;
    rows, last, all := Flurry();
    CountsAreReported(rows, last, all, 0, 1);
  }

  lemma {:induction false} Detour() returns (rows: seq<IssueEvent>, last: IssueEvent)
    ensures Example(rows) && Counts(rows, last, 0, 1, 0)
  {
    var a, b := Row(0, QA_REVIEW, 0, false, 0), Row(1, BLOCKED, MINUTE, true, 0);
    FirstCounts(a);
    last := Row(2, IN_PROGRESS, 20 * MINUTE, false, 1);
    rows := Extended([a], a, 0, 0, 0, b);
    rows := Extended(rows, a, 0, 0, 0, last);
  }

  /**
   QA_REVIEW, BLOCKED a minute later, which is noise, and IN_PROGRESS after twenty minutes: the view
   counts no return, the stored counts one.
   */
  lemma {:induction false} NoiseHidesReturnsFromView() returns (rows: seq<IssueEvent>)
    ensures Reported(rows, 0, 1)
  {
    var last: IssueEvent;
    rows, last := Detour();
    CountsAreReported(rows, last, 0, 1, 0);
  }

  // ---- Out of time order ----

  /** Rows of which the last one may be older than the others, and a copy of an earlier event after them. */
  lemma {:induction false} LateStreamLeaves(rows: seq<IssueEvent>, late: IssueEvent, copied: IssueEvent)
    requires Sorted(rows) && Incremental(rows) && Incremental(rows + [late])
    requires Plausible(WORKFLOW, rows, ISSUE) && Plausible(WORKFLOW, rows + [late], ISSUE) && copied in rows
    ensures Fold(Stepper(WORKFLOW), EMPTY_TABLES, RawsOf(rows) + [RawOf(late)] + [RawOf(copied)]).events ==
            rows + [late]
  {
    var step, raws := Stepper(WORKFLOW), RawsOf(rows);
    StreamLeavesRows(WORKFLOW, EMPTY_TABLES, rows, ISSUE);
    var t := Fold(step, EMPTY_TABLES, raws);
    NextRowArises(WORKFLOW, t, rows, late, ISSUE);
    FoldSnoc(step, EMPTY_TABLES, raws, RawOf(late));
    FoldSnoc(step, EMPTY_TABLES, raws + [RawOf(late)], RawOf(copied));
    CopyAddsNoRow(Step(WORKFLOW, t, RawOf(late)), copied);
  }

  lemma {:induction false} CopyAddsNoRow(t: Tables, copied: IssueEvent)
    requires copied in t.events && Classify(WORKFLOW.mapper, RawOf(copied).payload).Transition?
    ensures Step(WORKFLOW, t, RawOf(copied)).events == t.events
  {
    StepShape(WORKFLOW, t, RawOf(copied));
  }

  lemma {:induction false} LateRow(a: IssueEvent, b: IssueEvent)
    requires a == Row(0, IN_PROGRESS, 0, true, 1) && b == Row(1, QA_REVIEW, 60 * MINUTE, false, 0)
    ensures Incremental([b]) && Incremental([b] + [a])
  {
    assert [] + [b] == [b];
    IncrementalSnoc([], b);
    IncrementalSnoc([b], a);
  }

  lemma {:induction false} LateRowIsPlausible(a: IssueEvent, b: IssueEvent)
    requires a == Row(0, IN_PROGRESS, 0, true, 1) && b == Row(1, QA_REVIEW, 60 * MINUTE, false, 0)
    ensures Plausible(WORKFLOW, [b], ISSUE) && Plausible(WORKFLOW, [b] + [a], ISSUE)
  {
    RowMeansItsState(a);
    RowMeansItsState(b);
  }

  lemma {:induction false} LateRowComesFirst(a: IssueEvent, b: IssueEvent)
    requires a.at < b.at && a.state != b.state
    ensures Collapse(InTimeOrder([b] + [a])) == [a] + [b]
  {
    assert [b][..0] == [] && ([b] + [a])[..1] == [b] && ([a] + [b])[..1] == [a];
    assert InTimeOrder([b]) == Insert([], b) == [b];
    assert Insert([b], a) == Insert([], a) + [b];
  }

  lemma {:induction false} TwoRowCounts(a: IssueEvent, b: IssueEvent)
    requires a.state == IN_PROGRESS && b.cycles <= a.cycles
    ensures Returns([a] + [b]) == 0 && MaxCyclesIs([a] + [b], a.cycles)
  {
    ReturnsAfter([a], b);
    assert ([a] + [b])[..1] == [a] && [a][..0] == [];
    assert MaxCycles([a]) == Larger(MaxCycles([]), a.cycles);
  }

  /**
   IN_PROGRESS and an hour later QA_REVIEW, fetched twice, where the first insert of IN_PROGRESS failed: it
   arrives late, so that the stored counts have a return that never happened, and the view has none.
   */
  lemma {:induction false} FailedInsertInventsReturn() returns (raws: seq<RawEvent>, a: RawEvent, b: RawEvent)
    ensures raws == [b] + [a] + [b] && a.issue == b.issue == ISSUE
    ensures a.payload == LabelEvent(0, Add, "dev", "", 0) && b.payload == LabelEvent(1, Add, "qa", "", 60 * MINUTE)
    ensures var tr := Collapse(InTimeOrder(EventsFor(Fold(Stepper(WORKFLOW), EMPTY_TABLES, raws).events, ISSUE)));
            Returns(tr) == 0 && MaxCyclesIs(tr, 1)
  {
    var x, y := Row(0, IN_PROGRESS, 0, true, 1), Row(1, QA_REVIEW, 60 * MINUTE, false, 0);
    a, b := RawOf(x), RawOf(y);
    assert RawsOf([y]) == [b];
    raws := RawsOf([y]) + [a] + [b];
    LateRow(x, y);
    LateRowIsPlausible(x, y);
    LateStreamLeaves([y], x, y);
    OwnRows([y] + [x], ISSUE);
    LateRowComesFirst(x, y);
    TwoRowCounts(x, y);
  }
}
