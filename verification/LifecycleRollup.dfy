/**
 Time per state in the lifecycle view. Every interval is cut at a horizon: the last DONE entry
 of a finished issue, the current time otherwise. Times are integer milliseconds.
 */
module LifecycleRollup {
  import opened Options
  import opened Labels
  import opened Silver
  import opened EventTimelines
  import opened StateTimeline
  import opened Locality
  import opened Instants

  function Max(a: int, b: int): int {
    if a >= b then a else b
  }

  function Min(a: int, b: int): int {
    if a <= b then a else b
  }

  /** MAX(entered_at) over the DONE transitions. */
  function LastDoneAt(tr: seq<IssueEvent>): Option<int> {
    if tr == [] then None
    else
      var r, before := tr[|tr| - 1], LastDoneAt(tr[..|tr| - 1]);
      if r.state != DONE then before
      else Some(if before.Some? then Max(before.value, r.at) else r.at)
  }

  function Horizon(tr: seq<IssueEvent>, cached: Option<State>, now: int): int {
    if Analytical(tr, cached) == Some(DONE) && LastDoneAt(tr).Some? then LastDoneAt(tr).value else now
  }

  /** When the i-th transition is left; NULL for the last one. */
  function ExitedAt(tr: seq<IssueEvent>, i: nat): Option<int>
    requires i < |tr|
  {
    if i + 1 < |tr| then Some(tr[i + 1].at) else None
  }

  /** GREATEST(LEAST(COALESCE(exited_at, horizon), horizon) - entered_at, 0) */
  function ClippedMillis(tr: seq<IssueEvent>, i: nat, horizon: int): int
    requires i < |tr|
  {
    var exit := ExitedAt(tr, i);
    Max(Min(if exit.Some? then exit.value else horizon, horizon) - tr[i].at, 0)
  }

  /** The clipped time of the first n transitions whose state is in the given set. */
  function TimeIn(tr: seq<IssueEvent>, states: set<State>, horizon: int, n: nat): int
    requires n <= |tr|
  {
    if n == 0 then 0
    else TimeIn(tr, states, horizon, n - 1) + if tr[n - 1].state in states then ClippedMillis(tr, n - 1, horizon) else 0
  }

  const ALL_STATES := {BACKLOG, IN_PROGRESS, QA_REVIEW, BLOCKED, DONE, CANCELED, UNKNOWN, BLANK}

  // ---- Clipping loses nothing ----

  lemma {:induction false} LastDoneBound(tr: seq<IssueEvent>)
    requires Sorted(tr)
    ensures LastDoneAt(tr).Some? <==> exists r :: r in tr && r.state == DONE
    ensures LastDoneAt(tr).Some? ==> tr != [] && LastDoneAt(tr).value <= tr[|tr| - 1].at
  {
    if tr != [] {
      var front := tr[..|tr| - 1];
      LastDoneBound(front);
      assert tr == front + [tr[|tr| - 1]];
      if front != [] {
        assert front[|front| - 1] == tr[|front| - 1];
      }
    }
  }

  /** The horizon of a finished issue is the entry time of its last transition. */
  lemma {:induction false} HorizonOfFinished(tr: seq<IssueEvent>, cached: Option<State>, now: int)
    requires Sorted(tr) && tr != []
    ensures Horizon(tr, cached, now) == if tr[|tr| - 1].state == DONE then tr[|tr| - 1].at else now
  {
    LastDoneBound(tr[..|tr| - 1]);
    if |tr| > 1 {
      assert tr[..|tr| - 1][|tr| - 2] == tr[|tr| - 2];
    }
  }

  /** With nothing in the future, cutting at the horizon shortens no interval and makes none negative. */
  lemma {:induction false} ClippingIsLossless(tr: seq<IssueEvent>, cached: Option<State>, now: int, i: nat)
    requires Sorted(tr) && i < |tr| && tr[|tr| - 1].at <= now
    ensures var h := Horizon(tr, cached, now);
            ClippedMillis(tr, i, h) == (if i + 1 < |tr| then tr[i + 1].at else h) - tr[i].at >= 0
  {
    HorizonOfFinished(tr, cached, now);
    assert i + 1 < |tr| - 1 ==> tr[i + 1].at <= tr[|tr| - 1].at;
  }

  lemma {:induction false} EveryStateIsListed(s: State)
    ensures s in ALL_STATES
  {
    match s
    case BACKLOG | IN_PROGRESS | QA_REVIEW | BLOCKED =>
    case DONE | CANCELED | UNKNOWN | BLANK =>
  }

  lemma {:induction false} IntervalsTelescope(tr: seq<IssueEvent>, cached: Option<State>, now: int, n: nat)
    requires Sorted(tr) && 0 < n <= |tr| && tr[|tr| - 1].at <= now
    ensures var h := Horizon(tr, cached, now);
            TimeIn(tr, ALL_STATES, h, n) == (if n < |tr| then tr[n].at else h) - tr[0].at
  {
    var h := Horizon(tr, cached, now);
    ClippingIsLossless(tr, cached, now, n - 1);
    if n > 1 {
      IntervalsTelescope(tr, cached, now, n - 1);
    }
    EveryStateIsListed(tr[n - 1].state);
  }

  /** The intervals tile the span from the first transition to the horizon. */
  lemma {:induction false} IntervalsTile(tr: seq<IssueEvent>, cached: Option<State>, now: int)
    requires Sorted(tr) && tr != [] && tr[|tr| - 1].at <= now
    ensures TimeIn(tr, ALL_STATES, Horizon(tr, cached, now), |tr|) == Horizon(tr, cached, now) - tr[0].at
  {
    IntervalsTelescope(tr, cached, now, |tr|);
  }

  lemma {:induction false} TimeInIsAdditive(tr: seq<IssueEvent>, a: set<State>, b: set<State>, horizon: int, n: nat)
    requires n <= |tr| && a !! b
    ensures TimeIn(tr, a + b, horizon, n) == TimeIn(tr, a, horizon, n) + TimeIn(tr, b, horizon, n)
    ensures TimeIn(tr, a, horizon, n) >= 0
  {
    if n > 0 {
      TimeInIsAdditive(tr, a, b, horizon, n - 1);
    }
  }

  // ---- Two-decimal hours ----

  /** ROUND(hours, 2) in hundredths of an hour (36000 ms each), half away from zero. */
  function RoundedHundredths(ms: int): int {
    if ms >= 0 then (2 * ms + 36000) / 72000 else -((-2 * ms + 36000) / 72000)
  }

  /** The rounded value is a nearest hundredth, and a tie goes away from zero. */
  lemma {:induction false} RoundedIsNearest(ms: int)
    ensures -18000 <= 36000 * RoundedHundredths(ms) - ms <= 18000
    ensures 36000 * RoundedHundredths(ms) - ms == 18000 ==> ms >= 0
    ensures 36000 * RoundedHundredths(ms) - ms == -18000 ==> ms <= 0
  {
  }

  lemma {:induction false} RoundingIsNearlyAdditive(a: int, b: int)
    requires a >= 0 && b >= 0
    ensures -1 <= RoundedHundredths(a + b) - RoundedHundredths(a) - RoundedHundredths(b) <= 1
  {
  }

  /**
   Unrounded cycle time is in-progress plus QA time and, with the blocked time, stays within the
   issue's span; the rounded columns disagree by at most a hundredth of an hour.
   */
  lemma {:induction false} CycleTimeSplits(tr: seq<IssueEvent>, cached: Option<State>, now: int)
    requires Sorted(tr) && tr != [] && tr[|tr| - 1].at <= now
    ensures var h, n := Horizon(tr, cached, now), |tr|;
            var cycle, dev, qa, blocked := TimeIn(tr, {IN_PROGRESS, QA_REVIEW}, h, n), TimeIn(tr, {IN_PROGRESS}, h, n),
                                           TimeIn(tr, {QA_REVIEW}, h, n), TimeIn(tr, {BLOCKED}, h, n);
            && cycle == dev + qa
            && 0 <= cycle && 0 <= blocked && cycle + blocked <= h - tr[0].at
            && -1 <= RoundedHundredths(cycle) - RoundedHundredths(dev) - RoundedHundredths(qa) <= 1
  {
    var h, n := Horizon(tr, cached, now), |tr|;
    TimeInIsAdditive(tr, {IN_PROGRESS}, {QA_REVIEW}, h, n);
    TimeInIsAdditive(tr, {QA_REVIEW}, {}, h, n);
    assert {IN_PROGRESS} + {QA_REVIEW} == {IN_PROGRESS, QA_REVIEW};
    var others := {BACKLOG, DONE, CANCELED, UNKNOWN, BLANK};
    TimeInIsAdditive(tr, {IN_PROGRESS, QA_REVIEW}, {BLOCKED}, h, n);
    TimeInIsAdditive(tr, {BLOCKED}, others, h, n);
    TimeInIsAdditive(tr, {IN_PROGRESS, QA_REVIEW} + {BLOCKED}, others, h, n);
    TimeInIsAdditive(tr, others, {}, h, n);
    assert {IN_PROGRESS, QA_REVIEW} + {BLOCKED} + others == ALL_STATES;
    IntervalsTile(tr, cached, now);
    RoundingIsNearlyAdditive(TimeIn(tr, {IN_PROGRESS}, h, n), TimeIn(tr, {QA_REVIEW}, h, n));
  }

  // ---- Which time the time of a state is ----

  /** Instants at which one of the states is in force. */
  ghost function InStates(rows: seq<IssueEvent>, states: set<State>): int -> bool {
    t => InForce(rows, t).Some? && InForce(rows, t).value in states
  }

  /** A later row changes nothing about the instants before it. */
  lemma {:induction false} InForceBefore(rows: seq<IssueEvent>, n: nat, t: int)
    requires Sorted(rows) && 0 < n <= |rows| && rows[n - 1].at <= t && (n < |rows| ==> t < rows[n].at)
    ensures InForce(rows, t) == Some(rows[n - 1].state)
  {
    if n < |rows| {
      var front := rows[..|rows| - 1];
      assert rows[n].at <= rows[|rows| - 1].at;
      assert n < |front| ==> front[n] == rows[n];
      InForceBefore(front, n, t);
    }
  }

  /** A clipped interval is as long as there are instants before the horizon at which its own state is in force. */
  lemma {:induction false} IntervalMeasuresState(tr: seq<IssueEvent>, states: set<State>, horizon: int, i: nat)
    requires Sorted(tr) && i < |tr|
    ensures var end := if i + 1 < |tr| then Min(tr[i + 1].at, horizon) else horizon;
            CountIf(InStates(tr, states), tr[i].at, end) ==
            if tr[i].state in states then ClippedMillis(tr, i, horizon) else 0
  {
    var f, end := InStates(tr, states), if i + 1 < |tr| then Min(tr[i + 1].at, horizon) else horizon;
    forall t | tr[i].at <= t < end
      ensures f(t) <==> tr[i].state in states
    {
      InForceBefore(tr, i + 1, t);
    }
    if tr[i].state !in states {
      CountsNone(f, tr[i].at, end);
    } else if tr[i].at <= end {
      CountsAll(f, tr[i].at, end);
    }
  }

  lemma {:induction false} FirstTimesMeasureStates(tr: seq<IssueEvent>, states: set<State>, horizon: int, n: nat)
    requires Sorted(tr) && 0 < n <= |tr|
    ensures var end := if n < |tr| then Min(tr[n].at, horizon) else horizon;
            TimeIn(tr, states, horizon, n) == CountIf(InStates(tr, states), tr[0].at, end)
  {
    var f, end := InStates(tr, states), if n < |tr| then Min(tr[n].at, horizon) else horizon;
    IntervalMeasuresState(tr, states, horizon, n - 1);
    if n == 1 {
      assert TimeIn(tr, states, horizon, 0) == 0;
    } else {
      FirstTimesMeasureStates(tr, states, horizon, n - 1);
      if tr[n - 1].at <= end {
        CountSplits(f, tr[0].at, tr[n - 1].at, end);
      } else {
        assert Min(tr[n - 1].at, horizon) == end;
      }
    }
  }

  /**
   Whatever the horizon, the time of a set of states is the number of instants from the first transition up to
   the horizon at which one of the states is in force.
   */
  lemma {:induction false} TimeMeasuresStates(tr: seq<IssueEvent>, states: set<State>, horizon: int)
    requires Sorted(tr) && tr != []
    ensures TimeIn(tr, states, horizon, |tr|) == CountIf(InStates(tr, states), tr[0].at, horizon)
  {
    FirstTimesMeasureStates(tr, states, horizon, |tr|);
  }

  // ---- The view over what is stored ----

  /** The transitions of an issue: its rows in time order, collapsed. */
  function Transitions(t: Tables, k: IssueKey): seq<IssueEvent> {
    Collapse(InTimeOrder(EventsFor(t.events, k)))
  }

  /** Whatever rows are stored, the transitions are in time order, alternate, and start with the earliest row. */
  lemma {:induction false} TransitionsOfStoredRows(t: Tables, k: IssueKey)
    requires EventsFor(t.events, k) != []
    ensures var rows, tr := EventsFor(t.events, k), Transitions(t, k);
            && tr != [] && Sorted(tr) && Alternating(tr)
            && (forall i :: 0 <= i < |tr| - 1 ==> tr[i].state != tr[i + 1].state)
            && (forall r :: r in tr ==> r in rows)
            && (forall r :: r in rows ==> tr[0].at <= r.at)
  {
    var rows, sorted := EventsFor(t.events, k), InTimeOrder(EventsFor(t.events, k));
    InTimeOrderSorts(rows);
    InTimeOrderKeepsRows(rows);
    assert rows[0] in sorted;
    CollapseShape(sorted);
    CollapseAlternates(sorted);
    CollapseKeepsSorted(sorted);
    forall i | 0 <= i < |Collapse(sorted)| - 1
      ensures Collapse(sorted)[i].state != Collapse(sorted)[i + 1].state
    {
      AlternatingNeighbours(Collapse(sorted), i);
    }
    FirstIsEarliest(sorted);
  }

  lemma {:induction false} FirstIsEarliest(rows: seq<IssueEvent>)
    requires Sorted(rows) && rows != []
    ensures forall r :: r in rows ==> rows[0].at <= r.at
  {
  }

  /**
   The figures of the lifecycle view over the stored rows of an issue: the times of all states add up to
   the span from the earliest row to the horizon, cycle time splits, and the counts belong together.
   */
  lemma {:induction false} RollupOfStoredRows(t: Tables, k: IssueKey, cached: Option<State>, now: int)
    requires var rows := EventsFor(t.events, k); rows != [] && forall r :: r in rows ==> r.at <= now
    ensures var tr := Transitions(t, k);
            var h, n := Horizon(tr, cached, now), |tr|;
            && tr != []
            && (forall r :: r in EventsFor(t.events, k) ==> tr[0].at <= r.at)
            && TimeIn(tr, ALL_STATES, h, n) == h - tr[0].at >= 0
            && TimeIn(tr, {IN_PROGRESS, QA_REVIEW}, h, n) ==
               TimeIn(tr, {IN_PROGRESS}, h, n) + TimeIn(tr, {QA_REVIEW}, h, n) <= h - tr[0].at
            && Reopened(tr) == Entries(tr, DONE) - (if tr[n - 1].state == DONE then 1 else 0)
            && Returns(tr) <= Entries(tr, IN_PROGRESS)
  {
    var tr := Transitions(t, k);
    TransitionsOfStoredRows(t, k);
    assert tr[|tr| - 1] in tr;
    IntervalsTile(tr, cached, now);
    HorizonOfFinished(tr, cached, now);
    CycleTimeSplits(tr, cached, now);
    ReopenedIsDoneLeft(tr);
    ReturnsAreEntries(tr);
  }

  /**
   The time the view reports for a set of states is the time from the earliest stored row to the horizon during
   which the last stored row so far has one of the states, repeated states included.
   */
  lemma {:induction false} StoredTimeMeasuresStates(t: Tables, k: IssueKey, cached: Option<State>, now: int,
                                                    states: set<State>)
    requires EventsFor(t.events, k) != []
    ensures var tr, rows := Transitions(t, k), InTimeOrder(EventsFor(t.events, k));
            && rows != [] && rows[0] in EventsFor(t.events, k)
            && (forall r :: r in EventsFor(t.events, k) ==> rows[0].at <= r.at)
            && TimeIn(tr, states, Horizon(tr, cached, now), |tr|) ==
               CountIf(InStates(rows, states), rows[0].at, Horizon(tr, cached, now))
  {
    var rows, tr := InTimeOrder(EventsFor(t.events, k)), Transitions(t, k);
    var h := Horizon(tr, cached, now);
    TransitionsOfStoredRows(t, k);
    InTimeOrderSorts(EventsFor(t.events, k));
    InTimeOrderKeepsRows(EventsFor(t.events, k));
    assert tr[0] in rows;
    CollapseShape(rows);
    TimeMeasuresStates(tr, states, h);
    forall t
      ensures InStates(tr, states)(t) == InStates(rows, states)(t)
    {
      CollapseKeepsStateInForce(rows, t);
    }
    CountAgrees(InStates(tr, states), InStates(rows, states), tr[0].at, h);
  }
}
