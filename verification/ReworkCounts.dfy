/** The rework count the view computes against the counts stored with the rows. */
module ReworkCounts {
  import opened Options
  import opened Labels
  import opened Silver
  import opened EventTimelines
  import opened StateTimeline

  function Larger(m: Option<int>, c: int): Option<int> {
    if m.Some? && m.value >= c then m else Some(c)
  }

  /** MAX(cycle_count) over the transitions. */
  function MaxCycles(tr: seq<IssueEvent>): Option<int> {
    if tr == [] then None else Larger(MaxCycles(tr[..|tr| - 1]), tr[|tr| - 1].cycles)
  }

  /** MAX(cycle_count) is m, and not NULL. */
  predicate MaxCyclesIs(tr: seq<IssueEvent>, m: int) {
    var most := MaxCycles(tr);
    most.Some? && most.value == m
  }

  lemma {:induction false} MaxCyclesIsMaximum(tr: seq<IssueEvent>, m: int)
    ensures MaxCyclesIs(tr, m) <==> (exists r :: r in tr && r.cycles == m) && forall r :: r in tr ==> r.cycles <= m
  {
    if tr != [] {
      var front, last := tr[..|tr| - 1], tr[|tr| - 1];
      var before := MaxCycles(front);
      assert tr == front + [last];
      if before.Some? {
        MaxCyclesIsMaximum(front, before.value);
      }
      NoMaximum(front);
    }
  }

  lemma {:induction false} NoMaximum(tr: seq<IssueEvent>)
    ensures MaxCycles(tr).None? <==> tr == []
  {
  }

  ghost predicate NoNoise(rows: seq<IssueEvent>) {
    forall r :: r in rows ==> !r.noise
  }

  lemma {:induction false} KeptWithoutNoise(rows: seq<IssueEvent>)
    requires NoNoise(rows)
    ensures Kept(rows) == rows
  {
    if rows != [] {
      assert rows[|rows| - 1] in rows;
      KeptWithoutNoise(rows[..|rows| - 1]);
    }
  }

  /** The row goes back to IN_PROGRESS from a QA_REVIEW that is the last non-noise row before it. */
  predicate GoesBack(before: seq<IssueEvent>, r: IssueEvent) {
    var kept := Kept(before);
    kept != [] && kept[|kept| - 1].state == QA_REVIEW && r.state == IN_PROGRESS
  }

  /** 1 when the last row that goes back is itself noise: its count is stored, but the count is not carried on. */
  function Hanging(rows: seq<IssueEvent>): (h: nat)
    ensures h <= 1
  {
    if rows == [] then 0
    else
      var front, r := rows[..|rows| - 1], rows[|rows| - 1];
      if GoesBack(front, r) then if r.noise then 1 else 0 else Hanging(front)
  }

  lemma {:induction false} CyclesOfLast(front: seq<IssueEvent>, r: IssueEvent)
    requires Incremental(front + [r])
    ensures Incremental(front) && r.cycles == Returns(Kept(front)) + if GoesBack(front, r) then 1 else 0
  {
    assert (front + [r])[..|front|] == front;
    LastKeptCycles(front);
  }

  lemma {:induction false} CountsSnoc(front: seq<IssueEvent>, r: IssueEvent)
    ensures Returns(Kept(front + [r])) == Returns(Kept(front)) + if GoesBack(front, r) && !r.noise then 1 else 0
    ensures Hanging(front + [r]) == if GoesBack(front, r) then (if r.noise then 1 else 0) else Hanging(front)
  {
    assert (front + [r])[..|front|] == front;
    ReturnsAfter(Kept(front), r);
  }

  lemma {:induction false} MaxCyclesSnoc(rows: seq<IssueEvent>, r: IssueEvent)
    requires rows != []
    ensures MaxCycles(Collapse(rows + [r])) ==
            var m := MaxCycles(Collapse(rows)); if rows[|rows| - 1].state == r.state then m else Larger(m, r.cycles)
  {
    var tr := Collapse(rows);
    CollapseSnoc(rows, r);
    assert (tr + [r])[..|tr|] == tr;
  }

  lemma {:induction false} FirstCycles(r: IssueEvent)
    requires Incremental([r])
    ensures MaxCyclesIs(Collapse([r]), Returns(Kept([r])) + Hanging([r]))
  {
  }

  lemma {:induction false} NextCycles(front: seq<IssueEvent>, r: IssueEvent, kept: nat, hanging: nat)
    requires front != [] && Incremental(front + [r])
    requires kept == Returns(Kept(front)) && hanging == Hanging(front)
    requires MaxCyclesIs(Collapse(front), kept + hanging)
    ensures MaxCyclesIs(Collapse(front + [r]), Returns(Kept(front + [r])) + Hanging(front + [r]))
  {
    CyclesOfLast(front, r);
    CountsSnoc(front, r);
    MaxCyclesSnoc(front, r);
    if front[|front| - 1].state == r.state && GoesBack(front, r) {
      RepeatedReturnHangs(front, r);
    }
  }

  /** The largest stored count is the number of returns among the non-noise rows, plus the hanging one. */
  lemma {:induction false} MaxCyclesAre(rows: seq<IssueEvent>)
    requires Incremental(rows) && rows != []
    ensures MaxCyclesIs(Collapse(rows), Returns(Kept(rows)) + Hanging(rows))
  {
    var front, r := rows[..|rows| - 1], rows[|rows| - 1];
    assert rows == front + [r];
    if front == [] {
      FirstCycles(r);
    } else {
      MaxCyclesAre(front);
      NextCycles(front, r, Returns(Kept(front)), Hanging(front));
    }
  }

  /** A row that goes back and repeats the state just before it follows noise that went back too. */
  lemma {:induction false} RepeatedReturnHangs(front: seq<IssueEvent>, r: IssueEvent)
    requires front != [] && front[|front| - 1].state == r.state && GoesBack(front, r)
    ensures Hanging(front) == 1
  {
  }

  /**
   The stored count and the count of the view agree exactly when the noise hides as many returns as it
   leaves hanging. Both sides only need the states and the noise flags.
   */
  lemma {:induction false} MaxCyclesIsReturnsIff(rows: seq<IssueEvent>)
    requires Incremental(rows) && rows != []
    ensures MaxCyclesIs(Collapse(rows), Returns(Collapse(rows))) <==>
            Returns(rows) == Returns(Kept(rows)) + Hanging(rows)
  {
    var view := Returns(Collapse(rows));
    assert view == Returns(rows) by {
      CollapseKeepsReturns(rows);
    }
    MaxCyclesAre(rows);
  }

  lemma {:induction false} NothingHangs(rows: seq<IssueEvent>)
    requires NoNoise(rows)
    ensures Hanging(rows) == 0
  {
    if rows != [] {
      assert rows[|rows| - 1] in rows;
      NothingHangs(rows[..|rows| - 1]);
    }
  }

  /** Without noise the largest stored count is the number of returns the view finds. */
  lemma {:induction false} MaxCyclesIsReturns(rows: seq<IssueEvent>)
    requires Incremental(rows) && NoNoise(rows) && rows != []
    ensures MaxCyclesIs(Collapse(rows), Returns(Collapse(rows)))
  {
    MaxCyclesIsReturnsIff(rows);
    KeptWithoutNoise(rows);
    NothingHangs(rows);
  }
}
