/**
 Timelines of one issue: the stored rows in time order, each judged against the non-noise rows before it,
 and what that amounts to over the whole timeline.
 */
module EventTimelines {
  import opened Options
  import opened Labels
  import opened Silver

  ghost predicate Sorted(rows: seq<IssueEvent>) {
    forall i, j :: 0 <= i < j < |rows| ==> rows[i].at <= rows[j].at
  }

  /** The non-noise rows. */
  function Kept(rows: seq<IssueEvent>): seq<IssueEvent> {
    if rows == [] then []
    else if rows[|rows| - 1].noise then Kept(rows[..|rows| - 1])
    else Kept(rows[..|rows| - 1]) + [rows[|rows| - 1]]
  }

  function LastOf<T>(s: seq<T>): Option<T> {
    if s == [] then None else Some(s[|s| - 1])
  }

  /** Adjacent steps from QA_REVIEW back to IN_PROGRESS. */
  function Returns(rows: seq<IssueEvent>): nat {
    if |rows| < 2 then 0
    else
      var n := |rows| - 1;
      Returns(rows[..n]) + if rows[n - 1].state == QA_REVIEW && rows[n].state == IN_PROGRESS then 1 else 0
  }

  /** The state of the latest row whose state is known. */
  function LastKnown(rows: seq<IssueEvent>): Option<State> {
    if rows == [] then None
    else if rows[|rows| - 1].state != UNKNOWN then Some(rows[|rows| - 1].state)
    else LastKnown(rows[..|rows| - 1])
  }

  /** Each row was judged against the non-noise rows before it. */
  ghost predicate Incremental(rows: seq<IssueEvent>) {
    rows == [] ||
    var front, r := rows[..|rows| - 1], rows[|rows| - 1];
    && Incremental(front)
    && r.noise == DetectNervousFinger(LastOf(Kept(front)), r.state, r.at)
    && r.cycles == CalculateCycleCount(LastOf(Kept(front)), r.state)
  }

  // ---- Consequences of one-at-a-time judgement ----

  /** Neighbouring non-noise rows repeat a state, leave BACKLOG, or are at least fifteen minutes apart. */
  lemma {:induction false} KeptRowsAreSpaced(rows: seq<IssueEvent>)
    requires Incremental(rows)
    ensures forall i :: 0 <= i < |Kept(rows)| - 1 ==>
              var a, b := Kept(rows)[i], Kept(rows)[i + 1];
              a.state == b.state || a.state == BACKLOG || b.at - a.at >= 15 * 60 * 1000
  {
    if rows != [] {
      var front := rows[..|rows| - 1];
      KeptRowsAreSpaced(front);
    }
  }

  lemma {:induction false} PrefixIsIncremental(rows: seq<IssueEvent>, n: nat)
    requires Incremental(rows) && n <= |rows|
    ensures Incremental(rows[..n])
  {
    if n == |rows| {
      assert rows[..n] == rows;
    } else {
      assert rows[..|rows| - 1][..n] == rows[..n];
      PrefixIsIncremental(rows[..|rows| - 1], n);
    }
  }

  lemma {:induction false} KeptMembers(rows: seq<IssueEvent>)
    ensures forall r :: r in Kept(rows) <==> r in rows && !r.noise
  {
    if rows != [] {
      KeptMembers(rows[..|rows| - 1]);
      assert rows == rows[..|rows| - 1] + [rows[|rows| - 1]];
    }
  }

  lemma {:induction false} SortedSnoc(some: seq<IssueEvent>, front: seq<IssueEvent>, last: IssueEvent)
    requires Sorted(front + [last]) && Sorted(some) && forall r :: r in some ==> r in front
    ensures Sorted(some + [last])
  {
    forall i | 0 <= i < |some|
      ensures some[i].at <= last.at
    {
      assert some[i] in some;
      var j :| 0 <= j < |front| && front[j] == some[i];
      assert (front + [last])[j] == front[j] && (front + [last])[|front|] == last;
    }
  }

  lemma {:induction false} KeptStaySorted(rows: seq<IssueEvent>)
    requires Sorted(rows)
    ensures Sorted(Kept(rows))
  {
    if rows != [] {
      var front, last := rows[..|rows| - 1], rows[|rows| - 1];
      assert rows == front + [last];
      KeptStaySorted(front);
      KeptMembers(front);
      SortedSnoc(Kept(front), front, last);
    }
  }

  /** Each row was judged against the last non-noise row before it. */
  lemma {:induction false} JudgedAt(rows: seq<IssueEvent>, j: nat)
    requires Incremental(rows) && j < |rows|
    ensures rows[j].noise == DetectNervousFinger(LastOf(Kept(rows[..j])), rows[j].state, rows[j].at)
  {
    var front := rows[..|rows| - 1];
    if j < |front| {
      JudgedAt(front, j);
      assert front[..j] == rows[..j];
    }
  }

  /** A noise row comes less than fifteen minutes after the last non-noise row before it, which has another state. */
  lemma {:induction false} NoiseIsClose(rows: seq<IssueEvent>, j: nat)
    requires Sorted(rows) && Incremental(rows) && j < |rows| && rows[j].noise
    ensures var kept := Kept(rows[..j]);
            && kept != []
            && 0 <= rows[j].at - kept[|kept| - 1].at < 15 * 60 * 1000
            && kept[|kept| - 1].state != rows[j].state
            && kept[|kept| - 1].state != BACKLOG
  {
    JudgedAt(rows, j);
    LastKeptIsEarlier(rows, j);
  }

  lemma {:induction false} LastKeptIsEarlier(rows: seq<IssueEvent>, j: nat)
    requires Sorted(rows) && j < |rows|
    ensures var kept := Kept(rows[..j]); kept != [] ==> kept[|kept| - 1].at <= rows[j].at
  {
    var kept := Kept(rows[..j]);
    KeptMembers(rows[..j]);
    if kept != [] {
      var i :| 0 <= i < j && rows[..j][i] == kept[|kept| - 1];
    }
  }

  lemma {:induction false} ReturnsAfter(rows: seq<IssueEvent>, r: IssueEvent)
    ensures Returns(rows + [r]) == Returns(rows) +
            if rows != [] && rows[|rows| - 1].state == QA_REVIEW && r.state == IN_PROGRESS then 1 else 0
  {
    assert (rows + [r])[..|rows|] == rows;
  }

  lemma {:induction false} CyclesFollow(kept: seq<IssueEvent>, r: IssueEvent)
    requires kept != [] ==> kept[|kept| - 1].cycles == Returns(kept)
    requires r.cycles == CalculateCycleCount(LastOf(kept), r.state)
    ensures r.cycles == Returns(kept + [r])
  {
    ReturnsAfter(kept, r);
  }

  lemma {:induction false} LastKeptCycles(rows: seq<IssueEvent>)
    requires Incremental(rows)
    ensures Kept(rows) != [] ==> Kept(rows)[|Kept(rows)| - 1].cycles == Returns(Kept(rows))
  {
    if rows != [] {
      var front, last := rows[..|rows| - 1], rows[|rows| - 1];
      LastKeptCycles(front);
      if !last.noise {
        CyclesFollow(Kept(front), last);
      }
    }
  }

  /** The stored count of a non-noise row is the number of returns from QA among the non-noise rows up to it. */
  lemma {:induction false} CyclesCountReturns(rows: seq<IssueEvent>, j: nat)
    requires Incremental(rows) && j < |rows| && !rows[j].noise
    ensures rows[j].cycles == Returns(Kept(rows[..j + 1]))
  {
    PrefixIsIncremental(rows, j + 1);
    LastKeptCycles(rows[..j + 1]);
  }
}
