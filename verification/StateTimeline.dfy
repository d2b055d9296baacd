/** The view of state transitions: the rows of an issue in time order, without repeated states. */
module StateTimeline {
  import opened Options
  import opened Labels
  import opened Silver
  import opened EventTimelines

  /** ORDER BY event_timestamp, id: a stable sort, since rows stand in id order. */
  function Insert(sorted: seq<IssueEvent>, r: IssueEvent): seq<IssueEvent> {
    if sorted == [] then [r]
    else
      var n := |sorted| - 1;
      if sorted[n].at <= r.at then sorted + [r] else Insert(sorted[..n], r) + [sorted[n]]
  }

  function InTimeOrder(rows: seq<IssueEvent>): seq<IssueEvent> {
    if rows == [] then []
    else Insert(InTimeOrder(rows[..|rows| - 1]), rows[|rows| - 1])
  }

  lemma {:induction false} InsertPermutes(sorted: seq<IssueEvent>, r: IssueEvent)
    ensures multiset(Insert(sorted, r)) == multiset(sorted) + multiset{r}
  {
    if sorted != [] {
      var n := |sorted| - 1;
      InsertPermutes(sorted[..n], r);
      assert sorted == sorted[..n] + [sorted[n]];
    }
  }

  lemma {:induction false} InsertSorts(sorted: seq<IssueEvent>, r: IssueEvent)
    requires Sorted(sorted)
    ensures Sorted(Insert(sorted, r))
  {
    if sorted != [] && sorted[|sorted| - 1].at > r.at {
      var n := |sorted| - 1;
      var front := Insert(sorted[..n], r);
      InsertSorts(sorted[..n], r);
      InsertPermutes(sorted[..n], r);
      forall i | 0 <= i < |front|
        ensures front[i].at <= sorted[n].at
      {
        assert front[i] in multiset(front);
        assert front[i] == r || front[i] in sorted[..n];
      }
    }
  }

  lemma {:induction false} InTimeOrderSorts(rows: seq<IssueEvent>)
    ensures Sorted(InTimeOrder(rows))
  {
    if rows != [] {
      InTimeOrderSorts(rows[..|rows| - 1]);
      InsertSorts(InTimeOrder(rows[..|rows| - 1]), rows[|rows| - 1]);
    }
  }

  lemma {:induction false} MultisetSnoc<T>(s: seq<T>, x: T)
    ensures multiset(s + [x]) == multiset(s) + multiset{x}
  {
  }

  /** The ordered rows are the stored rows. */
  lemma {:induction false} InTimeOrderPermutes(rows: seq<IssueEvent>)
    ensures multiset(InTimeOrder(rows)) == multiset(rows)
  {
    if rows != [] {
      var front, last := rows[..|rows| - 1], rows[|rows| - 1];
      InTimeOrderPermutes(front);
      InsertPermutes(InTimeOrder(front), last);
      assert front + [last] == rows;
      MultisetSnoc(front, last);
    }
  }

  lemma {:induction false} InTimeOrderKeepsRows(rows: seq<IssueEvent>)
    ensures forall r :: r in InTimeOrder(rows) <==> r in rows
  {
    InTimeOrderPermutes(rows);
    forall r
      ensures r in InTimeOrder(rows) <==> r in rows
    {
      assert r in InTimeOrder(rows) <==> r in multiset(InTimeOrder(rows));
      assert r in rows <==> r in multiset(rows);
    }
  }

  /** Rows stored in time order stay where they are. */
  lemma {:induction false} InTimeOrderIsStable(rows: seq<IssueEvent>)
    requires Sorted(rows)
    ensures InTimeOrder(rows) == rows
  {
    if rows != [] {
      var n := |rows| - 1;
      InTimeOrderIsStable(rows[..n]);
      assert rows == rows[..n] + [rows[n]];
    }
  }

  /** Rows whose state differs from the state of the row just before, and the first row. */
  function Collapse(rows: seq<IssueEvent>): seq<IssueEvent> {
    if |rows| <= 1 then rows
    else
      var n := |rows| - 1;
      if rows[n - 1].state == rows[n].state then Collapse(rows[..n])
      else Collapse(rows[..n]) + [rows[n]]
  }

  /** The state in force at an instant: that of the last row at or before it. */
  function InForce(rows: seq<IssueEvent>, t: int): Option<State> {
    if rows == [] then None
    else if rows[|rows| - 1].at <= t then Some(rows[|rows| - 1].state)
    else InForce(rows[..|rows| - 1], t)
  }

  /** No two neighbours have the same state. */
  predicate Alternating(rows: seq<IssueEvent>) {
    |rows| <= 1 ||
    (Alternating(rows[..|rows| - 1]) && rows[|rows| - 2].state != rows[|rows| - 1].state)
  }

  lemma {:induction false} AlternatingNeighbours(rows: seq<IssueEvent>, i: nat)
    requires Alternating(rows) && i + 1 < |rows|
    ensures rows[i].state != rows[i + 1].state
  {
    if i + 2 < |rows| {
      AlternatingNeighbours(rows[..|rows| - 1], i);
    }
  }

  /** Kept rows are stored rows; the first row is kept, and the last state too. */
  lemma {:induction false} CollapseShape(rows: seq<IssueEvent>)
    requires rows != []
    ensures Collapse(rows) != [] && Collapse(rows)[0] == rows[0]
    ensures Collapse(rows)[|Collapse(rows)| - 1].state == rows[|rows| - 1].state
    ensures forall r :: r in Collapse(rows) ==> r in rows
  {
    if |rows| > 1 {
      CollapseShape(rows[..|rows| - 1]);
    }
  }

  lemma {:induction false} CollapseSnoc(rows: seq<IssueEvent>, r: IssueEvent)
    requires rows != []
    ensures Collapse(rows + [r]) == if rows[|rows| - 1].state == r.state then Collapse(rows) else Collapse(rows) + [r]
  {
    assert (rows + [r])[..|rows|] == rows;
  }

  lemma {:induction false} CollapseAlternates(rows: seq<IssueEvent>)
    ensures Alternating(Collapse(rows))
  {
    if |rows| > 1 {
      var front, last := rows[..|rows| - 1], rows[|rows| - 1];
      CollapseAlternates(front);
      CollapseShape(front);
      assert (Collapse(front) + [last])[..|Collapse(front)|] == Collapse(front);
    }
  }

  lemma {:induction false} CollapseKeepsSorted(rows: seq<IssueEvent>)
    requires Sorted(rows)
    ensures Sorted(Collapse(rows))
  {
    if |rows| > 1 {
      var n := |rows| - 1;
      CollapseKeepsSorted(rows[..n]);
      CollapseShape(rows[..n]);
      forall i | 0 <= i < |Collapse(rows[..n])|
        ensures Collapse(rows[..n])[i].at <= rows[n].at
      {
        assert Collapse(rows[..n])[i] in rows[..n];
      }
    }
  }

  /** At every instant the same state is in force before and after the collapse. */
  lemma {:induction false} CollapseKeepsStateInForce(rows: seq<IssueEvent>, t: int)
    requires Sorted(rows)
    ensures InForce(Collapse(rows), t) == InForce(rows, t)
  {
    if |rows| > 1 {
      var n := |rows| - 1;
      CollapseKeepsStateInForce(rows[..n], t);
      if rows[n - 1].state == rows[n].state {
        assert rows[..n][n - 1] == rows[n - 1];
      } else {
        assert Collapse(rows)[..|Collapse(rows)| - 1] == Collapse(rows[..n]);
      }
    }
  }

  lemma {:induction false} AlternatingIsFixed(rows: seq<IssueEvent>)
    requires Alternating(rows)
    ensures Collapse(rows) == rows
  {
    if |rows| > 1 {
      AlternatingIsFixed(rows[..|rows| - 1]);
    }
  }

  /** Collapsing twice changes nothing. */
  lemma {:induction false} CollapseIsIdempotent(rows: seq<IssueEvent>)
    ensures Collapse(Collapse(rows)) == Collapse(rows)
  {
    CollapseAlternates(rows);
    AlternatingIsFixed(Collapse(rows));
  }

  // ---- Counts over transitions ----

  function Entries(tr: seq<IssueEvent>, s: State): nat {
    if tr == [] then 0 else Entries(tr[..|tr| - 1], s) + if tr[|tr| - 1].state == s then 1 else 0
  }

  /** Transitions out of DONE. */
  function Reopened(tr: seq<IssueEvent>): nat {
    if |tr| < 2 then 0
    else
      var n := |tr|;
      Reopened(tr[..n - 1]) + if tr[n - 2].state == DONE && tr[n - 1].state != DONE then 1 else 0
  }

  lemma {:induction false} ReopenedIsDoneLeft(tr: seq<IssueEvent>)
    requires Alternating(tr)
    ensures Reopened(tr) == Entries(tr, DONE) - if tr != [] && tr[|tr| - 1].state == DONE then 1 else 0
  {
    if |tr| == 1 {
      assert tr[..0] == [];
    } else if |tr| > 1 {
      assert tr[..|tr| - 1][|tr| - 2] == tr[|tr| - 2];
      ReopenedIsDoneLeft(tr[..|tr| - 1]);
    }
  }

  /** Every return has its own QA_REVIEW entry before it and its own IN_PROGRESS entry. */
  lemma {:induction false} ReturnsAreEntries(tr: seq<IssueEvent>)
    ensures Returns(tr) <= Entries(tr, IN_PROGRESS)
    ensures Returns(tr) <=
            Entries(tr, QA_REVIEW) - if tr != [] && tr[|tr| - 1].state == QA_REVIEW then 1 else 0
  {
    if |tr| == 1 {
      assert tr[..0] == [];
    } else if |tr| > 1 {
      ReturnsAreEntries(tr[..|tr| - 1]);
    }
  }

  /** Collapsing keeps the number of returns from QA. */
  lemma {:induction false} CollapseKeepsReturns(rows: seq<IssueEvent>)
    ensures Returns(Collapse(rows)) == Returns(rows)
  {
    if |rows| > 1 {
      var front, last := rows[..|rows| - 1], rows[|rows| - 1];
      CollapseKeepsReturns(front);
      CollapseShape(front);
      assert rows == front + [last];
      CollapseSnoc(front, last);
      ReturnsAfter(front, last);
      ReturnsAfter(Collapse(front), last);
    }
  }

  /** The positions at which a state is entered, and those at which one state follows another. */
  ghost function EntriesAt(tr: seq<IssueEvent>, s: State): set<int> {
    set i | 0 <= i < |tr| && tr[i].state == s
  }

  predicate Follows(tr: seq<IssueEvent>, i: int, a: State, b: State) {
    0 < i < |tr| && tr[i - 1].state == a && tr[i].state == b
  }

  ghost function ReopenedAt(tr: seq<IssueEvent>): set<int> {
    set i, s | 0 <= i < |tr| && Follows(tr, i, DONE, s) && s != DONE :: i
  }

  ghost function ReturnsAt(tr: seq<IssueEvent>): set<int> {
    set i | 0 <= i < |tr| && Follows(tr, i, QA_REVIEW, IN_PROGRESS)
  }

  lemma {:induction false} EntriesCount(tr: seq<IssueEvent>, s: State)
    ensures Entries(tr, s) == |EntriesAt(tr, s)|
  {
    if tr != [] {
      var n := |tr| - 1;
      EntriesCount(tr[..n], s);
      assert EntriesAt(tr, s) == EntriesAt(tr[..n], s) + if tr[n].state == s then {n} else {};
    }
  }

  lemma {:induction false} ReopenedCounts(tr: seq<IssueEvent>)
    ensures Reopened(tr) == |ReopenedAt(tr)|
  {
    if |tr| > 1 {
      var n := |tr| - 1;
      ReopenedCounts(tr[..n]);
      assert forall i, s :: i < n ==> (Follows(tr, i, DONE, s) <==> Follows(tr[..n], i, DONE, s));
      assert tr[n - 1].state == DONE ==> Follows(tr, n, DONE, tr[n].state);
      assert ReopenedAt(tr) == ReopenedAt(tr[..n]) + if n in ReopenedAt(tr) then {n} else {};
    }
  }

  lemma {:induction false} ReturnsAtLast(tr: seq<IssueEvent>)
    requires |tr| > 1
    ensures var n := |tr| - 1;
            ReturnsAt(tr) == ReturnsAt(tr[..n]) + if Follows(tr, n, QA_REVIEW, IN_PROGRESS) then {n} else {}
    ensures |tr| - 1 !in ReturnsAt(tr[..|tr| - 1])
  {
    var n := |tr| - 1;
    assert forall i :: i < n ==> (i in ReturnsAt(tr) <==> i in ReturnsAt(tr[..n]));
  }

  lemma {:induction false} ReturnsCount(tr: seq<IssueEvent>)
    ensures Returns(tr) == |ReturnsAt(tr)|
  {
    if |tr| > 1 {
      ReturnsCount(tr[..|tr| - 1]);
      ReturnsAtLast(tr);
    }
  }

  /** The state the lifecycle view reports: that of the last transition, or the cache when there is none. */
  function Analytical(tr: seq<IssueEvent>, cached: Option<State>): Option<State> {
    if tr == [] then cached else Some(tr[|tr| - 1].state)
  }
}
