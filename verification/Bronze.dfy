/**
 The raw_events table as the transformer consumes it: rows in (fetched_at, id) order with a
 processed flag, read in windows of at most a batch size. A row is named by its position.
 */
module Bronze {
  import opened Folds

  datatype RawRow<+E> = RawRow(event: E, processed: bool)

  ghost predicate Increasing(ids: seq<nat>) {
    forall i, j :: 0 <= i < j < |ids| ==> ids[i] < ids[j]
  }

  ghost predicate Within(ids: seq<nat>, n: nat) {
    forall j :: 0 <= j < |ids| ==> ids[j] < n
  }

  /** The unprocessed rows, oldest first. */
  function Pending<E>(rows: seq<RawRow<E>>): seq<nat> {
    if rows == [] then []
    else
      var n := |rows| - 1;
      Pending(rows[..n]) + if rows[n].processed then [] else [n]
  }

  lemma IncreasingSnoc(ids: seq<nat>, n: nat)
    requires Increasing(ids) && Within(ids, n)
    ensures Increasing(ids + [n]) && Within(ids + [n], n + 1)
  {
  }

  lemma {:induction false} PendingIsUnprocessed<E>(rows: seq<RawRow<E>>)
    ensures Increasing(Pending(rows)) && Within(Pending(rows), |rows|)
    ensures forall i: nat :: i in Pending(rows) <==> i < |rows| && !rows[i].processed
  {
    if rows != [] {
      var n, before := |rows| - 1, Pending(rows[..|rows| - 1]);
      PendingIsUnprocessed(rows[..n]);
      if rows[n].processed {
        assert Pending(rows) == before;
      } else {
        assert Pending(rows) == before + [n];
        IncreasingSnoc(before, n);
      }
    }
  }

  /** The rows one batch looks at. */
  function Window<E>(rows: seq<RawRow<E>>, size: nat): seq<nat> {
    var p := Pending(rows);
    if |p| < size then p else p[..size]
  }

  function Mark<E>(rows: seq<RawRow<E>>, ids: set<nat>): (r: seq<RawRow<E>>)
    ensures |r| == |rows|
    ensures forall i :: 0 <= i < |rows| ==> r[i] == RawRow(rows[i].event, rows[i].processed || i in ids)
  {
    seq(|rows|, i requires 0 <= i < |rows| => RawRow(rows[i].event, rows[i].processed || i in ids))
  }

  function Elements(ids: seq<nat>): set<nat> {
    set i | i in ids
  }

  function EventsOf<E>(rows: seq<RawRow<E>>, ids: seq<nat>): (es: seq<E>)
    requires Within(ids, |rows|)
    ensures |es| == |ids| && forall j :: 0 <= j < |ids| ==> es[j] == rows[ids[j]].event
  {
    seq(|ids|, j requires 0 <= j < |ids| => rows[ids[j]].event)
  }

  ghost function Failing<E>(fails: E -> bool, rows: seq<RawRow<E>>): set<nat> {
    set i: nat | i < |rows| && fails(rows[i].event)
  }

  ghost function Good(bad: set<nat>, ids: seq<nat>): seq<nat> {
    if ids == [] then [] else (if ids[0] in bad then [] else [ids[0]]) + Good(bad, ids[1..])
  }

  ghost function Bad(bad: set<nat>, ids: seq<nat>): seq<nat> {
    if ids == [] then [] else (if ids[0] in bad then [ids[0]] else []) + Bad(bad, ids[1..])
  }

  lemma {:induction false} GoodAndBad(bad: set<nat>, ids: seq<nat>)
    ensures |Good(bad, ids)| + |Bad(bad, ids)| == |ids|
    ensures forall i :: i in Good(bad, ids) <==> i in ids && i !in bad
    ensures forall i :: i in Bad(bad, ids) <==> i in ids && i in bad
  {
    if ids != [] {
      GoodAndBad(bad, ids[1..]);
      assert forall i :: i in ids <==> i == ids[0] || i in ids[1..];
    }
  }

  /** The good rows that fewer than `budget` failing rows precede. */
  ghost function Reach(bad: set<nat>, ids: seq<nat>, budget: nat): seq<nat> {
    if ids == [] || budget == 0 then []
    else if ids[0] in bad then Reach(bad, ids[1..], budget - 1)
    else [ids[0]] + Reach(bad, ids[1..], budget)
  }

  lemma SplitStep(bad: set<nat>, x: seq<nat>, y: seq<nat>, budget: nat)
    requires x != [] && budget > 0
    ensures Good(bad, x) == if x[0] in bad then Good(bad, x[1..]) else [x[0]] + Good(bad, x[1..])
    ensures |Bad(bad, x)| == |Bad(bad, x[1..])| + if x[0] in bad then 1 else 0
    ensures Reach(bad, x + y, budget) ==
            if x[0] in bad then Reach(bad, x[1..] + y, budget - 1) else [x[0]] + Reach(bad, x[1..] + y, budget)
  {
    assert (x + y)[1..] == x[1..] + y;
  }

  lemma {:induction false} ReachSplit(bad: set<nat>, x: seq<nat>, y: seq<nat>, budget: nat)
    requires |x| <= budget
    ensures |Bad(bad, x)| <= |x|
    ensures Reach(bad, x + y, budget) == Good(bad, x) + Reach(bad, y, budget - |Bad(bad, x)|)
  {
    if x == [] {
      assert x + y == y;
    } else {
      SplitStep(bad, x, y, budget);
      if x[0] in bad {
        ReachSplit(bad, x[1..], y, budget - 1);
      } else {
        ReachSplit(bad, x[1..], y, budget);
        Assoc([x[0]], Good(bad, x[1..]), Reach(bad, y, budget - |Bad(bad, x)|));
      }
    }
  }

  lemma {:induction false} AllBad(bad: set<nat>, x: seq<nat>)
    requires forall j :: 0 <= j < |x| ==> x[j] in bad
    ensures Good(bad, x) == [] && Bad(bad, x) == x
  {
    if x != [] {
      AllBad(bad, x[1..]);
    }
  }

  lemma BadIsBad(bad: set<nat>, x: seq<nat>)
    ensures |Bad(bad, x)| <= |x|
    ensures forall j :: 0 <= j < |Bad(bad, x)| ==> Bad(bad, x)[j] in bad
  {
    GoodAndBad(bad, x);
    assert forall j :: 0 <= j < |Bad(bad, x)| ==> Bad(bad, x)[j] in Bad(bad, x);
  }

  /** Taking the good rows out of a window moves exactly those rows from the rest of the work to the front. */
  lemma ReachAfterWindow(bad: set<nat>, x: seq<nat>, y: seq<nat>, size: nat)
    requires |x| <= size
    ensures Reach(bad, x + y, size) == Good(bad, x) + Reach(bad, Bad(bad, x) + y, size)
  {
    var b := Bad(bad, x);
    BadIsBad(bad, x);
    AllBad(bad, b);
    ReachSplit(bad, x, y, size);
    ReachSplit(bad, b, y, size);
    var tail := Reach(bad, y, size - |b|);
    assert [] + tail == tail;
  }

  /** A window without a good row means there is nothing left that batches can reach. */
  lemma ReachStuck(bad: set<nat>, ids: seq<nat>, x: seq<nat>, y: seq<nat>, size: nat)
    requires ids == x + y && |x| <= size && (|x| == size || y == []) && Good(bad, x) == []
    ensures Reach(bad, ids, size) == []
  {
    GoodAndBad(bad, x);
    ReachSplit(bad, x, y, size);
  }

  lemma {:induction false} GoodConcat(bad: set<nat>, x: seq<nat>, y: seq<nat>)
    ensures Good(bad, x + y) == Good(bad, x) + Good(bad, y)
  {
    if x == [] {
      assert x + y == y;
    } else {
      assert (x + y)[1..] == x[1..] + y;
      GoodConcat(bad, x[1..], y);
    }
  }

  /** Filtering out `gone` keeps the rows of x that are in `bad` when the two sets split x. */
  lemma {:induction false} GoodIsBad(gone: set<nat>, bad: set<nat>, x: seq<nat>)
    requires forall j :: 0 <= j < |x| ==> (x[j] in gone <==> x[j] !in bad)
    ensures Good(gone, x) == Bad(bad, x)
  {
    if x != [] {
      GoodIsBad(gone, bad, x[1..]);
    }
  }

  lemma {:induction false} GoodOfDisjoint(gone: set<nat>, y: seq<nat>)
    requires forall j :: 0 <= j < |y| ==> y[j] !in gone
    ensures Good(gone, y) == y
  {
    if y != [] {
      GoodOfDisjoint(gone, y[1..]);
    }
  }

  lemma {:induction false} PendingOfMark<E>(rows: seq<RawRow<E>>, gone: set<nat>)
    ensures Pending(Mark(rows, gone)) == Good(gone, Pending(rows))
  {
    if rows != [] {
      var n := |rows| - 1;
      var last: seq<nat> := if rows[n].processed then [] else [n];
      PendingOfMark(rows[..n], gone);
      assert Mark(rows, gone)[..n] == Mark(rows[..n], gone);
      GoodConcat(gone, Pending(rows[..n]), last);
      assert Good(gone, last) == if rows[n].processed || n in gone then [] else [n];
    }
  }

  /** After a batch the failed rows of the window wait in front of the rows behind the window. */
  lemma PendingAfterMark<E>(rows: seq<RawRow<E>>, bad: set<nat>, x: seq<nat>, y: seq<nat>)
    requires Pending(rows) == x + y
    ensures Pending(Mark(rows, Elements(Good(bad, x)))) == Bad(bad, x) + y
  {
    var gone := Elements(Good(bad, x));
    PendingOfMark(rows, gone);
    PendingIsUnprocessed(rows);
    GoodAndBad(bad, x);
    GoodConcat(gone, x, y);
    GoodIsBad(gone, bad, x);
    forall j | 0 <= j < |y|
      ensures y[j] !in gone
    {
      assert (x + y)[|x| + j] == y[j];
      assert forall i :: 0 <= i < |x| ==> (x + y)[i] == x[i];
    }
    GoodOfDisjoint(gone, y);
  }

  lemma MarkTwice<E>(rows: seq<RawRow<E>>, a: seq<nat>, b: seq<nat>)
    ensures Mark(Mark(rows, Elements(a)), Elements(b)) == Mark(rows, Elements(a + b))
  {
  }

  lemma GoodWithin(bad: set<nat>, ids: seq<nat>, n: nat)
    requires Within(ids, n)
    ensures Within(Good(bad, ids), n)
  {
    GoodAndBad(bad, ids);
    forall j | 0 <= j < |Good(bad, ids)|
      ensures Good(bad, ids)[j] < n
    {
      assert Good(bad, ids)[j] in ids;
    }
  }

  lemma GoodFirst(bad: set<nat>, i: nat, rest: seq<nat>)
    ensures Good(bad, [i] + rest) == if i in bad then Good(bad, rest) else [i] + Good(bad, rest)
  {
    assert ([i] + rest)[1..] == rest;
  }

  /** One more row of the window. */
  lemma RowAdvances<S, E>(step: (S, E) -> S, s: S, rows: seq<RawRow<E>>, ids: seq<nat>, i: nat, bad: set<nat>)
    requires i < |ids| && Within(ids, |rows|)
    ensures Within(ids[..i], |rows|) && Within(ids[..i + 1], |rows|)
    ensures Fold(step, s, EventsOf(rows, ids[..i + 1])) ==
            step(Fold(step, s, EventsOf(rows, ids[..i])), rows[ids[i]].event)
    ensures Good(bad, ids[..i + 1]) == Good(bad, ids[..i]) + if ids[i] in bad then [] else [ids[i]]
  {
    assert ids[..i + 1] == ids[..i] + [ids[i]];
    assert EventsOf(rows, ids[..i + 1]) == EventsOf(rows, ids[..i]) + [rows[ids[i]].event];
    FoldSnoc(step, s, EventsOf(rows, ids[..i]), rows[ids[i]].event);
    GoodConcat(bad, ids[..i], [ids[i]]);
    assert Good(bad, [ids[i]]) == if ids[i] in bad then [] else [ids[i]];
  }

  /** What is applied after some batches, and what batches of this size still reach. */
  ghost predicate Progress<S, E>(step: (S, E) -> S, fails: E -> bool, s: S, rows: seq<RawRow<E>>, size: nat,
                                 applied: seq<nat>, s': S, now: seq<RawRow<E>>)
  {
    && Within(applied, |rows|)
    && now == Mark(rows, Elements(applied))
    && s' == Fold(step, s, EventsOf(rows, applied))
    && Reach(Failing(fails, rows), Pending(rows), size) == applied + Reach(Failing(fails, rows), Pending(now), size)
  }

  /** What one batch does to the rows that batches of this size reach. */
  lemma WindowAdvances<E>(bad: set<nat>, now: seq<RawRow<E>>, size: nat)
    ensures var good := Good(bad, Window(now, size));
            && Within(good, |now|)
            && Reach(bad, Pending(now), size) == good + Reach(bad, Pending(Mark(now, Elements(good))), size)
            && |Pending(Mark(now, Elements(good)))| == |Pending(now)| - |good|
            && (good == [] ==> Reach(bad, Pending(now), size) == [])
  {
    var p, x := Pending(now), Window(now, size);
    var y, good := p[|x|..], Good(bad, x);
    assert p == x + y;
    PendingAfterMark(now, bad, x, y);
    ReachAfterWindow(bad, x, y, size);
    GoodAndBad(bad, x);
    PendingIsUnprocessed(now);
    GoodWithin(bad, x, |now|);
    if good == [] {
      ReachStuck(bad, p, x, y, size);
    }
  }

  lemma FoldOnward<S, E>(step: (S, E) -> S, s: S, rows: seq<RawRow<E>>, now: seq<RawRow<E>>, a: seq<nat>, b: seq<nat>)
    requires Within(a, |rows|) && Within(b, |rows|) && Within(a + b, |rows|)
    requires |now| == |rows| && forall i :: 0 <= i < |rows| ==> now[i].event == rows[i].event
    ensures Fold(step, Fold(step, s, EventsOf(rows, a)), EventsOf(now, b)) == Fold(step, s, EventsOf(rows, a + b))
  {
    assert EventsOf(rows, a + b) == EventsOf(rows, a) + EventsOf(now, b);
    FoldConcat(step, s, EventsOf(rows, a), EventsOf(now, b));
  }

  lemma ConcatOnward<T>(all: seq<T>, a: seq<T>, b: seq<T>, left: seq<T>, rest: seq<T>)
    requires all == a + left && left == b + rest
    ensures all == (a + b) + rest
  {
  }

  lemma ProgressOnward<S, E>(step: (S, E) -> S, fails: E -> bool, s: S, rows: seq<RawRow<E>>, size: nat,
                             applied: seq<nat>, s': S, now: seq<RawRow<E>>, good: seq<nat>, next: seq<RawRow<E>>)
    requires Progress(step, fails, s, rows, size, applied, s', now)
    requires Within(good, |now|) && next == Mark(now, Elements(good))
    requires Reach(Failing(fails, rows), Pending(now), size) == good + Reach(Failing(fails, rows), Pending(next), size)
    ensures Progress(step, fails, s, rows, size, applied + good, Fold(step, s', EventsOf(now, good)), next)
  {
    MarkTwice(rows, applied, good);
    FoldOnward(step, s, rows, now, applied, good);
    ConcatOnward(Reach(Failing(fails, rows), Pending(rows), size), applied, good,
                 Reach(Failing(fails, rows), Pending(now), size), Reach(Failing(fails, rows), Pending(next), size));
  }

  /** One more batch: its good rows come next in the table order of the rows that batches reach. */
  lemma BatchAdvances<S, E>(step: (S, E) -> S, fails: E -> bool, s: S, rows: seq<RawRow<E>>, size: nat,
                            applied: seq<nat>, s': S, now: seq<RawRow<E>>, good: seq<nat>)
    requires Progress(step, fails, s, rows, size, applied, s', now)
    requires good == Good(Failing(fails, now), Window(now, size))
    ensures Within(good, |now|)
    ensures Progress(step, fails, s, rows, size, applied + good, Fold(step, s', EventsOf(now, good)),
                     Mark(now, Elements(good)))
  {
    assert Failing(fails, now) == Failing(fails, rows);
    WindowAdvances(Failing(fails, rows), now, size);
    ProgressOnward(step, fails, s, rows, size, applied, s', now, good, Mark(now, Elements(good)));
  }

  /** Work left shrinks with every batch that transforms something. */
  lemma BatchesEnd<E>(fails: E -> bool, now: seq<RawRow<E>>, size: nat, good: seq<nat>)
    requires good == Good(Failing(fails, now), Window(now, size))
    ensures |Pending(Mark(now, Elements(good)))| == |Pending(now)| - |good|
  {
    WindowAdvances(Failing(fails, now), now, size);
  }

  /**
   What repeated batches leave behind: the rows applied are a prefix, in table order, of the rows that
   batches of this size reach; the first `total` of them are marked and nothing else is.
   */
  ghost predicate Drained<S, E>(step: (S, E) -> S, fails: E -> bool, s: S, rows: seq<RawRow<E>>, size: nat,
                                applied: seq<nat>, total: nat, s': S, now: seq<RawRow<E>>)
  {
    && total <= |applied|
    && applied <= Reach(Failing(fails, rows), Pending(rows), size)
    && Within(applied, |rows|)
    && s' == Fold(step, s, EventsOf(rows, applied))
    && now == Mark(rows, Elements(applied[..total]))
  }

  lemma ProgressIsDrained<S, E>(step: (S, E) -> S, fails: E -> bool, s: S, rows: seq<RawRow<E>>, size: nat,
                                applied: seq<nat>, s': S, now: seq<RawRow<E>>)
    requires Progress(step, fails, s, rows, size, applied, s', now)
    ensures Drained(step, fails, s, rows, size, applied, |applied|, s', now)
  {
    assert applied[..|applied|] == applied;
  }

  /** A batch may be the last one because its rows could not be marked, or because it transformed nothing. */
  lemma LastBatchIsDrained<S, E>(step: (S, E) -> S, fails: E -> bool, s: S, rows: seq<RawRow<E>>, size: nat,
                                 applied: seq<nat>, s': S, now: seq<RawRow<E>>, good: seq<nat>)
    requires Progress(step, fails, s, rows, size, applied, s', now)
    requires good == Good(Failing(fails, now), Window(now, size))
    ensures Within(good, |now|)
    ensures Drained(step, fails, s, rows, size, applied + good, |applied|, Fold(step, s', EventsOf(now, good)), now)
    ensures good == [] ==> applied == Reach(Failing(fails, rows), Pending(rows), size)
  {
    BatchAdvances(step, fails, s, rows, size, applied, s', now, good);
    assert (applied + good)[..|applied|] == applied;
    assert Failing(fails, now) == Failing(fails, rows);
    WindowAdvances(Failing(fails, rows), now, size);
  }

  // ---- Which rows batches of a given size reach ----

  ghost function BadBefore(bad: set<nat>, ids: seq<nat>, i: nat): nat {
    if ids == [] || ids[0] == i then 0
    else BadBefore(bad, ids[1..], i) + if ids[0] in bad then 1 else 0
  }

  /** A pending row is transformed exactly when it does not fail and fewer than `size` failing rows precede it. */
  lemma {:induction false} ReachedIff(bad: set<nat>, ids: seq<nat>, size: nat, i: nat)
    requires Increasing(ids)
    ensures i in Reach(bad, ids, size) <==> i in ids && i !in bad && BadBefore(bad, ids, i) < size
  {
    if ids != [] && size > 0 {
      assert ids == [ids[0]] + ids[1..];
      ReachedIff(bad, ids[1..], if ids[0] in bad then size - 1 else size, i);
    }
  }

  /** With fewer failing rows than the batch size, everything else is reached. */
  lemma {:induction false} FewFailuresReachAll(bad: set<nat>, ids: seq<nat>, size: nat)
    requires |Bad(bad, ids)| < size
    ensures Reach(bad, ids, size) == Good(bad, ids)
  {
    if ids != [] {
      FewFailuresReachAll(bad, ids[1..], if ids[0] in bad then size - 1 else size);
    }
  }

  lemma {:induction false} AllGood(bad: set<nat>, ids: seq<nat>)
    requires forall j :: 0 <= j < |ids| ==> ids[j] !in bad
    ensures Good(bad, ids) == ids && Bad(bad, ids) == []
  {
    if ids != [] {
      AllGood(bad, ids[1..]);
    }
  }

  /**
   An error-free run leaves what one pass over the pending rows leaves, whatever the batch size, as
   soon as fewer rows fail than fit into a batch; and exactly the failing rows stay unprocessed.
   */
  lemma DrainedIsOnePass<S, E>(step: (S, E) -> S, fails: E -> bool, s: S, rows: seq<RawRow<E>>, size: nat,
                               applied: seq<nat>, total: nat, s': S, now: seq<RawRow<E>>)
    requires var bad := Failing(fails, rows);
             |Bad(bad, Pending(rows))| < size && applied == Reach(bad, Pending(rows), size)
    requires total == |applied| && Drained(step, fails, s, rows, size, applied, total, s', now)
    ensures var bad := Failing(fails, rows);
            && applied == Good(bad, Pending(rows))
            && s' == Fold(step, s, EventsOf(rows, Good(bad, Pending(rows))))
            && total == |Pending(rows)| - |Bad(bad, Pending(rows))|
            && forall i: nat :: i in Pending(now) <==> i in Pending(rows) && i in bad
  {
    var bad := Failing(fails, rows);
    FewFailuresReachAll(bad, Pending(rows), size);
    GoodAndBad(bad, Pending(rows));
    assert applied[..total] == applied;
    PendingIsUnprocessed(rows);
    PendingIsUnprocessed(now);
  }

  /** When nothing fails, that is the fold of all pending rows, for every batch size from one on. */
  lemma DrainedWithoutFailures<S, E>(step: (S, E) -> S, fails: E -> bool, s: S, rows: seq<RawRow<E>>, size: nat,
                                     applied: seq<nat>, total: nat, s': S, now: seq<RawRow<E>>)
    requires size >= 1 && forall i :: 0 <= i < |rows| ==> !fails(rows[i].event)
    requires applied == Reach(Failing(fails, rows), Pending(rows), size)
    requires total == |applied| && Drained(step, fails, s, rows, size, applied, total, s', now)
    ensures Within(Pending(rows), |rows|) && s' == Fold(step, s, EventsOf(rows, Pending(rows)))
    ensures total == |Pending(rows)| && Pending(now) == []
  {
    assert Failing(fails, rows) == {};
    AllGood({}, Pending(rows));
    DrainedIsOnePass(step, fails, s, rows, size, applied, total, s', now);
    if Pending(now) != [] {
      assert Pending(now)[0] in Pending(now);
    }
  }
}
