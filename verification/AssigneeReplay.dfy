/**
 Assignee notes under re-fetch. Bronze keeps every copy and each copy is applied again, so an
 assignment history sees a growing list of changes once per fetch.
 */
module AssigneeReplay {
  import opened Options
  import opened Assignees
  import opened Folds

  /** The history after more changes. */
  function Continue(h: History, cs: seq<TimedChange>): History {
    if cs == [] then h
    else Apply(Continue(h, cs[..|cs| - 1]), cs[|cs| - 1].change, cs[|cs| - 1].at)
  }

  lemma {:induction false} ContinueConcat(h: History, a: seq<TimedChange>, b: seq<TimedChange>)
    ensures Continue(h, a + b) == Continue(Continue(h, a), b)
  {
    if b == [] {
      assert a + b == a;
    } else {
      assert (a + b)[..|a + b| - 1] == a + b[..|b| - 1];
      ContinueConcat(h, a, b[..|b| - 1]);
    }
  }

  lemma ContinueSnoc(h: History, cs: seq<TimedChange>, c: TimedChange)
    ensures Continue(h, cs + [c]) == Apply(Continue(h, cs), c.change, c.at)
  {
    assert (cs + [c])[..|cs|] == cs;
  }

  lemma {:induction false} RunIsContinue(cs: seq<TimedChange>)
    ensures Run(cs) == Continue(EMPTY, cs)
  {
    if cs != [] {
      RunIsContinue(cs[..|cs| - 1]);
    }
  }

  lemma RunContinues(cs: seq<TimedChange>, more: seq<TimedChange>)
    ensures Run(cs + more) == Continue(Run(cs), more)
  {
    RunIsContinue(cs);
    RunIsContinue(cs + more);
    ContinueConcat(EMPTY, cs, more);
  }

  predicate Recognised(c: TimedChange, u: string) {
    c.change.username == u && !c.change.action.Unrecognised?
  }

  /** Whether u is assigned after the changes, given whether u was before. */
  function CurrentAfter(before: bool, cs: seq<TimedChange>, u: string): bool {
    if cs == [] then before
    else
      var last := cs[|cs| - 1];
      if Recognised(last, u) then last.change.action.Assigned? else CurrentAfter(before, cs[..|cs| - 1], u)
  }

  /** The change moves u in or out. */
  predicate Flips(current: bool, c: TimedChange, u: string) {
    Recognised(c, u) && c.change.action.Assigned? != current
  }

  /** How many of the changes open a period of u. */
  function Openings(before: bool, cs: seq<TimedChange>, u: string): nat {
    if cs == [] then 0
    else
      var front, last := cs[..|cs| - 1], cs[|cs| - 1];
      Openings(before, front, u) +
      if Flips(CurrentAfter(before, front, u), last, u) && last.change.action.Assigned? then 1 else 0
  }

  function CountOf(es: seq<Entry>, u: string): nat {
    if es == [] then 0
    else CountOf(es[..|es| - 1], u) + if es[|es| - 1].username == u then 1 else 0
  }

  lemma {:induction false} CountOfUpdate(es: seq<Entry>, k: nat, e: Entry, u: string)
    requires k < |es| && e.username == es[k].username
    ensures CountOf(es[k := e], u) == CountOf(es, u)
  {
    var n, es' := |es| - 1, es[k := e];
    if k < n {
      CountOfUpdate(es[..n], k, e, u);
      assert es'[..n] == es[..n][k := e];
    } else {
      assert es'[..n] == es[..n];
    }
  }

  lemma CountOfSnoc(es: seq<Entry>, e: Entry, u: string)
    ensures CountOf(es + [e], u) == CountOf(es, u) + if e.username == u then 1 else 0
  {
    assert (es + [e])[..|es|] == es;
  }

  lemma ApplyKeepsConsistent(h: History, c: TimedChange)
    requires Consistent(h)
    ensures Consistent(Apply(h, c.change, c.at))
  {
    AssignKeepsConsistent(h, c.change.username, c.at);
    UnassignKeepsConsistent(h, c.change.username, c.at);
  }

  lemma OpenIndexIfCurrent(h: History, u: string)
    requires Consistent(h)
    ensures u in h.current <==> OpenIndex(h.entries, u) < |h.entries|
  {
    assert u in h.current <==> HasOpen(h.entries, u);
  }

  lemma ApplyCounts(h: History, c: TimedChange, u: string)
    requires Consistent(h)
    ensures var h' := Apply(h, c.change, c.at);
            && (u in h'.current <==> if Recognised(c, u) then c.change.action.Assigned? else u in h.current)
            && CountOf(h'.entries, u) ==
               CountOf(h.entries, u) + if Flips(u in h.current, c, u) && c.change.action.Assigned? then 1 else 0
  {
    var v, k := c.change.username, OpenIndex(h.entries, c.change.username);
    OpenIndexIfCurrent(h, v);
    WithoutMembers(h.current, v);
    CountOfSnoc(h.entries, Entry(v, c.at, None, None), u);
    if k < |h.entries| {
      CountOfUpdate(h.entries, k, Close(h.entries[k], c.at), u);
    }
  }

  lemma {:induction false} ContinueCounts(h: History, cs: seq<TimedChange>, u: string)
    requires Consistent(h)
    ensures var h' := Continue(h, cs);
            && Consistent(h')
            && (u in h'.current <==> CurrentAfter(u in h.current, cs, u))
            && CountOf(h'.entries, u) == CountOf(h.entries, u) + Openings(u in h.current, cs, u)
  {
    if cs != [] {
      var front, last := cs[..|cs| - 1], cs[|cs| - 1];
      ContinueCounts(h, front, u);
      ApplyKeepsConsistent(Continue(h, front), last);
      ApplyCounts(Continue(h, front), last, u);
    }
  }

  lemma RunCounts(cs: seq<TimedChange>, u: string)
    ensures Consistent(Run(cs))
    ensures u in Run(cs).current <==> CurrentAfter(false, cs, u)
    ensures CountOf(Run(cs).entries, u) == Openings(false, cs, u)
  {
    RunIsContinue(cs);
    ContinueCounts(EMPTY, cs, u);
  }

  // ---- Which replays are absorbed ----

  ghost predicate Has(cs: seq<TimedChange>, u: string, action: Action) {
    exists c :: c in cs && c.change == Change(u, action)
  }

  /** Some user is both assigned and unassigned by the changes. */
  ghost predicate Mixed(cs: seq<TimedChange>, u: string) {
    Has(cs, u, Assigned) && Has(cs, u, Unassigned)
  }

  ghost predicate OneWay(cs: seq<TimedChange>) {
    forall u :: !Mixed(cs, u)
  }

  lemma HasSnoc(cs: seq<TimedChange>, c: TimedChange, u: string, action: Action)
    ensures Has(cs + [c], u, action) <==> Has(cs, u, action) || c.change == Change(u, action)
  {
    assert c in cs + [c] && forall d :: d in cs ==> d in cs + [c];
  }

  lemma {:induction false} CurrentAfterIsLast(before: bool, cs: seq<TimedChange>, u: string)
    ensures CurrentAfter(before, cs, u) ==> before || Has(cs, u, Assigned)
    ensures !CurrentAfter(before, cs, u) ==> !before || Has(cs, u, Unassigned)
    ensures Has(cs, u, Assigned) || Has(cs, u, Unassigned) ==>
              CurrentAfter(before, cs, u) == CurrentAfter(!before, cs, u)
  {
    if cs != [] {
      var front, last := cs[..|cs| - 1], cs[|cs| - 1];
      CurrentAfterIsLast(before, front, u);
      assert front + [last] == cs;
      HasSnoc(front, last, u, Assigned);
      HasSnoc(front, last, u, Unassigned);
    }
  }

  lemma {:induction false} AbsorbedStream(h: History, cs: seq<TimedChange>)
    requires Consistent(h)
    requires forall c :: c in cs && c.change.action.Assigned? ==> c.change.username in h.current
    requires forall c :: c in cs && c.change.action.Unassigned? ==> c.change.username !in h.current
    ensures Continue(h, cs) == h
  {
    if cs != [] {
      var front, last := cs[..|cs| - 1], cs[|cs| - 1];
      assert last in cs && forall c :: c in front ==> c in cs;
      AbsorbedStream(h, front);
      ChangeIsAbsorbedIff(h, last.change, last.at);
    }
  }

  /** One-way changes are absorbed by whatever history they have left. */
  lemma OneWayIsAbsorbed(h: History, cs: seq<TimedChange>)
    requires Consistent(h) && OneWay(cs)
    ensures Continue(Continue(h, cs), cs) == Continue(h, cs)
    ensures forall c :: c in cs && c.change.action.Assigned? ==> c.change.username in Continue(h, cs).current
    ensures forall c :: c in cs && c.change.action.Unassigned? ==> c.change.username !in Continue(h, cs).current
  {
    ContinueCounts(h, cs, "");
    forall c | c in cs && !c.change.action.Unrecognised?
      ensures c.change.action.Assigned? <==> c.change.username in Continue(h, cs).current
    {
      var u := c.change.username;
      assert c.change == Change(u, c.change.action);
      assert Has(cs, u, c.change.action) && !Mixed(cs, u);
      ContinueCounts(h, cs, u);
      CurrentAfterIsLast(false, cs, u);
      CurrentAfterIsLast(true, cs, u);
    }
    AbsorbedStream(Continue(h, cs), cs);
  }

  lemma {:induction false} AssignmentOpens(cs: seq<TimedChange>, u: string)
    requires Has(cs, u, Assigned)
    ensures Openings(false, cs, u) >= 1
  {
    var front, last := cs[..|cs| - 1], cs[|cs| - 1];
    assert front + [last] == cs;
    HasSnoc(front, last, u, Assigned);
    if Has(front, u, Assigned) {
      AssignmentOpens(front, u);
    } else {
      CurrentAfterIsLast(false, front, u);
    }
  }

  lemma {:induction false} ReassignmentOpens(cs: seq<TimedChange>, u: string)
    requires Has(cs, u, Unassigned) && CurrentAfter(true, cs, u)
    ensures Openings(true, cs, u) >= 1
  {
    var front, last := cs[..|cs| - 1], cs[|cs| - 1];
    assert front + [last] == cs;
    HasSnoc(front, last, u, Unassigned);
    if CurrentAfter(true, front, u) {
      ReassignmentOpens(front, u);
    }
  }

  /** Replaying changes in both directions opens at least one period more. */
  lemma MixedReopens(cs: seq<TimedChange>, u: string, current: bool)
    requires Mixed(cs, u) && current == CurrentAfter(current, cs, u)
    ensures Openings(current, cs, u) >= 1
  {
    if current {
      ReassignmentOpens(cs, u);
    } else {
      AssignmentOpens(cs, u);
    }
  }

  lemma {:induction false} OpeningsConcat(before: bool, a: seq<TimedChange>, b: seq<TimedChange>, u: string)
    ensures CurrentAfter(before, a + b, u) == CurrentAfter(CurrentAfter(before, a, u), b, u)
    ensures Openings(before, a + b, u) == Openings(before, a, u) + Openings(CurrentAfter(before, a, u), b, u)
  {
    if b == [] {
      assert a + b == a;
    } else {
      assert (a + b)[..|a + b| - 1] == a + b[..|b| - 1];
      OpeningsConcat(before, a, b[..|b| - 1], u);
    }
  }

  /** Starting out assigned saves at most the first opening. */
  lemma {:induction false} HeadStart(cs: seq<TimedChange>, u: string)
    ensures CurrentAfter(false, cs, u) ==> CurrentAfter(true, cs, u)
    ensures Openings(true, cs, u) <= Openings(false, cs, u) <= Openings(true, cs, u) + 1
    ensures CurrentAfter(true, cs, u) != CurrentAfter(false, cs, u) ==> Openings(false, cs, u) == Openings(true, cs, u)
  {
    if cs != [] {
      HeadStart(cs[..|cs| - 1], u);
    }
  }

  lemma {:induction false} CurrentHasOpened(cs: seq<TimedChange>, u: string)
    requires CurrentAfter(false, cs, u)
    ensures Openings(false, cs, u) >= 1
  {
    CurrentAfterIsLast(false, cs, u);
    AssignmentOpens(cs, u);
  }

  /** Whatever came before, a list opens no fewer periods than it does alone. */
  lemma MoreOpenings(before: seq<TimedChange>, cs: seq<TimedChange>, u: string)
    ensures Openings(false, before + cs, u) >= Openings(false, cs, u)
  {
    OpeningsConcat(false, before, cs, u);
    HeadStart(cs, u);
    if CurrentAfter(false, before, u) {
      CurrentHasOpened(before, u);
    }
  }

  /** A list whose first part repeats the end of what came before, with a user going both ways in it. */
  lemma MixedReplayOpensMore(before: seq<TimedChange>, a: seq<TimedChange>, b: seq<TimedChange>, u: string)
    requires Mixed(a, u)
    ensures Openings(false, before + a + (a + b), u) > Openings(false, a + b, u)
  {
    var x, current := before + a, CurrentAfter(false, a, u);
    MoreOpenings(before, a, u);
    CurrentAfterIsLast(false, a, u);
    CurrentAfterIsLast(true, a, u);
    OpeningsConcat(false, before, a, u);
    assert CurrentAfter(false, x, u) == current == CurrentAfter(current, a, u);
    MixedReopens(a, u, current);
    OpeningsConcat(false, x, a + b, u);
    OpeningsConcat(current, a, b, u);
    OpeningsConcat(false, a, b, u);
  }

  lemma SplitAt(list: seq<TimedChange>, m: nat, n: nat)
    requires m <= n <= |list|
    ensures list[..n] == list[..m] + list[m..n]
  {
  }

  lemma RefetchOfOneWay(cs: seq<TimedChange>, a: seq<TimedChange>, b: seq<TimedChange>)
    requires Run(cs) == Run(a) && OneWay(a)
    ensures Run(cs + (a + b)) == Run(a + b)
  {
    OneWayIsAbsorbed(EMPTY, a);
    RunIsContinue(a);
    Assoc(cs, a, b);
    RunContinues(cs, a);
    RunContinues(cs + a, b);
    RunContinues(a, b);
  }

  lemma OneWayPrefix(list: seq<TimedChange>, m: nat, n: nat)
    requires m <= n <= |list| && OneWay(list[..n])
    ensures OneWay(list[..m])
  {
    forall u
      ensures !Mixed(list[..m], u)
    {
      assert forall c :: c in list[..m] ==> c in list[..n];
      assert !Mixed(list[..n], u);
    }
  }

  lemma {:induction false} RefetchesOfOneWay(list: seq<TimedChange>, lengths: seq<nat>)
    requires Growing(lengths, |list|) && lengths != []
    requires |lengths| == 1 || OneWay(list[..lengths[|lengths| - 2]])
    ensures Run(Refetched(list, lengths)) == Run(list[..lengths[|lengths| - 1]])
  {
    var k := |lengths| - 1;
    var front := lengths[..k];
    if k == 0 {
      assert Refetched(list, lengths) == list[..lengths[0]];
    } else {
      var m, n := lengths[k - 1], lengths[k];
      assert front[|front| - 1] == m;
      if k > 1 {
        OneWayPrefix(list, lengths[k - 2], m);
      }
      RefetchesOfOneWay(list, front);
      SplitAt(list, m, n);
      RefetchOfOneWay(Refetched(list, front), list[..m], list[m..n]);
    }
  }

  /**
   Fetching a growing list of changes again and again leaves the history of the list fetched last
   exactly when nobody is both assigned and unassigned by the changes that were fetched more than once.
   */
  lemma {:induction false} RefetchIsAbsorbedIff(list: seq<TimedChange>, lengths: seq<nat>)
    requires Growing(lengths, |list|) && lengths != []
    ensures Run(Refetched(list, lengths)) == Run(list[..lengths[|lengths| - 1]]) <==>
            |lengths| == 1 || OneWay(list[..lengths[|lengths| - 2]])
  {
    var k := |lengths| - 1;
    if k == 0 || OneWay(list[..lengths[k - 1]]) {
      RefetchesOfOneWay(list, lengths);
    } else {
      var front, m, n := lengths[..k], lengths[k - 1], lengths[k];
      var u :| Mixed(list[..m], u);
      var before := Refetched(list, front[..k - 1]);
      assert Refetched(list, front) == before + list[..m];
      SplitAt(list, m, n);
      MixedReplayOpensMore(before, list[..m], list[m..n], u);
      RunCounts(Refetched(list, lengths), u);
      RunCounts(list[..n], u);
    }
  }

  /** A full replay is absorbed exactly when nobody is both assigned and unassigned. */
  lemma ReplayIsAbsorbedIff(cs: seq<TimedChange>)
    ensures Run(cs + cs) == Run(cs) <==> OneWay(cs)
  {
    var lengths := [|cs|, |cs|];
    assert lengths[..1][..0] == [] && cs[..|cs|] == cs;
    assert Refetched(cs, lengths[..1]) == [] + cs == cs;
    RefetchIsAbsorbedIff(cs, lengths);
  }

  /** Changes applied twice in a row, with others before and after: no trace is left exactly when they are one-way. */
  lemma RepeatIsAbsorbedIff(h: History, b: seq<TimedChange>, c: seq<TimedChange>)
    requires Consistent(h)
    ensures Continue(Continue(Continue(h, b), b), c) == Continue(Continue(h, b), c) <==> OneWay(b)
  {
    if OneWay(b) {
      OneWayIsAbsorbed(h, b);
    } else {
      var u :| Mixed(b, u);
      RepeatOpensMore(h, b, c, u);
    }
  }

  lemma RepeatOpensMore(h: History, b: seq<TimedChange>, c: seq<TimedChange>, u: string)
    requires Consistent(h) && Mixed(b, u)
    ensures CountOf(Continue(Continue(Continue(h, b), b), c).entries, u) >
            CountOf(Continue(Continue(h, b), c).entries, u)
  {
    var h1 := Continue(h, b);
    var h2 := Continue(h1, b);
    ContinueCounts(h, b, u);
    ContinueCounts(h1, b, u);
    ContinueCounts(h1, c, u);
    ContinueCounts(h2, c, u);
    CurrentAfterIsLast(false, b, u);
    CurrentAfterIsLast(true, b, u);
    MixedReopens(b, u, u in h1.current);
  }

  // ---- What replays leave intact: the instants at which somebody is assigned ----

  /** When u's present state was reached: the time of the last change that moved u in or out. */
  function Since(before: bool, since: int, cs: seq<TimedChange>, u: string): int {
    if cs == [] then since
    else
      var front, last := cs[..|cs| - 1], cs[|cs| - 1];
      if Flips(CurrentAfter(before, front, u), last, u) then last.at else Since(before, since, front, u)
  }

  function SinceOf(cs: seq<TimedChange>, u: string): int {
    Since(false, if cs == [] then 0 else cs[0].at, cs, u)
  }

  ghost predicate OpensAt(h: History, u: string, since: int) {
    forall i :: 0 <= i < |h.entries| && OpenFor(h.entries[i], u) ==> h.entries[i].assignedAt == since
  }

  lemma {:induction false} ContinueOpensAt(h: History, since: int, cs: seq<TimedChange>, u: string)
    requires Consistent(h) && OpensAt(h, u, since)
    ensures OpensAt(Continue(h, cs), u, Since(u in h.current, since, cs, u))
  {
    if cs != [] {
      var front, last := cs[..|cs| - 1], cs[|cs| - 1];
      ContinueOpensAt(h, since, front, u);
      ContinueCounts(h, front, u);
      ApplyOpensAt(Continue(h, front), Since(u in h.current, since, front, u), last, u);
    }
  }

  lemma ApplyOpensAt(h: History, since: int, c: TimedChange, u: string)
    requires Consistent(h) && OpensAt(h, u, since)
    ensures OpensAt(Apply(h, c.change, c.at), u, if Flips(u in h.current, c, u) then c.at else since)
  {
    OpenIndexIfCurrent(h, c.change.username);
    OpenIndexIfCurrent(h, u);
  }

  lemma {:induction false} SinceIsTimely(before: bool, since: int, cs: seq<TimedChange>, u: string, t: int)
    requires since <= t && forall c :: c in cs ==> c.at <= t
    ensures Since(before, since, cs, u) <= t
  {
    if cs != [] {
      assert cs[|cs| - 1] in cs;
      SinceIsTimely(before, since, cs[..|cs| - 1], u, t);
    }
  }

  /** Where a state was reached does not depend on the start, once it has been left and reached again. */
  lemma {:induction false} SinceForgets(cs: seq<TimedChange>, u: string, s: int, s': int)
    ensures CurrentAfter(false, cs, u) ==> Since(false, s, cs, u) == Since(false, s', cs, u)
    ensures CurrentAfter(false, cs, u) && Has(cs, u, Unassigned) ==> Since(true, s', cs, u) == Since(false, s, cs, u)
    ensures !Has(cs, u, Unassigned) ==> Since(true, s, cs, u) == s && CurrentAfter(true, cs, u)
  {
    if cs != [] {
      var front, last := cs[..|cs| - 1], cs[|cs| - 1];
      assert front + [last] == cs;
      SinceForgets(front, u, s, s');
      HasSnoc(front, last, u, Unassigned);
      CurrentAfterIsLast(true, front, u);
    }
  }

  lemma {:induction false} AssignedSince(cs: seq<TimedChange>, u: string, s: int, t: int)
    requires CurrentAfter(false, cs, u) && Since(false, s, cs, u) <= t
    ensures AssignedAt(cs, u, t)
  {
    var front, last := cs[..|cs| - 1], cs[|cs| - 1];
    if CurrentAfter(false, front, u) {
      AssignedSince(front, u, s, t);
    }
  }

  /** Later changes do not matter before they happen. */
  lemma {:induction false} AssignedBefore(cs: seq<TimedChange>, j: nat, u: string, t: int)
    requires Ordered(cs) && j < |cs| && t < cs[j].at
    ensures AssignedAt(cs, u, t) == AssignedAt(cs[..j], u, t)
  {
    var front := cs[..|cs| - 1];
    if j < |front| {
      AssignedBefore(front, j, u, t);
      assert front[..j] == cs[..j];
    }
  }

  lemma {:induction false} LeftBeforeReached(cs: seq<TimedChange>, j: nat, u: string, s: int)
    requires Ordered(cs) && j < |cs| && CurrentAfter(false, cs, u)
    requires cs[j].change == Change(u, Unassigned)
    ensures cs[j].at <= Since(false, s, cs, u)
  {
    var front := cs[..|cs| - 1];
    if j < |front| && CurrentAfter(false, front, u) {
      LeftBeforeReached(front, j, u, s);
    }
  }

  ghost predicate ClosedCovered(h: History, u: string, t: int) {
    exists i :: 0 <= i < |h.entries| && h.entries[i].unassignedAt.Some? && Covers(h.entries[i], u, t)
  }

  /** The closed periods of u cover the assigned instants before the present assignment, and no other. */
  ghost predicate ClosedAgree(h: History, u: string, cs: seq<TimedChange>) {
    && (forall t :: ClosedCovered(h, u, t) ==> AssignedAt(cs, u, t))
    && (forall t :: AssignedAt(cs, u, t) ==>
          ClosedCovered(h, u, t) || (CurrentAfter(false, cs, u) && SinceOf(cs, u) <= t))
  }

  ghost predicate ClosedWithin(h: History, u: string, cs: seq<TimedChange>) {
    forall t :: ClosedCovered(h, u, t) ==> cs != [] && t < cs[|cs| - 1].at
  }

  /** The history says of u what the changes say. */
  ghost predicate Faithful(h: History, u: string, cs: seq<TimedChange>) {
    && Consistent(h)
    && (u in h.current <==> CurrentAfter(false, cs, u))
    && OpensAt(h, u, SinceOf(cs, u))
    && ClosedAgree(h, u, cs)
    && ClosedWithin(h, u, cs)
  }

  lemma FaithfulCovers(h: History, u: string, cs: seq<TimedChange>, t: int)
    requires Faithful(h, u, cs)
    ensures Covered(h, u, t) <==> AssignedAt(cs, u, t)
  {
    if Covered(h, u, t) {
      var i :| 0 <= i < |h.entries| && Covers(h.entries[i], u, t);
      if h.entries[i].unassignedAt.None? {
        assert OpenFor(h.entries[i], u) && HasOpen(h.entries, u);
        AssignedSince(cs, u, cs[0].at, t);
      } else {
        assert ClosedCovered(h, u, t);
      }
    }
    if AssignedAt(cs, u, t) && !ClosedCovered(h, u, t) {
      assert HasOpen(h.entries, u);
      var i :| 0 <= i < |h.entries| && OpenFor(h.entries[i], u);
      assert Covers(h.entries[i], u, t);
    }
    if ClosedCovered(h, u, t) {
      var i :| 0 <= i < |h.entries| && h.entries[i].unassignedAt.Some? && Covers(h.entries[i], u, t);
      assert Covered(h, u, t);
    }
  }

  /** What a change adds to the closed periods of u: the open one, when it ends. */
  lemma ApplyCloses(h: History, since: int, c: TimedChange, u: string, t: int)
    requires Consistent(h) && OpensAt(h, u, since)
    ensures ClosedCovered(Apply(h, c.change, c.at), u, t) <==>
            || ClosedCovered(h, u, t)
            || (u in h.current && c.change == Change(u, Unassigned) && since <= t < c.at)
  {
    var h', v, k := Apply(h, c.change, c.at), c.change.username, OpenIndex(h.entries, c.change.username);
    OpenIndexIfCurrent(h, v);
    if ClosedCovered(h, u, t) {
      var i :| 0 <= i < |h.entries| && h.entries[i].unassignedAt.Some? && Covers(h.entries[i], u, t);
      assert h'.entries[i] == h.entries[i];
    }
    if ClosedCovered(h', u, t) {
      var i :| 0 <= i < |h'.entries| && h'.entries[i].unassignedAt.Some? && Covers(h'.entries[i], u, t);
      assert i < |h.entries|;
      assert i == k || h'.entries[i] == h.entries[i];
    }
    if u in h.current && c.change == Change(u, Unassigned) && since <= t < c.at {
      assert Covers(h'.entries[k], u, t);
    }
  }

  lemma Snoc(cs: seq<TimedChange>, c: TimedChange, u: string, t: int)
    ensures AssignedAt(cs + [c], u, t) ==
            if Recognised(c, u) && c.at <= t then c.change.action.Assigned? else AssignedAt(cs, u, t)
    ensures CurrentAfter(false, cs + [c], u) ==
            if Recognised(c, u) then c.change.action.Assigned? else CurrentAfter(false, cs, u)
    ensures CurrentAfter(false, cs + [c], u) ==>
              SinceOf(cs + [c], u) == if Flips(CurrentAfter(false, cs, u), c, u) then c.at else SinceOf(cs, u)
  {
    assert (cs + [c])[..|cs|] == cs;
  }

  /** One more change that is not older than anything before it. */
  lemma FaithfulExtends(h: History, u: string, cs: seq<TimedChange>, c: TimedChange)
    requires Faithful(h, u, cs) && forall d :: d in cs ==> d.at <= c.at
    ensures Faithful(Apply(h, c.change, c.at), u, cs + [c])
  {
    var h', cs' := Apply(h, c.change, c.at), cs + [c];
    Snoc(cs, c, u, 0);
    ApplyKeepsConsistent(h, c);
    ApplyCounts(h, c, u);
    ApplyOpensAt(h, SinceOf(cs, u), c, u);
    if cs != [] {
      SinceIsTimely(false, cs[0].at, cs, u, c.at);
    }
    forall t
      ensures ClosedCovered(h', u, t) ==> AssignedAt(cs', u, t) && t < c.at
      ensures AssignedAt(cs', u, t) ==> ClosedCovered(h', u, t) || (CurrentAfter(false, cs', u) && SinceOf(cs', u) <= t)
    {
      Snoc(cs, c, u, t);
      ApplyCloses(h, SinceOf(cs, u), c, u, t);
      if CurrentAfter(false, cs, u) && SinceOf(cs, u) <= t {
        AssignedSince(cs, u, cs[0].at, t);
      }
    }
  }

  lemma {:induction false} FaithfulContinues(h: History, u: string, cs: seq<TimedChange>, more: seq<TimedChange>)
    requires Faithful(h, u, cs) && Ordered(cs + more)
    ensures Faithful(Continue(h, more), u, cs + more)
  {
    if more == [] {
      assert cs + more == cs;
    } else {
      var front, last := more[..|more| - 1], more[|more| - 1];
      assert cs + more == (cs + front) + [last];
      OrderedSnoc(cs + front, last);
      FaithfulContinues(h, u, cs, front);
      FaithfulExtends(Continue(h, front), u, cs + front, last);
    }
  }

  lemma OrderedSnoc(cs: seq<TimedChange>, c: TimedChange)
    requires Ordered(cs + [c])
    ensures Ordered(cs) && forall d :: d in cs ==> d.at <= c.at
  {
    assert (cs + [c])[|cs|] == c && forall i :: 0 <= i < |cs| ==> (cs + [c])[i] == cs[i];
  }

  // ---- Replaying the whole list over a faithful history ----

  /** An interval that a replay closes was an interval of assignment, or is empty. */
  lemma ReplayedPeriodIsOld(cs: seq<TimedChange>, j: nat, u: string, t: int)
    requires Ordered(cs) && j < |cs| && cs[j].change == Change(u, Unassigned)
    requires var b := CurrentAfter(false, cs, u);
             CurrentAfter(b, cs[..j], u) && Since(b, SinceOf(cs, u), cs[..j], u) <= t < cs[j].at
    ensures AssignedAt(cs, u, t)
  {
    var b, s, front := CurrentAfter(false, cs, u), SinceOf(cs, u), cs[..j];
    AssignedBefore(cs, j, u, t);
    CurrentAfterIsLast(b, front, u);
    if b && !Has(front, u, Unassigned) {
      SinceForgets(front, u, s, s);
      LeftBeforeReached(cs, j, u, cs[0].at);
    } else {
      SinceForgets(front, u, s, s);
      AssignedSince(front, u, s, t);
    }
  }

  lemma {:induction false} ReplayCloses(h: History, u: string, cs: seq<TimedChange>, j: nat)
    requires Faithful(h, u, cs) && Ordered(cs) && j <= |cs|
    ensures ClosedAgree(Continue(h, cs[..j]), u, cs) && ClosedWithin(Continue(h, cs[..j]), u, cs)
  {
    if j > 0 {
      ReplayCloses(h, u, cs, j - 1);
      var front, c := cs[..j - 1], cs[j - 1];
      assert cs[..j][..j - 1] == front && c.at <= cs[|cs| - 1].at;
      ContinueCounts(h, front, u);
      ContinueOpensAt(h, SinceOf(cs, u), front, u);
      forall t
        ensures ClosedCovered(Continue(h, front), u, t) ==> ClosedCovered(Continue(h, cs[..j]), u, t)
        ensures ClosedCovered(Continue(h, cs[..j]), u, t) ==> AssignedAt(cs, u, t) && t < cs[|cs| - 1].at
      {
        ApplyCloses(Continue(h, front), Since(u in h.current, SinceOf(cs, u), front, u), c, u, t);
        if ClosedCovered(Continue(h, cs[..j]), u, t) && !ClosedCovered(Continue(h, front), u, t) {
          ReplayedPeriodIsOld(cs, j - 1, u, t);
        }
      }
    }
  }

  /** A replay reaches the state of every user again, and a present assignment at the same time. */
  lemma ReachedAgain(cs: seq<TimedChange>, u: string)
    ensures var b := CurrentAfter(false, cs, u);
            CurrentAfter(b, cs, u) == b && (b ==> Since(b, SinceOf(cs, u), cs, u) == SinceOf(cs, u))
  {
    CurrentAfterIsLast(false, cs, u);
    CurrentAfterIsLast(true, cs, u);
    if CurrentAfter(false, cs, u) {
      SinceForgets(cs, u, cs[0].at, SinceOf(cs, u));
      SinceForgets(cs, u, SinceOf(cs, u), SinceOf(cs, u));
    }
  }

  lemma ReplayStaysFaithful(h: History, u: string, cs: seq<TimedChange>)
    requires Faithful(h, u, cs) && Ordered(cs)
    ensures Faithful(Continue(h, cs), u, cs)
  {
    var h' := Continue(h, cs);
    assert cs[..|cs|] == cs;
    ReplayCloses(h, u, cs, |cs|);
    ContinueCounts(h, cs, u);
    ContinueOpensAt(h, SinceOf(cs, u), cs, u);
    ReachedAgain(cs, u);
    assert u in h'.current <==> HasOpen(h'.entries, u);
  }

  /** One more fetch of the list, which may have grown. */
  lemma FetchStaysFaithful(h: History, u: string, list: seq<TimedChange>, m: nat, n: nat)
    requires Ordered(list) && m <= n <= |list| && Faithful(h, u, list[..m])
    ensures Faithful(Continue(h, list[..n]), u, list[..n])
  {
    SplitAt(list, m, n);
    ReplayStaysFaithful(h, u, list[..m]);
    FaithfulContinues(Continue(h, list[..m]), u, list[..m], list[m..n]);
    ContinueConcat(h, list[..m], list[m..n]);
  }

  lemma {:induction false} RefetchesAreFaithful(list: seq<TimedChange>, lengths: seq<nat>, u: string)
    requires Ordered(list) && Growing(lengths, |list|)
    ensures Faithful(Run(Refetched(list, lengths)), u, if lengths == [] then [] else list[..lengths[|lengths| - 1]])
  {
    if lengths != [] {
      var k := |lengths| - 1;
      var front := lengths[..k];
      RefetchesAreFaithful(list, front, u);
      assert list[..0] == [];
      FetchStaysFaithful(Run(Refetched(list, front)), u, list, if k == 0 then 0 else lengths[k - 1], lengths[k]);
      RunContinues(Refetched(list, front), list[..lengths[k]]);
    }
  }

  /**
   However often a growing list of changes in time order is fetched, the stored periods cover exactly
   the instants at which the list fetched last says that the user is assigned.
   */
  lemma RefetchKeepsMeaning(list: seq<TimedChange>, lengths: seq<nat>, u: string, t: int)
    requires Ordered(list) && Growing(lengths, |list|) && lengths != []
    ensures Covered(Run(Refetched(list, lengths)), u, t) <==> AssignedAt(list[..lengths[|lengths| - 1]], u, t)
    ensures u in Run(Refetched(list, lengths)).current <==> u in Run(list[..lengths[|lengths| - 1]]).current
  {
    var last := list[..lengths[|lengths| - 1]];
    RefetchesAreFaithful(list, lengths, u);
    FaithfulCovers(Run(Refetched(list, lengths)), u, last, t);
    RunCounts(last, u);
  }

  // ---- What replays can break: the order of the stored periods ----

  /** No period ends before it starts, and the periods of a user follow one another. */
  ghost predicate WellFormed(h: History) {
    && Sequential(h.entries)
    && (forall e :: e in h.entries && e.unassignedAt.Some? ==> e.assignedAt <= e.unassignedAt.value)
  }

  /** No time stored about u is later than s. */
  ghost predicate Bounded(h: History, u: string, s: int) {
    forall e :: e in h.entries && e.username == u ==>
      e.assignedAt <= s && (e.unassignedAt.Some? ==> e.unassignedAt.value <= s)
  }

  /** The change moves its user out of the state the history ended in. */
  predicate Contradicts(h: History, c: TimedChange) {
    Flips(c.change.username in h.current, c, c.change.username)
  }

  lemma {:induction false} SinceInOrder(before: bool, since: int, cs: seq<TimedChange>, u: string, t: int)
    requires forall c :: c in cs ==> c.at <= t
    ensures Since(before, since, cs, u) <= t ||
            (Since(before, since, cs, u) == since && CurrentAfter(before, cs, u) == before)
  {
    if cs != [] {
      assert cs[|cs| - 1] in cs;
      SinceInOrder(before, since, cs[..|cs| - 1], u, t);
    }
  }

  lemma AssignStaysWellFormed(h: History, u: string, at: int)
    requires Consistent(h) && WellFormed(h) && Bounded(h, u, at) && u !in h.current
    ensures WellFormed(Assign(h, u, at)) && Bounded(Assign(h, u, at), u, at)
  {
    var es, es' := h.entries, Assign(h, u, at).entries;
    OpenIndexIfCurrent(h, u);
    assert es' == es + [Entry(u, at, None, None)];
    assert forall i :: 0 <= i < |es| && es[i].username == u ==> es[i] in es && !OpenFor(es[i], u);
  }

  lemma UnassignStaysWellFormed(h: History, u: string, at: int)
    requires Consistent(h) && WellFormed(h) && Bounded(h, u, at) && u in h.current
    ensures WellFormed(Unassign(h, u, at)) && Bounded(Unassign(h, u, at), u, at)
  {
    var es, es', k := h.entries, Unassign(h, u, at).entries, OpenIndex(h.entries, u);
    OpenIndexIfCurrent(h, u);
    assert es[k] in es && es' == es[k := Close(es[k], at)];
    assert forall e :: e in es' ==> e in es || e == es'[k];
  }

  lemma ApplyStaysBounded(h: History, c: TimedChange, u: string, s: int)
    requires Bounded(h, u, s) && u != c.change.username
    ensures Bounded(Apply(h, c.change, c.at), u, s)
  {
    var h' := Apply(h, c.change, c.at);
    assert forall e :: e in h'.entries && e.username == u ==> e in h.entries;
  }

  /** Changes in time order keep a history well-formed unless one comes too early for the state it ends. */
  lemma {:induction false} StaysWellFormed(h: History, since: string -> int, cs: seq<TimedChange>)
    requires Consistent(h) && WellFormed(h) && Ordered(cs) && forall u :: Bounded(h, u, since(u))
    requires forall c :: c in cs && Contradicts(h, c) ==> since(c.change.username) <= c.at
    ensures WellFormed(Continue(h, cs))
    ensures forall u :: Bounded(Continue(h, cs), u, Since(u in h.current, since(u), cs, u))
  {
    if cs != [] {
      var front, c := cs[..|cs| - 1], cs[|cs| - 1];
      assert cs == front + [c];
      OrderedSnoc(front, c);
      StaysWellFormed(h, since, front);
      var v, h1 := c.change.username, Continue(h, front);
      ContinueCounts(h, front, v);
      if Flips(v in h1.current, c, v) {
        SinceInOrder(v in h.current, since(v), front, v, c.at);
        assert Bounded(h1, v, Since(v in h.current, since(v), front, v));
        assert Bounded(h1, v, c.at);
        if c.change.action.Assigned? {
          AssignStaysWellFormed(h1, v, c.at);
        } else {
          UnassignStaysWellFormed(h1, v, c.at);
        }
      } else {
        ChangeIsAbsorbedIff(h1, c.change, c.at);
      }
      forall u
        ensures Bounded(Continue(h, cs), u, Since(u in h.current, since(u), cs, u))
      {
        if u != v {
          ApplyStaysBounded(h1, c, u, Since(u in h.current, since(u), front, u));
        }
      }
    }
  }

  /** A closed period that ends before it starts, or after a later period of the same user starts. */
  ghost predicate Spoils(es: seq<Entry>, i: nat, j: nat) {
    && i <= j < |es| && es[i].username == es[j].username && es[i].unassignedAt.Some?
    && if i == j then es[i].unassignedAt.value < es[i].assignedAt else es[j].assignedAt < es[i].unassignedAt.value
  }

  lemma SpoiledForGood(cs: seq<TimedChange>, more: seq<TimedChange>, i: nat, j: nat)
    requires Spoils(Run(cs).entries, i, j)
    ensures !WellFormed(Run(cs + more))
  {
    assert (cs + more)[..|cs|] == cs;
    ClosedEntriesAreFinal(cs + more, |cs|, i);
    ClosedEntriesAreFinal(cs + more, |cs|, j);
    var es := Run(cs + more).entries;
    assert Spoils(es, i, j);
    if i == j {
      assert es[i] in es;
    } else {
      assert !Sequential(es);
    }
  }

  /** If u is not assigned any more, the last of u's periods ended at s. */
  ghost predicate LeftAt(h: History, u: string, s: int) {
    u in h.current
    || (forall e :: e in h.entries ==> e.username != u)
    || (exists i :: 0 <= i < |h.entries| && h.entries[i].username == u && h.entries[i].unassignedAt == Some(s))
  }

  lemma ApplyLeftAt(h: History, since: int, c: TimedChange, u: string)
    requires Consistent(h) && LeftAt(h, u, since)
    ensures LeftAt(Apply(h, c.change, c.at), u, if Flips(u in h.current, c, u) then c.at else since)
  {
    var h', v, k := Apply(h, c.change, c.at), c.change.username, OpenIndex(h.entries, c.change.username);
    OpenIndexIfCurrent(h, v);
    ApplyCounts(h, c, u);
    if u !in h'.current {
      if u in h.current {
        assert h'.entries[k].username == u && h'.entries[k].unassignedAt == Some(c.at);
      } else if i :| 0 <= i < |h.entries| && h.entries[i].username == u && h.entries[i].unassignedAt == Some(since) {
        assert h'.entries[i] == h.entries[i];
      }
    }
  }

  lemma {:induction false} ContinueLeftAt(h: History, since: int, cs: seq<TimedChange>, u: string)
    requires Consistent(h) && LeftAt(h, u, since)
    ensures LeftAt(Continue(h, cs), u, Since(u in h.current, since, cs, u))
  {
    if cs != [] {
      var front, last := cs[..|cs| - 1], cs[|cs| - 1];
      ContinueLeftAt(h, since, front, u);
      ContinueCounts(h, front, u);
      ApplyLeftAt(Continue(h, front), Since(u in h.current, since, front, u), last, u);
    }
  }

  lemma {:induction false} NothingFlips(before: bool, since: int, cs: seq<TimedChange>, u: string)
    requires forall c :: c in cs ==> !Flips(before, c, u)
    ensures CurrentAfter(before, cs, u) == before && Since(before, since, cs, u) == since
  {
    if cs != [] {
      assert cs[|cs| - 1] in cs;
      NothingFlips(before, since, cs[..|cs| - 1], u);
    }
  }

  /** A change that ends u's state before that state was reached leaves two times in the wrong order. */
  lemma EarlyChangeSpoils(h: History, c: TimedChange, u: string, since: int) returns (i: nat, j: nat)
    requires Consistent(h) && OpensAt(h, u, since) && LeftAt(h, u, since)
    requires Flips(u in h.current, c, u) && c.at < since
    requires exists e :: e in h.entries && e.username == u
    ensures Spoils(Apply(h, c.change, c.at).entries, i, j)
  {
    var es', k := Apply(h, c.change, c.at).entries, OpenIndex(h.entries, u);
    OpenIndexIfCurrent(h, u);
    if u in h.current {
      i, j := k, k;
    } else {
      i :| 0 <= i < |h.entries| && h.entries[i].username == u && h.entries[i].unassignedAt == Some(since);
      j := |h.entries|;
      assert es'[i] == h.entries[i] && es'[j].assignedAt == c.at;
    }
  }

  lemma {:induction false} CountedIsThere(es: seq<Entry>, u: string)
    requires CountOf(es, u) >= 1
    ensures exists e :: e in es && e.username == u
  {
    if es[|es| - 1].username != u {
      CountedIsThere(es[..|es| - 1], u);
      var e :| e in es[..|es| - 1] && e.username == u;
      assert e in es;
    } else {
      assert es[|es| - 1] in es;
    }
  }

  lemma EntriesStay(h: History, cs: seq<TimedChange>, u: string)
    requires Consistent(h) && CountOf(h.entries, u) >= 1
    ensures exists e :: e in Continue(h, cs).entries && e.username == u
  {
    ContinueCounts(h, cs, u);
    CountedIsThere(Continue(h, cs).entries, u);
  }

  /** The first change of the replay that moves u comes too early. */
  lemma {:induction false} FirstMoveSpoils(
    cs: seq<TimedChange>, a: seq<TimedChange>, c: TimedChange, u: string, since: int) returns (i: nat, j: nat)
    requires Flips(u in Run(cs).current, c, u) && c.at < since && CountOf(Run(cs).entries, u) >= 1
    requires OpensAt(Run(cs), u, since) && LeftAt(Run(cs), u, since)
    requires forall d :: d in a ==> !Flips(u in Run(cs).current, d, u)
    ensures Spoils(Run(cs + (a + [c])).entries, i, j)
  {
    var h := Run(cs);
    ReachableIsConsistent(cs);
    NothingFlips(u in h.current, since, a, u);
    ContinueOpensAt(h, since, a, u);
    ContinueLeftAt(h, since, a, u);
    ContinueCounts(h, a, u);
    EntriesStay(h, a, u);
    i, j := EarlyChangeSpoils(Continue(h, a), c, u, since);
    RunContinues(cs, a + [c]);
    ContinueSnoc(h, a, c);
  }

  lemma EarlyReplaySpoils(cs: seq<TimedChange>, a: seq<TimedChange>, k: nat, rest: seq<TimedChange>, since: int)
    requires Ordered(a) && k < |a| && a[k].at < since
    requires Contradicts(Run(cs), a[k]) && CountOf(Run(cs).entries, a[k].change.username) >= 1
    requires OpensAt(Run(cs), a[k].change.username, since) && LeftAt(Run(cs), a[k].change.username, since)
    ensures !WellFormed(Run(cs + (a + rest)))
  {
    var u := a[k].change.username;
    if j :| 0 <= j < k && Flips(u in Run(cs).current, a[j], u) {
      EarlyReplaySpoils(cs, a, j, rest, since);
    } else {
      var i, j := FirstMoveSpoils(cs, a[..k], a[k], u, since);
      assert a[..k] + [a[k]] == a[..k + 1];
      SpoiledForGood(cs + a[..k + 1], a[k + 1..] + rest, i, j);
      CutAfter(cs, a, k, rest);
    }
  }

  lemma CutAfter(cs: seq<TimedChange>, a: seq<TimedChange>, k: nat, rest: seq<TimedChange>)
    requires k < |a|
    ensures (cs + a[..k + 1]) + (a[k + 1..] + rest) == cs + (a + rest)
  {
    Assoc(cs, a[..k + 1], a[k + 1..] + rest);
    Assoc(a[..k + 1], a[k + 1..], rest);
    assert a[..k + 1] + a[k + 1..] == a;
  }

  lemma {:induction false} SinceConcat(before: bool, s: int, a: seq<TimedChange>, b: seq<TimedChange>, u: string)
    ensures Since(before, s, a + b, u) == Since(CurrentAfter(before, a, u), Since(before, s, a, u), b, u)
  {
    if b == [] {
      assert a + b == a;
    } else {
      assert (a + b)[..|a + b| - 1] == a + b[..|b| - 1];
      SinceConcat(before, s, a, b[..|b| - 1], u);
      OpeningsConcat(before, a, b[..|b| - 1], u);
    }
  }

  lemma {:induction false} SinceDefault(before: bool, s: int, s': int, cs: seq<TimedChange>, u: string)
    ensures Since(before, s, cs, u) == Since(before, s', cs, u) ||
            (Since(before, s, cs, u) == s && Since(before, s', cs, u) == s')
  {
    if cs != [] {
      SinceDefault(before, s, s', cs[..|cs| - 1], u);
    }
  }

  /** Replaying a list, and then more, ends each state where the list alone would have. */
  lemma SinceReplayed(s: int, a: seq<TimedChange>, b: seq<TimedChange>, u: string)
    ensures Since(CurrentAfter(false, a, u), Since(false, s, a, u), a + b, u) == Since(false, s, a + b, u)
  {
    var current, since := CurrentAfter(false, a, u), Since(false, s, a, u);
    SinceConcat(false, s, a, b, u);
    SinceConcat(current, since, a, b, u);
    ReachedAgain(a, u);
    if current {
      SinceForgets(a, u, s, a[0].at);
    } else {
      SinceDefault(false, s, since, a, u);
    }
  }

  /** Nothing in the list ends a user's present state before that state was reached. */
  ghost predicate Repeatable(cs: seq<TimedChange>) {
    forall c :: c in cs && Contradicts(Run(cs), c) ==> SinceOf(cs, c.change.username) <= c.at
  }

  /** One more fetch, over a history in which u is where the part fetched before leaves u. */
  lemma FetchLeavesAt(h: History, a: seq<TimedChange>, all: seq<TimedChange>, u: string, s: int)
    requires Consistent(h) && a <= all && (u in h.current <==> CurrentAfter(false, a, u))
    requires LeftAt(h, u, Since(false, s, a, u))
    ensures var h' := Continue(h, all);
            && Consistent(h') && (u in h'.current <==> CurrentAfter(false, all, u))
            && LeftAt(h', u, Since(false, s, all, u))
  {
    var b := all[|a|..];
    assert all == a + b;
    ContinueLeftAt(h, Since(false, s, a, u), all, u);
    ContinueCounts(h, all, u);
    SinceReplayed(s, a, b, u);
    OpeningsConcat(false, a, b, u);
    OpeningsConcat(CurrentAfter(false, a, u), a, b, u);
    ReachedAgain(a, u);
  }

  lemma {:induction false} RefetchesLeftAt(list: seq<TimedChange>, lengths: seq<nat>, u: string, s: int)
    requires Growing(lengths, |list|)
    ensures Consistent(Run(Refetched(list, lengths)))
    ensures u in Run(Refetched(list, lengths)).current <==> CurrentAfter(false, FetchedPart(list, lengths), u)
    ensures LeftAt(Run(Refetched(list, lengths)), u, Since(false, s, FetchedPart(list, lengths), u))
  {
    if lengths != [] {
      var front, all := lengths[..|lengths| - 1], FetchedPart(list, lengths);
      RefetchesLeftAt(list, front, u, s);
      FetchLeavesAt(Run(Refetched(list, front)), FetchedPart(list, front), all, u, s);
      RunContinues(Refetched(list, front), all);
    }
  }

  lemma OrderedConcat(a: seq<TimedChange>, b: seq<TimedChange>)
    requires Ordered(a + b)
    ensures forall c, d :: c in a && d in b ==> c.at <= d.at
  {
    forall c, d | c in a && d in b
      ensures c.at <= d.at
    {
      var i :| 0 <= i < |a| && a[i] == c;
      var j :| 0 <= j < |b| && b[j] == d;
      assert (a + b)[i] == c && (a + b)[|a| + j] == d;
    }
  }

  lemma NotTooEarly(h: History, a: seq<TimedChange>, b: seq<TimedChange>, c: TimedChange, s: int)
    requires Ordered(a + b) && c in a + b && s <= c.at && (a != [] ==> s == a[0].at && s <= c.at)
    requires Repeatable(a) && Contradicts(h, c)
    requires c.change.username in h.current <==> CurrentAfter(false, a, c.change.username)
    ensures Since(false, s, a, c.change.username) <= c.at
  {
    if c in a {
      RunCounts(a, c.change.username);
    } else {
      OrderedConcat(a, b);
      SinceIsTimely(false, s, a, c.change.username, c.at);
    }
  }

  lemma NothingTooEarly(h: History, a: seq<TimedChange>, all: seq<TimedChange>, s: int, since: string -> int)
    requires Ordered(all) && (all != [] ==> s == all[0].at) && a <= all && Repeatable(a)
    requires forall u :: u in h.current <==> CurrentAfter(false, a, u)
    requires forall u :: since(u) == Since(false, s, a, u)
    ensures forall c :: c in all && Contradicts(h, c) ==> since(c.change.username) <= c.at
  {
    var b := all[|a|..];
    assert all == a + b;
    forall c | c in all && Contradicts(h, c)
      ensures since(c.change.username) <= c.at
    {
      NotTooEarly(h, a, b, c, s);
    }
  }

  lemma SinceOfFetched(h: History, a: seq<TimedChange>, all: seq<TimedChange>, s: int, u: string)
    requires a <= all && (u in h.current <==> CurrentAfter(false, a, u))
    ensures Since(u in h.current, Since(false, s, a, u), all, u) == Since(false, s, all, u)
  {
    assert all == a + all[|a|..];
    SinceReplayed(s, a, all[|a|..], u);
  }

  /** One more fetch, when nothing in what was fetched before comes too early. */
  lemma FetchStaysWellFormed(h: History, a: seq<TimedChange>, all: seq<TimedChange>, s: int)
    requires Consistent(h) && WellFormed(h) && Ordered(all) && (all != [] ==> s == all[0].at)
    requires a <= all && Repeatable(a)
    requires forall u :: u in h.current <==> CurrentAfter(false, a, u)
    requires forall u :: Bounded(h, u, Since(false, s, a, u))
    ensures WellFormed(Continue(h, all)) && forall u :: Bounded(Continue(h, all), u, Since(false, s, all, u))
  {
    var since := (u: string) => Since(false, s, a, u);
    NothingTooEarly(h, a, all, s, since);
    StaysWellFormed(h, since, all);
    forall u
      ensures Bounded(Continue(h, all), u, Since(false, s, all, u))
    {
      SinceOfFetched(h, a, all, s, u);
      assert Bounded(Continue(h, all), u, Since(u in h.current, since(u), all, u));
    }
  }

  ghost predicate AllRepeatable(list: seq<TimedChange>, lengths: seq<nat>)
    requires Growing(lengths, |list|)
  {
    forall j :: 0 <= j < |lengths| - 1 ==> Repeatable(list[..lengths[j]])
  }

  /** The users are where the part of the list that has been fetched leaves them. */
  lemma RefetchedState(list: seq<TimedChange>, lengths: seq<nat>)
    requires Growing(lengths, |list|)
    ensures Consistent(Run(Refetched(list, lengths)))
    ensures forall u ::
              u in Run(Refetched(list, lengths)).current <==> CurrentAfter(false, FetchedPart(list, lengths), u)
  {
    ReachableIsConsistent(Refetched(list, lengths));
    forall u
      ensures u in Run(Refetched(list, lengths)).current <==> CurrentAfter(false, FetchedPart(list, lengths), u)
    {
      RefetchesLeftAt(list, lengths, u, 0);
    }
  }

  lemma LastRepeatable(list: seq<TimedChange>, lengths: seq<nat>)
    requires Growing(lengths, |list|) && AllRepeatable(list, lengths) && lengths != []
    ensures var front := lengths[..|lengths| - 1];
            Growing(front, |list|) && AllRepeatable(list, front) && Repeatable(FetchedPart(list, front))
  {
    var front := lengths[..|lengths| - 1];
    if front != [] {
      assert lengths[|front| - 1] == front[|front| - 1];
    }
  }

  lemma {:induction false} RefetchesStayWellFormed(list: seq<TimedChange>, lengths: seq<nat>, s: int)
    requires Ordered(list) && Growing(lengths, |list|) && AllRepeatable(list, lengths)
    requires list != [] ==> s == list[0].at
    ensures WellFormed(Run(Refetched(list, lengths)))
    ensures forall u :: Bounded(Run(Refetched(list, lengths)), u, Since(false, s, FetchedPart(list, lengths), u))
  {
    if lengths != [] {
      var front := lengths[..|lengths| - 1];
      LastRepeatable(list, lengths);
      RefetchesStayWellFormed(list, front, s);
      RefetchedState(list, front);
      var all := FetchedPart(list, lengths);
      assert Ordered(all) && FetchedPart(list, front) <= all;
      FetchStaysWellFormed(Run(Refetched(list, front)), FetchedPart(list, front), all, s);
      RunContinues(Refetched(list, front), all);
    }
  }

  lemma ContradictedHasOpened(a: seq<TimedChange>, c: TimedChange)
    requires c in a && Contradicts(Run(a), c)
    ensures Openings(false, a, c.change.username) >= 1
  {
    var u := c.change.username;
    RunCounts(a, u);
    if c.change.action.Assigned? {
      assert c.change == Change(u, Assigned);
      AssignmentOpens(a, u);
    } else {
      CurrentHasOpened(a, u);
    }
  }

  lemma RefetchHasOpened(list: seq<TimedChange>, lengths: seq<nat>, u: string)
    requires Growing(lengths, |list|) && lengths != []
    ensures CountOf(Run(Refetched(list, lengths)).entries, u) >= Openings(false, FetchedPart(list, lengths), u)
  {
    RunCounts(Refetched(list, lengths), u);
    MoreOpenings(Refetched(list, lengths[..|lengths| - 1]), FetchedPart(list, lengths), u);
  }

  lemma SameContradictions(list: seq<TimedChange>, lengths: seq<nat>, c: TimedChange)
    requires Growing(lengths, |list|)
    ensures Contradicts(Run(Refetched(list, lengths)), c) == Contradicts(Run(FetchedPart(list, lengths)), c)
  {
    RefetchesLeftAt(list, lengths, c.change.username, 0);
    RunCounts(FetchedPart(list, lengths), c.change.username);
  }

  lemma {:induction false} EarlyRefetchSpoils(list: seq<TimedChange>, lengths: seq<nat>, j: nat, k: nat)
    requires Ordered(list) && Growing(lengths, |list|) && j + 1 < |lengths| && k < lengths[j]
    requires var a := list[..lengths[j]]; Contradicts(Run(a), a[k]) && a[k].at < SinceOf(a, a[k].change.username)
    ensures !WellFormed(Run(Refetched(list, lengths)))
  {
    var front, a, c := lengths[..j + 1], list[..lengths[j]], list[k];
    assert FetchedPart(list, front) == a && a[k] == c;
    SameContradictions(list, front, c);
    RefetchesAreFaithful(list, front, c.change.username);
    RefetchesLeftAt(list, front, c.change.username, a[0].at);
    ContradictedHasOpened(a, c);
    RefetchHasOpened(list, front, c.change.username);
    var rest := RefetchedFrom(list, lengths, j);
    EarlyReplaySpoils(Refetched(list, front), a, k, rest, SinceOf(a, c.change.username));
  }

  lemma {:induction false} UnrepeatableSpoils(list: seq<TimedChange>, lengths: seq<nat>, j: nat)
    requires Ordered(list) && Growing(lengths, |list|) && j + 1 < |lengths| && !Repeatable(list[..lengths[j]])
    ensures !WellFormed(Run(Refetched(list, lengths)))
  {
    var a := list[..lengths[j]];
    var c :| c in a && Contradicts(Run(a), c) && c.at < SinceOf(a, c.change.username);
    var k :| 0 <= k < |a| && a[k] == c;
    EarlyRefetchSpoils(list, lengths, j, k);
  }

  /**
   Re-fetching keeps every period in order exactly when, in each list that was fetched again, no change
   ends the state its user was left in before that state was reached.
   */
  lemma {:induction false} RefetchStaysWellFormedIff(list: seq<TimedChange>, lengths: seq<nat>)
    requires Ordered(list) && Growing(lengths, |list|)
    ensures WellFormed(Run(Refetched(list, lengths))) <==>
            forall j :: 0 <= j < |lengths| - 1 ==> Repeatable(list[..lengths[j]])
  {
    if AllRepeatable(list, lengths) {
      RefetchesStayWellFormed(list, lengths, if list == [] then 0 else list[0].at);
    } else {
      var j :| 0 <= j < |lengths| - 1 && !Repeatable(list[..lengths[j]]);
      UnrepeatableSpoils(list, lengths, j);
    }
  }

  // ---- The same list again and again ----

  /** The list fetched once, and then n times more. */
  function Again(cs: seq<TimedChange>, n: nat): seq<TimedChange> {
    if n == 0 then cs else Again(cs, n - 1) + cs
  }

  /** What the changes that move u in or out add to u's time up to now. */
  function Signed(before: bool, cs: seq<TimedChange>, u: string, now: int): int {
    if cs == [] then 0
    else
      var front, last := cs[..|cs| - 1], cs[|cs| - 1];
      Signed(before, front, u, now) +
      if !Flips(CurrentAfter(before, front, u), last, u) then 0
      else if last.change.action.Assigned? then now - last.at else last.at - now
  }

  lemma {:induction false} SignedConcat(before: bool, a: seq<TimedChange>, b: seq<TimedChange>, u: string, now: int)
    ensures Signed(before, a + b, u, now) == Signed(before, a, u, now) + Signed(CurrentAfter(before, a, u), b, u, now)
  {
    if b == [] {
      assert a + b == a;
    } else {
      var front := b[..|b| - 1];
      assert (a + b)[..|a + b| - 1] == a + front;
      SignedConcat(before, a, front, u, now);
      OpeningsConcat(before, a, front, u);
    }
  }

  lemma OnceMore(cs: seq<TimedChange>, before: seq<TimedChange>, u: string, now: int)
    requires CurrentAfter(false, before, u) == CurrentAfter(false, cs, u)
    ensures CurrentAfter(false, before + cs, u) == CurrentAfter(false, cs, u)
    ensures Signed(false, before + cs, u, now) ==
            Signed(false, before, u, now) + Signed(CurrentAfter(false, cs, u), cs, u, now)
  {
    SignedConcat(false, before, cs, u, now);
    OpeningsConcat(false, before, cs, u);
    ReachedAgain(cs, u);
  }

  lemma NextMultiple(n: nat, x: int)
    requires n > 0
    ensures n * x == (n - 1) * x + x
  {
  }

  lemma {:induction false} SignedAgain(cs: seq<TimedChange>, n: nat, u: string, now: int)
    ensures CurrentAfter(false, Again(cs, n), u) == CurrentAfter(false, cs, u)
    ensures Signed(false, Again(cs, n), u, now) ==
            Signed(false, cs, u, now) + n * Signed(CurrentAfter(false, cs, u), cs, u, now)
  {
    if n > 0 {
      SignedAgain(cs, n - 1, u, now);
      OnceMore(cs, Again(cs, n - 1), u, now);
      NextMultiple(n, Signed(CurrentAfter(false, cs, u), cs, u, now));
    }
  }

  // ---- Examples ----

  function On(u: string, at: int): TimedChange {
    TimedChange(Change(u, Assigned), at)
  }

  function Off(u: string, at: int): TimedChange {
    TimedChange(Change(u, Unassigned), at)
  }

  ghost predicate AllClosed(es: seq<Entry>) {
    forall i :: 0 <= i < |es| ==> es[i].unassignedAt.Some?
  }

  function Open(es: seq<Entry>, u: string, at: int): History {
    History([u], es + [Entry(u, at, None, None)])
  }

  function Closed(es: seq<Entry>, u: string, at: int, end: int): History {
    History([], es + [Close(Entry(u, at, None, None), end)])
  }

  lemma OnlyUser(es: seq<Entry>, u: string, s: int, at: int)
    requires AllClosed(es)
    ensures Assign(History([], es), u, at) == Open(es, u, at)
    ensures Assign(Open(es, u, s), u, at) == Open(es, u, s)
    ensures Unassign(Open(es, u, s), u, at) == Closed(es, u, s, at)
  {
    OpenIndexIs(es, u, |es|);
    OpenIndexIs(es + [Entry(u, s, None, None)], u, |es|);
    WithoutSnoc([], u, u);
    assert [] + [u] == [u];
  }

  lemma ContinueThree(h: History, a: TimedChange, b: TimedChange, c: TimedChange)
    ensures Continue(h, [a, b, c]) == Apply(Apply(Apply(h, a.change, a.at), b.change, b.at), c.change, c.at)
  {
    ContinueSnoc(h, [], a);
    ContinueSnoc(h, [a], b);
    ContinueSnoc(h, [a, b], c);
    assert [] + [a] == [a] && [a] + [b] == [a, b] && [a, b] + [c] == [a, b, c];
  }

  /** Assigned at a, unassigned at b and assigned again at c. */
  function Reassigned(u: string, a: int, b: int, c: int): seq<TimedChange> {
    [On(u, a), Off(u, b), On(u, c)]
  }

  lemma Pass(es: seq<Entry>, u: string, s: int, a: int, b: int, c: int)
    requires AllClosed(es)
    ensures Continue(History([], es), Reassigned(u, a, b, c)) == Open(Closed(es, u, a, b).entries, u, c)
    ensures Continue(Open(es, u, s), Reassigned(u, a, b, c)) == Open(Closed(es, u, s, b).entries, u, c)
  {
    OnlyUser(es, u, a, a);
    OnlyUser(es, u, a, b);
    OnlyUser(es, u, s, a);
    OnlyUser(es, u, s, b);
    OnlyUser(Closed(es, u, a, b).entries, u, c, c);
    OnlyUser(Closed(es, u, s, b).entries, u, c, c);
    ContinueThree(History([], es), On(u, a), Off(u, b), On(u, c));
    ContinueThree(Open(es, u, s), On(u, a), Off(u, b), On(u, c));
  }

  lemma ReplayOfReassigned(u: string, a: int, b: int, c: int)
    ensures var cs := Reassigned(u, a, b, c);
            Run(cs + cs) == Open(Closed(Closed([], u, a, b).entries, u, c, b).entries, u, c)
  {
    var cs := Reassigned(u, a, b, c);
    RunIsContinue(cs);
    RunContinues(cs, cs);
    Pass([], u, a, a, b, c);
    Pass(Closed([], u, a, b).entries, u, c, a, b, c);
  }

  /** Reassigned, and fetched once more: the old unassignment closes the open period before it started. */
  lemma ReplayClosesBeforeItOpens(u: string, a: int, b: int, c: int)
    requires a <= b < c
    ensures var cs := Reassigned(u, a, b, c);
            && Ordered(cs) && !WellFormed(Run(cs + cs))
            && Entry(u, c, Some(b), Some(-((c - b) / 1000))) in Run(cs + cs).entries
  {
    ReplayOfReassigned(u, a, b, c);
    var es := Open(Closed(Closed([], u, a, b).entries, u, c, b).entries, u, c).entries;
    assert es[1] == Close(Entry(u, c, None, None), b) && es[1] in es;
  }

  lemma PairOnce(es: seq<Entry>, u: string, a: int, b: int)
    requires AllClosed(es)
    ensures Continue(History([], es), [On(u, a), Off(u, b)]) == Closed(es, u, a, b)
  {
    ContinueSnoc(History([], es), [], On(u, a));
    ContinueSnoc(History([], es), [On(u, a)], Off(u, b));
    assert [] + [On(u, a)] == [On(u, a)] && [On(u, a)] + [Off(u, b)] == [On(u, a), Off(u, b)];
    OnlyUser(es, u, a, a);
    OnlyUser(es, u, a, b);
  }

  lemma PairTwice(u: string, a: int, b: int, e: Entry)
    requires e == Close(Entry(u, a, None, None), b)
    ensures Run([On(u, a), Off(u, b)] + [On(u, a), Off(u, b)]) == History([], [e] + [e])
  {
    var cs := [On(u, a), Off(u, b)];
    RunIsContinue(cs);
    RunContinues(cs, cs);
    PairOnce([], u, a, b);
    assert [] + [e] == [e];
    PairOnce([e], u, a, b);
  }

  lemma TwiceIsWellFormedIff(e: Entry)
    requires e.unassignedAt.Some? && e.assignedAt <= e.unassignedAt.value
    ensures WellFormed(History([], [e] + [e])) <==> e.assignedAt == e.unassignedAt.value
  {
    var es := [e] + [e];
    assert es[0].username == es[1].username;
  }

  /** An assignment that is over is recorded a second time, and the two periods overlap unless they are empty. */
  lemma ReplayedPairIsRecordedTwice(u: string, a: int, b: int)
    requires a <= b
    ensures var cs, e := [On(u, a), Off(u, b)], Entry(u, a, Some(b), Some((b - a) / 1000));
            Run(cs + cs).entries == [e] + [e] && (WellFormed(Run(cs + cs)) <==> a == b)
  {
    var e := Close(Entry(u, a, None, None), b);
    PairTwice(u, a, b, e);
    TwiceIsWellFormedIff(e);
  }
}
