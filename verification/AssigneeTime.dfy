/**
 Hours per assignee against the time the user was assigned, for stored assignment histories whose
 periods follow one another.
 */
module AssigneeTime {
  import opened Options
  import opened Labels
  import opened Assignees
  import opened Silver
  import opened Instants
  import opened AssigneeReplay
  import opened AssigneeStreams
  import opened Folds
  import opened AssigneeHours

  // ---- The periods the view makes of a history ----

  lemma {:induction false} PeriodsStartAfter(es: seq<Entry>, u: string, events: seq<IssueEvent>, now: int, t: int)
    requires forall e :: e in es && e.username == u ==> t <= e.assignedAt
    ensures forall i :: 0 <= i < |PeriodsOf(es, u, events, now)| ==> t <= PeriodsOf(es, u, events, now)[i].from
  {
    if es != [] {
      assert es[0] in es && forall e :: e in es[1..] ==> e in es;
      PeriodsStartAfter(es[1..], u, events, now, t);
    }
  }

  lemma TailFollows(es: seq<Entry>, now: int)
    requires es != [] && Sequential(es) && NotAfter(History([], es), now)
    ensures es[0] in es && es == [es[0]] + es[1..] && forall e :: e in es[1..] ==> e in es
    ensures Sequential(es[1..]) && NotAfter(History([], es[1..]), now)
  {
  }

  lemma LaterPeriodsFollow(es: seq<Entry>, u: string, events: seq<IssueEvent>, now: int)
    requires es != [] && Sequential(es) && NotAfter(History([], es), now) && es[0].username == u
    ensures es[0].assignedAt <= PeriodEnd(es[0], events, now)
    ensures forall e :: e in es[1..] && e.username == u ==> PeriodEnd(es[0], events, now) <= e.assignedAt
  {
    assert es[0] in es;
  }

  lemma {:induction false} PeriodsOfHistoryAreDisjoint(es: seq<Entry>, u: string, events: seq<IssueEvent>, now: int)
    requires Sequential(es) && NotAfter(History([], es), now)
    ensures Disjoint(PeriodsOf(es, u, events, now))
  {
    if es != [] {
      var e, rest := es[0], es[1..];
      TailFollows(es, now);
      PeriodsOfHistoryAreDisjoint(rest, u, events, now);
      if e.username == u {
        LaterPeriodsFollow(es, u, events, now);
        PeriodsStartAfter(rest, u, events, now, PeriodEnd(e, events, now));
      }
    }
  }

  // ---- Assigned time ----

  /** For how long u has been assigned up to now, by the history alone. */
  function AssignedMillis(es: seq<Entry>, u: string, now: int): int {
    if es == [] then 0
    else
      var e := es[0];
      (if e.username == u then (if e.unassignedAt.Some? then e.unassignedAt.value else now) - e.assignedAt else 0) +
      AssignedMillis(es[1..], u, now)
  }

  /** While u is still assigned, the issue is not DONE at any instant between the assignment and now. */
  ghost predicate NotDoneWhileOpen(e: Entry, events: seq<IssueEvent>, now: int) {
    e.unassignedAt.None? ==> forall d :: d in events && d.state == DONE ==> !(e.assignedAt < d.at < now)
  }

  lemma PeriodWithinAssigned(e: Entry, events: seq<IssueEvent>, now: int)
    requires e.assignedAt <= now && forall d :: d in events ==> d.at <= now
    ensures var end := if e.unassignedAt.Some? then e.unassignedAt.value else now;
            PeriodEnd(e, events, now) <= end && (PeriodEnd(e, events, now) == end <==> NotDoneWhileOpen(e, events, now))
  {
    FirstDoneAfterIsEarliest(events, e.assignedAt);
  }

  lemma {:induction false} SumLengthsCons(p: Period, ps: seq<Period>)
    ensures SumLengths([p] + ps) == p.to - p.from + SumLengths(ps)
  {
    if ps == [] {
      assert [p] + ps == [p] && [p][..0] == [];
    } else {
      assert ([p] + ps)[..|ps|] == [p] + ps[..|ps| - 1];
      SumLengthsCons(p, ps[..|ps| - 1]);
    }
  }

  lemma {:induction false} PeriodsWithinAssigned(es: seq<Entry>, u: string, events: seq<IssueEvent>, now: int)
    requires NotAfter(History([], es), now) && forall d :: d in events ==> d.at <= now
    ensures SumLengths(PeriodsOf(es, u, events, now)) <= AssignedMillis(es, u, now)
    ensures SumLengths(PeriodsOf(es, u, events, now)) == AssignedMillis(es, u, now) <==>
            forall e :: e in es && e.username == u ==> NotDoneWhileOpen(e, events, now)
  {
    if es != [] {
      var e, rest := es[0], es[1..];
      assert es == [e] + rest && e in es && forall f :: f in rest ==> f in es;
      PeriodsWithinAssigned(rest, u, events, now);
      if e.username == u {
        PeriodWithinAssigned(e, events, now);
        SumLengthsCons(Period(e.assignedAt, PeriodEnd(e, events, now)), PeriodsOf(rest, u, events, now));
      } else {
        assert [] + PeriodsOf(rest, u, events, now) == PeriodsOf(rest, u, events, now);
      }
    }
  }

  /** Nothing of the period comes before its first event. */
  predicate StartsWithEvent(p: Period, events: seq<IssueEvent>) {
    FirstInside(p, events).None? || FirstInside(p, events).value == p.from
  }

  lemma {:induction false} SharesWithinLengths(ps: seq<Period>, events: seq<IssueEvent>)
    requires forall i :: 0 <= i < |ps| ==> ps[i].from <= ps[i].to
    ensures 0 <= SumShares(ps, events) <= SumLengths(ps)
    ensures SumShares(ps, events) == SumLengths(ps) <==> forall i :: 0 <= i < |ps| ==> StartsWithEvent(ps[i], events)
  {
    if ps != [] {
      SharesWithinLengths(ps[..|ps| - 1], events);
      FirstInsideIsMinimum(ps[|ps| - 1], events);
    }
  }

  lemma ActiveHoursSplit(rows: seq<JoinRow>, ps: seq<Period>, events: seq<IssueEvent>)
    requires WindowOrder(rows, ps, events) && Disjoint(ps)
    ensures var dev := MillisIn(rows, 0, {Some(IN_PROGRESS)}, ps, events);
            var qa := MillisIn(rows, 0, {Some(QA_REVIEW)}, ps, events);
            var active := MillisIn(rows, 0, {Some(IN_PROGRESS), Some(QA_REVIEW)}, ps, events);
            active == dev + qa && 0 <= active <= TotalMillis(rows, 0, ps, events)
  {
    HoursSplitByState(rows, 0, {Some(IN_PROGRESS)}, {Some(QA_REVIEW)}, ps, events);
    assert {Some(IN_PROGRESS)} + {Some(QA_REVIEW)} == {Some(IN_PROGRESS), Some(QA_REVIEW)};
    HoursSplitByState(rows, 0, {Some(IN_PROGRESS), Some(QA_REVIEW)}, {}, ps, events);
  }

  /**
   For every history whose periods follow one another, with nothing after now: the hours of a user never
   exceed the time the user was assigned, and they reach it exactly when every period that holds an event
   starts with one and no open period has a DONE event between its start and now.
   */
  lemma HoursNeverExceedAssignment(es: seq<Entry>, u: string, events: seq<IssueEvent>, now: int, rows: seq<JoinRow>)
    requires Sequential(es) && NotAfter(History([], es), now) && forall d :: d in events ==> d.at <= now
    requires WindowOrder(rows, PeriodsOf(es, u, events, now), events)
    ensures var ps := PeriodsOf(es, u, events, now);
            var dev := MillisIn(rows, 0, {Some(IN_PROGRESS)}, ps, events);
            var qa := MillisIn(rows, 0, {Some(QA_REVIEW)}, ps, events);
            var active := MillisIn(rows, 0, {Some(IN_PROGRESS), Some(QA_REVIEW)}, ps, events);
            var total, due := TotalMillis(rows, 0, ps, events), AssignedMillis(es, u, now);
            && active == dev + qa && 0 <= active <= total <= due
            && (total == due <==>
                  && (forall i :: 0 <= i < |ps| ==> StartsWithEvent(ps[i], events))
                  && (forall e :: e in es && e.username == u ==> NotDoneWhileOpen(e, events, now)))
  {
    var ps := PeriodsOf(es, u, events, now);
    PeriodsOfHistoryAreDisjoint(es, u, events, now);
    HoursAreSharesOfPeriods(rows, ps, events);
    SharesWithinLengths(ps, events);
    PeriodsWithinAssigned(es, u, events, now);
    ActiveHoursSplit(rows, ps, events);
  }

  // ---- Assigned time is counted in instants ----

  ghost function AssignedInstants(cs: seq<TimedChange>, u: string): int -> bool {
    t => AssignedAt(cs, u, t)
  }

  ghost function EntryInstants(e: Entry, u: string): int -> bool {
    t => Covers(e, u, t)
  }

  ghost function CoveredInstants(es: seq<Entry>, u: string): int -> bool {
    t => Covered(History([], es), u, t)
  }

  lemma EntryLasts(e: Entry, u: string, start: int, now: int)
    requires e.username == u && start <= e.assignedAt <= now
    requires e.unassignedAt.Some? ==> e.assignedAt <= e.unassignedAt.value <= now
    ensures CountIf(EntryInstants(e, u), start, now) ==
            (if e.unassignedAt.Some? then e.unassignedAt.value else now) - e.assignedAt
  {
    var f, end := EntryInstants(e, u), if e.unassignedAt.Some? then e.unassignedAt.value else now;
    CountsNone(f, start, e.assignedAt);
    CountsAll(f, e.assignedAt, end);
    CountsNone(f, end, now);
    CountSplits(f, start, e.assignedAt, now);
    CountSplits(f, e.assignedAt, end, now);
  }

  lemma CoveredCons(e: Entry, rest: seq<Entry>, u: string, t: int)
    ensures Covered(History([], [e] + rest), u, t) <==> Covers(e, u, t) || Covered(History([], rest), u, t)
  {
    var es := [e] + rest;
    if Covers(e, u, t) {
      assert Covers(es[0], u, t);
    }
    if Covered(History([], rest), u, t) {
      var i :| 0 <= i < |rest| && Covers(rest[i], u, t);
      assert Covers(es[i + 1], u, t);
    }
  }

  lemma {:induction false} DisjointSetsAdd(f: int -> bool, g: int -> bool, h: int -> bool, a: int, b: int)
    requires forall t :: a <= t < b ==> (h(t) <==> f(t) || g(t)) && !(f(t) && g(t))
    ensures CountIf(h, a, b) == CountIf(f, a, b) + CountIf(g, a, b)
    decreases b - a
  {
    if a < b {
      DisjointSetsAdd(f, g, h, a, b - 1);
    }
  }

  lemma FirstEntryStandsAlone(e: Entry, rest: seq<Entry>, u: string, t: int)
    requires Sequential([e] + rest)
    ensures !(Covers(e, u, t) && Covered(History([], rest), u, t))
  {
    if i :| 0 <= i < |rest| && Covers(rest[i], u, t) {
      var es := [e] + rest;
      assert es[0] == e && es[i + 1] == rest[i];
    }
  }

  lemma FirstEntryAdds(e: Entry, rest: seq<Entry>, u: string, start: int, now: int)
    requires Sequential([e] + rest)
    ensures CountIf(CoveredInstants([e] + rest, u), start, now) ==
            CountIf(EntryInstants(e, u), start, now) + CountIf(CoveredInstants(rest, u), start, now)
  {
    forall t
      ensures CoveredInstants([e] + rest, u)(t) <==> EntryInstants(e, u)(t) || CoveredInstants(rest, u)(t)
      ensures !(EntryInstants(e, u)(t) && CoveredInstants(rest, u)(t))
    {
      CoveredCons(e, rest, u, t);
      FirstEntryStandsAlone(e, rest, u, t);
    }
    DisjointSetsAdd(EntryInstants(e, u), CoveredInstants(rest, u), CoveredInstants([e] + rest, u), start, now);
  }

  lemma {:induction false} PeriodsCountInstants(es: seq<Entry>, u: string, start: int, now: int)
    requires Sequential(es) && NotAfter(History([], es), now) && forall e :: e in es ==> start <= e.assignedAt
    ensures AssignedMillis(es, u, now) == CountIf(CoveredInstants(es, u), start, now)
  {
    if es == [] {
      CountsNone(CoveredInstants(es, u), start, now);
    } else {
      var e, rest := es[0], es[1..];
      TailFollows(es, now);
      PeriodsCountInstants(rest, u, start, now);
      FirstEntryAdds(e, rest, u, start, now);
      if e.username == u {
        EntryLasts(e, u, start, now);
      } else {
        CountsNone(EntryInstants(e, u), start, now);
      }
    }
  }

  ghost predicate IsTimeOf(t: int, cs: seq<TimedChange>) {
    exists c :: c in cs && c.at == t
  }

  lemma TimesSnoc(t: int, cs: seq<TimedChange>, c: TimedChange)
    ensures IsTimeOf(t, cs + [c]) <==> IsTimeOf(t, cs) || t == c.at
  {
    assert c in cs + [c] && forall d :: d in cs ==> d in cs + [c];
  }

  /** Every time stored in a history is the time of a change. */
  lemma {:induction false} StoredTimes(cs: seq<TimedChange>)
    ensures forall e :: e in Run(cs).entries ==>
              IsTimeOf(e.assignedAt, cs) && (e.unassignedAt.Some? ==> IsTimeOf(e.unassignedAt.value, cs))
  {
    if cs != [] {
      var front, last := cs[..|cs| - 1], cs[|cs| - 1];
      StoredTimes(front);
      assert cs == front + [last];
      forall e | e in Run(cs).entries
        ensures IsTimeOf(e.assignedAt, cs) && (e.unassignedAt.Some? ==> IsTimeOf(e.unassignedAt.value, cs))
      {
        TimesSnoc(e.assignedAt, front, last);
        if e.unassignedAt.Some? {
          TimesSnoc(e.unassignedAt.value, front, last);
        }
      }
    }
  }

  lemma WellFormedIsNotAfter(cs: seq<TimedChange>, start: int, now: int)
    requires WellFormed(Run(cs)) && forall c :: c in cs ==> start <= c.at <= now
    ensures var es := Run(cs).entries;
            Sequential(es) && NotAfter(History([], es), now) && forall e :: e in es ==> start <= e.assignedAt
  {
    StoredTimes(cs);
    forall e | e in Run(cs).entries
      ensures start <= e.assignedAt <= now
      ensures e.unassignedAt.Some? ==> e.assignedAt <= e.unassignedAt.value <= now
    {
      var c :| c in cs && c.at == e.assignedAt;
      if e.unassignedAt.Some? {
        var d :| d in cs && d.at == e.unassignedAt.value;
      }
    }
  }

  /** A well-formed history that covers what the changes say has stored the number of instants of assignment. */
  lemma StoredTimeIsAssignedTime(stored: seq<TimedChange>, cs: seq<TimedChange>, u: string, start: int, now: int)
    requires WellFormed(Run(stored)) && forall c :: c in stored ==> start <= c.at <= now
    requires forall t :: Covered(Run(stored), u, t) <==> AssignedAt(cs, u, t)
    ensures AssignedMillis(Run(stored).entries, u, now) == CountIf(AssignedInstants(cs, u), start, now)
  {
    var es := Run(stored).entries;
    WellFormedIsNotAfter(stored, start, now);
    PeriodsCountInstants(es, u, start, now);
    forall t
      ensures CoveredInstants(es, u)(t) == AssignedInstants(cs, u)(t)
    {
      assert Covered(History([], es), u, t) <==> Covered(Run(stored), u, t);
    }
    CountAgrees(CoveredInstants(es, u), AssignedInstants(cs, u), start, now);
  }

  /**
   For changes in time order the assigned time of a user is the number of instants up to now at which the
   last change says that the user is assigned.
   */
  lemma AssignedMillisIsAssignedTime(cs: seq<TimedChange>, u: string, start: int, now: int)
    requires Ordered(cs) && forall c :: c in cs ==> start <= c.at <= now
    ensures AssignedMillis(Run(cs).entries, u, now) == CountIf(AssignedInstants(cs, u), start, now)
    ensures Sequential(Run(cs).entries) && NotAfter(History([], Run(cs).entries), now)
  {
    PeriodsDenoteAssignments(cs, now);
    assert NotAfter(History([], Run(cs).entries), now);
    StoredTimeIsAssignedTime(cs, cs, u, start, now);
  }

  /**
   The hours of a user over what a stream leaves in Silver, when the changes of the issue are a list fetched
   again and again and every part fetched again is repeatable: they never exceed the time during which the
   notes say that the user is assigned, and reach it exactly when no period starts before its first event or
   is cut by a DONE event.
   */
  lemma {:induction false} HoursOfStream(
    env: Env, raws: seq<RawEvent>, k: IssueKey, cs: seq<TimedChange>, ns: seq<nat>, u: string,
    events: seq<IssueEvent>, start: int, now: int, rows: seq<JoinRow>)
    requires Growing(ns, |cs|) && ns != [] && ChangesFor(env, raws, k) == Refetched(cs, ns) && Ordered(cs)
    requires forall j :: 0 <= j < |ns| - 1 ==> Repeatable(cs[..ns[j]])
    requires forall c :: c in cs ==> start <= c.at <= now
    requires forall d :: d in events ==> d.at <= now
    requires var es := StoredHistory(Fold(Stepper(env), EMPTY_TABLES, raws), k).entries;
             WindowOrder(rows, PeriodsOf(es, u, events, now), events)
    ensures var es := StoredHistory(Fold(Stepper(env), EMPTY_TABLES, raws), k).entries;
            var ps, total := PeriodsOf(es, u, events, now), TotalMillis(rows, 0, PeriodsOf(es, u, events, now), events);
            var due := CountIf(AssignedInstants(FetchedPart(cs, ns), u), start, now);
            && 0 <= total <= due
            && (total == due <==>
                  && (forall i :: 0 <= i < |ps| ==> StartsWithEvent(ps[i], events))
                  && (forall e :: e in es && e.username == u ==> NotDoneWhileOpen(e, events, now)))
  {
    var stored := ChangesFor(env, raws, k);
    RefetchedHistory(env, raws, k, cs, ns);
    RefetchedElements(cs, ns);
    StoredHistoryIsRun(env, raws, k);
    WellFormedIsNotAfter(stored, start, now);
    HoursNeverExceedAssignment(Run(stored).entries, u, events, now, rows);
    StoredTimeIsAssignedTime(stored, FetchedPart(cs, ns), u, start, now);
  }

  // ---- Hours without events ----

  /** The lengths of the periods that have a row from position i on. */
  ghost function LengthsFrom(rows: seq<JoinRow>, i: nat, ps: seq<Period>): nat -> int
    requires i <= |rows|
  {
    (p: nat) => if p < |ps| && JoinRow(p, None) in rows[i..] then ps[p].to - ps[p].from else 0
  }

  lemma {:induction false} TotalIsLengthsFrom(rows: seq<JoinRow>, i: nat, ps: seq<Period>)
    requires WindowOrder(rows, ps, []) && i <= |rows|
    ensures TotalMillis(rows, i, ps, []) == SumTo(LengthsFrom(rows, i, ps), |ps|)
    decreases |rows| - i
  {
    if i == |rows| {
      SumOfNothing(LengthsFrom(rows, i, ps), |ps|);
    } else {
      TotalIsLengthsFrom(rows, i + 1, ps);
      assert Joined(rows[i], ps, []) && rows[i..] == [rows[i]] + rows[i + 1..];
      assert forall j :: i < j < |rows| ==> rows[i] != rows[j];
      SumsDifferAt(LengthsFrom(rows, i, ps), LengthsFrom(rows, i + 1, ps), rows[i].period, |ps|);
    }
  }

  lemma {:induction false} SumOfLengths(f: nat -> int, ps: seq<Period>, n: nat)
    requires n <= |ps| && forall p: nat :: p < |ps| ==> f(p) == ps[p].to - ps[p].from
    ensures SumTo(f, n) == SumLengths(ps[..n])
  {
    if n > 0 {
      SumOfLengths(f, ps, n - 1);
      assert ps[..n][..n - 1] == ps[..n - 1];
    }
  }

  /** For any periods, in order or not, the hours of an issue without events are the lengths of the periods. */
  lemma HoursWithoutEvents(rows: seq<JoinRow>, ps: seq<Period>)
    requires WindowOrder(rows, ps, [])
    ensures TotalMillis(rows, 0, ps, []) == SumLengths(ps)
  {
    TotalIsLengthsFrom(rows, 0, ps);
    forall p: nat | p < |ps|
      ensures LengthsFrom(rows, 0, ps)(p) == ps[p].to - ps[p].from
    {
      assert Joined(JoinRow(p, None), ps, []) && rows[0..] == rows;
    }
    SumOfLengths(LengthsFrom(rows, 0, ps), ps, |ps|);
    assert ps[..|ps|] == ps;
  }

  lemma {:induction false} LengthsAreStoredTime(es: seq<Entry>, u: string, now: int)
    ensures SumLengths(PeriodsOf(es, u, [], now)) == AssignedMillis(es, u, now)
  {
    if es != [] {
      var e, rest := es[0], es[1..];
      LengthsAreStoredTime(rest, u, now);
      if e.username == u {
        SumLengthsCons(Period(e.assignedAt, PeriodEnd(e, [], now)), PeriodsOf(rest, u, [], now));
      } else {
        assert [] + PeriodsOf(rest, u, [], now) == PeriodsOf(rest, u, [], now);
      }
    }
  }

  lemma {:induction false} StoredTimeOfUpdate(es: seq<Entry>, k: nat, e: Entry, u: string, now: int)
    requires k < |es| && e.username == es[k].username
    ensures AssignedMillis(es[k := e], u, now) ==
            AssignedMillis(es, u, now) - AssignedMillis([es[k]], u, now) + AssignedMillis([e], u, now)
  {
    assert [es[k]][1..] == [] && [e][1..] == [];
    if k == 0 {
      assert es[0 := e][1..] == es[1..];
    } else {
      assert es[k := e][1..] == es[1..][k - 1 := e];
      StoredTimeOfUpdate(es[1..], k - 1, e, u, now);
    }
  }

  lemma {:induction false} StoredTimeOfSnoc(es: seq<Entry>, e: Entry, u: string, now: int)
    ensures AssignedMillis(es + [e], u, now) == AssignedMillis(es, u, now) + AssignedMillis([e], u, now)
  {
    if es == [] {
      assert es + [e] == [e];
    } else {
      assert (es + [e])[1..] == es[1..] + [e];
      StoredTimeOfSnoc(es[1..], e, u, now);
    }
  }

  lemma StoredTimeStep(h: History, c: TimedChange, u: string, now: int)
    requires Consistent(h)
    ensures AssignedMillis(Apply(h, c.change, c.at).entries, u, now) == AssignedMillis(h.entries, u, now) +
            if !Flips(u in h.current, c, u) then 0 else if c.change.action.Assigned? then now - c.at else c.at - now
  {
    var v, k := c.change.username, OpenIndex(h.entries, c.change.username);
    OpenIndexIfCurrent(h, v);
    StoredTimeOfSnoc(h.entries, Entry(v, c.at, None, None), u, now);
    assert [Entry(v, c.at, None, None)][1..] == [];
    if k < |h.entries| {
      StoredTimeOfUpdate(h.entries, k, Close(h.entries[k], c.at), u, now);
      assert [h.entries[k]][1..] == [] && [Close(h.entries[k], c.at)][1..] == [];
    }
  }

  /** The stored time of a history is what the changes add up to, whatever their order. */
  lemma {:induction false} StoredTimeIsSigned(cs: seq<TimedChange>, u: string, now: int)
    ensures AssignedMillis(Run(cs).entries, u, now) == Signed(false, cs, u, now)
  {
    if cs != [] {
      var front, last := cs[..|cs| - 1], cs[|cs| - 1];
      StoredTimeIsSigned(front, u, now);
      RunCounts(front, u);
      StoredTimeStep(Run(front), last, u, now);
    }
  }

  /** Instants at which u is not assigned, after u has been unassigned for the first time. */
  ghost function AbsentInstants(cs: seq<TimedChange>, u: string, start: int): int -> bool {
    t => !AssignedAt([On(u, start)] + cs, u, t)
  }

  lemma {:induction false} Complement(f: int -> bool, g: int -> bool, a: int, b: int)
    requires a <= b && forall t :: a <= t < b ==> g(t) == !f(t)
    ensures CountIf(f, a, b) + CountIf(g, a, b) == b - a
    decreases b - a
  {
    if a < b {
      Complement(f, g, a, b - 1);
    }
  }

  lemma AbsenceIsSigned(cs: seq<TimedChange>, u: string, start: int, now: int)
    requires Ordered(cs) && start <= now && forall c :: c in cs ==> start <= c.at <= now
    ensures Signed(true, cs, u, now) + CountIf(AbsentInstants(cs, u, start), start, now) == 0
  {
    var on := [On(u, start)];
    var all := on + cs;
    assert on[..0] == [];
    SignedConcat(false, on, cs, u, now);
    assert Ordered(all) && forall c :: c in all ==> start <= c.at <= now;
    StoredTimeIsSigned(all, u, now);
    AssignedMillisIsAssignedTime(all, u, start, now);
    Complement(AssignedInstants(all, u), AbsentInstants(cs, u, start), start, now);
  }

  lemma HoursAreSigned(cs: seq<TimedChange>, n: nat, u: string, now: int, rows: seq<JoinRow>)
    requires WindowOrder(rows, PeriodsOf(Run(Again(cs, n)).entries, u, [], now), [])
    ensures TotalMillis(rows, 0, PeriodsOf(Run(Again(cs, n)).entries, u, [], now), []) ==
            Signed(false, cs, u, now) + n * Signed(CurrentAfter(false, cs, u), cs, u, now)
  {
    HoursWithoutEvents(rows, PeriodsOf(Run(Again(cs, n)).entries, u, [], now));
    LengthsAreStoredTime(Run(Again(cs, n)).entries, u, now);
    StoredTimeIsSigned(Again(cs, n), u, now);
    SignedAgain(cs, n, u, now);
  }

  lemma TimesNegative(n: nat, a: int, b: int)
    requires a + b == 0
    ensures n * a == -(n * b)
  {
    assert n * a + n * b == n * (a + b);
  }

  /** The time of the user by the changes, and the user's absence since the first unassignment. */
  ghost function Due(cs: seq<TimedChange>, u: string, start: int, now: int): nat {
    CountIf(AssignedInstants(cs, u), start, now)
  }

  ghost function Absence(cs: seq<TimedChange>, u: string, start: int, now: int): nat {
    CountIf(AbsentInstants(cs, u, start), start, now)
  }

  /**
   What n further fetches make of the hours of an issue without events: a user who is not assigned any more
   gets the assigned time once more with each fetch, and one who still is loses with each fetch the time of
   absence since the first unassignment.
   */
  lemma HoursAfterRefetches(cs: seq<TimedChange>, n: nat, u: string, start: int, now: int, rows: seq<JoinRow>)
    requires Ordered(cs) && start <= now && forall c :: c in cs ==> start <= c.at <= now
    requires WindowOrder(rows, PeriodsOf(Run(Again(cs, n)).entries, u, [], now), [])
    ensures TotalMillis(rows, 0, PeriodsOf(Run(Again(cs, n)).entries, u, [], now), []) ==
            if u in Run(cs).current then Due(cs, u, start, now) - n * Absence(cs, u, start, now)
            else Due(cs, u, start, now) + n * Due(cs, u, start, now)
  {
    HoursAreSigned(cs, n, u, now, rows);
    StoredTimeIsSigned(cs, u, now);
    AssignedMillisIsAssignedTime(cs, u, start, now);
    RunCounts(cs, u);
    if u in Run(cs).current {
      AbsenceIsSigned(cs, u, start, now);
      TimesNegative(n, Signed(true, cs, u, now), Absence(cs, u, start, now));
    }
  }

  lemma ProductIsZero(n: nat, a: nat)
    ensures n * a == 0 <==> n == 0 || a == 0
  {
  }

  /** So the hours are right after further fetches exactly when there was nothing to repeat. */
  lemma HoursSurviveRefetchesIff(cs: seq<TimedChange>, n: nat, u: string, start: int, now: int, rows: seq<JoinRow>)
    requires Ordered(cs) && start <= now && forall c :: c in cs ==> start <= c.at <= now
    requires WindowOrder(rows, PeriodsOf(Run(Again(cs, n)).entries, u, [], now), [])
    ensures TotalMillis(rows, 0, PeriodsOf(Run(Again(cs, n)).entries, u, [], now), []) == Due(cs, u, start, now) <==>
            n == 0 || (if u in Run(cs).current then Absence(cs, u, start, now) else Due(cs, u, start, now)) == 0
  {
    HoursAfterRefetches(cs, n, u, start, now, rows);
    ProductIsZero(n, if u in Run(cs).current then Absence(cs, u, start, now) else Due(cs, u, start, now));
  }
}
