/** What the view reports of a user after given streams of notes and label events of one issue. */
module AssigneeExamples {
  import opened Options
  import opened Labels
  import opened Assignees
  import opened NoteParser
  import opened Silver
  import opened Locality
  import opened EventTimelines
  import opened Timelines
  import opened AssigneeReplay
  import opened AssigneeStreams
  import opened AssigneeHours
  import opened AssigneeTime
  import opened Scenarios

  // ---- Where the hours fall short ----

  const MINUTE := 60 * 1000

  const HOUR := 60 * MINUTE

  /** Somebody is assigned at 0 and never unassigned. */
  function Holder(u: string): seq<TimedChange> {
    [On(u, 0)]
  }

  /** The events the example speaks of, and then the note about the holder. */
  function HolderStream(u: string, events: seq<IssueEvent>): seq<RawEvent> {
    RawsOf(events) + NotesOf(Holder(u))
  }

  /** The periods of u that the view makes of what a stream left. */
  function PeriodsAfter(raws: seq<RawEvent>, u: string, now: int): seq<Period> {
    PeriodsOf(StoredHistory(TablesOf(raws), ISSUE).entries, u, EventsFor(TablesOf(raws).events, ISSUE), now)
  }

  /** The view over what a stream left, seen in some order, gives u these hours. */
  ghost predicate Reports(raws: seq<RawEvent>, u: string, now: int, rows: seq<JoinRow>, total: int) {
    var events := EventsFor(TablesOf(raws).events, ISSUE);
    && WindowOrder(rows, PeriodsAfter(raws, u, now), events)
    && TotalMillis(rows, 0, PeriodsAfter(raws, u, now), events) == total
  }

  function HolderPeriod(u: string, events: seq<IssueEvent>, now: int): Period {
    Period(0, PeriodEnd(Entry(u, 0, None, None), events, now))
  }

  lemma HolderIsRun(u: string, events: seq<IssueEvent>, now: int)
    ensures Run(Holder(u)).entries == [Entry(u, 0, None, None)]
    ensures AssignedMillis(Run(Holder(u)).entries, u, now) == now
    ensures PeriodsOf(Run(Holder(u)).entries, u, events, now) == [HolderPeriod(u, events, now)]
  {
    assert Holder(u)[..0] == [];
    var es := [Entry(u, 0, None, None)];
    assert Run(Holder(u)).entries == es && es[1..] == [];
  }

  lemma HolderIsDue(u: string, now: int)
    requires now >= 0
    ensures Due(Holder(u), u, 0, now) == now
  {
    HolderIsRun(u, [], now);
    AssignedMillisIsAssignedTime(Holder(u), u, 0, now);
  }

  /** What one fetch of these events and the note about the holder leaves. */
  lemma {:induction false} HolderLeaves(u: string, events: seq<IssueEvent>, now: int)
    requires Plain(u) && Example(events) && Incremental(events)
    ensures Leaves(HolderStream(u, events), events, Holder(u))
    ensures PeriodsAfter(HolderStream(u, events), u, now) == [HolderPeriod(u, events, now)]
  {
    FetchLeaves(events, Holder(u));
    HolderIsRun(u, events, now);
  }

  lemma OnePeriodHours(p: Period, events: seq<IssueEvent>) returns (rows: seq<JoinRow>)
    requires p.from <= p.to
    ensures WindowOrder(rows, [p], events) && TotalMillis(rows, 0, [p], events) == Share(p, events)
  {
    rows := WindowOrderExists([p], events);
    assert [p][..0] == [];
    HoursAreSharesOfPeriods(rows, [p], events);
  }

  lemma {:induction false} HolderHours(u: string, events: seq<IssueEvent>, now: int) returns (rows: seq<JoinRow>)
    requires Plain(u) && Example(events) && Incremental(events)
    requires 0 <= PeriodEnd(Entry(u, 0, None, None), events, now)
    ensures Reports(HolderStream(u, events), u, now, rows, Share(HolderPeriod(u, events, now), events))
  {
    HolderLeaves(u, events, now);
    rows := OnePeriodHours(HolderPeriod(u, events, now), events);
  }

  lemma OneRow(r: IssueEvent)
    requires IsRow(r) && r.gitlabEventId == 0 && !r.noise && r.cycles == 0
    ensures Example([r]) && Incremental([r]) && Kept([r]) == [r]
  {
    assert [r][..0] == [] && Kept([]) == [] && Incremental([]);
    assert Kept([r]) == [] + [r];
  }

  lemma TwoRows(a: IssueEvent, b: IssueEvent)
    requires IsRow(a) && a.gitlabEventId == 0 && !a.noise && a.cycles == 0
    requires IsRow(b) && b.gitlabEventId == 1 && a.at <= b.at
    requires b.noise == DetectNervousFinger(Some(a), b.state, b.at) && b.cycles == CalculateCycleCount(Some(a), b.state)
    ensures Example([a, b]) && Incremental([a, b])
  {
    OneRow(a);
    assert [a, b][..1] == [a] && [a] + [b] == [a, b];
    ExampleSnoc([a], b);
  }

  /** In progress at once and done after an hour: an hour later half of the assigned time is missing. */
  lemma DoneEndsOpenPeriod(u: string) returns (raws: seq<RawEvent>, rows: seq<JoinRow>)
    requires Plain(u)
    ensures Reports(raws, u, 2 * HOUR, rows, HOUR) && Due(Holder(u), u, 0, 2 * HOUR) == 2 * HOUR
    ensures forall p :: p in PeriodsAfter(raws, u, 2 * HOUR) ==>
              StartsWithEvent(p, EventsFor(TablesOf(raws).events, ISSUE))
  {
    var a, b := Row(0, IN_PROGRESS, 0, false, 0), Row(1, DONE, HOUR, false, 0);
    var events := [a, b];
    TwoRows(a, b);
    DoneAfterAnHour(a, b);
    raws := HolderStream(u, events);
    rows := HolderHours(u, events, 2 * HOUR);
    HolderLeaves(u, events, 2 * HOUR);
    HolderIsDue(u, 2 * HOUR);
  }

  lemma DoneAfterAnHour(a: IssueEvent, b: IssueEvent)
    requires a == Row(0, IN_PROGRESS, 0, false, 0) && b == Row(1, DONE, HOUR, false, 0)
    ensures FirstDoneAfter([a, b], 0) == Some(HOUR) && FirstInside(Period(0, HOUR), [a, b]) == Some(0)
  {
    assert [a, b][1..] == [b] && [b][1..] == [];
    assert FirstDoneAfter([b], 0) == Some(HOUR) && FirstInside(Period(0, HOUR), [b]) == None;
  }

  lemma OneEvent(a: IssueEvent, p: Period)
    requires a.state != DONE && Inside(p, a)
    ensures FirstDoneAfter([a], p.from) == None && FirstInside(p, [a]) == Some(a.at)
  {
    assert [a][1..] == [];
  }

  /** Picked up ten minutes after the assignment: the ten minutes are missing. */
  lemma TimeBeforeFirstEventIsLost(u: string) returns (raws: seq<RawEvent>, rows: seq<JoinRow>)
    requires Plain(u)
    ensures Reports(raws, u, HOUR, rows, 50 * MINUTE) && Due(Holder(u), u, 0, HOUR) == HOUR
  {
    var a := Row(0, IN_PROGRESS, 10 * MINUTE, false, 0);
    OneRow(a);
    OneEvent(a, Period(0, HOUR));
    raws := HolderStream(u, [a]);
    rows := HolderHours(u, [a], HOUR);
    HolderIsDue(u, HOUR);
  }

  /**
   Assigned at 0, unassigned after ten minutes, assigned again after twenty and fetched twice: after half an
   hour the view reports ten of the twenty minutes, because the second fetch ended the open period early.
   */
  lemma RefetchLosesHours(u: string) returns (raws: seq<RawEvent>, rows: seq<JoinRow>)
    requires Plain(u)
    ensures var cs := Reassigned(u, 0, 10 * MINUTE, 20 * MINUTE);
            && raws == NotesOf(cs) + NotesOf(cs) && Due(cs, u, 0, 30 * MINUTE) == 20 * MINUTE
            && Reports(raws, u, 30 * MINUTE, rows, 10 * MINUTE)
  {
    var cs, now := Reassigned(u, 0, 10 * MINUTE, 20 * MINUTE), 30 * MINUTE;
    raws := NotesOf(cs) + NotesOf(cs);
    TwoFetchesLeave(cs);
    ReassignedTime(u, 0, 10 * MINUTE, 20 * MINUTE, now);
    rows := WindowOrderExists(PeriodsAfter(raws, u, now), []);
    HoursWithoutEvents(rows, PeriodsAfter(raws, u, now));
    LengthsAreStoredTime(Run(cs + cs).entries, u, now);
  }

  /** The time stored once and twice of a user who was reassigned. */
  lemma ReassignedTime(u: string, a: int, b: int, c: int, now: int)
    requires a <= b <= c <= now
    ensures var cs := Reassigned(u, a, b, c);
            && Due(cs, u, a, now) == (b - a) + (now - c)
            && AssignedMillis(Run(cs + cs).entries, u, now) == (b - a) + (b - c) + (now - c)
  {
    var cs := Reassigned(u, a, b, c);
    SignedOfReassigned(u, a, b, c, now);
    AssignedMillisIsAssignedTime(cs, u, a, now);
    StoredTimeIsSigned(cs, u, now);
    StoredTimeIsSigned(cs + cs, u, now);
    SignedConcat(false, cs, cs, u, now);
  }

  lemma SignedOfReassigned(u: string, a: int, b: int, c: int, now: int)
    ensures var cs := Reassigned(u, a, b, c);
            && CurrentAfter(false, cs, u)
            && Signed(false, cs, u, now) == (b - a) + (now - c) && Signed(true, cs, u, now) == b - c
  {
    var cs := Reassigned(u, a, b, c);
    assert cs[..2] == [On(u, a), Off(u, b)] && cs[..2][..1] == [On(u, a)] && [On(u, a)][..0] == [];
    forall before: bool
      ensures Signed(before, cs, u, now) == (if before then 0 else now - a) + (b - now) + (now - c)
    {
      assert Signed(before, [On(u, a)], u, now) == if before then 0 else now - a;
      assert Signed(before, cs[..2], u, now) == Signed(before, [On(u, a)], u, now) + (b - now);
    }
  }

  // ---- Ties that streams leave ----

  /**
   Of two non-noise rows of one instant and different states, the earlier one is BACKLOG. This rests on the
   choice among equal timestamps made for the newest event: the one inserted last.
   */
  lemma {:induction false} TiesLeaveBacklog(rows: seq<IssueEvent>, i: nat, j: nat)
    requires Incremental(rows) && Sorted(rows) && i < j < |Kept(rows)|
    requires Kept(rows)[i].at == Kept(rows)[j].at && Kept(rows)[i].state != Kept(rows)[j].state
    ensures Kept(rows)[i].state == BACKLOG
    decreases j
  {
    KeptRowsAreSpaced(rows);
    KeptStaySorted(rows);
    var kept := Kept(rows);
    assert kept[i].at <= kept[j - 1].at <= kept[j].at;
    assert kept[j - 1].state == kept[j].state || kept[j - 1].state == BACKLOG;
    if i < j - 1 && kept[i].state != kept[j - 1].state {
      TiesLeaveBacklog(rows, i, j - 1);
    }
  }

  /**
   Taken from the backlog at the instant of the assignment: the order in which the window happens to see the
   rows that one stream leaves decides whether IN_PROGRESS gets the hour or nothing.
   */
  lemma TieOrderDecidesState(u: string) returns (raws: seq<RawEvent>, a: seq<JoinRow>, b: seq<JoinRow>)
    requires Plain(u)
    ensures var ps, events := PeriodsAfter(raws, u, HOUR), EventsFor(TablesOf(raws).events, ISSUE);
            && WindowOrder(a, ps, events) && WindowOrder(b, ps, events)
            && MillisIn(a, 0, {Some(IN_PROGRESS)}, ps, events) == HOUR
            && MillisIn(b, 0, {Some(IN_PROGRESS)}, ps, events) == 0
  {
    var x, y := Row(0, BACKLOG, 0, false, 0), Row(1, IN_PROGRESS, 0, false, 0);
    var events := [x, y];
    TwoRows(x, y);
    TakenAtOnce(x, y);
    raws := HolderStream(u, events);
    HolderLeaves(u, events, HOUR);
    a, b := TieOrders(events);
  }

  lemma TakenAtOnce(x: IssueEvent, y: IssueEvent)
    requires x.state != DONE && y.state != DONE
    ensures FirstDoneAfter([x, y], 0) == None
  {
    assert [x, y][1..] == [y] && [y][1..] == [];
    assert FirstDoneAfter([y], 0) == None;
  }

  lemma TieOrders(events: seq<IssueEvent>) returns (a: seq<JoinRow>, b: seq<JoinRow>)
    requires events == [Row(0, BACKLOG, 0, false, 0), Row(1, IN_PROGRESS, 0, false, 0)]
    ensures WindowOrder(a, [Period(0, HOUR)], events) && WindowOrder(b, [Period(0, HOUR)], events)
    ensures MillisIn(a, 0, {Some(IN_PROGRESS)}, [Period(0, HOUR)], events) == HOUR
    ensures MillisIn(b, 0, {Some(IN_PROGRESS)}, [Period(0, HOUR)], events) == 0
  {
    var ps := [Period(0, HOUR)];
    a, b := [JoinRow(0, Some(0)), JoinRow(0, Some(1))], [JoinRow(0, Some(1)), JoinRow(0, Some(0))];
    InsideIsNotEmpty(ps[0], events, 0);
    assert forall r :: Joined(r, ps, events) ==> r == a[0] || r == a[1];
    assert WellTyped(a, ps, events) && WellTyped(b, ps, events);
  }
}
