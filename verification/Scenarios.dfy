/** Streams of assignee notes and label events of one issue, with what they leave in Silver. */
module Scenarios {
  import opened Folds
  import opened Assignees
  import opened NoteParser
  import opened Silver
  import opened Locality
  import opened EventTimelines
  import opened AssigneeStreams
  import opened Timelines

  /** The system note that speaks of a change. */
  function NoteOf(id: int, c: TimedChange): RawEvent {
    RawEvent(ISSUE, Note(id, true, Render([c.change]), "", c.at))
  }

  function NotesOf(cs: seq<TimedChange>): (raws: seq<RawEvent>)
    ensures |raws| == |cs| && forall i :: 0 <= i < |cs| ==> raws[i] == NoteOf(i, cs[i])
  {
    seq(|cs|, i requires 0 <= i < |cs| => NoteOf(i, cs[i]))
  }

  /** Changes that notes can express and the parser recovers. */
  ghost predicate Noted(cs: seq<TimedChange>) {
    forall c :: c in cs ==> !c.change.action.Unrecognised? && Plain(c.change.username)
  }

  lemma NoteSays(c: Change)
    requires !c.action.Unrecognised? && Plain(c.username)
    ensures Parse(Render([c])) == [c]
  {
    assert !IsWord(' ');
    ParserRecoversIff([c]);
    assert [c][1..] == [];
    assert UsersWith([c], Assigned) == if c.action.Assigned? then [c.username] else [];
    assert UsersWith([c], Unassigned) == if c.action.Assigned? then [] else [c.username];
  }

  lemma NoteChanges(id: int, c: TimedChange)
    requires !c.change.action.Unrecognised? && Plain(c.change.username)
    ensures Classify(WORKFLOW.mapper, NoteOf(id, c).payload) == Assignment([c.change])
    ensures ChangesOf(WORKFLOW, NoteOf(id, c)) == [c]
  {
    NoteSays(c.change);
  }

  lemma NotesSnoc(cs: seq<TimedChange>, c: TimedChange)
    ensures NotesOf(cs + [c]) == NotesOf(cs) + [NoteOf(|cs|, c)]
  {
  }

  lemma ChangesSnoc(env: Env, raws: seq<RawEvent>, raw: RawEvent, k: IssueKey)
    ensures ChangesFor(env, raws + [raw], k) ==
            ChangesFor(env, raws, k) + if raw.issue == k then ChangesOf(env, raw) else []
  {
    assert (raws + [raw])[..|raws|] == raws;
  }

  /** What the notes change, and that they leave no rows. */
  lemma {:induction false} NotesChange(t: Tables, cs: seq<TimedChange>)
    requires Noted(cs)
    ensures ChangesFor(WORKFLOW, NotesOf(cs), ISSUE) == cs
    ensures Fold(Stepper(WORKFLOW), t, NotesOf(cs)).events == t.events
  {
    if cs != [] {
      var front, last := cs[..|cs| - 1], cs[|cs| - 1];
      assert cs == front + [last] && last in cs;
      NotesChange(t, front);
      NoteChanges(|front|, last);
      NotesSnoc(front, last);
      ChangesSnoc(WORKFLOW, NotesOf(front), NoteOf(|front|, last), ISSUE);
      FoldSnoc(Stepper(WORKFLOW), t, NotesOf(front), NoteOf(|front|, last));
      StepShape(WORKFLOW, Fold(Stepper(WORKFLOW), t, NotesOf(front)), NoteOf(|front|, last));
    }
  }

  lemma {:induction false} LabelEventsChangeNothing(rows: seq<IssueEvent>)
    ensures ChangesFor(WORKFLOW, RawsOf(rows), ISSUE) == []
  {
    if rows != [] {
      LabelEventsChangeNothing(rows[..|rows| - 1]);
      assert RawsOf(rows)[..|rows| - 1] == RawsOf(rows[..|rows| - 1]);
    }
  }

  function TablesOf(raws: seq<RawEvent>): Tables {
    Fold(Stepper(WORKFLOW), EMPTY_TABLES, raws)
  }

  lemma FetchLeavesRows(rows: seq<IssueEvent>, cs: seq<TimedChange>)
    requires Example(rows) && Incremental(rows) && Noted(cs)
    ensures EventsFor(TablesOf(RawsOf(rows) + NotesOf(cs)).events, ISSUE) == rows
  {
    ExampleIsPlausible(rows);
    StreamLeavesRows(WORKFLOW, EMPTY_TABLES, rows, ISSUE);
    OwnRows(rows, ISSUE);
    NotesChange(TablesOf(RawsOf(rows)), cs);
    FoldConcat(Stepper(WORKFLOW), EMPTY_TABLES, RawsOf(rows), NotesOf(cs));
  }

  lemma FetchLeavesHistory(rows: seq<IssueEvent>, cs: seq<TimedChange>)
    requires Noted(cs)
    ensures StoredHistory(TablesOf(RawsOf(rows) + NotesOf(cs)), ISSUE) == Run(cs)
  {
    NotesChange(EMPTY_TABLES, cs);
    LabelEventsChangeNothing(rows);
    ChangesConcat(WORKFLOW, RawsOf(rows), NotesOf(cs), ISSUE);
    StoredHistoryIsRun(WORKFLOW, RawsOf(rows) + NotesOf(cs), ISSUE);
    assert [] + cs == cs;
  }

  /** One stream leaves these rows of the issue and the history of these changes. */
  ghost predicate Leaves(raws: seq<RawEvent>, rows: seq<IssueEvent>, cs: seq<TimedChange>) {
    EventsFor(TablesOf(raws).events, ISSUE) == rows && StoredHistory(TablesOf(raws), ISSUE) == Run(cs)
  }

  /** One fetch: the label events, and then the notes. */
  lemma FetchLeaves(rows: seq<IssueEvent>, cs: seq<TimedChange>)
    requires Example(rows) && Incremental(rows) && Noted(cs)
    ensures Leaves(RawsOf(rows) + NotesOf(cs), rows, cs)
  {
    FetchLeavesRows(rows, cs);
    FetchLeavesHistory(rows, cs);
  }

  /** Two fetches of an issue that has notes only. */
  lemma TwoFetchesLeave(cs: seq<TimedChange>)
    requires Noted(cs)
    ensures Leaves(NotesOf(cs) + NotesOf(cs), [], cs + cs)
  {
    NotesChange(EMPTY_TABLES, cs);
    NotesChange(TablesOf(NotesOf(cs)), cs);
    FoldConcat(Stepper(WORKFLOW), EMPTY_TABLES, NotesOf(cs), NotesOf(cs));
    ChangesConcat(WORKFLOW, NotesOf(cs), NotesOf(cs), ISSUE);
    StoredHistoryIsRun(WORKFLOW, NotesOf(cs) + NotesOf(cs), ISSUE);
  }
}
