/**
 The Silver tables and the effect of one Bronze event on them, as functions on values.
 An issue is named by its unique (project, iid) pair instead of its surrogate id, and the
 position of a row in a table stands for its serial id.
 */
module Silver {
  import opened Options
  import opened Labels
  import opened Assignees
  import opened Folds
  import NoteParser

  datatype IssueKey = IssueKey(project: int, iid: int)

  datatype Title = Placeholder(iid: int) | Named(text: string)

  datatype Issue = Issue(
    title: Title,
    gitlabId: int,
    state: Option<State>,
    metadata: map<string, seq<string>>,
    assignees: Option<History>)

  datatype IssueEvent = IssueEvent(
    gitlabEventId: int,
    issue: IssueKey,
    author: string,
    labelAdded: string,
    labelRemoved: string,
    state: State,
    at: int,
    noise: bool,
    cycles: int)

  datatype Comment = Comment(noteId: int, issue: IssueKey, author: string, body: string, at: int)

  datatype Tables = Tables(issues: map<IssueKey, Issue>, events: seq<IssueEvent>, comments: seq<Comment>)

  const EMPTY_TABLES := Tables(map[], [], [])

  datatype Payload =
    | LabelEvent(id: int, action: LabelAction, name: string, author: string, at: int)
    | Note(id: int, system: bool, body: string, author: string, at: int)
    | Malformed
    | OtherType

  datatype RawEvent = RawEvent(issue: IssueKey, payload: Payload)

  /** The two events would be stored under the same unique key. */
  predicate SameId(a: RawEvent, b: RawEvent) {
    || (a.payload.LabelEvent? && b.payload.LabelEvent? && a.payload.id == b.payload.id
        && a.issue.project == b.issue.project)
    || (a.payload.Note? && b.payload.Note? && a.payload.id == b.payload.id)
  }

  datatype RawIssue = RawIssue(gitlabId: int, title: string)

  /** What a transformation reads and never writes: label mappings, the projects table and raw_issues. */
  datatype Env = Env(mapper: Mapper, projects: set<int>, rawIssues: map<IssueKey, RawIssue>)

  // ---- Edge cases ----

  const NERVOUS_FINGER_MILLIS := 15 * 60 * 1000

  predicate DetectNervousFinger(last: Option<IssueEvent>, state: State, at: int) {
    && last.Some?
    && last.value.state != state
    && last.value.state != BACKLOG
    && at - last.value.at < NERVOUS_FINGER_MILLIS
  }

  function CalculateCycleCount(last: Option<IssueEvent>, state: State): int {
    if last.None? then 0
    else if last.value.state == QA_REVIEW && state == IN_PROGRESS then last.value.cycles + 1
    else last.value.cycles
  }

  // ---- Queries ----

  /** The newest non-noise event of an issue; among equal timestamps, the one inserted last. */
  function LastEvent(rows: seq<IssueEvent>, k: IssueKey): Option<IssueEvent> {
    if rows == [] then None
    else
      var r, earlier := rows[|rows| - 1], LastEvent(rows[..|rows| - 1], k);
      if r.issue == k && !r.noise && (earlier.None? || earlier.value.at <= r.at) then Some(r) else earlier
  }

  lemma LastEventIsNewest(rows: seq<IssueEvent>, k: IssueKey)
    ensures LastEvent(rows, k).Some? <==> exists r :: r in rows && r.issue == k && !r.noise
    ensures var last := LastEvent(rows, k);
            last.Some? ==>
              && last.value in rows && last.value.issue == k && !last.value.noise
              && forall r :: r in rows && r.issue == k && !r.noise ==> r.at <= last.value.at
  {
    if rows != [] {
      LastEventIsNewest(rows[..|rows| - 1], k);
      assert rows == rows[..|rows| - 1] + [rows[|rows| - 1]];
    }
  }

  predicate HasEvent(rows: seq<IssueEvent>, id: int, project: int) {
    exists r :: r in rows && r.gitlabEventId == id && r.issue.project == project
  }

  predicate HasComment(rows: seq<Comment>, id: int) {
    exists r :: r in rows && r.noteId == id
  }

  // ---- Writes ----

  function Stub(env: Env, k: IssueKey): Issue {
    var raw := if k in env.rawIssues then env.rawIssues[k] else RawIssue(0, "");
    Issue(
      if raw.title != "" then Named(raw.title) else Placeholder(k.iid),
      if raw.gitlabId > 0 then raw.gitlabId else 0,
      None, map[], None)
  }

  /** None when the foreign key to projects refuses the new row. */
  function EnsureIssue(env: Env, t: Tables, k: IssueKey): Option<Tables> {
    if k in t.issues then Some(t)
    else if k.project in env.projects then Some(t.(issues := t.issues[k := Stub(env, k)]))
    else None
  }

  function AddLabel(metadata: map<string, seq<string>>, key: string, name: string): map<string, seq<string>> {
    var labels := if key in metadata then metadata[key] else [];
    metadata[key := if name in labels then labels else labels + [name]]
  }

  function WithMetadata(t: Tables, k: IssueKey, key: string, name: string): Tables
    requires k in t.issues
  {
    t.(issues := t.issues[k := t.issues[k].(metadata := AddLabel(t.issues[k].metadata, key, name))])
  }

  function HistoryOf(i: Issue): History {
    if i.assignees.Some? then i.assignees.value else EMPTY
  }

  /** The column is written back only when some change modified the history. */
  function WithAssignees(t: Tables, k: IssueKey, cs: seq<Change>, at: int): Tables
    requires k in t.issues
  {
    var h := HistoryOf(t.issues[k]);
    if ApplyAll(h, cs, at) == h then t
    else t.(issues := t.issues[k := t.issues[k].(assignees := Some(ApplyAll(h, cs, at)))])
  }

  function NewRow(rows: seq<IssueEvent>, k: IssueKey, le: Payload, state: State): IssueEvent
    requires le.LabelEvent?
  {
    var last := LastEvent(rows, k);
    IssueEvent(le.id, k, le.author,
               if le.action.Add? then le.name else "",
               if le.action.Add? then "" else le.name,
               state, le.at,
               DetectNervousFinger(last, state, le.at),
               CalculateCycleCount(last, state))
  }

  /** Insert with conflict skip. */
  function InsertEvent(rows: seq<IssueEvent>, k: IssueKey, le: Payload, state: State): seq<IssueEvent>
    requires le.LabelEvent?
  {
    if HasEvent(rows, le.id, k.project) then rows else rows + [NewRow(rows, k, le, state)]
  }

  /** The state cache moves only with a new row of a known state. */
  function WithEvent(t: Tables, k: IssueKey, le: Payload, state: State): Tables
    requires k in t.issues && le.LabelEvent?
  {
    if HasEvent(t.events, le.id, k.project) then t
    else
      t.(events := InsertEvent(t.events, k, le, state),
         issues := if state == UNKNOWN then t.issues
                   else t.issues[k := t.issues[k].(state := Some(state))])
  }

  function InsertComment(rows: seq<Comment>, k: IssueKey, n: Payload): seq<Comment>
    requires n.Note?
  {
    if HasComment(rows, n.id) then rows else rows + [Comment(n.id, k, n.author, n.body, n.at)]
  }

  function WithComment(t: Tables, k: IssueKey, n: Payload): Tables
    requires n.Note?
  {
    t.(comments := InsertComment(t.comments, k, n))
  }

  // ---- One Bronze event ----

  datatype Effect =
    | NoEffect
    | Metadata(key: string)
    | Transition(state: State)
    | Assignment(changes: seq<Change>)
    | UserComment

  function Classify(m: Mapper, p: Payload): Effect {
    match p
    case LabelEvent(_, action, name, _, _) =>
      var added, removed := if action.Add? then name else "", if action.Add? then "" else name;
      var state := DetermineCanonicalState(m, action, added, removed);
      if state == BLANK && action.Add? then
        if m.MetadataKey(added) != "" then Metadata(m.MetadataKey(added)) else NoEffect
      else if action.Remove? then NoEffect
      else Transition(state)
    case Note(_, system, body, _, _) =>
      if !system then UserComment
      else if NoteParser.Parse(body) == [] then NoEffect
      else Assignment(NoteParser.Parse(body))
    case Malformed => NoEffect
    case OtherType => NoEffect
  }

  /**
   What a label event means: an added state label is a transition to its state, an added unknown label
   a transition to UNKNOWN, an added metadata label is recorded under its key unless it is a state
   label too, and a removed label has no effect.
   */
  lemma LabelMeaning(m: Mapper, p: Payload)
    requires p.LabelEvent? && p.name != ""
    ensures var n, effect := m.normalize(p.name), Classify(m, p);
            && (p.action.Remove? ==> effect == NoEffect)
            && (p.action.Add? ==>
                  && (forall s :: s != UNKNOWN && s != BLANK ==>
                        (effect == Transition(s) <==> n in m.stateMappings && m.stateMappings[n] == s))
                  && (effect == Transition(UNKNOWN) <==>
                        if n in m.stateMappings then m.stateMappings[n] == UNKNOWN else n !in m.metadataMappings)
                  && (n !in m.stateMappings ==>
                        (effect.Metadata? <==> n in m.metadataMappings && m.metadataMappings[n] != ""))
                  && (effect.Metadata? ==> n in m.metadataMappings && effect.key == m.metadataMappings[n]))
  {
  }

  /** The tables after a successful transformation, or None when it reports an error. */
  function Transform(env: Env, t: Tables, raw: RawEvent): Option<Tables> {
    var k, p, effect := raw.issue, raw.payload, Classify(env.mapper, raw.payload);
    if p.Malformed? then None
    else if effect.NoEffect? then Some(t)
    else
      var ensured := EnsureIssue(env, t, k);
      if ensured.None? then None
      else
        var t' := ensured.value;
        match effect
        case NoEffect => Some(t')
        case Metadata(key) => Some(WithMetadata(t', k, key, p.name))
        case Transition(state) => Some(WithEvent(t', k, p, state))
        case Assignment(changes) => Some(WithAssignees(t', k, changes, p.at))
        case UserComment => Some(WithComment(t', k, p))
  }

  /** An event that fails leaves the tables alone. */
  function Step(env: Env, t: Tables, raw: RawEvent): Tables {
    var r := Transform(env, t, raw);
    if r.None? then t else r.value
  }

  /** The issue row after a successful event; duplicate says whether the row it would insert is already there. */
  function IssueAfter(env: Env, k: IssueKey, before: Option<Issue>, p: Payload, duplicate: bool): Issue {
    var issue := if before.Some? then before.value else Stub(env, k);
    match Classify(env.mapper, p)
    case NoEffect => issue
    case UserComment => issue
    case Metadata(key) => issue.(metadata := AddLabel(issue.metadata, key, p.name))
    case Transition(state) => if duplicate || state == UNKNOWN then issue else issue.(state := Some(state))
    case Assignment(changes) =>
      if ApplyAll(HistoryOf(issue), changes, p.at) == HistoryOf(issue) then issue
      else issue.(assignees := Some(ApplyAll(HistoryOf(issue), changes, p.at)))
  }

  function Lookup(t: Tables, k: IssueKey): Option<Issue> {
    if k in t.issues then Some(t.issues[k]) else None
  }

  /** An event that fails or has no effect changes nothing; others touch their issue and at most one table of rows. */
  lemma StepShape(env: Env, t: Tables, raw: RawEvent)
    ensures var t', k, p, effect := Step(env, t, raw), raw.issue, raw.payload, Classify(env.mapper, raw.payload);
            if effect.NoEffect? || (k !in t.issues && k.project !in env.projects) then t' == t
            else
              && t'.events == (if effect.Transition? then InsertEvent(t.events, k, p, effect.state) else t.events)
              && t'.comments == (if effect.UserComment? then InsertComment(t.comments, k, p) else t.comments)
              && t'.issues ==
                 t.issues[k := IssueAfter(env, k, Lookup(t, k), p,
                                          effect.Transition? && HasEvent(t.events, p.id, k.project))]
  {
    var k := raw.issue;
    if k in t.issues {
      assert t.issues == t.issues[k := t.issues[k]];
    }
  }

  /** Processing one event, with what it reads fixed: the step that streams are folded with. */
  function Stepper(env: Env): (Tables, RawEvent) -> Tables {
    (t, raw) => Step(env, t, raw)
  }

  // ---- Which events fail ----

  /** The foreign keys of the Silver tables. */
  ghost predicate KeysValid(env: Env, t: Tables) {
    && (forall k :: k in t.issues ==> k.project in env.projects)
    && (forall r :: r in t.events ==> r.issue in t.issues)
    && (forall c :: c in t.comments ==> c.issue in t.issues)
  }

  /** Failing depends on the event and the projects table only, so it does not change between retries. */
  predicate Fails(env: Env, raw: RawEvent) {
    raw.payload.Malformed? ||
    (!Classify(env.mapper, raw.payload).NoEffect? && raw.issue.project !in env.projects)
  }

  lemma FailsIff(env: Env, t: Tables, raw: RawEvent)
    requires forall k :: k in t.issues ==> k.project in env.projects
    ensures Transform(env, t, raw).None? <==> Fails(env, raw)
    ensures Fails(env, raw) ==> Step(env, t, raw) == t
  {
  }

  lemma StepKeepsKeysValid(env: Env, t: Tables, raw: RawEvent)
    requires KeysValid(env, t)
    ensures KeysValid(env, Step(env, t, raw))
  {
    StepShape(env, t, raw);
    var t', k := Step(env, t, raw), raw.issue;
    assert forall j :: j in t.issues ==> j in t'.issues;
    assert forall r :: r in t'.events ==> r in t.events || r.issue == k;
    assert forall c :: c in t'.comments ==> c in t.comments || c.issue == k;
  }

  lemma {:induction false} FoldKeepsKeysValid(env: Env, t: Tables, raws: seq<RawEvent>)
    requires KeysValid(env, t)
    ensures KeysValid(env, Fold(Stepper(env), t, raws))
  {
    if raws != [] {
      FoldKeepsKeysValid(env, t, raws[..|raws| - 1]);
      StepKeepsKeysValid(env, Fold(Stepper(env), t, raws[..|raws| - 1]), raws[|raws| - 1]);
    }
  }

  lemma FailingStepIsIdle(env: Env, t: Tables, raw: RawEvent)
    requires KeysValid(env, t)
    ensures KeysValid(env, Step(env, t, raw))
    ensures Transform(env, t, raw).None? <==> Fails(env, raw)
    ensures Fails(env, raw) ==> Step(env, t, raw) == t
  {
    FailsIff(env, t, raw);
    StepKeepsKeysValid(env, t, raw);
  }
}
