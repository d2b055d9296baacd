/** Constraints of the Silver tables that every stream of events keeps. */
module TableInvariants {
  import opened Options
  import opened Labels
  import opened Folds
  import opened Silver

  /** UNIQUE(gitlab_event_id, project_id) */
  ghost predicate EventsUnique(rows: seq<IssueEvent>) {
    forall i, j :: 0 <= i < j < |rows| ==>
      rows[i].gitlabEventId != rows[j].gitlabEventId || rows[i].issue.project != rows[j].issue.project
  }

  /** UNIQUE(gitlab_note_id) */
  ghost predicate CommentsUnique(rows: seq<Comment>) {
    forall i, j :: 0 <= i < j < |rows| ==> rows[i].noteId != rows[j].noteId
  }

  ghost predicate Distinct(labels: seq<string>) {
    forall i, j :: 0 <= i < j < |labels| ==> labels[i] != labels[j]
  }

  /** A metadata label is listed once under its key, and the cached state is never UNKNOWN. */
  ghost predicate IssueValid(issue: Issue) {
    && (forall key :: key in issue.metadata ==> Distinct(issue.metadata[key]))
    && issue.state != Some(UNKNOWN)
  }

  ghost predicate TablesValid(t: Tables) {
    EventsUnique(t.events) && CommentsUnique(t.comments) && forall k :: k in t.issues ==> IssueValid(t.issues[k])
  }

  lemma IssueStaysValid(env: Env, k: IssueKey, before: Option<Issue>, p: Payload, duplicate: bool)
    requires before.Some? ==> IssueValid(before.value)
    ensures IssueValid(IssueAfter(env, k, before, p, duplicate))
  {
  }

  lemma RowsStayUnique(t: Tables, k: IssueKey, p: Payload, state: State)
    ensures p.LabelEvent? && EventsUnique(t.events) ==> EventsUnique(InsertEvent(t.events, k, p, state))
    ensures p.Note? && CommentsUnique(t.comments) ==> CommentsUnique(InsertComment(t.comments, k, p))
  {
    assert forall i :: 0 <= i < |t.events| ==> t.events[i] in t.events;
    assert forall i :: 0 <= i < |t.comments| ==> t.comments[i] in t.comments;
  }

  lemma StepKeepsTablesValid(env: Env, t: Tables, raw: RawEvent)
    requires TablesValid(t)
    ensures TablesValid(Step(env, t, raw))
  {
    StepShape(env, t, raw);
    var k, p, effect := raw.issue, raw.payload, Classify(env.mapper, raw.payload);
    IssueStaysValid(env, k, Lookup(t, k), p, true);
    IssueStaysValid(env, k, Lookup(t, k), p, false);
    RowsStayUnique(t, k, p, if effect.Transition? then effect.state else UNKNOWN);
  }

  /** Every stream of Bronze events leaves valid tables. */
  lemma {:induction false} ReachableTablesAreValid(env: Env, raws: seq<RawEvent>)
    ensures TablesValid(Fold(Stepper(env), EMPTY_TABLES, raws))
  {
    if raws != [] {
      ReachableTablesAreValid(env, raws[..|raws| - 1]);
      StepKeepsTablesValid(env, Fold(Stepper(env), EMPTY_TABLES, raws[..|raws| - 1]), raws[|raws| - 1]);
    }
  }

  // ---- The unique index on GitLab issue ids ----

  /** Two issues of known projects never share a positive GitLab id. */
  ghost predicate IssueIdsDistinct(env: Env) {
    forall j, k | j in env.rawIssues && k in env.rawIssues && j != k && j.project in env.projects
                  && k.project in env.projects && env.rawIssues[j].gitlabId > 0 ::
      env.rawIssues[j].gitlabId != env.rawIssues[k].gitlabId
  }

  /** The index has room for the row that would be inserted for k. */
  ghost predicate IndexAccepts(env: Env, t: Tables, k: IssueKey) {
    Stub(env, k).gitlabId > 0 ==>
      forall j | j in t.issues && j != k :: t.issues[j].gitlabId != Stub(env, k).gitlabId
  }

  ghost predicate IdsOfStubs(env: Env, t: Tables) {
    forall k :: k in t.issues ==> k.project in env.projects && t.issues[k].gitlabId == Stub(env, k).gitlabId
  }

  lemma IssueKeepsId(env: Env, k: IssueKey, before: Option<Issue>, p: Payload, duplicate: bool)
    ensures IssueAfter(env, k, before, p, duplicate).gitlabId ==
            if before.Some? then before.value.gitlabId else Stub(env, k).gitlabId
  {
  }

  /** Every issue row has the id its stub was given. */
  lemma {:induction false} ReachableIdsAreOfStubs(env: Env, raws: seq<RawEvent>)
    ensures IdsOfStubs(env, Fold(Stepper(env), EMPTY_TABLES, raws))
  {
    if raws != [] {
      var t, raw := Fold(Stepper(env), EMPTY_TABLES, raws[..|raws| - 1]), raws[|raws| - 1];
      ReachableIdsAreOfStubs(env, raws[..|raws| - 1]);
      StepShape(env, t, raw);
      IssueKeepsId(env, raw.issue, Lookup(t, raw.issue), raw.payload, true);
      IssueKeepsId(env, raw.issue, Lookup(t, raw.issue), raw.payload, false);
    }
  }

  lemma DistinctIdsAreAccepted(env: Env, raws: seq<RawEvent>, k: IssueKey)
    requires IssueIdsDistinct(env) && k.project in env.projects
    ensures IndexAccepts(env, Fold(Stepper(env), EMPTY_TABLES, raws), k)
  {
    ReachableIdsAreOfStubs(env, raws);
    var t := Fold(Stepper(env), EMPTY_TABLES, raws);
    forall j | j in t.issues && j != k && Stub(env, k).gitlabId > 0
      ensures t.issues[j].gitlabId != Stub(env, k).gitlabId
    {
      assert t.issues[j].gitlabId == Stub(env, j).gitlabId;
    }
  }

  /** A user note on j stores the stub of j. */
  lemma SharedIdIsRefused(env: Env, j: IssueKey, k: IssueKey) returns (raws: seq<RawEvent>)
    requires j in env.rawIssues && k in env.rawIssues && j != k && j.project in env.projects
    requires env.rawIssues[j].gitlabId == env.rawIssues[k].gitlabId > 0
    ensures !IndexAccepts(env, Fold(Stepper(env), EMPTY_TABLES, raws), k)
  {
    var raw := RawEvent(j, Note(0, false, "", "", 0));
    raws := [] + [raw];
    FoldSnoc(Stepper(env), EMPTY_TABLES, [], raw);
    StepShape(env, EMPTY_TABLES, raw);
    assert j in Fold(Stepper(env), EMPTY_TABLES, raws).issues;
  }

  /** The unique index never refuses a stub exactly when issues do not share positive ids. */
  lemma IndexNeverRefusesIff(env: Env)
    ensures (forall raws: seq<RawEvent>, k: IssueKey | k.project in env.projects ::
               IndexAccepts(env, Fold(Stepper(env), EMPTY_TABLES, raws), k))
            <==> IssueIdsDistinct(env)
  {
    if IssueIdsDistinct(env) {
      forall raws: seq<RawEvent>, k: IssueKey | k.project in env.projects
        ensures IndexAccepts(env, Fold(Stepper(env), EMPTY_TABLES, raws), k)
      {
        DistinctIdsAreAccepted(env, raws, k);
      }
    } else {
      var j, k :| j in env.rawIssues && k in env.rawIssues && j != k && j.project in env.projects
                  && k.project in env.projects && env.rawIssues[j].gitlabId > 0
                  && env.rawIssues[j].gitlabId == env.rawIssues[k].gitlabId;
      var raws := SharedIdIsRefused(env, j, k);
    }
  }
}
