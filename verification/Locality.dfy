/** What Silver holds about one issue depends only on the events of that issue. */
module Locality {
  import opened Labels
  import opened Options
  import opened Folds
  import opened Silver

  function EventsFor(rows: seq<IssueEvent>, k: IssueKey): seq<IssueEvent> {
    if rows == [] then []
    else if rows[|rows| - 1].issue == k then EventsFor(rows[..|rows| - 1], k) + [rows[|rows| - 1]]
    else EventsFor(rows[..|rows| - 1], k)
  }

  function CommentsFor(rows: seq<Comment>, k: IssueKey): seq<Comment> {
    if rows == [] then []
    else if rows[|rows| - 1].issue == k then CommentsFor(rows[..|rows| - 1], k) + [rows[|rows| - 1]]
    else CommentsFor(rows[..|rows| - 1], k)
  }

  lemma {:induction false} EventsForMembers(rows: seq<IssueEvent>, k: IssueKey)
    ensures forall e :: e in EventsFor(rows, k) <==> e in rows && e.issue == k
  {
    if rows != [] {
      EventsForMembers(rows[..|rows| - 1], k);
      assert rows == rows[..|rows| - 1] + [rows[|rows| - 1]];
    }
  }

  lemma {:induction false} CommentsForMembers(rows: seq<Comment>, k: IssueKey)
    ensures forall c :: c in CommentsFor(rows, k) <==> c in rows && c.issue == k
  {
    if rows != [] {
      CommentsForMembers(rows[..|rows| - 1], k);
      assert rows == rows[..|rows| - 1] + [rows[|rows| - 1]];
    }
  }

  /** Everything Silver holds about one issue. */
  datatype IssueView = IssueView(issue: Option<Issue>, events: seq<IssueEvent>, comments: seq<Comment>)

  function ViewOf(t: Tables, k: IssueKey): IssueView {
    IssueView(Lookup(t, k), EventsFor(t.events, k), CommentsFor(t.comments, k))
  }

  function OnIssue(raws: seq<RawEvent>, k: IssueKey): seq<RawEvent> {
    if raws == [] then []
    else if raws[|raws| - 1].issue == k then OnIssue(raws[..|raws| - 1], k) + [raws[|raws| - 1]]
    else OnIssue(raws[..|raws| - 1], k)
  }

  /** No row of another issue carries an id that the event would have to insert. */
  ghost predicate NoForeignId(t: Tables, raw: RawEvent) {
    match raw.payload
    case LabelEvent(id, _, _, _, _) =>
      forall r | r in t.events && r.gitlabEventId == id && r.issue.project == raw.issue.project :: r.issue == raw.issue
    case Note(id, _, _, _, _) =>
      forall c | c in t.comments && c.noteId == id :: c.issue == raw.issue
    case _ => true
  }

  /** GitLab gives an id to one issue only. */
  ghost predicate IdsIdentifyIssues(raws: seq<RawEvent>) {
    forall a, b | a in raws && b in raws && SameId(a, b) :: a.issue == b.issue
  }

  lemma {:induction false} LastEventIsLocal(rows: seq<IssueEvent>, k: IssueKey)
    ensures LastEvent(rows, k) == LastEvent(EventsFor(rows, k), k)
  {
    if rows != [] {
      var n := |rows| - 1;
      LastEventIsLocal(rows[..n], k);
      if rows[n].issue == k {
        var own := EventsFor(rows, k);
        assert own[..|own| - 1] == EventsFor(rows[..n], k);
      }
    }
  }

  lemma EventsForSnoc(rows: seq<IssueEvent>, r: IssueEvent, k: IssueKey)
    ensures EventsFor(rows + [r], k) == EventsFor(rows, k) + if r.issue == k then [r] else []
  {
    assert (rows + [r])[..|rows|] == rows;
  }

  lemma CommentsForSnoc(rows: seq<Comment>, r: Comment, k: IssueKey)
    ensures CommentsFor(rows + [r], k) == CommentsFor(rows, k) + if r.issue == k then [r] else []
  {
    assert (rows + [r])[..|rows|] == rows;
  }

  lemma InsertEventIsLocal(rows: seq<IssueEvent>, k: IssueKey, p: Payload, state: State)
    requires p.LabelEvent?
    requires forall r | r in rows && r.gitlabEventId == p.id && r.issue.project == k.project :: r.issue == k
    ensures HasEvent(rows, p.id, k.project) <==> HasEvent(EventsFor(rows, k), p.id, k.project)
    ensures EventsFor(InsertEvent(rows, k, p, state), k) == InsertEvent(EventsFor(rows, k), k, p, state)
  {
    EventsForMembers(rows, k);
    LastEventIsLocal(rows, k);
    EventsForSnoc(rows, NewRow(rows, k, p, state), k);
  }

  lemma InsertCommentIsLocal(rows: seq<Comment>, k: IssueKey, p: Payload)
    requires p.Note?
    requires forall c | c in rows && c.noteId == p.id :: c.issue == k
    ensures CommentsFor(InsertComment(rows, k, p), k) == InsertComment(CommentsFor(rows, k), k, p)
  {
    CommentsForMembers(rows, k);
    CommentsForSnoc(rows, Comment(p.id, k, p.author, p.body, p.at), k);
  }

  /** What Silver holds about an issue after one of its events, from what it held about that issue before. */
  function StepView(env: Env, v: IssueView, raw: RawEvent): IssueView {
    var k, p, effect := raw.issue, raw.payload, Classify(env.mapper, raw.payload);
    if effect.NoEffect? || (v.issue.None? && k.project !in env.projects) then v
    else
      IssueView(
        Some(IssueAfter(env, k, v.issue, p, effect.Transition? && HasEvent(v.events, p.id, k.project))),
        if effect.Transition? then InsertEvent(v.events, k, p, effect.state) else v.events,
        if effect.UserComment? then InsertComment(v.comments, k, p) else v.comments)
  }

  lemma StepIsLocal(env: Env, t: Tables, raw: RawEvent)
    requires NoForeignId(t, raw)
    ensures ViewOf(Step(env, t, raw), raw.issue) == StepView(env, ViewOf(t, raw.issue), raw)
  {
    var k, p, effect := raw.issue, raw.payload, Classify(env.mapper, raw.payload);
    StepShape(env, t, raw);
    if effect.Transition? {
      InsertEventIsLocal(t.events, k, p, effect.state);
    }
    if effect.UserComment? {
      InsertCommentIsLocal(t.comments, k, p);
    }
  }

  lemma StepLeavesOthers(env: Env, t: Tables, raw: RawEvent, k: IssueKey)
    requires raw.issue != k
    ensures ViewOf(Step(env, t, raw), k) == ViewOf(t, k)
  {
    var p, effect := raw.payload, Classify(env.mapper, raw.payload);
    StepShape(env, t, raw);
    if effect.Transition? {
      EventsForSnoc(t.events, NewRow(t.events, raw.issue, p, effect.state), k);
    }
    if effect.UserComment? {
      CommentsForSnoc(t.comments, Comment(p.id, raw.issue, p.author, p.body, p.at), k);
    }
  }

  ghost predicate Traceable(t: Tables, raws: seq<RawEvent>) {
    && (forall r :: r in t.events ==> exists a :: a in raws && Made(a, r))
    && (forall c :: c in t.comments ==> exists a :: a in raws && Wrote(a, c))
  }

  lemma StepKeepsTraceable(env: Env, t: Tables, raws: seq<RawEvent>, raw: RawEvent)
    requires Traceable(t, raws)
    ensures Traceable(Step(env, t, raw), raws + [raw])
  {
    StepShape(env, t, raw);
    var t', all := Step(env, t, raw), raws + [raw];
    assert raw in all && forall a :: a in raws ==> a in all;
    forall r | r in t'.events
      ensures exists a :: a in all && Made(a, r)
    {
      if r in t.events {
        var a :| a in raws && Made(a, r);
        assert a in all;
      } else {
        assert Made(raw, r);
      }
    }
    forall c | c in t'.comments
      ensures exists a :: a in all && Wrote(a, c)
    {
      if c in t.comments {
        var a :| a in raws && Wrote(a, c);
        assert a in all;
      } else {
        assert Wrote(raw, c);
      }
    }
  }

  /** Every row comes from an event of the stream with its id and issue. */
  lemma {:induction false} RowsComeFrom(env: Env, raws: seq<RawEvent>)
    ensures Traceable(Fold(Stepper(env), EMPTY_TABLES, raws), raws)
  {
    if raws != [] {
      var n := |raws| - 1;
      RowsComeFrom(env, raws[..n]);
      StepKeepsTraceable(env, Fold(Stepper(env), EMPTY_TABLES, raws[..n]), raws[..n], raws[n]);
      assert raws == raws[..n] + [raws[n]];
    }
  }

  predicate Made(a: RawEvent, r: IssueEvent) {
    a.payload.LabelEvent? && a.payload.id == r.gitlabEventId && a.payload.at == r.at && a.issue == r.issue
  }

  predicate Wrote(a: RawEvent, c: Comment) {
    a.payload.Note? && a.payload.id == c.noteId && a.issue == c.issue
  }

  lemma IdsAreOwn(env: Env, raws: seq<RawEvent>, raw: RawEvent)
    requires IdsIdentifyIssues(raws + [raw])
    ensures NoForeignId(Fold(Stepper(env), EMPTY_TABLES, raws), raw)
  {
    RowsComeFrom(env, raws);
    var t := Fold(Stepper(env), EMPTY_TABLES, raws);
    assert raw in raws + [raw] && forall a :: a in raws ==> a in raws + [raw];
    forall r | r in t.events && raw.payload.LabelEvent? && r.gitlabEventId == raw.payload.id
               && r.issue.project == raw.issue.project
      ensures r.issue == raw.issue
    {
      var a :| a in raws && Made(a, r);
      assert SameId(a, raw);
    }
    forall c | c in t.comments && raw.payload.Note? && c.noteId == raw.payload.id
      ensures c.issue == raw.issue
    {
      var a :| a in raws && Wrote(a, c);
      assert SameId(a, raw);
    }
  }

  lemma {:induction false} OnIssueOnly(raws: seq<RawEvent>, k: IssueKey)
    ensures forall a :: a in OnIssue(raws, k) ==> a in raws
  {
    if raws != [] {
      OnIssueOnly(raws[..|raws| - 1], k);
    }
  }

  /** Two tables that hold the same about an issue hold the same after one more of its events. */
  lemma SameViewStep(env: Env, t: Tables, u: Tables, raw: RawEvent)
    requires ViewOf(t, raw.issue) == ViewOf(u, raw.issue) && NoForeignId(t, raw) && NoForeignId(u, raw)
    ensures ViewOf(Step(env, t, raw), raw.issue) == ViewOf(Step(env, u, raw), raw.issue)
  {
    StepIsLocal(env, t, raw);
    StepIsLocal(env, u, raw);
  }

  /** The rows of an issue are the same whether or not the events of other issues are in the stream. */
  lemma {:induction false} IssuesAreIndependent(env: Env, raws: seq<RawEvent>, k: IssueKey)
    requires IdsIdentifyIssues(raws)
    ensures ViewOf(Fold(Stepper(env), EMPTY_TABLES, raws), k) ==
            ViewOf(Fold(Stepper(env), EMPTY_TABLES, OnIssue(raws, k)), k)
  {
    if raws != [] {
      var front, last := raws[..|raws| - 1], raws[|raws| - 1];
      var own := OnIssue(front, k);
      assert raws == front + [last];
      assert IdsIdentifyIssues(front);
      IssuesAreIndependent(env, front, k);
      FoldSnoc(Stepper(env), EMPTY_TABLES, front, last);
      if last.issue != k {
        StepLeavesOthers(env, Fold(Stepper(env), EMPTY_TABLES, front), last, k);
      } else {
        OnIssueOnly(front, k);
        IdsAreOwn(env, front, last);
        IdsAreOwn(env, own, last);
        FoldSnoc(Stepper(env), EMPTY_TABLES, own, last);
        SameViewStep(env, Fold(Stepper(env), EMPTY_TABLES, front), Fold(Stepper(env), EMPTY_TABLES, own), last);
      }
    }
  }
}
