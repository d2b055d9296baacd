/**
 The extractor and the discovery service as programs over the shared world. Before each of their
 own actions the rest of the system may act; `schedule` says how.
 */
module Workers {
  import opened Folds
  import opened SyncProtocol
  import opened SyncHistory

  /** Which calls of one extraction succeed. */
  datatype Answers = Answers(
    listOk: bool,
    labelsOk: IssueRef -> bool,
    notesOk: IssueRef -> bool,
    insertOk: Event -> bool,
    commitOk: bool)
  {
    predicate FetchOk(i: IssueRef) {
      labelsOk(i) && notesOk(i)
    }
  }

  function Elements<T>(s: seq<T>): set<T> {
    set x | x in s
  }

  ghost predicate Distinct<T>(s: seq<T>) {
    forall i, j :: 0 <= i < j < |s| ==> s[i] != s[j]
  }

  /** The action belongs to another run and another discovery. */
  predicate Foreign(a: Action, own: int) {
    match a
    case ReadCursor(r, _) => r != own
    case Begin(r) => r != own
    case ListIssues(r, _) => r != own
    case FetchLabels(r, _) => r != own
    case FetchNotes(r, _) => r != own
    case FetchFails(r, _) => r != own
    case InsertOk(r, _) => r != own
    case InsertFails(r, _) => r != own
    case CommitCursor(r) => r != own
    case Abort(r) => r != own
    case DiscoverRead(d, _) => d != own
    case DiscoverRaw(d) => d != own
    case DiscoverSilver(d) => d != own
    case DiscoverAbort(d) => d != own
    case Tick(_) => true
    case GitLabChange(_, _, _) => true
  }

  ghost predicate AllForeign(others: seq<Action>, own: int) {
    forall a :: a in others ==> Foreign(a, own)
  }

  /** The run and the discovery of this number are the same in both worlds. */
  ghost predicate Undisturbed(w: World, w': World, own: int) {
    && (own in w.runs <==> own in w'.runs)
    && (own in w.runs ==> w'.runs[own] == w.runs[own])
    && (own in w.discoveries <==> own in w'.discoveries)
    && (own in w.discoveries ==> w'.discoveries[own] == w.discoveries[own])
  }

  /** GitLab forgets nothing, Bronze keeps its rows, and the project rows stay. */
  ghost predicate Grown(w: World, w': World) {
    && w.clock <= w'.clock
    && LaterGitLab(w, w')
    && w.bronze <= w'.bronze
    && w.rawCursor.Keys <= w'.rawCursor.Keys
    && w.silverCursor.Keys <= w'.silverCursor.Keys
  }

  lemma ActionGrows(w: World, a: Action)
    requires ClocksAgree(w)
    ensures Grown(w, Apply(w, a))
  {
    GitLabOnlyGrows(w, a);
    RowsStay(w, a);
  }

  lemma RowsStay(w: World, a: Action)
    ensures var w' := Apply(w, a);
            && w.clock <= w'.clock && w.bronze <= w'.bronze
            && w.rawCursor.Keys <= w'.rawCursor.Keys && w.silverCursor.Keys <= w'.silverCursor.Keys
  {
  }

  lemma {:induction false} ActionsGrow(w: World, actions: seq<Action>)
    requires Inv(w)
    ensures Inv(Fold(Applier(), w, actions)) && Grown(w, Fold(Applier(), w, actions))
  {
    if actions != [] {
      var n := |actions| - 1;
      ActionsGrow(w, actions[..n]);
      ActionGrows(Fold(Applier(), w, actions[..n]), actions[n]);
      ApplyKeepsInv(Fold(Applier(), w, actions[..n]), actions[n]);
    }
  }

  lemma ForeignActionKeepsRun(w: World, a: Action, own: int)
    requires Foreign(a, own)
    ensures own in w.runs <==> own in Apply(w, a).runs
    ensures own in w.runs ==> Apply(w, a).runs[own] == w.runs[own]
  {
    if !RunAction(a) {
      OnlyRunActionsTouchRuns(w, a);
    }
  }

  lemma ForeignActionKeepsDiscovery(w: World, a: Action, own: int)
    requires Foreign(a, own)
    ensures own in w.discoveries <==> own in Apply(w, a).discoveries
    ensures own in w.discoveries ==> Apply(w, a).discoveries[own] == w.discoveries[own]
  {
  }

  lemma ForeignActionIsHarmless(w: World, a: Action, own: int)
    requires Foreign(a, own)
    ensures Undisturbed(w, Apply(w, a), own)
  {
    ForeignActionKeepsRun(w, a, own);
    ForeignActionKeepsDiscovery(w, a, own);
  }

  lemma {:induction false} ForeignActionsAreHarmless(w: World, others: seq<Action>, own: int)
    requires AllForeign(others, own)
    ensures Undisturbed(w, Fold(Applier(), w, others), own)
  {
    if others != [] {
      var n := |others| - 1;
      assert others[n] in others && AllForeign(others[..n], own);
      ForeignActionsAreHarmless(w, others[..n], own);
      ForeignActionIsHarmless(Fold(Applier(), w, others[..n]), others[n], own);
    }
  }

  class Shared {
    var world: World
    ghost var trace: seq<Action>

    /** The world is what the recorded actions make of an empty one. */
    ghost predicate Valid()
      reads this
    {
      world == Exec(trace)
    }

    constructor ()
      ensures Valid() && world == START && trace == []
    {
      world, trace := START, [];
    }

    method Do(a: Action)
      requires Valid()
      modifies this
      ensures Valid() && trace == old(trace) + [a] && world == Apply(old(world), a) && Grown(old(world), world)
    {
      ReachableInv(trace);
      ActionGrows(world, a);
      ExecSnoc(trace, a);
      world := Apply(world, a);
      trace := trace + [a];
    }

    /** Others act; the run or discovery `own` is left alone. */
    method Interfere(others: seq<Action>, own: int)
      requires Valid() && AllForeign(others, own)
      modifies this
      ensures Valid() && trace == old(trace) + others
      ensures Undisturbed(old(world), world, own) && Grown(old(world), world)
    {
      ReachableInv(trace);
      ActionsGrow(world, others);
      FoldConcat(Applier(), START, trace, others);
      ForeignActionsAreHarmless(world, others, own);
      for i := 0 to |others|
        invariant world == Fold(Applier(), old(world), others[..i])
        invariant trace == old(trace)
      {
        FoldSnoc(Applier(), old(world), others[..i], others[i]);
        assert others[..i + 1] == others[..i] + [others[i]];
        world := Apply(world, others[i]);
      }
      assert others[..|others|] == others;
      trace := trace + others;
    }

    /** The issues of a project updated at or after the whole second of the cursor, in some order. */
    method ListedIssues(project: int, since: int) returns (issues: seq<IssueRef>)
      ensures Distinct(issues) && Listing(world, Elements(issues), project, since)
    {
      var rest := set i | i in world.updatedAt && i.project == project && world.updatedAt[i] >= WholeSecond(since);
      ghost var all := rest;
      issues := [];
      while rest != {}
        invariant Distinct(issues) && Elements(issues) !! rest && Elements(issues) + rest == all
        decreases rest
      {
        var i :| i in rest;
        rest := rest - {i};
        issues := issues + [i];
      }
    }

    /** The label events or the notes of an issue, in some order. */
    method ListedEvents(issue: IssueRef, kind: Kind) returns (events: seq<Event>)
      ensures Distinct(events) && Elements(events) == EventsOfKind(world, issue, kind)
    {
      var rest := EventsOfKind(world, issue, kind);
      ghost var all := rest;
      events := [];
      while rest != {}
        invariant Distinct(events) && Elements(events) !! rest && Elements(events) + rest == all
        decreases rest
      {
        var e :| e in rest;
        rest := rest - {e};
        events := events + [e];
      }
    }
  }

  /** A listed issue updated since the cursor, with an event that neither its fetch nor its insert fails on. */
  predicate Due(w: World, e: Event, project: int, since: int, answers: Answers) {
    && e in w.log && e.issue.project == project
    && e.issue in w.updatedAt && w.updatedAt[e.issue] >= since
    && answers.FetchOk(e.issue) && answers.insertOk(e)
  }

  /** The state of run r while it works, between two issues or two inserts. */
  ghost predicate At(w: World, r: int, project: int, start: int, todo: set<IssueRef>, buffer: set<Event>) {
    && r in w.runs && w.runs[r].Working?
    && w.runs[r].project == project && w.runs[r].start == start
    && w.runs[r].todo == todo && w.runs[r].labels == map[] && w.runs[r].buffer == buffer
  }

  /** The events collected belong to the issues done, with nothing of w0 that was fetched left out. */
  ghost predicate Collected(w0: World, done: seq<IssueRef>, events: seq<Event>, answers: Answers) {
    && Distinct(events)
    && (forall e :: e in events ==> e.issue in done)
    && (forall e :: e in w0.log && e.issue in done && answers.FetchOk(e.issue) ==> e in events)
  }

  /** The events of one issue: everything it had before the two calls, or nothing when one of them fails. */
  ghost predicate Fetched(w: World, i: IssueRef, events: seq<Event>, answers: Answers) {
    && Distinct(events) && (forall e :: e in events ==> e.issue == i)
    && (if answers.FetchOk(i) then forall e :: e in w.log && e.issue == i ==> e in events else events == [])
  }

  lemma CollectNext(w0: World, w: World, done: seq<IssueRef>, i: IssueRef, events: seq<Event>, more: seq<Event>,
                    answers: Answers)
    requires Collected(w0, done, events, answers) && i !in done && Grown(w0, w)
    requires Fetched(w, i, more, answers)
    ensures Collected(w0, done + [i], events + more, answers)
    ensures Elements(events + more) == Elements(events) + Elements(more)
  {
    forall j | 0 <= j < |more|
      ensures more[j].issue == i && more[j] !in events
    {
      assert more[j] in more;
    }
  }

  lemma RestOf<T>(s: seq<T>, k: nat)
    requires Distinct(s) && k < |s|
    ensures Elements(s[k + 1..]) == Elements(s[k..]) - {s[k]} && s[k] in Elements(s[k..])
    ensures s[k] !in s[..k] && s[..k + 1] == s[..k] + [s[k]]
  {
    assert s[k..] == [s[k]] + s[k + 1..];
  }

  /** The loop over the listed issues: a failed fetch skips its issue. */
  method FetchIssues(db: Shared, r: int, issues: seq<IssueRef>, answers: Answers, schedule: nat -> seq<Action>,
                     between: nat -> seq<Action>, ghost w0: World, ghost project: int, ghost start: int)
    returns (allEvents: seq<Event>)
    requires db.Valid() && Distinct(issues) && forall n :: AllForeign(schedule(n), r) && AllForeign(between(n), r)
    requires At(db.world, r, project, start, Elements(issues), {}) && Grown(w0, db.world)
    modifies db
    ensures db.Valid() && Grown(w0, db.world)
    ensures At(db.world, r, project, start, {}, Elements(allEvents))
    ensures Collected(w0, issues, allEvents, answers)
  {
    allEvents := [];
    assert issues[0..] == issues;
    for k := 0 to |issues|
      invariant db.Valid() && Grown(w0, db.world)
      invariant At(db.world, r, project, start, Elements(issues[k..]), Elements(allEvents))
      invariant Collected(w0, issues[..k], allEvents, answers)
    {
      RestOf(issues, k);
      ghost var before := db.world;
      db.Interfere(schedule(k), r);
      ghost var w := db.world;
      var events := FetchIssueRawEvents(db, r, issues[k], answers, between(k), project, start, Elements(issues[k..]),
                                        Elements(allEvents));
      GrownOnward(w0, before, w, db.world);
      CollectNext(w0, w, issues[..k], issues[k], allEvents, events, answers);
      allEvents := allEvents + events;
    }
    assert issues[..|issues|] == issues;
  }

  /** The state of run r between the two calls for issue i. */
  ghost predicate HalfWay(w: World, r: int, project: int, start: int, todo: set<IssueRef>, buffer: set<Event>,
                          i: IssueRef, labels: set<Event>) {
    && r in w.runs && w.runs[r].Working?
    && w.runs[r].project == project && w.runs[r].start == start
    && w.runs[r].todo == todo && w.runs[r].labels == map[i := labels] && w.runs[r].buffer == buffer && i in todo
  }

  /**
   The label events and then the notes of one issue, by two calls between which others may act, or nothing
   when a call fails.
   */
  method FetchIssueRawEvents(db: Shared, r: int, i: IssueRef, answers: Answers, between: seq<Action>,
                             ghost project: int, ghost start: int, ghost todo: set<IssueRef>, ghost buffer: set<Event>)
    returns (events: seq<Event>)
    requires db.Valid() && AllForeign(between, r) && At(db.world, r, project, start, todo, buffer) && i in todo
    modifies db
    ensures db.Valid() && Grown(old(db.world), db.world)
    ensures At(db.world, r, project, start, todo - {i}, buffer + Elements(events))
    ensures Fetched(old(db.world), i, events, answers)
  {
    ghost var w0 := db.world;
    if !answers.labelsOk(i) {
      db.Do(FetchFails(r, i));
      return [];
    }
    events := db.ListedEvents(i, OfLabel);
    db.Do(FetchLabels(r, i));
    ghost var w1 := db.world;
    db.Interfere(between, r);
    ghost var w2 := db.world;
    GrownTwice(w0, w1, w2);
    var notes := FetchIssueNotes(db, r, i, answers, project, start, todo, buffer, Elements(events));
    GrownTwice(w0, w2, db.world);
    if answers.notesOk(i) {
      TwoCalls(w0, w2, i, events, notes);
      events := events + notes;
    } else {
      events := [];
    }
  }

  /** The second call: with it the issue is complete, or its label events are dropped too. */
  method FetchIssueNotes(db: Shared, r: int, i: IssueRef, answers: Answers, ghost project: int, ghost start: int,
                         ghost todo: set<IssueRef>, ghost buffer: set<Event>, ghost labels: set<Event>)
    returns (notes: seq<Event>)
    requires db.Valid() && HalfWay(db.world, r, project, start, todo, buffer, i, labels)
    modifies db
    ensures db.Valid() && Grown(old(db.world), db.world)
    ensures Distinct(notes)
    ensures Elements(notes) == if answers.notesOk(i) then EventsOfKind(old(db.world), i, OfNote) else {}
    ensures At(db.world, r, project, start, todo - {i},
               if answers.notesOk(i) then buffer + labels + Elements(notes) else buffer)
  {
    if !answers.notesOk(i) {
      db.Do(FetchFails(r, i));
      return [];
    }
    notes := db.ListedEvents(i, OfNote);
    db.Do(FetchNotes(r, i));
  }

  lemma TwoCalls(w0: World, w2: World, i: IssueRef, labels: seq<Event>, notes: seq<Event>)
    requires Grown(w0, w2) && Distinct(labels) && Distinct(notes)
    requires Elements(labels) == EventsOfKind(w0, i, OfLabel) && Elements(notes) == EventsOfKind(w2, i, OfNote)
    ensures Distinct(labels + notes) && Elements(labels + notes) == Elements(labels) + Elements(notes)
    ensures forall e :: e in labels + notes ==> e.issue == i
    ensures forall e :: e in w0.log && e.issue == i ==> e in labels + notes
  {
    forall e | e in labels + notes
      ensures e.issue == i && (e in labels ==> e.kind == OfLabel) && (e in notes ==> e.kind == OfNote)
    {
      assert e in Elements(labels) || e in Elements(notes);
      assert e in labels ==> e in Elements(labels);
      assert e in notes ==> e in Elements(notes);
    }
    forall a, b | 0 <= a < b < |labels + notes|
      ensures (labels + notes)[a] != (labels + notes)[b]
    {
      if a < |labels| <= b {
        assert (labels + notes)[a] in labels && (labels + notes)[b] in notes;
      }
    }
    forall e | e in w0.log && e.issue == i
      ensures e in labels + notes
    {
      assert e in Elements(labels) || e in Elements(notes);
    }
  }

  lemma GrownTwice(w0: World, w1: World, w2: World)
    requires Grown(w0, w1) && Grown(w1, w2)
    ensures Grown(w0, w2)
  {
  }

  lemma GrownOnward(w0: World, w1: World, w2: World, w3: World)
    requires Grown(w0, w1) && Grown(w1, w2) && Grown(w2, w3)
    ensures Grown(w0, w2) && Grown(w0, w3)
  {
  }

  /** The listing and the fetches of one run. */
  method FetchProjectRawEvents(db: Shared, r: int, answers: Answers, schedule: nat -> seq<Action>,
                               between: nat -> seq<Action>, early: seq<Action>)
    returns (failed: bool, allEvents: seq<Event>)
    requires db.Valid() && AllForeign(early, r)
    requires forall n :: AllForeign(schedule(n), r) && AllForeign(between(n), r)
    requires r in db.world.runs && db.world.runs[r].Started?
    modifies db
    ensures db.Valid() && Grown(old(db.world), db.world) && failed == !answers.listOk
    ensures var run := old(db.world).runs[r];
            if failed then r !in db.world.runs
            else
              && At(db.world, r, run.project, run.start, {}, Elements(allEvents)) && Distinct(allEvents)
              && (forall e :: Due(old(db.world), e, run.project, run.since, answers) ==> e in allEvents)
              && (forall e :: e in allEvents ==> e in db.world.log && Recent(db.world, e.issue, run.project, run.since))
  {
    ghost var w0 := db.world;
    var project, since, start := db.world.runs[r].project, db.world.runs[r].since, db.world.runs[r].start;
    db.Interfere(early, r);
    if !answers.listOk {
      db.Do(Abort(r));
      return true, [];
    }
    var issues := db.ListedIssues(project, since);
    ghost var w := db.world;
    db.Do(ListIssues(r, Elements(issues)));
    allEvents := FetchIssues(db, r, issues, answers, schedule, between, w, project, start);
    GrownTwice(w0, w, db.world);
    DueIsListed(w0, w, project, since, issues, allEvents, answers);
    CollectedIsRecent(w, db.world, project, since, issues, allEvents, answers);
    BufferIsInLog(db.trace, r, allEvents);
    failed := false;
  }

  /** The insert loop: a failed insert skips its event. */
  method InsertEvents(db: Shared, r: int, allEvents: seq<Event>, answers: Answers, schedule: nat -> seq<Action>,
                      ghost project: int, ghost start: int)
    requires db.Valid() && Distinct(allEvents) && forall n :: AllForeign(schedule(n), r)
    requires At(db.world, r, project, start, {}, Elements(allEvents))
    modifies db
    ensures db.Valid() && Grown(old(db.world), db.world)
    ensures At(db.world, r, project, start, {}, {})
    ensures forall e :: e in allEvents && answers.insertOk(e) ==> e in db.world.bronze
  {
    ghost var w0 := db.world;
    assert allEvents[0..] == allEvents;
    for k := 0 to |allEvents|
      invariant db.Valid() && Grown(w0, db.world)
      invariant At(db.world, r, project, start, {}, Elements(allEvents[k..]))
      invariant forall e :: e in allEvents[..k] && answers.insertOk(e) ==> e in db.world.bronze
    {
      RestOf(allEvents, k);
      ghost var before := db.world;
      db.Interfere(schedule(k), r);
      ghost var w := db.world;
      db.Do(if answers.insertOk(allEvents[k]) then InsertOk(r, allEvents[k]) else InsertFails(r, allEvents[k]));
      GrownOnward(w0, before, w, db.world);
    }
    assert allEvents[..|allEvents|] == allEvents;
  }

  /**
   What one extraction that saw w0 leaves in w: it always ends its run; it succeeds exactly when nothing
   fails as a whole and both project rows exist; and then both cursors stand at its start time and
   everything that was due when it began is in Bronze.
   */
  ghost predicate Extracted(w0: World, w: World, r: int, project: int, since: int, answers: Answers, ok: bool) {
    && Grown(w0, w) && r !in w.runs
    && (ok <==> answers.listOk && answers.commitOk && project in w.rawCursor && project in w.silverCursor)
    && (ok ==> w.rawCursor[project] == w.silverCursor[project] >= w0.clock)
    && (ok ==> forall e :: Due(w0, e, project, since, answers) ==> e in w.bronze)
  }

  method ExtractProject(db: Shared, r: int, answers: Answers, schedule: nat -> nat -> seq<Action>) returns (ok: bool)
    requires db.Valid() && r in db.world.runs && db.world.runs[r].Waiting?
    requires forall m, n :: AllForeign(schedule(m)(n), r)
    modifies db
    ensures db.Valid()
    ensures Extracted(old(db.world), db.world, r, old(db.world).runs[r].project, old(db.world).runs[r].since, answers,
                      ok)
  {
    ghost var w0 := db.world;
    db.Interfere(schedule(0)(0), r);
    db.Do(Begin(r));
    ghost var begun := db.world;
    var failed, allEvents := FetchProjectRawEvents(db, r, answers, schedule(1), schedule(3), schedule(0)(1));
    if failed {
      ListingFailed(w0, begun, db.world, r, answers);
      return false;
    }
    InsertEvents(db, r, allEvents, answers, schedule(2), begun.runs[r].project, begun.runs[r].start);
    ghost var inserted := db.world;
    db.Interfere(schedule(0)(2), r);
    ghost var last := db.world;
    ok := CommitOrFail(db, r, answers);
    ExtractionEnds(w0, begun, inserted, last, db.world, r, allEvents, answers, ok);
  }

  /** The cursor update; success means that one row of each table was updated. */
  method CommitOrFail(db: Shared, r: int, answers: Answers) returns (ok: bool)
    requires db.Valid() && r in db.world.runs && db.world.runs[r].Working?
    requires db.world.runs[r].todo == {} && db.world.runs[r].buffer == {}
    modifies db
    ensures db.Valid()
    ensures db.world == Apply(old(db.world), if answers.commitOk then CommitCursor(r) else Abort(r))
    ensures ok <==> answers.commitOk && EffectiveCommit(old(db.world), CommitCursor(r))
  {
    if !answers.commitOk {
      db.Do(Abort(r));
      return false;
    }
    var project := db.world.runs[r].project;
    ok := project in db.world.rawCursor && project in db.world.silverCursor;
    db.Do(CommitCursor(r));
  }

  lemma ListingFailed(w0: World, begun: World, w: World, r: int, answers: Answers)
    requires Grown(w0, begun) && Grown(begun, w) && r in w0.runs && r !in w.runs && !answers.listOk
    ensures Extracted(w0, w, r, w0.runs[r].project, w0.runs[r].since, answers, false)
  {
    GrownTwice(w0, begun, w);
  }

  lemma ExtractionEnds(w0: World, begun: World, inserted: World, last: World, w: World, r: int,
                       events: seq<Event>, answers: Answers, ok: bool)
    requires Grown(w0, begun) && Grown(begun, inserted) && Grown(inserted, last)
    requires r in w0.runs && r in begun.runs
    requires begun.runs[r] == Started(w0.runs[r].project, w0.runs[r].since, begun.clock)
    requires At(last, r, w0.runs[r].project, begun.clock, {}, {})
    requires forall e :: Due(begun, e, w0.runs[r].project, w0.runs[r].since, answers) ==> e in events
    requires forall e :: e in events && answers.insertOk(e) ==> e in inserted.bronze
    requires answers.listOk && w == Apply(last, if answers.commitOk then CommitCursor(r) else Abort(r))
    requires ok <==> answers.commitOk && EffectiveCommit(last, CommitCursor(r))
    ensures Extracted(w0, w, r, w0.runs[r].project, w0.runs[r].since, answers, ok)
  {
    GrownOnward(w0, begun, inserted, last);
    var p, since := w0.runs[r].project, w0.runs[r].since;
    DueStays(w0, begun, p, since, answers);
    GrownTwice(begun, inserted, last);
    CommitEffect(last, w, r, answers, ok);
    GrownTwice(w0, last, w);
  }

  lemma DueStays(w0: World, w: World, project: int, since: int, answers: Answers)
    requires Grown(w0, w)
    ensures forall e :: Due(w0, e, project, since, answers) ==> Due(w, e, project, since, answers)
  {
  }

  lemma CommitEffect(last: World, w: World, r: int, answers: Answers, ok: bool)
    requires r in last.runs && last.runs[r].Working? && last.runs[r].todo == {} && last.runs[r].buffer == {}
    requires w == Apply(last, if answers.commitOk then CommitCursor(r) else Abort(r))
    requires ok <==> answers.commitOk && EffectiveCommit(last, CommitCursor(r))
    ensures Grown(last, w) && r !in w.runs
    ensures var p := last.runs[r].project;
            && (ok <==> answers.commitOk && p in w.rawCursor && p in w.silverCursor)
            && (ok ==> w.rawCursor[p] == w.silverCursor[p] == last.runs[r].start)
  {
  }

  /** Nothing is collected of issues that have not been updated since the cursor. */
  lemma CollectedIsRecent(w: World, w': World, project: int, since: int, issues: seq<IssueRef>, events: seq<Event>,
                          answers: Answers)
    requires Grown(w, w') && Listing(w, Elements(issues), project, since) && Collected(w, issues, events, answers)
    ensures forall e :: e in events ==> Recent(w', e.issue, project, since)
  {
    forall e | e in events
      ensures Recent(w', e.issue, project, since)
    {
      assert e.issue in Elements(issues);
    }
  }

  lemma BufferIsInLog(actions: seq<Action>, r: int, events: seq<Event>)
    requires var w := Exec(actions); r in w.runs && w.runs[r].Working? && w.runs[r].buffer == Elements(events)
    ensures forall e :: e in events ==> e in Exec(actions).log
  {
    ReachableRunsAreRecent(actions);
    assert RunIsRecent(Exec(actions), Exec(actions).runs[r]);
    assert forall e :: e in events ==> e in Elements(events);
  }

  lemma DueIsListed(w0: World, w: World, project: int, since: int, issues: seq<IssueRef>, events: seq<Event>,
                    answers: Answers)
    requires Grown(w0, w) && Listing(w, Elements(issues), project, since) && Collected(w, issues, events, answers)
    ensures forall e :: Due(w0, e, project, since, answers) ==> e in events
  {
    forall e | Due(w0, e, project, since, answers)
      ensures e in events
    {
      assert e.issue in Elements(issues);
    }
  }
}
