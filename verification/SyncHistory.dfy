/**
 Where the state of the sync comes from: the cursor a run starts from, the events it may insert, and the actions
 behind every event in the log, in Bronze and among the lost ones.
 */
module SyncHistory {
  import opened SyncProtocol

  /** The world before the n-th action. */
  ghost function Before(actions: seq<Action>, n: int): World
    requires 0 <= n <= |actions|
  {
    Exec(actions[..n])
  }

  lemma BeforeSnoc(actions: seq<Action>, a: Action)
    ensures Exec(actions + [a]) == Apply(Exec(actions), a) && Before(actions + [a], |actions|) == Exec(actions)
    ensures forall n :: 0 <= n <= |actions| ==> Before(actions + [a], n) == Before(actions, n)
  {
    ExecSnoc(actions, a);
    assert (actions + [a])[..|actions|] == actions;
    assert forall n :: 0 <= n <= |actions| ==> (actions + [a])[..n] == actions[..n];
  }

  // ---- The cursor of a run ----

  /** The n-th action read the cursor of the run's project, and this is what it read. */
  ghost predicate ReadAt(actions: seq<Action>, n: int, r: int, run: Run) {
    0 <= n < |actions| && actions[n] == ReadCursor(r, run.project) &&
    var raw := Before(actions, n).rawCursor;
    run.project in raw && raw[run.project] == run.since
  }

  ghost predicate HasRead(actions: seq<Action>, r: int, run: Run) {
    exists n :: ReadAt(actions, n, r, run)
  }

  lemma HasReadStays(actions: seq<Action>, a: Action, r: int, run: Run)
    requires HasRead(actions, r, run)
    ensures HasRead(actions + [a], r, run)
  {
    var n :| ReadAt(actions, n, r, run);
    BeforeSnoc(actions, a);
    assert ReadAt(actions + [a], n, r, run);
  }

  /** A run keeps its project and its cursor. */
  lemma RunKeepsCursor(w: World, a: Action, r: int)
    requires r in Apply(w, a).runs && r in w.runs
    ensures Apply(w, a).runs[r].project == w.runs[r].project && Apply(w, a).runs[r].since == w.runs[r].since
  {
  }

  lemma NewRunHasRead(w: World, a: Action, r: int)
    requires r in Apply(w, a).runs && r !in w.runs
    ensures var run := Apply(w, a).runs[r];
            a == ReadCursor(r, run.project) && run.project in w.rawCursor && run.since == w.rawCursor[run.project]
  {
  }

  /** For every interleaving: a run extracts from the cursor that was stored when it read its project row. */
  lemma {:induction false} RunsStartAtTheirCursor(actions: seq<Action>, r: int)
    requires r in Exec(actions).runs
    ensures HasRead(actions, r, Exec(actions).runs[r])
  {
    if actions != [] {
      var front, a := actions[..|actions| - 1], actions[|actions| - 1];
      var w := Exec(front);
      assert actions == front + [a];
      BeforeSnoc(front, a);
      if r in w.runs {
        RunsStartAtTheirCursor(front, r);
        RunKeepsCursor(w, a, r);
        HasReadStays(front, a, r, w.runs[r]);
        var n :| ReadAt(actions, n, r, w.runs[r]);
        assert ReadAt(actions, n, r, Exec(actions).runs[r]);
      } else {
        NewRunHasRead(w, a, r);
        assert ReadAt(actions, |front|, r, Exec(actions).runs[r]);
      }
    }
  }

  ghost predicate SinceIsCursor(w: World) {
    forall r :: r in w.runs ==>
      w.runs[r].project in w.rawCursor && w.runs[r].since == w.rawCursor[w.runs[r].project]
  }

  lemma SinceStaysCursor(w: World, a: Action)
    requires CursorInv(w) && Exclusive(w, a) && SinceIsCursor(w)
    ensures SinceIsCursor(Apply(w, a))
  {
    var w' := Apply(w, a);
    forall r | r in w'.runs
      ensures w'.runs[r].project in w'.rawCursor && w'.runs[r].since == w'.rawCursor[w'.runs[r].project]
    {
      if r in w.runs {
        RunKeepsCursor(w, a, r);
        OtherCursorsStay(w, a, r);
      } else {
        NewRunHasRead(w, a, r);
      }
    }
  }

  /** While a run is under way, no other one moves the cursor of its project. */
  lemma OtherCursorsStay(w: World, a: Action, r: int)
    requires OneRunPerProject(w) && r in w.runs && r in Apply(w, a).runs && w.runs[r].project in w.rawCursor
    ensures w.runs[r].project in Apply(w, a).rawCursor
    ensures Apply(w, a).rawCursor[w.runs[r].project] == w.rawCursor[w.runs[r].project]
  {
  }

  /** Without overlap a run under way always extracts from the cursor that is stored. */
  lemma {:induction false} SyncIsIncremental(actions: seq<Action>)
    requires NonOverlapping(actions)
    ensures SinceIsCursor(Exec(actions))
  {
    if actions != [] {
      var front := actions[..|actions| - 1];
      SyncIsIncremental(front);
      CursorsMoveInLockstep(front);
      SinceStaysCursor(Exec(front), actions[|actions| - 1]);
    }
  }

  // ---- What a run may insert ----

  /** The issue was updated less than a second before the cursor, or later. */
  predicate Recent(w: World, i: IssueRef, project: int, since: int) {
    i in w.updatedAt && i.project == project && w.updatedAt[i] > since - 1000
  }

  ghost predicate AllRecent(w: World, events: set<Event>, project: int, since: int) {
    forall e :: e in events ==> e in w.log && Recent(w, e.issue, project, since)
  }

  /** Whatever a run still has to fetch, insert or give up belongs to issues of its project updated since its cursor. */
  ghost predicate RunIsRecent(w: World, run: Run) {
    run.Working? ==>
      && (forall i :: i in run.todo ==> Recent(w, i, run.project, run.since))
      && run.labels.Keys <= run.todo
      && (forall i :: i in run.labels ==> run.labels[i] <= EventsOf(w, i))
      && AllRecent(w, run.buffer, run.project, run.since)
      && AllRecent(w, run.hit, run.project, run.since)
  }

  ghost predicate RunsAreRecent(w: World) {
    forall r :: r in w.runs ==> RunIsRecent(w, w.runs[r])
  }

  ghost predicate LaterGitLab(w: World, w': World) {
    w.log <= w'.log && forall i :: i in w.updatedAt ==> i in w'.updatedAt && w.updatedAt[i] <= w'.updatedAt[i]
  }

  lemma GitLabOnlyGrows(w: World, a: Action)
    requires ClocksAgree(w)
    ensures LaterGitLab(w, Apply(w, a))
  {
  }

  lemma RecentStays(w: World, w': World, run: Run)
    requires LaterGitLab(w, w') && RunIsRecent(w, run)
    ensures RunIsRecent(w', run)
  {
  }

  lemma FetchKeepsRecent(w: World, a: Action)
    requires (a.FetchLabels? || a.FetchNotes? || a.FetchFails?) && a.run in w.runs && RunIsRecent(w, w.runs[a.run])
    ensures a.run in Apply(w, a).runs && RunIsRecent(Apply(w, a), Apply(w, a).runs[a.run])
  {
  }

  lemma OtherRunActionKeepsRecent(w: World, a: Action)
    requires RunAction(a) && !a.FetchLabels? && !a.FetchNotes? && !a.FetchFails?
    requires a.run in w.runs ==> RunIsRecent(w, w.runs[a.run])
    ensures a.run in Apply(w, a).runs ==> RunIsRecent(Apply(w, a), Apply(w, a).runs[a.run])
  {
  }

  lemma RunActionKeepsRecent(w: World, a: Action)
    requires RunAction(a) && RunsAreRecent(w) && a.run in Apply(w, a).runs
    ensures RunIsRecent(Apply(w, a), Apply(w, a).runs[a.run])
  {
    if a.FetchLabels? || a.FetchNotes? || a.FetchFails? {
      assert a.run in w.runs;
      FetchKeepsRecent(w, a);
    } else {
      OtherRunActionKeepsRecent(w, a);
    }
  }

  lemma ApplyKeepsRecent(w: World, a: Action)
    requires ClocksAgree(w) && RunsAreRecent(w)
    ensures RunsAreRecent(Apply(w, a))
  {
    var w' := Apply(w, a);
    GitLabOnlyGrows(w, a);
    forall r | r in w'.runs
      ensures RunIsRecent(w', w'.runs[r])
    {
      if RunAction(a) && r == a.run {
        RunActionKeepsRecent(w, a);
      } else {
        if RunAction(a) {
          RunActionsTouchOneRun(w, a, r);
        } else {
          OnlyRunActionsTouchRuns(w, a);
        }
        RecentStays(w, w', w.runs[r]);
      }
    }
  }

  lemma {:induction false} ReachableRunsAreRecent(actions: seq<Action>)
    ensures RunsAreRecent(Exec(actions))
  {
    if actions != [] {
      var front := actions[..|actions| - 1];
      ReachableRunsAreRecent(front);
      ReachableInv(front);
      ApplyKeepsRecent(Exec(front), actions[|actions| - 1]);
    }
  }

  // ---- The actions behind the events ----

  /** The action takes the event out of the run's buffer. */
  predicate TakesOut(w: World, a: Action, e: Event) {
    && ((a.InsertOk? || a.InsertFails?) && a.event == e)
    && a.run in w.runs && w.runs[a.run].Working? && w.runs[a.run].todo == {} && e in w.runs[a.run].buffer
  }

  /** The n-th action inserts the event. */
  ghost predicate InsertedAt(actions: seq<Action>, n: int, e: Event) {
    0 <= n < |actions| && actions[n].InsertOk? && TakesOut(Before(actions, n), actions[n], e)
  }

  /** The n-th action of GitLab brings the event. */
  predicate CreatedAt(actions: seq<Action>, n: int, e: Event) {
    && 0 <= n < |actions| && actions[n].GitLabChange? && actions[n].issue == e.issue
    && e.id in if e.kind.OfLabel? then actions[n].labelEvents else actions[n].notes
  }

  /** Bronze holds the events that some run inserted. */
  lemma {:induction false} BronzeIsInserted(actions: seq<Action>, e: Event)
    ensures e in Exec(actions).bronze <==> exists n :: InsertedAt(actions, n, e)
  {
    if actions != [] {
      var front, a := actions[..|actions| - 1], actions[|actions| - 1];
      assert actions == front + [a];
      BronzeIsInserted(front, e);
      BeforeSnoc(front, a);
      BronzeGrowsByInserts(Exec(front), a, e);
      if n :| InsertedAt(actions, n, e) {
        assert n < |front| ==> InsertedAt(front, n, e);
      }
      if n :| InsertedAt(front, n, e) {
        assert InsertedAt(actions, n, e);
      }
      if a.InsertOk? && TakesOut(Exec(front), a, e) {
        assert InsertedAt(actions, |front|, e);
      }
    }
  }

  lemma BronzeGrowsByInserts(w: World, a: Action, e: Event)
    ensures e in Apply(w, a).bronze <==> e in w.bronze || (a.InsertOk? && TakesOut(w, a, e))
  {
  }

  /** What is inserted is an event GitLab has, of an issue of the run's project updated since the run's cursor. */
  lemma OnlyRecentIsInserted(actions: seq<Action>, n: int, e: Event)
    requires InsertedAt(actions, n, e)
    ensures var w := Before(actions, n);
            var run := w.runs[actions[n].run];
            e in w.log && Recent(w, e.issue, run.project, run.since)
  {
    ReachableRunsAreRecent(actions[..n]);
  }

  /** The log holds what GitLab brought. */
  lemma {:induction false} LogIsCreated(actions: seq<Action>, e: Event)
    ensures e in Exec(actions).log <==> exists n :: CreatedAt(actions, n, e)
  {
    if actions != [] {
      var front, a := actions[..|actions| - 1], actions[|actions| - 1];
      assert actions == front + [a];
      LogIsCreated(front, e);
      BeforeSnoc(front, a);
      LogGrowsByChanges(Exec(front), a, e);
      if n :| CreatedAt(actions, n, e) {
        assert n < |front| ==> CreatedAt(front, n, e);
      }
      if n :| CreatedAt(front, n, e) {
        assert CreatedAt(actions, n, e);
      }
      if CreatedAt([a], 0, e) {
        assert CreatedAt(actions, |front|, e);
      }
    }
  }

  lemma LogGrowsByChanges(w: World, a: Action, e: Event)
    ensures e in Apply(w, a).log <==> e in w.log || CreatedAt([a], 0, e)
  {
  }

  // ---- Lost events ----

  /** The n-th action is a failed fetch of the event's issue, or a failed insert of the event, in run r. */
  ghost predicate FailedAt(actions: seq<Action>, n: int, r: int, e: Event) {
    0 <= n < |actions| && (actions[n] == FetchFails(r, e.issue) || actions[n] == InsertFails(r, e))
  }

  ghost predicate HasFailed(actions: seq<Action>, r: int, e: Event) {
    exists n :: FailedAt(actions, n, r, e)
  }

  lemma FailedSnoc(actions: seq<Action>, a: Action, r: int, e: Event)
    requires HasFailed(actions, r, e) || a == FetchFails(r, e.issue) || a == InsertFails(r, e)
    ensures HasFailed(actions + [a], r, e)
  {
    if n :| FailedAt(actions, n, r, e) {
      assert FailedAt(actions + [a], n, r, e);
    } else {
      assert FailedAt(actions + [a], |actions|, r, e);
    }
  }

  ghost predicate HitIn(w: World, r: int, e: Event) {
    r in w.runs && w.runs[r].Working? && e in w.runs[r].hit
  }

  lemma OwnHitGrows(w: World, a: Action, e: Event)
    requires RunAction(a) && HitIn(Apply(w, a), a.run, e)
    ensures HitIn(w, a.run, e) || a == FetchFails(a.run, e.issue) || a == InsertFails(a.run, e)
  {
  }

  lemma HitGrowsByFailures(w: World, a: Action, r: int, e: Event)
    requires HitIn(Apply(w, a), r, e)
    ensures HitIn(w, r, e) || a == FetchFails(r, e.issue) || a == InsertFails(r, e)
  {
    if !RunAction(a) {
      OnlyRunActionsTouchRuns(w, a);
    } else if a.run != r {
      RunActionsTouchOneRun(w, a, r);
    } else {
      OwnHitGrows(w, a, e);
    }
  }

  lemma LostGrowsByCommits(w: World, a: Action, e: Event)
    requires e in Apply(w, a).lost && e !in w.lost
    ensures EffectiveCommit(w, a) && e in w.runs[a.run].hit
  {
  }

  lemma {:induction false} HitHasFailed(actions: seq<Action>, r: int, e: Event)
    requires HitIn(Exec(actions), r, e)
    ensures HasFailed(actions, r, e)
  {
    if actions != [] {
      var front, a := actions[..|actions| - 1], actions[|actions| - 1];
      assert actions == front + [a];
      BeforeSnoc(front, a);
      HitGrowsByFailures(Exec(front), a, r, e);
      if a != FetchFails(r, e.issue) && a != InsertFails(r, e) {
        HitHasFailed(front, r, e);
      }
      FailedSnoc(front, a, r, e);
    }
  }

  /** The n-th action commits a run in which the event had failed before. */
  ghost predicate GivenUpAt(actions: seq<Action>, n: int, e: Event) {
    && 0 <= n < |actions| && EffectiveCommit(Before(actions, n), actions[n])
    && HasFailed(actions[..n], actions[n].run, e)
  }

  /** An event counts as lost only when a fetch of its issue or its insert failed in a run that went on to commit. */
  lemma {:induction false} LostHasFailed(actions: seq<Action>, e: Event) returns (n: int)
    requires e in Exec(actions).lost
    ensures GivenUpAt(actions, n, e)
  {
    var front, a := actions[..|actions| - 1], actions[|actions| - 1];
    assert actions == front + [a];
    BeforeSnoc(front, a);
    if e in Exec(front).lost {
      n := LostHasFailed(front, e);
      assert actions[..n] == front[..n];
    } else {
      n := |front|;
      LostGrowsByCommits(Exec(front), a, e);
      HitHasFailed(front, a.run, e);
      assert actions[..n] == front;
    }
  }
}
