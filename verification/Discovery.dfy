/** Project discovery: collecting the projects of all groups, and persisting one of them. */
module Discovery {
  import opened Options
  import opened SyncProtocol
  import opened Workers

  datatype GitlabProject = GitlabProject(id: int, name: string, path: string)

  /** All projects of the groups in order, or the error of the first group that cannot be listed. */
  function Flatten(groups: seq<Result<seq<GitlabProject>>>): Result<seq<GitlabProject>> {
    if groups == [] then Ok([])
    else
      var n := |groups| - 1;
      match Flatten(groups[..n])
      case Err(m) => Err(m)
      case Ok(ps) =>
        match groups[n]
        case Err(m) => Err(m)
        case Ok(qs) => Ok(ps + qs)
  }

  /** How many projects the first g groups have. */
  function Start(groups: seq<Result<seq<GitlabProject>>>, g: nat): nat
    requires g <= |groups| && forall i :: 0 <= i < g ==> groups[i].Ok?
  {
    if g == 0 then 0 else Start(groups, g - 1) + |groups[g - 1].value|
  }

  /** When all groups can be listed, every project of every group is there, in its place, and nothing else. */
  lemma {:induction false} FlattenIsAll(groups: seq<Result<seq<GitlabProject>>>)
    requires forall i :: 0 <= i < |groups| ==> groups[i].Ok?
    ensures Flatten(groups).Ok? && |Flatten(groups).value| == Start(groups, |groups|)
    ensures forall g: nat, i: nat :: g < |groups| && i < |groups[g].value| ==> InPlace(groups, g, i)
  {
    FlattenIsOk(groups);
    forall g: nat, i: nat | g < |groups| && i < |groups[g].value|
      ensures InPlace(groups, g, i)
    {
      FlattenAt(groups, g, i);
    }
  }

  /** The i-th project of group g stands behind the projects of the groups before it. */
  ghost predicate InPlace(groups: seq<Result<seq<GitlabProject>>>, g: nat, i: nat)
    requires forall i :: 0 <= i < |groups| ==> groups[i].Ok?
    requires g < |groups| && i < |groups[g].value|
  {
    && Flatten(groups).Ok? && Start(groups, g) + i < |Flatten(groups).value|
    && Flatten(groups).value[Start(groups, g) + i] == groups[g].value[i]
  }

  lemma {:induction false} FlattenIsOk(groups: seq<Result<seq<GitlabProject>>>)
    requires forall i :: 0 <= i < |groups| ==> groups[i].Ok?
    ensures Flatten(groups).Ok? && |Flatten(groups).value| == Start(groups, |groups|)
  {
    if groups != [] {
      FlattenIsOk(groups[..|groups| - 1]);
      StartOfPrefix(groups, |groups| - 1, |groups| - 1);
    }
  }

  lemma {:induction false} FlattenAt(groups: seq<Result<seq<GitlabProject>>>, g: nat, i: nat)
    requires forall i :: 0 <= i < |groups| ==> groups[i].Ok?
    requires g < |groups| && i < |groups[g].value|
    ensures InPlace(groups, g, i)
  {
    var n := |groups| - 1;
    FlattenIsOk(groups[..n]);
    StartOfPrefix(groups, n, n);
    if g < n {
      FlattenAt(groups[..n], g, i);
      StartOfPrefix(groups, n, g);
    }
  }

  lemma {:induction false} StartOfPrefix(groups: seq<Result<seq<GitlabProject>>>, n: nat, g: nat)
    requires g <= n <= |groups| && forall i :: 0 <= i < g ==> groups[i].Ok?
    ensures Start(groups[..n], g) == Start(groups, g)
  {
    if g > 0 {
      StartOfPrefix(groups, n, g - 1);
    }
  }

  /** Listing fails exactly when some group cannot be listed. */
  lemma {:induction false} FlattenFailsIff(groups: seq<Result<seq<GitlabProject>>>)
    ensures Flatten(groups).Err? <==> exists i :: 0 <= i < |groups| && groups[i].Err?
  {
    if groups != [] {
      var n := |groups| - 1;
      FlattenFailsIff(groups[..n]);
      assert forall i :: 0 <= i < n ==> groups[..n][i] == groups[i];
    }
  }

  function Ids(ps: seq<GitlabProject>): set<int> {
    set p | p in ps :: p.id
  }

  /** The first project of every id. */
  function FirstById(ps: seq<GitlabProject>): seq<GitlabProject> {
    if ps == [] then []
    else
      var n := |ps| - 1;
      if ps[n].id in Ids(ps[..n]) then FirstById(ps[..n]) else FirstById(ps[..n]) + [ps[n]]
  }

  lemma Snoc(ps: seq<GitlabProject>, p: GitlabProject)
    ensures Ids(ps + [p]) == Ids(ps) + {p.id}
    ensures FirstById(ps + [p]) == if p.id in Ids(ps) then FirstById(ps) else FirstById(ps) + [p]
  {
    assert (ps + [p])[..|ps|] == ps;
    assert p in ps + [p];
    forall i | i in Ids(ps)
      ensures i in Ids(ps + [p])
    {
      var q :| q in ps && q.id == i;
      assert q in ps + [p];
    }
  }

  lemma {:induction false} NoIdIsLost(ps: seq<GitlabProject>)
    ensures Ids(FirstById(ps)) == Ids(ps)
  {
    if ps != [] {
      var front, last := ps[..|ps| - 1], ps[|ps| - 1];
      NoIdIsLost(front);
      Snoc(front, last);
      assert ps == front + [last];
      Snoc(FirstById(front), last);
    }
  }

  lemma {:induction false} NoIdTwice(ps: seq<GitlabProject>)
    ensures forall i, j :: 0 <= i < j < |FirstById(ps)| ==> FirstById(ps)[i].id != FirstById(ps)[j].id
  {
    if ps != [] {
      var front, last := ps[..|ps| - 1], ps[|ps| - 1];
      NoIdTwice(front);
      NoIdIsLost(front);
      forall i | 0 <= i < |FirstById(front)|
        ensures FirstById(front)[i].id in Ids(front)
      {
        assert FirstById(front)[i] in FirstById(front);
      }
    }
  }

  ghost predicate FirstOccurrence(ps: seq<GitlabProject>, p: GitlabProject, k: int) {
    0 <= k < |ps| && ps[k] == p && forall l :: 0 <= l < k ==> ps[l].id != p.id
  }

  /** Every project kept is the first one with its id. */
  lemma {:induction false} FirstByIdKeepsFirst(ps: seq<GitlabProject>, p: GitlabProject)
    requires p in FirstById(ps)
    ensures exists k :: FirstOccurrence(ps, p, k)
  {
    var n, front := |ps| - 1, ps[..|ps| - 1];
    if p in FirstById(front) {
      FirstByIdKeepsFirst(front, p);
      var k :| FirstOccurrence(front, p, k);
      assert FirstOccurrence(ps, p, k);
    } else {
      assert forall l :: 0 <= l < n ==> front[l] == ps[l] && ps[l].id in Ids(front);
      assert FirstOccurrence(ps, p, n);
    }
  }

  /** The projects kept stand in the order in which they were listed. */
  lemma {:induction false} FirstByIdKeepsOrder(ps: seq<GitlabProject>) returns (at: seq<nat>)
    ensures |at| == |FirstById(ps)|
    ensures forall i :: 0 <= i < |at| ==> at[i] < |ps| && FirstById(ps)[i] == ps[at[i]]
    ensures forall i, j :: 0 <= i < j < |at| ==> at[i] < at[j]
  {
    if ps == [] {
      at := [];
    } else {
      var n := |ps| - 1;
      at := FirstByIdKeepsOrder(ps[..n]);
      if ps[n].id !in Ids(ps[..n]) {
        at := at + [n];
      }
    }
  }

  lemma NextProject(all: seq<GitlabProject>, ps: seq<GitlabProject>, i: nat)
    requires i < |ps|
    ensures Ids(all + ps[..i + 1]) == Ids(all + ps[..i]) + {ps[i].id}
    ensures FirstById(all + ps[..i + 1]) ==
            FirstById(all + ps[..i]) + if ps[i].id in Ids(all + ps[..i]) then [] else [ps[i]]
  {
    Snoc(all + ps[..i], ps[i]);
    assert all + ps[..i + 1] == all + ps[..i] + [ps[i]];
  }

  /** The inner loop: the projects of one group that have not been seen. */
  method AddProjects(ps: seq<GitlabProject>, seenBefore: set<int>, resultBefore: seq<GitlabProject>,
                     ghost all: seq<GitlabProject>)
    returns (seen: set<int>, result: seq<GitlabProject>)
    requires seenBefore == Ids(all) && resultBefore == FirstById(all)
    ensures seen == Ids(all + ps) && result == FirstById(all + ps)
  {
    seen, result := seenBefore, resultBefore;
    assert all + ps[..0] == all;
    for i := 0 to |ps|
      invariant seen == Ids(all + ps[..i]) && result == FirstById(all + ps[..i])
    {
      NextProject(all, ps, i);
      if ps[i].id !in seen {
        seen := seen + {ps[i].id};
        result := result + [ps[i]];
      }
    }
    assert ps[..|ps|] == ps;
  }

  method FetchAllGroupProjects(groups: seq<Result<seq<GitlabProject>>>) returns (r: Result<seq<GitlabProject>>)
    ensures match Flatten(groups)
            case Ok(ps) => r == Ok(FirstById(ps))
            case Err(m) => r == Err(m)
  {
    var seen: set<int> := {};
    var result: seq<GitlabProject> := [];
    ghost var all: seq<GitlabProject> := [];
    for g := 0 to |groups|
      invariant Flatten(groups[..g]) == Ok(all)
      invariant seen == Ids(all) && result == FirstById(all)
    {
      assert groups[..g + 1][..g] == groups[..g];
      if groups[g].Err? {
        FirstErrorWins(groups, g);
        return groups[g];
      }
      seen, result := AddProjects(groups[g].value, seen, result, all);
      all := all + groups[g].value;
    }
    assert groups[..|groups|] == groups;
    return Ok(result);
  }

  lemma {:induction false} FirstErrorWins(groups: seq<Result<seq<GitlabProject>>>, g: nat)
    requires g < |groups| && groups[g].Err? && Flatten(groups[..g]).Ok?
    ensures Flatten(groups) == Err(groups[g].message)
  {
    var n := |groups| - 1;
    if g == n {
      assert groups[..g] == groups[..n];
    } else {
      assert groups[..n][..g] == groups[..g];
      FirstErrorWins(groups[..n], g);
    }
  }

  datatype Failure = NoFailure | ReadFails | RawUpsertFails | SilverUpsertFails

  /** Reads the Silver cursor and upserts both rows; other work may come between the three statements. */
  method PersistProject(db: Shared, d: int, project: int, failure: Failure, schedule: nat -> seq<Action>)
    returns (ok: bool)
    requires db.Valid() && d !in db.world.discoveries && forall n :: AllForeign(schedule(n), d)
    modifies db
    ensures db.Valid() && Grown(old(db.world), db.world) && d !in db.world.discoveries
    ensures ok <==> failure.NoFailure?
    ensures ok || failure.SilverUpsertFails? ==> project in db.world.rawCursor
    ensures ok ==> project in db.world.silverCursor
  {
    ghost var w0 := db.world;
    db.Interfere(schedule(0), d);
    if failure.ReadFails? {
      return false;
    }
    ghost var w1 := db.world;
    db.Do(DiscoverRead(d, project));
    ok := PersistRows(db, d, project, failure, schedule);
    GrownTwice(w0, w1, db.world);
  }

  /** The Bronze upsert and then the Silver upsert. */
  method PersistRows(db: Shared, d: int, project: int, failure: Failure, schedule: nat -> seq<Action>)
    returns (ok: bool)
    requires db.Valid() && AllForeign(schedule(1), d) && AllForeign(schedule(2), d)
    requires d in db.world.discoveries
    requires db.world.discoveries[d].CursorRead? && db.world.discoveries[d].project == project
    requires !failure.ReadFails?
    modifies db
    ensures db.Valid() && Grown(old(db.world), db.world) && d !in db.world.discoveries
    ensures ok <==> failure.NoFailure?
    ensures ok || failure.SilverUpsertFails? ==> project in db.world.rawCursor
    ensures ok ==> project in db.world.silverCursor
  {
    ghost var w0 := db.world;
    db.Interfere(schedule(1), d);
    ghost var w1 := db.world;
    if failure.RawUpsertFails? {
      db.Do(DiscoverAbort(d));
      GrownTwice(w0, w1, db.world);
      return false;
    }
    db.Do(DiscoverRaw(d));
    ghost var w2 := db.world;
    GrownTwice(w0, w1, w2);
    ok := PersistSilver(db, d, project, failure, schedule(2));
    GrownTwice(w0, w2, db.world);
  }

  method PersistSilver(db: Shared, d: int, project: int, failure: Failure, others: seq<Action>) returns (ok: bool)
    requires db.Valid() && AllForeign(others, d)
    requires d in db.world.discoveries
    requires db.world.discoveries[d].RawUpserted? && db.world.discoveries[d].project == project
    requires failure.SilverUpsertFails? || failure.NoFailure?
    modifies db
    ensures db.Valid() && Grown(old(db.world), db.world) && d !in db.world.discoveries
    ensures ok <==> failure.NoFailure?
    ensures ok ==> project in db.world.silverCursor
  {
    ghost var w0 := db.world;
    db.Interfere(others, d);
    ghost var w1 := db.world;
    ok := failure.NoFailure?;
    db.Do(if ok then DiscoverSilver(d) else DiscoverAbort(d));
    GrownTwice(w0, w1, db.world);
  }
}
