/**
 The incremental sync protocol: GitLab changes, extraction runs and discovery runs, interleaved
 one atomic action at a time. Timestamps are integer milliseconds on one clock.
 */
module SyncProtocol {
  import opened Folds

  const EPOCH := 0

  datatype IssueRef = IssueRef(project: int, iid: int)

  datatype Kind = OfLabel | OfNote

  /** A label event or a note; ids are given per kind. */
  datatype Event = Event(issue: IssueRef, kind: Kind, id: int)

  /** An extraction of one project that has advanced the cursor. */
  datatype Commit = Commit(project: int, start: int)

  /**
   An extraction run. It knows the cursor read with the project row; then it takes its start time;
   then it works off the issues listed: `labels` holds the label events of issues whose notes are still
   to be fetched, `buffer` the events waiting to be inserted, `hit` those of failed fetches and inserts.
   */
  datatype Run =
    | Waiting(project: int, since: int)
    | Started(project: int, since: int, start: int)
    | Working(project: int, since: int, start: int, todo: set<IssueRef>, labels: map<IssueRef, set<Event>>,
              buffer: set<Event>, hit: set<Event>)

  /** A discovery of one project: after reading the Silver cursor, and after the Bronze upsert. */
  datatype Discovery = CursorRead(project: int, silverCursor: int) | RawUpserted(project: int, silverCursor: int)

  datatype World = World(
    clock: int,
    updatedAt: map<IssueRef, int>,
    log: set<Event>,
    bronze: set<Event>,
    lost: set<Event>,
    rawCursor: map<int, int>,
    silverCursor: map<int, int>,
    commits: seq<Commit>,
    runs: map<int, Run>,
    discoveries: map<int, Discovery>)

  const START := World(EPOCH, map[], {}, {}, {}, map[], map[], [], map[], map[])

  datatype Action =
    | Tick(elapsed: nat)
    | GitLabChange(issue: IssueRef, labelEvents: set<int>, notes: set<int>)
    | ReadCursor(run: int, project: int)
    | Begin(run: int)
    | ListIssues(run: int, listed: set<IssueRef>)
    | FetchLabels(run: int, issue: IssueRef)
    | FetchNotes(run: int, issue: IssueRef)
    | FetchFails(run: int, issue: IssueRef)
    | InsertOk(run: int, event: Event)
    | InsertFails(run: int, event: Event)
    | CommitCursor(run: int)
    | Abort(run: int)
    | DiscoverRead(discovery: int, project: int)
    | DiscoverRaw(discovery: int)
    | DiscoverSilver(discovery: int)
    | DiscoverAbort(discovery: int)

  function EventsOf(w: World, i: IssueRef): set<Event> {
    set e | e in w.log && e.issue == i
  }

  function EventsOfKind(w: World, i: IssueRef, kind: Kind): set<Event> {
    set e | e in w.log && e.issue == i && e.kind == kind
  }

  function Added(i: IssueRef, kind: Kind, ids: set<int>): set<Event> {
    set id | id in ids :: Event(i, kind, id)
  }

  /** The API takes the cursor in whole seconds. */
  function WholeSecond(t: int): int {
    t - t % 1000
  }

  /** Everything in the project that was updated at or after the cursor, and nothing older than its whole second. */
  predicate Listing(w: World, listed: set<IssueRef>, project: int, since: int) {
    && (forall i :: i in listed ==> i in w.updatedAt && i.project == project && w.updatedAt[i] >= WholeSecond(since))
    && (forall i :: i in w.updatedAt && i.project == project && w.updatedAt[i] >= since ==> i in listed)
  }

  function Max(a: int, b: int): int {
    if a >= b then a else b
  }

  function SetRun(w: World, r: int, run: Run): World {
    w.(runs := w.runs[r := run])
  }

  function WithLabels(w: World, run: Run, i: IssueRef): Run
    requires run.Working?
  {
    run.(labels := run.labels[i := EventsOfKind(w, i, OfLabel)])
  }

  /** The second call of an issue: its label events and notes are complete. */
  function WithNotes(w: World, run: Run, i: IssueRef): Run
    requires run.Working? && i in run.labels
  {
    run.(todo := run.todo - {i}, labels := run.labels - {i},
         buffer := run.buffer + run.labels[i] + EventsOfKind(w, i, OfNote))
  }

  /** Either call failed: nothing of the issue is kept. */
  function WithoutIssue(w: World, run: Run, i: IssueRef): Run
    requires run.Working?
  {
    run.(todo := run.todo - {i}, labels := run.labels - {i}, hit := run.hit + EventsOf(w, i))
  }

  /** Both cursors move, or neither does. */
  function CommitRun(w: World, r: int): World
    requires r in w.runs && w.runs[r].Working?
  {
    var run, ended := w.runs[r], w.(runs := w.runs - {r});
    if run.project in w.rawCursor && run.project in w.silverCursor then
      ended.(rawCursor := w.rawCursor[run.project := run.start],
             silverCursor := w.silverCursor[run.project := run.start],
             commits := w.commits + [Commit(run.project, run.start)],
             lost := w.lost + run.hit)
    else ended
  }

  /** The Bronze upsert keeps an existing cursor. */
  function UpsertRaw(w: World, p: int): map<int, int> {
    if p in w.rawCursor then w.rawCursor else w.rawCursor[p := EPOCH]
  }

  /** The Silver upsert keeps the greater cursor. */
  function UpsertSilver(w: World, p: int, cursor: int): map<int, int> {
    w.silverCursor[p := if p in w.silverCursor then Max(w.silverCursor[p], cursor) else cursor]
  }

  function ApplyRawUpsert(w: World, d: int): World
    requires d in w.discoveries && w.discoveries[d].CursorRead?
  {
    var p, v := w.discoveries[d].project, w.discoveries[d].silverCursor;
    w.(discoveries := w.discoveries[d := RawUpserted(p, v)], rawCursor := UpsertRaw(w, p))
  }

  function ApplySilverUpsert(w: World, d: int): World
    requires d in w.discoveries && w.discoveries[d].RawUpserted?
  {
    w.(discoveries := w.discoveries - {d},
       silverCursor := UpsertSilver(w, w.discoveries[d].project, w.discoveries[d].silverCursor))
  }

  /** What a discovery reads: the Silver cursor, or the epoch when there is no row. */
  function SilverCursor(w: World, p: int): int {
    if p in w.silverCursor then w.silverCursor[p] else EPOCH
  }

  /** One atomic action; an action that is not possible changes nothing. */
  function Apply(w: World, a: Action): World {
    match a
    case Tick(elapsed) => w.(clock := w.clock + elapsed)
    case GitLabChange(i, labelEvents, notes) =>
      w.(updatedAt := w.updatedAt[i := w.clock],
         log := w.log + Added(i, OfLabel, labelEvents) + Added(i, OfNote, notes))
    case ReadCursor(r, p) =>
      if r !in w.runs && p in w.rawCursor then SetRun(w, r, Waiting(p, w.rawCursor[p])) else w
    case Begin(r) =>
      if r in w.runs && w.runs[r].Waiting?
      then SetRun(w, r, Started(w.runs[r].project, w.runs[r].since, w.clock)) else w
    case ListIssues(r, listed) =>
      if r in w.runs && w.runs[r].Started? && Listing(w, listed, w.runs[r].project, w.runs[r].since)
      then SetRun(w, r, Working(w.runs[r].project, w.runs[r].since, w.runs[r].start, listed, map[], {}, {})) else w
    case FetchLabels(r, i) =>
      if r in w.runs && w.runs[r].Working? && i in w.runs[r].todo
      then SetRun(w, r, WithLabels(w, w.runs[r], i)) else w
    case FetchNotes(r, i) =>
      if r in w.runs && w.runs[r].Working? && i in w.runs[r].todo && i in w.runs[r].labels
      then SetRun(w, r, WithNotes(w, w.runs[r], i)) else w
    case FetchFails(r, i) =>
      if r in w.runs && w.runs[r].Working? && i in w.runs[r].todo
      then SetRun(w, r, WithoutIssue(w, w.runs[r], i)) else w
    case InsertOk(r, e) =>
      if r in w.runs && w.runs[r].Working? && w.runs[r].todo == {} && e in w.runs[r].buffer
      then SetRun(w, r, w.runs[r].(buffer := w.runs[r].buffer - {e})).(bronze := w.bronze + {e}) else w
    case InsertFails(r, e) =>
      if r in w.runs && w.runs[r].Working? && w.runs[r].todo == {} && e in w.runs[r].buffer
      then SetRun(w, r, w.runs[r].(buffer := w.runs[r].buffer - {e}, hit := w.runs[r].hit + {e})) else w
    case CommitCursor(r) =>
      if r in w.runs && w.runs[r].Working? && w.runs[r].todo == {} && w.runs[r].buffer == {} then CommitRun(w, r) else w
    case Abort(r) => w.(runs := w.runs - {r})
    case DiscoverRead(d, p) =>
      if d in w.discoveries then w
      else w.(discoveries := w.discoveries[d := CursorRead(p, SilverCursor(w, p))])
    case DiscoverRaw(d) =>
      if d in w.discoveries && w.discoveries[d].CursorRead? then ApplyRawUpsert(w, d) else w
    case DiscoverSilver(d) =>
      if d in w.discoveries && w.discoveries[d].RawUpserted? then ApplySilverUpsert(w, d) else w
    case DiscoverAbort(d) => w.(discoveries := w.discoveries - {d})
  }

  function Applier(): (World, Action) -> World {
    (w, a) => Apply(w, a)
  }

  function Exec(actions: seq<Action>): World {
    Fold(Applier(), START, actions)
  }

  // ---- Cursor safety ----

  /** The action is a commit of a run that is ready for it and whose project has both rows. */
  predicate EffectiveCommit(w: World, a: Action) {
    && a.CommitCursor?
    && a.run in w.runs && w.runs[a.run].Working? && w.runs[a.run].todo == {} && w.runs[a.run].buffer == {}
    && w.runs[a.run].project in w.rawCursor && w.runs[a.run].project in w.silverCursor
  }

  /** GitLab holds the event, Bronze does not, and no committed run has failed on it. */
  predicate Missing(w: World, e: Event) {
    e in w.log && e !in w.bronze && e !in w.lost
  }

  ghost predicate Committed(w: World, p: int, t: int) {
    t == EPOCH || Commit(p, t) in w.commits
  }

  ghost predicate ClocksAgree(w: World) {
    && EPOCH <= w.clock
    && (forall i :: i in w.updatedAt ==> EPOCH <= w.updatedAt[i] <= w.clock)
    && (forall e :: e in w.log ==> e.issue in w.updatedAt)
    && (forall c :: c in w.commits ==> EPOCH <= c.start <= w.clock)
  }

  /** An issue with a missing event was updated at or after every committed start of its project. */
  ghost predicate MissingIsRecent(w: World) {
    forall e, c :: Missing(w, e) && c in w.commits && c.project == e.issue.project && e.issue in w.updatedAt ==>
      w.updatedAt[e.issue] >= c.start
  }

  /** A missing event is too new for the run, still to be fetched, still to be inserted, or was hit by a failure. */
  ghost predicate RunCovers(w: World, run: Run) {
    run.Working? ==>
      forall e :: Missing(w, e) && e.issue.project == run.project && e.issue in w.updatedAt ==>
        w.updatedAt[e.issue] >= run.start || e.issue in run.todo || e in run.buffer || e in run.hit
  }

  /** A missing label event of an issue whose label events have been fetched came later, or is among those fetched. */
  ghost predicate LabelsCover(w: World, run: Run) {
    run.Working? ==>
      forall e :: Missing(w, e) && e.kind == OfLabel && e.issue in run.labels && e.issue in w.updatedAt ==>
        w.updatedAt[e.issue] >= run.start || e in run.labels[e.issue]
  }

  ghost predicate RunInv(w: World, run: Run) {
    && Committed(w, run.project, run.since)
    && (!run.Waiting? ==> EPOCH <= run.start <= w.clock)
    && RunCovers(w, run) && LabelsCover(w, run)
  }

  ghost predicate Inv(w: World) {
    && ClocksAgree(w)
    && MissingIsRecent(w)
    && (forall p :: p in w.rawCursor ==> Committed(w, p, w.rawCursor[p]))
    && (forall r :: r in w.runs ==> RunInv(w, w.runs[r]))
  }

  /** Nothing becomes missing and no commit is forgotten. */
  ghost predicate SameLog(w: World, w': World) {
    && w'.log == w.log && w'.updatedAt == w.updatedAt
    && w.bronze <= w'.bronze && w.lost <= w'.lost
    && w.commits <= w'.commits && w.clock <= w'.clock
  }

  lemma RunInvStays(w: World, w': World, run: Run)
    requires SameLog(w, w') && RunInv(w, run)
    ensures RunInv(w', run)
  {
    assert forall e :: Missing(w', e) ==> Missing(w, e);
    assert forall c :: c in w.commits ==> c in w'.commits;
  }

  /** What an action without a commit has to keep. */
  lemma SameLogKeepsInv(w: World, w': World)
    requires Inv(w) && SameLog(w, w') && w'.commits == w.commits
    requires forall p :: p in w'.rawCursor ==>
               (p in w.rawCursor && w'.rawCursor[p] == w.rawCursor[p]) || w'.rawCursor[p] == EPOCH
    requires forall r :: r in w'.runs ==> (r in w.runs && w'.runs[r] == w.runs[r]) || RunInv(w', w'.runs[r])
    ensures Inv(w')
  {
    assert forall e :: Missing(w', e) ==> Missing(w, e);
    forall r | r in w'.runs
      ensures RunInv(w', w'.runs[r])
    {
      if r in w.runs && w'.runs[r] == w.runs[r] {
        RunInvStays(w, w', w.runs[r]);
      }
    }
  }

  lemma GitLabChangeKeepsRun(w: World, i: IssueRef, labelEvents: set<int>, notes: set<int>, run: Run)
    requires Inv(w) && RunInv(w, run)
    ensures RunInv(Apply(w, GitLabChange(i, labelEvents, notes)), run)
  {
    var w' := Apply(w, GitLabChange(i, labelEvents, notes));
    assert forall e :: Missing(w', e) && e.issue != i ==> Missing(w, e);
  }

  lemma GitLabChangeKeepsInv(w: World, i: IssueRef, labelEvents: set<int>, notes: set<int>)
    requires Inv(w)
    ensures Inv(Apply(w, GitLabChange(i, labelEvents, notes)))
  {
    var w' := Apply(w, GitLabChange(i, labelEvents, notes));
    assert forall e :: Missing(w', e) && e.issue != i ==> Missing(w, e);
    forall r | r in w'.runs
      ensures RunInv(w', w'.runs[r])
    {
      GitLabChangeKeepsRun(w, i, labelEvents, notes, w.runs[r]);
    }
  }

  lemma ListingCovers(w: World, r: int, listed: set<IssueRef>)
    requires Inv(w) && r in w.runs && w.runs[r].Started? && Listing(w, listed, w.runs[r].project, w.runs[r].since)
    ensures Inv(Apply(w, ListIssues(r, listed)))
  {
    var w', run := Apply(w, ListIssues(r, listed)), w.runs[r];
    assert RunInv(w, run);
    forall e | Missing(w', e) && e.issue.project == run.project && e.issue in w.updatedAt
      ensures e.issue in listed
    {
      assert Missing(w, e);
      assert run.since != EPOCH ==> Commit(run.project, run.since) in w.commits;
    }
    SameLogKeepsInv(w, w');
  }

  lemma LabelsKeepInv(w: World, r: int, i: IssueRef)
    requires Inv(w) && r in w.runs && w.runs[r].Working? && i in w.runs[r].todo
    ensures Inv(Apply(w, FetchLabels(r, i)))
  {
    var w', run := Apply(w, FetchLabels(r, i)), w.runs[r];
    assert RunInv(w, run);
    assert forall e :: Missing(w', e) <==> Missing(w, e);
    assert RunInv(w', w'.runs[r]);
    SameLogKeepsInv(w, w');
  }

  lemma FetchKeepsInv(w: World, r: int, i: IssueRef, a: Action)
    requires Inv(w) && r in w.runs && w.runs[r].Working? && i in w.runs[r].todo
    requires (a == FetchNotes(r, i) && i in w.runs[r].labels) || a == FetchFails(r, i)
    ensures Inv(Apply(w, a))
  {
    var w', run := Apply(w, a), w.runs[r];
    assert RunInv(w, run);
    forall e | Missing(w', e) && e.issue.project == run.project && e.issue in w.updatedAt
      ensures var run' := w'.runs[r];
              w.updatedAt[e.issue] >= run.start || e.issue in run'.todo || e in run'.buffer || e in run'.hit
    {
      assert Missing(w, e);
      assert e.issue == i ==> e in EventsOf(w, i) && e in EventsOfKind(w, i, e.kind);
    }
    assert LabelsCover(w', w'.runs[r]) by {
      assert forall e :: Missing(w', e) ==> Missing(w, e);
    }
    SameLogKeepsInv(w, w');
  }

  lemma InsertKeepsInv(w: World, r: int, e: Event, a: Action)
    requires Inv(w) && r in w.runs && w.runs[r].Working? && w.runs[r].todo == {} && e in w.runs[r].buffer
    requires a == InsertOk(r, e) || a == InsertFails(r, e)
    ensures Inv(Apply(w, a))
  {
    var w', run := Apply(w, a), w.runs[r];
    assert RunInv(w, run);
    forall f | Missing(w', f) && f.issue.project == run.project && f.issue in w.updatedAt
      ensures var run' := w'.runs[r];
              w.updatedAt[f.issue] >= run.start || f.issue in run'.todo || f in run'.buffer || f in run'.hit
    {
      assert Missing(w, f);
    }
    SameLogKeepsInv(w, w');
  }

  lemma CommitKeepsInv(w: World, r: int)
    requires Inv(w) && EffectiveCommit(w, CommitCursor(r))
    ensures Inv(CommitRun(w, r))
  {
    var w', run := CommitRun(w, r), w.runs[r];
    assert RunInv(w, run);
    assert w'.commits[|w.commits|] == Commit(run.project, run.start);
    assert forall c :: c in w'.commits <==> c in w.commits || c == Commit(run.project, run.start);
    forall e, c | Missing(w', e) && c in w'.commits && c.project == e.issue.project && e.issue in w'.updatedAt
      ensures w'.updatedAt[e.issue] >= c.start
    {
      assert Missing(w, e);
    }
    forall s | s in w'.runs
      ensures RunInv(w', w'.runs[s])
    {
      RunInvStays(w, w', w.runs[s]);
    }
  }

  lemma RunStartKeepsInv(w: World, a: Action)
    requires Inv(w) && (a.ReadCursor? || a.Begin?)
    ensures Inv(Apply(w, a))
  {
    SameLogKeepsInv(w, Apply(w, a));
  }

  lemma RunEndKeepsInv(w: World, a: Action)
    requires Inv(w) && (a.Abort? || (a.CommitCursor? && !EffectiveCommit(w, a)))
    ensures Inv(Apply(w, a))
  {
    SameLogKeepsInv(w, Apply(w, a));
  }

  lemma OtherActionKeepsInv(w: World, a: Action)
    requires Inv(w) && (a.Tick? || a.DiscoverRead? || a.DiscoverRaw? || a.DiscoverSilver? || a.DiscoverAbort?)
    ensures Inv(Apply(w, a))
  {
    var w' := Apply(w, a);
    assert w'.runs == w.runs;
    SameLogKeepsInv(w, w');
  }

  lemma ApplyKeepsInv(w: World, a: Action)
    requires Inv(w)
    ensures Inv(Apply(w, a))
  {
    match a
    case GitLabChange(i, labelEvents, notes) => GitLabChangeKeepsInv(w, i, labelEvents, notes);
    case ListIssues(r, listed) =>
      if r in w.runs && w.runs[r].Started? && Listing(w, listed, w.runs[r].project, w.runs[r].since) {
        ListingCovers(w, r, listed);
      }
    case FetchLabels(r, i) =>
      if r in w.runs && w.runs[r].Working? && i in w.runs[r].todo {
        LabelsKeepInv(w, r, i);
      }
    case FetchNotes(r, i) =>
      if r in w.runs && w.runs[r].Working? && i in w.runs[r].todo && i in w.runs[r].labels {
        FetchKeepsInv(w, r, i, a);
      }
    case FetchFails(r, i) =>
      if r in w.runs && w.runs[r].Working? && i in w.runs[r].todo {
        FetchKeepsInv(w, r, i, a);
      }
    case InsertOk(r, e) =>
      if r in w.runs && w.runs[r].Working? && w.runs[r].todo == {} && e in w.runs[r].buffer {
        InsertKeepsInv(w, r, e, a);
      }
    case InsertFails(r, e) =>
      if r in w.runs && w.runs[r].Working? && w.runs[r].todo == {} && e in w.runs[r].buffer {
        InsertKeepsInv(w, r, e, a);
      }
    case CommitCursor(r) =>
      if EffectiveCommit(w, a) {
        CommitKeepsInv(w, r);
      } else {
        RunEndKeepsInv(w, a);
      }
    case ReadCursor(_, _) => RunStartKeepsInv(w, a);
    case Begin(_) => RunStartKeepsInv(w, a);
    case Abort(_) => RunEndKeepsInv(w, a);
    case _ => OtherActionKeepsInv(w, a);
  }

  lemma {:induction false} ReachableInv(actions: seq<Action>)
    ensures Inv(Exec(actions))
  {
    if actions != [] {
      ReachableInv(actions[..|actions| - 1]);
      ApplyKeepsInv(Exec(actions[..|actions| - 1]), actions[|actions| - 1]);
    }
  }

  /**
   Cursor safety, for every interleaving, overlapping extractions of one project included: an event
   of GitLab is in Bronze, or its issue was updated at or after the stored cursor and will be listed
   again, or it was hit by a fetch or insert failure in a run that still advanced the cursor.
   */
  lemma CursorSafety(actions: seq<Action>, e: Event)
    requires var w := Exec(actions); e in w.log && e.issue.project in w.rawCursor
    ensures var w := Exec(actions);
            e in w.bronze || e in w.lost ||
            (e.issue in w.updatedAt && w.updatedAt[e.issue] >= w.rawCursor[e.issue.project])
  {
    ReachableInv(actions);
    var w := Exec(actions);
    assert Committed(w, e.issue.project, w.rawCursor[e.issue.project]);
  }

  // ---- The two cursors ----

  predicate InFlight(w: World, p: int) {
    exists r :: r in w.runs && w.runs[r].project == p
  }

  /** The action does not read the cursor of a project that is being extracted. */
  predicate Exclusive(w: World, a: Action) {
    a.ReadCursor? ==> !InFlight(w, a.project)
  }

  ghost predicate NonOverlapping(actions: seq<Action>) {
    actions == [] ||
    (NonOverlapping(actions[..|actions| - 1]) && Exclusive(Exec(actions[..|actions| - 1]), actions[|actions| - 1]))
  }

  ghost predicate OneRunPerProject(w: World) {
    forall r, s :: r in w.runs && s in w.runs && w.runs[r].project == w.runs[s].project ==> r == s
  }

  predicate RunIsAhead(run: Run, raw: map<int, int>, clock: int) {
    run.project in raw && (run.Waiting? || raw[run.project] <= run.start <= clock)
  }

  ghost predicate RunsAreAhead(runs: map<int, Run>, raw: map<int, int>, clock: int) {
    && (forall p :: p in raw ==> EPOCH <= raw[p] <= clock)
    && (forall r :: r in runs ==> RunIsAhead(runs[r], raw, clock))
  }

  /** What a discovery has read is not ahead of the Silver row. */
  predicate DiscoveryIsBehind(d: Discovery, raw: map<int, int>, silver: map<int, int>) {
    && (d.RawUpserted? ==> d.project in raw)
    && (if d.project in silver then d.silverCursor <= silver[d.project] else d.silverCursor == EPOCH)
  }

  ghost predicate DiscoveriesAreBehind(discoveries: map<int, Discovery>, raw: map<int, int>, silver: map<int, int>) {
    forall d :: d in discoveries ==> DiscoveryIsBehind(discoveries[d], raw, silver)
  }

  /** Both rows carry the same cursor, and a project without a Silver row has never been synced. */
  ghost predicate Lockstep(raw: map<int, int>, silver: map<int, int>) {
    && (forall p :: p in silver ==> p in raw && silver[p] == raw[p])
    && (forall p :: p in raw && p !in silver ==> raw[p] == EPOCH)
  }

  ghost predicate CursorInv(w: World) {
    && EPOCH <= w.clock
    && OneRunPerProject(w)
    && RunsAreAhead(w.runs, w.rawCursor, w.clock)
    && DiscoveriesAreBehind(w.discoveries, w.rawCursor, w.silverCursor)
    && Lockstep(w.rawCursor, w.silverCursor)
  }

  ghost predicate NoneDecreases(a: map<int, int>, b: map<int, int>) {
    forall p :: p in a ==> p in b && a[p] <= b[p]
  }

  lemma OneRunStays(w: World, a: Action)
    requires OneRunPerProject(w) && Exclusive(w, a)
    ensures OneRunPerProject(Apply(w, a))
  {
  }

  /** Both tables of cursors go forward and the cursor invariants about runs and rows hold again. */
  ghost predicate Forward(w: World, w': World) {
    && w'.clock == w.clock
    && NoneDecreases(w.rawCursor, w'.rawCursor)
    && NoneDecreases(w.silverCursor, w'.silverCursor)
    && RunsAreAhead(w'.runs, w'.rawCursor, w'.clock)
    && DiscoveriesAreBehind(w'.discoveries, w'.rawCursor, w'.silverCursor)
    && Lockstep(w'.rawCursor, w'.silverCursor)
  }

  lemma CommitMovesForward(w: World, r: int)
    requires CursorInv(w) && r in w.runs && w.runs[r].Working?
    ensures Forward(w, CommitRun(w, r))
  {
    var p, w' := w.runs[r].project, CommitRun(w, r);
    assert p in w.rawCursor;
    assert forall s :: s in w'.runs ==> s in w.runs && w'.runs[s] == w.runs[s] && w.runs[s].project != p;
  }

  lemma RawUpsertMovesForward(w: World, w': World, d: int)
    requires CursorInv(w) && d in w.discoveries && w.discoveries[d].CursorRead?
    requires w' == ApplyRawUpsert(w, d)
    ensures Forward(w, w')
  {
    var p := w.discoveries[d].project;
    assert p in w.silverCursor ==> p in w.rawCursor;
    assert forall q :: q != p ==> (q in w'.rawCursor <==> q in w.rawCursor);
    assert forall q :: q in w.rawCursor ==> w'.rawCursor[q] == w.rawCursor[q];
  }

  lemma SilverUpsertMovesForward(w: World, w': World, d: int)
    requires CursorInv(w) && d in w.discoveries && w.discoveries[d].RawUpserted?
    requires w' == ApplySilverUpsert(w, d)
    ensures Forward(w, w')
  {
    var p := w.discoveries[d].project;
    assert p in w.rawCursor;
    assert p in w.silverCursor ==> w'.silverCursor == w.silverCursor;
  }

  predicate WritesCursor(a: Action) {
    a.CommitCursor? || a.DiscoverRaw? || a.DiscoverSilver?
  }

  lemma OthersKeepCursors(w: World, a: Action)
    requires !WritesCursor(a)
    ensures var w' := Apply(w, a);
            w'.rawCursor == w.rawCursor && w'.silverCursor == w.silverCursor && w'.clock >= w.clock
  {
  }

  lemma OthersKeepDiscovery(w: World, a: Action, d: int)
    requires !WritesCursor(a) && d in Apply(w, a).discoveries
    ensures var found := Apply(w, a).discoveries[d];
            || (d in w.discoveries && found == w.discoveries[d])
            || found == CursorRead(found.project, SilverCursor(w, found.project))
  {
  }

  lemma OthersKeepDiscoveries(w: World, a: Action)
    requires DiscoveriesAreBehind(w.discoveries, w.rawCursor, w.silverCursor) && !WritesCursor(a)
    ensures DiscoveriesAreBehind(Apply(w, a).discoveries, w.rawCursor, w.silverCursor)
  {
    forall d | d in Apply(w, a).discoveries
      ensures DiscoveryIsBehind(Apply(w, a).discoveries[d], w.rawCursor, w.silverCursor)
    {
      OthersKeepDiscovery(w, a, d);
    }
  }

  predicate RunAction(a: Action) {
    || a.ReadCursor? || a.Begin? || a.ListIssues? || a.FetchLabels? || a.FetchNotes? || a.FetchFails?
    || a.InsertOk? || a.InsertFails? || a.CommitCursor? || a.Abort?
  }

  lemma OnlyRunActionsTouchRuns(w: World, a: Action)
    requires !RunAction(a)
    ensures Apply(w, a).runs == w.runs
  {
  }

  lemma RunActionsTouchOneRun(w: World, a: Action, r: int)
    requires RunAction(a) && r != a.run && r in Apply(w, a).runs
    ensures r in w.runs && Apply(w, a).runs[r] == w.runs[r]
  {
  }

  lemma RunActionKeepsRunAhead(w: World, a: Action)
    requires RunAction(a) && !a.CommitCursor? && RunsAreAhead(w.runs, w.rawCursor, w.clock)
    ensures Apply(w, a).clock == w.clock
    ensures a.run in Apply(w, a).runs ==> RunIsAhead(Apply(w, a).runs[a.run], w.rawCursor, w.clock)
  {
  }

  lemma OthersKeepRunsAhead(w: World, a: Action)
    requires RunsAreAhead(w.runs, w.rawCursor, w.clock) && !WritesCursor(a)
    ensures RunsAreAhead(Apply(w, a).runs, w.rawCursor, Apply(w, a).clock)
  {
    var w' := Apply(w, a);
    OthersKeepCursors(w, a);
    if RunAction(a) {
      RunActionKeepsRunAhead(w, a);
      forall r | r in w'.runs
        ensures RunIsAhead(w'.runs[r], w.rawCursor, w'.clock)
      {
        if r != a.run {
          RunActionsTouchOneRun(w, a, r);
        }
      }
    } else {
      OnlyRunActionsTouchRuns(w, a);
    }
  }

  lemma IdleIsForward(w: World)
    requires CursorInv(w)
    ensures Forward(w, w)
  {
  }

  lemma WriteMovesForward(w: World, a: Action)
    requires CursorInv(w) && WritesCursor(a)
    ensures Forward(w, Apply(w, a))
  {
    IdleIsForward(w);
    if a.CommitCursor? {
      if a.run in w.runs && w.runs[a.run].Working? {
        CommitMovesForward(w, a.run);
      }
    } else if a.DiscoverRaw? {
      if a.discovery in w.discoveries && w.discoveries[a.discovery].CursorRead? {
        RawUpsertMovesForward(w, ApplyRawUpsert(w, a.discovery), a.discovery);
      }
    } else {
      if a.discovery in w.discoveries && w.discoveries[a.discovery].RawUpserted? {
        SilverUpsertMovesForward(w, ApplySilverUpsert(w, a.discovery), a.discovery);
      }
    }
  }

  lemma ForwardKeepsInv(w: World, w': World)
    requires CursorInv(w) && Forward(w, w') && OneRunPerProject(w')
    ensures CursorInv(w')
  {
  }

  lemma QuietKeepsInv(w: World, w': World)
    requires CursorInv(w) && OneRunPerProject(w') && RunsAreAhead(w'.runs, w.rawCursor, w'.clock)
    requires DiscoveriesAreBehind(w'.discoveries, w.rawCursor, w.silverCursor)
    requires w'.rawCursor == w.rawCursor && w'.silverCursor == w.silverCursor && w'.clock >= w.clock
    ensures CursorInv(w') && NoneDecreases(w.rawCursor, w'.rawCursor) && NoneDecreases(w.silverCursor, w'.silverCursor)
  {
  }

  /** One action never moves a cursor back when extractions of a project do not overlap. */
  lemma CursorsNeverDecrease(w: World, a: Action)
    requires CursorInv(w) && Exclusive(w, a)
    ensures CursorInv(Apply(w, a))
    ensures NoneDecreases(w.rawCursor, Apply(w, a).rawCursor) && NoneDecreases(w.silverCursor, Apply(w, a).silverCursor)
  {
    OneRunStays(w, a);
    if WritesCursor(a) {
      WriteMovesForward(w, a);
      ForwardKeepsInv(w, Apply(w, a));
    } else {
      OthersKeepCursors(w, a);
      OthersKeepDiscoveries(w, a);
      OthersKeepRunsAhead(w, a);
      QuietKeepsInv(w, Apply(w, a));
    }
  }

  /** Without overlap, whenever both rows exist their cursors are equal, however discoveries are interleaved. */
  lemma {:induction false} CursorsMoveInLockstep(actions: seq<Action>)
    requires NonOverlapping(actions)
    ensures CursorInv(Exec(actions))
    ensures var w := Exec(actions);
            forall p :: p in w.rawCursor && p in w.silverCursor ==> w.rawCursor[p] == w.silverCursor[p]
  {
    if actions != [] {
      CursorsMoveInLockstep(actions[..|actions| - 1]);
      CursorsNeverDecrease(Exec(actions[..|actions| - 1]), actions[|actions| - 1]);
    }
  }

  // ---- What overlap breaks ----

  lemma ExecSnoc(actions: seq<Action>, a: Action)
    ensures Exec(actions + [a]) == Apply(Exec(actions), a)
  {
    FoldSnoc(Applier(), START, actions, a);
  }

  const SETTLED := START.(rawCursor := map[7 := EPOCH], silverCursor := map[7 := EPOCH])

  /** A discovery of project 7 as it goes on from the start. */
  lemma DiscoverySteps()
    ensures var read := START.(discoveries := map[0 := CursorRead(7, EPOCH)]);
            var upserted := START.(discoveries := map[0 := RawUpserted(7, EPOCH)], rawCursor := map[7 := EPOCH]);
            && Apply(START, DiscoverRead(0, 7)) == read
            && Apply(read, DiscoverRaw(0)) == upserted
            && Apply(upserted, DiscoverSilver(0)) == SETTLED
  {
  }

  lemma DiscoveredProject() returns (actions: seq<Action>)
    ensures Exec(actions) == SETTLED
  {
    var read := [] + [DiscoverRead(0, 7)];
    var upserted := read + [DiscoverRaw(0)];
    ExecSnoc([], DiscoverRead(0, 7));
    ExecSnoc(read, DiscoverRaw(0));
    ExecSnoc(upserted, DiscoverSilver(0));
    DiscoverySteps();
    actions := upserted + [DiscoverSilver(0)];
  }

  function Pair(clock: int, first: Run, second: Run): World {
    SETTLED.(clock := clock, runs := map[1 := first, 2 := second])
  }

  function Done(start: int): Run {
    Working(7, EPOCH, start, {}, map[], {}, {})
  }

  lemma TwoRunsBegin() returns (actions: seq<Action>)
    ensures Exec(actions) == Pair(2, Started(7, EPOCH, 1), Started(7, EPOCH, 2))
  {
    var discovered := DiscoveredProject();
    ExecSnoc(discovered, ReadCursor(1, 7));
    var one := discovered + [ReadCursor(1, 7)];
    ExecSnoc(one, ReadCursor(2, 7));
    var two := one + [ReadCursor(2, 7)];
    assert Exec(two) == Pair(0, Waiting(7, EPOCH), Waiting(7, EPOCH));
    ExecSnoc(two, Tick(1));
    ExecSnoc(two + [Tick(1)], Begin(1));
    var begun := two + [Tick(1)] + [Begin(1)];
    assert Exec(begun) == Pair(1, Started(7, EPOCH, 1), Waiting(7, EPOCH));
    ExecSnoc(begun, Tick(1));
    ExecSnoc(begun + [Tick(1)], Begin(2));
    actions := begun + [Tick(1)] + [Begin(2)];
  }

  lemma ListsNothing(w: World, r: int)
    requires w.updatedAt == map[] && r in w.runs && w.runs[r].Started?
    ensures var run := w.runs[r];
            Apply(w, ListIssues(r, {})) == SetRun(w, r, Working(run.project, run.since, run.start, {}, map[], {}, {}))
  {
  }

  /** Two runs of project 7 that began at 1 and 2 and have nothing left to do but commit. */
  lemma TwoRunsAreReachable() returns (actions: seq<Action>)
    ensures Exec(actions) == Pair(2, Done(1), Done(2))
  {
    var begun := TwoRunsBegin();
    var w := Exec(begun);
    ListsNothing(w, 1);
    ListsNothing(SetRun(w, 1, Done(1)), 2);
    ExecSnoc(begun, ListIssues(1, {}));
    ExecSnoc(begun + [ListIssues(1, {})], ListIssues(2, {}));
    actions := begun + [ListIssues(1, {})] + [ListIssues(2, {})];
  }

  /** The start of the last committed run of a project. */
  function LatestStart(commits: seq<Commit>, p: int): int {
    if commits == [] then EPOCH
    else if commits[|commits| - 1].project == p then commits[|commits| - 1].start
    else LatestStart(commits[..|commits| - 1], p)
  }

  ghost predicate CursorIsLatest(w: World) {
    && (forall c :: c in w.commits ==> c.project in w.rawCursor)
    && (forall p :: p in w.rawCursor ==> w.rawCursor[p] == LatestStart(w.commits, p))
  }

  lemma {:induction false} NoCommitNoStart(commits: seq<Commit>, p: int)
    requires forall c :: c in commits ==> c.project != p
    ensures LatestStart(commits, p) == EPOCH
  {
    if commits != [] {
      assert commits[|commits| - 1] in commits;
      NoCommitNoStart(commits[..|commits| - 1], p);
    }
  }

  lemma CommitKeepsLatest(w: World, r: int)
    requires CursorIsLatest(w) && r in w.runs && w.runs[r].Working?
    ensures CursorIsLatest(CommitRun(w, r))
  {
    var w' := CommitRun(w, r);
    if w'.commits != w.commits {
      assert w'.commits[..|w.commits|] == w.commits;
    }
  }

  lemma ApplyKeepsLatest(w: World, a: Action)
    requires CursorIsLatest(w)
    ensures CursorIsLatest(Apply(w, a))
  {
    if a.CommitCursor? && a.run in w.runs && w.runs[a.run].Working? {
      CommitKeepsLatest(w, a.run);
    } else if a.DiscoverRaw? && a.discovery in w.discoveries && w.discoveries[a.discovery].project !in w.rawCursor {
      NoCommitNoStart(w.commits, w.discoveries[a.discovery].project);
    }
  }

  lemma {:induction false} ReachableCursorIsLatest(actions: seq<Action>)
    ensures CursorIsLatest(Exec(actions))
  {
    if actions != [] {
      ReachableCursorIsLatest(actions[..|actions| - 1]);
      ApplyKeepsLatest(Exec(actions[..|actions| - 1]), actions[|actions| - 1]);
    }
  }

  /** With overlap, an action moves a cursor back exactly when it commits after a run that started later. */
  lemma CursorMovesBackIff(actions: seq<Action>, a: Action)
    ensures var w := Exec(actions);
            NoneDecreases(w.rawCursor, Apply(w, a).rawCursor) <==>
            (EffectiveCommit(w, a) ==> LatestStart(w.commits, w.runs[a.run].project) <= w.runs[a.run].start)
    ensures var w := Exec(actions);
            NoneDecreases(w.silverCursor, Apply(w, a).silverCursor) <==>
            (EffectiveCommit(w, a) ==> w.silverCursor[w.runs[a.run].project] <= w.runs[a.run].start)
  {
    var w := Exec(actions);
    ReachableCursorIsLatest(actions);
    if EffectiveCommit(w, a) {
      var p := w.runs[a.run].project;
      assert w.rawCursor[p] == LatestStart(w.commits, p);
      assert Apply(w, a).rawCursor[p] == Apply(w, a).silverCursor[p] == w.runs[a.run].start;
    } else {
      OnlyCommitsMoveBack(w, a);
    }
  }

  lemma OnlyCommitsMoveBack(w: World, a: Action)
    requires !EffectiveCommit(w, a)
    ensures NoneDecreases(w.rawCursor, Apply(w, a).rawCursor) && NoneDecreases(w.silverCursor, Apply(w, a).silverCursor)
  {
  }

  ghost predicate CursorsAgree(w: World) {
    forall p :: p in w.rawCursor && p in w.silverCursor ==> w.rawCursor[p] == w.silverCursor[p]
  }

  /** The action writes a cursor that a discovery read before an older run moved both rows back. */
  predicate Overtakes(w: World, a: Action) {
    && a.DiscoverSilver? && a.discovery in w.discoveries && w.discoveries[a.discovery].RawUpserted?
    && var d := w.discoveries[a.discovery];
       d.project in w.silverCursor && w.silverCursor[d.project] < d.silverCursor
  }

  /** Silver rows come after Bronze rows, and a project without a Silver row has never been synced. */
  ghost predicate RowsInOrder(w: World) {
    && (forall p :: p in w.silverCursor ==> p in w.rawCursor)
    && (forall p :: p in w.rawCursor && p !in w.silverCursor ==> w.rawCursor[p] == EPOCH)
    && (forall d :: d in w.discoveries ==> DiscoveryInOrder(w.discoveries[d], w.rawCursor, w.silverCursor))
  }

  predicate DiscoveryInOrder(d: Discovery, raw: map<int, int>, silver: map<int, int>) {
    (d.RawUpserted? ==> d.project in raw) && (d.project !in silver ==> d.silverCursor == EPOCH)
  }

  lemma WritesKeepRowsInOrder(w: World, a: Action)
    requires RowsInOrder(w) && WritesCursor(a)
    ensures RowsInOrder(Apply(w, a))
  {
  }

  lemma ApplyKeepsRowsInOrder(w: World, a: Action)
    requires RowsInOrder(w)
    ensures RowsInOrder(Apply(w, a))
  {
    if WritesCursor(a) {
      WritesKeepRowsInOrder(w, a);
    } else {
      OthersKeepCursors(w, a);
      forall d | d in Apply(w, a).discoveries
        ensures DiscoveryInOrder(Apply(w, a).discoveries[d], w.rawCursor, w.silverCursor)
      {
        OthersKeepDiscovery(w, a, d);
      }
    }
  }

  lemma {:induction false} ReachableRowsInOrder(actions: seq<Action>)
    ensures RowsInOrder(Exec(actions))
  {
    if actions != [] {
      ReachableRowsInOrder(actions[..|actions| - 1]);
      ApplyKeepsRowsInOrder(Exec(actions[..|actions| - 1]), actions[|actions| - 1]);
    }
  }

  lemma OnlyOvertakingParts(w: World, a: Action)
    requires RowsInOrder(w) && CursorsAgree(w)
    ensures CursorsAgree(Apply(w, a)) <==> !Overtakes(w, a)
  {
    if !WritesCursor(a) {
      OthersKeepCursors(w, a);
    } else if Overtakes(w, a) {
      var p := w.discoveries[a.discovery].project;
      assert p in w.rawCursor && p in Apply(w, a).silverCursor;
    }
  }

  /** From equal cursors, an action makes them differ exactly when a discovery overtakes the Silver row. */
  lemma CursorsPartIff(actions: seq<Action>, a: Action)
    requires CursorsAgree(Exec(actions))
    ensures CursorsAgree(Apply(Exec(actions), a)) <==> !Overtakes(Exec(actions), a)
  {
    ReachableRowsInOrder(actions);
    OnlyOvertakingParts(Exec(actions), a);
  }

  ghost predicate AlwaysAgree(actions: seq<Action>) {
    forall n :: 0 <= n <= |actions| ==> CursorsAgree(Exec(actions[..n]))
  }

  ghost predicate NeverOvertaken(actions: seq<Action>) {
    forall n :: 0 <= n < |actions| ==> !Overtakes(Exec(actions[..n]), actions[n])
  }

  lemma AlwaysSnoc(actions: seq<Action>, a: Action)
    ensures AlwaysAgree(actions + [a]) <==> AlwaysAgree(actions) && CursorsAgree(Apply(Exec(actions), a))
    ensures NeverOvertaken(actions + [a]) <==> NeverOvertaken(actions) && !Overtakes(Exec(actions), a)
  {
    var all := actions + [a];
    assert forall n :: 0 <= n <= |actions| ==> all[..n] == actions[..n];
    assert all[..|all|] == all && actions[..|actions|] == actions;
    ExecSnoc(actions, a);
  }

  /** Over a whole run, overlapping or not, the cursors agree at every moment exactly when no discovery overtakes. */
  lemma {:induction false} CursorsAlwaysAgreeIff(actions: seq<Action>)
    ensures AlwaysAgree(actions) <==> NeverOvertaken(actions)
  {
    if actions == [] {
      assert Exec([]) == START;
    } else {
      var front, a := actions[..|actions| - 1], actions[|actions| - 1];
      assert actions == front + [a] && front[..|front|] == front;
      CursorsAlwaysAgreeIff(front);
      AlwaysSnoc(front, a);
      if CursorsAgree(Exec(front)) {
        CursorsPartIff(front, a);
      }
    }
  }

  /** Both cursors of project 7 stand at the given value. */
  function After(cursor: int, runs: map<int, Run>, commits: seq<Commit>, discoveries: map<int, Discovery>): World {
    SETTLED.(clock := 2, rawCursor := map[7 := cursor], silverCursor := map[7 := cursor],
             runs := runs, commits := commits, discoveries := discoveries)
  }

  lemma NewerCommitsFirst()
    ensures Apply(Pair(2, Done(1), Done(2)), CommitCursor(2)) == After(2, map[1 := Done(1)], [Commit(7, 2)], map[])
  {
  }

  lemma DiscoveryReadsNewer()
    ensures Apply(After(2, map[1 := Done(1)], [Commit(7, 2)], map[]), DiscoverRead(3, 7)) ==
            After(2, map[1 := Done(1)], [Commit(7, 2)], map[3 := CursorRead(7, 2)])
  {
  }

  lemma OlderCommitsLast()
    ensures Apply(After(2, map[1 := Done(1)], [Commit(7, 2)], map[3 := CursorRead(7, 2)]), CommitCursor(1)) ==
            After(1, map[], [Commit(7, 2), Commit(7, 1)], map[3 := CursorRead(7, 2)])
  {
  }

  lemma DiscoveryWritesNewer(commits: seq<Commit>)
    ensures var started := After(1, map[], commits, map[3 := CursorRead(7, 2)]);
            var w := Apply(Apply(started, DiscoverRaw(3)), DiscoverSilver(3));
            7 in w.rawCursor && 7 in w.silverCursor && w.rawCursor[7] == 1 && w.silverCursor[7] == 2
  {
  }

  /**
   Nothing keeps two extractions of one project apart. When they overlap, the older run can commit
   last and move the cursor back, and a discovery in between can leave the two cursors different.
   */
  lemma OverlapBreaksTheCursors() returns (actions: seq<Action>)
    ensures var before, after := Exec(actions), Exec(actions + [CommitCursor(1)]);
            7 in before.rawCursor && 7 in after.rawCursor && after.rawCursor[7] < before.rawCursor[7]
    ensures var w := Exec(actions + [CommitCursor(1)] + [DiscoverRaw(3)] + [DiscoverSilver(3)]);
            7 in w.rawCursor && 7 in w.silverCursor && w.rawCursor[7] != w.silverCursor[7]
  {
    var start := TwoRunsAreReachable();
    var committed := start + [CommitCursor(2)];
    actions := committed + [DiscoverRead(3, 7)];
    var back := actions + [CommitCursor(1)];
    ExecSnoc(start, CommitCursor(2));
    ExecSnoc(committed, DiscoverRead(3, 7));
    ExecSnoc(actions, CommitCursor(1));
    ExecSnoc(back, DiscoverRaw(3));
    ExecSnoc(back + [DiscoverRaw(3)], DiscoverSilver(3));
    NewerCommitsFirst();
    DiscoveryReadsNewer();
    OlderCommitsLast();
    DiscoveryWritesNewer([Commit(7, 2), Commit(7, 1)]);
  }
}
