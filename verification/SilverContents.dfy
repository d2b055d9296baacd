/**
 What Silver holds after a stream, said of the stream alone: which events have become rows and in which order,
 what each column holds, and which labels are recorded.
 */
module SilverContents {
  import opened Options
  import opened Labels
  import opened Folds
  import opened Silver
  import opened EventTimelines
  import opened Locality
  import NoteParser

  // ---- What events say ----

  /** An added state label says its state, an unknown one UNKNOWN; an action other than add and remove says little. */
  predicate SaysState(m: Mapper, p: Payload, s: State) {
    p.LabelEvent? &&
    var n := m.normalize(p.name);
    match p.action
    case Add =>
      p.name != "" &&
      (if n in m.stateMappings then s == m.stateMappings[n] != BLANK else n !in m.metadataMappings && s == UNKNOWN)
    case Remove => false
    case OtherAction =>
      s == if p.name != "" && (n in m.stateMappings || n !in m.metadataMappings) then UNKNOWN else BLANK
  }

  /** An added label that says no state is filed under its metadata key. */
  predicate SaysMetadata(m: Mapper, p: Payload, key: string) {
    p.LabelEvent? && p.action.Add? &&
    var n := m.normalize(p.name);
    && (p.name == "" || n !in m.stateMappings || m.stateMappings[n] == BLANK)
    && n in m.metadataMappings && m.metadataMappings[n] == key != ""
  }

  lemma EventMeaning(m: Mapper, p: Payload)
    ensures forall s :: Classify(m, p) == Transition(s) <==> SaysState(m, p, s)
    ensures forall key :: Classify(m, p) == Metadata(key) <==> SaysMetadata(m, p, key)
    ensures Classify(m, p) == UserComment <==> p.Note? && !p.system
    ensures forall cs :: Classify(m, p) == Assignment(cs) <==>
                         p.Note? && p.system && cs == NoteParser.Parse(p.body) && cs != []
  {
  }

  // ---- First of their id ----

  /** The event is picked, and no picked one before it has its id. */
  ghost predicate FirstOf(pick: RawEvent -> bool, raws: seq<RawEvent>, i: int) {
    0 <= i < |raws| && pick(raws[i]) && forall j :: 0 <= j < i && pick(raws[j]) ==> !SameId(raws[j], raws[i])
  }

  /** Their positions in the stream. */
  ghost function Firsts(pick: RawEvent -> bool, raws: seq<RawEvent>): seq<int> {
    if raws == [] then []
    else
      var n := |raws| - 1;
      Firsts(pick, raws[..n]) + if FirstOf(pick, raws, n) then [n] else []
  }

  lemma {:induction false} FirstsAre(pick: RawEvent -> bool, raws: seq<RawEvent>)
    ensures forall i :: i in Firsts(pick, raws) <==> FirstOf(pick, raws, i)
  {
    if raws != [] {
      var n := |raws| - 1;
      FirstsAre(pick, raws[..n]);
      assert forall i :: i < n ==> (FirstOf(pick, raws, i) <==> FirstOf(pick, raws[..n], i));
    }
  }

  lemma {:induction false} FirstsAreInOrder(pick: RawEvent -> bool, raws: seq<RawEvent>)
    ensures forall a, b :: 0 <= a < b < |Firsts(pick, raws)| ==> Firsts(pick, raws)[a] < Firsts(pick, raws)[b]
  {
    if raws != [] {
      var n := |raws| - 1;
      var front := Firsts(pick, raws[..n]);
      FirstsAreInOrder(pick, raws[..n]);
      FirstsAre(pick, raws[..n]);
      forall a | 0 <= a < |front|
        ensures front[a] < n
      {
        assert front[a] in front;
      }
    }
  }

  lemma {:induction false} FirstExists(pick: RawEvent -> bool, raws: seq<RawEvent>, j: int) returns (i: int)
    requires 0 <= j < |raws| && pick(raws[j]) && (raws[j].payload.LabelEvent? || raws[j].payload.Note?)
    ensures i <= j && FirstOf(pick, raws, i) && SameId(raws[i], raws[j])
    decreases j
  {
    i := j;
    if !FirstOf(pick, raws, j) {
      var l :| 0 <= l < j && pick(raws[l]) && SameId(raws[l], raws[j]);
      i := FirstExists(pick, raws, l);
    }
  }

  /** The next event is not the first of its id exactly when a first one before it has the id. */
  lemma NotFirstIff(pick: RawEvent -> bool, front: seq<RawEvent>, raw: RawEvent)
    requires pick(raw)
    ensures FirstOf(pick, front + [raw], |front|) <==>
            forall a :: 0 <= a < |Firsts(pick, front)| ==> !SameId(PickAt(pick, front, a), raw)
  {
    var raws, n := front + [raw], |front|;
    FirstsAre(pick, front);
    if j :| 0 <= j < n && pick(raws[j]) && SameId(raws[j], raws[n]) {
      var i := FirstExists(pick, front, j);
      assert i in Firsts(pick, front);
      var a :| 0 <= a < |Firsts(pick, front)| && Firsts(pick, front)[a] == i;
      assert SameId(PickAt(pick, front, a), raw);
    }
    if a :| 0 <= a < |Firsts(pick, front)| && SameId(PickAt(pick, front, a), raw) {
      var i := Firsts(pick, front)[a];
      assert i in Firsts(pick, front);
      assert raws[i] == front[i] && pick(raws[i]) && SameId(raws[i], raws[n]);
    }
  }

  /** The a-th first event. */
  ghost function PickAt(pick: RawEvent -> bool, raws: seq<RawEvent>, a: int): RawEvent
    requires 0 <= a < |Firsts(pick, raws)|
  {
    FirstsAre(pick, raws);
    assert Firsts(pick, raws)[a] in Firsts(pick, raws);
    raws[Firsts(pick, raws)[a]]
  }

  lemma PicksSnoc(pick: RawEvent -> bool, front: seq<RawEvent>, raw: RawEvent)
    ensures var first := FirstOf(pick, front + [raw], |front|);
            && Firsts(pick, front + [raw]) == Firsts(pick, front) + (if first then [|front|] else [])
            && (forall a :: 0 <= a < |Firsts(pick, front)| ==>
                  PickAt(pick, front + [raw], a) == PickAt(pick, front, a))
            && (first ==> PickAt(pick, front + [raw], |Firsts(pick, front)|) == raw)
  {
    assert (front + [raw])[..|front|] == front;
    FirstsAre(pick, front);
    forall a | 0 <= a < |Firsts(pick, front)|
      ensures PickAt(pick, front + [raw], a) == PickAt(pick, front, a)
    {
      assert Firsts(pick, front)[a] in Firsts(pick, front);
    }
  }

  // ---- Rows ----

  ghost predicate IsTransition(env: Env, raw: RawEvent) {
    raw.issue.project in env.projects && exists s :: SaysState(env.mapper, raw.payload, s)
  }

  ghost function TransitionsIn(env: Env): RawEvent -> bool {
    raw => IsTransition(env, raw)
  }

  /** The row holds what the label event says. */
  ghost predicate Describes(env: Env, raw: RawEvent, r: IssueEvent) {
    && SaysState(env.mapper, raw.payload, r.state)
    && r.gitlabEventId == raw.payload.id && r.issue == raw.issue
    && r.author == raw.payload.author && r.at == raw.payload.at
    && r.labelAdded == (if raw.payload.action.Add? then raw.payload.name else "")
    && r.labelRemoved == (if raw.payload.action.Add? then "" else raw.payload.name)
  }

  ghost predicate RowsDescribe(env: Env, raws: seq<RawEvent>, rows: seq<IssueEvent>) {
    && |rows| == |Firsts(TransitionsIn(env), raws)|
    && forall a :: 0 <= a < |rows| ==> Describes(env, PickAt(TransitionsIn(env), raws, a), rows[a])
  }

  lemma RowIsThereIff(env: Env, front: seq<RawEvent>, rows: seq<IssueEvent>, raw: RawEvent)
    requires RowsDescribe(env, front, rows) && IsTransition(env, raw)
    ensures HasEvent(rows, raw.payload.id, raw.issue.project) <==>
            !FirstOf(TransitionsIn(env), front + [raw], |front|)
  {
    var pick := TransitionsIn(env);
    NotFirstIff(pick, front, raw);
    FirstsAre(pick, front);
    forall a | 0 <= a < |rows|
      ensures SameId(PickAt(pick, front, a), raw) <==>
              rows[a].gitlabEventId == raw.payload.id && rows[a].issue.project == raw.issue.project
    {
      assert Describes(env, PickAt(pick, front, a), rows[a]);
    }
    if HasEvent(rows, raw.payload.id, raw.issue.project) {
      var r :| r in rows && r.gitlabEventId == raw.payload.id && r.issue.project == raw.issue.project;
      var a :| 0 <= a < |rows| && rows[a] == r;
      assert SameId(PickAt(pick, front, a), raw);
    }
    if a :| 0 <= a < |rows| && SameId(PickAt(pick, front, a), raw) {
      assert rows[a] in rows;
    }
  }

  lemma NextRowDescribes(env: Env, front: seq<RawEvent>, t: Tables, raw: RawEvent)
    requires KeysValid(env, t) && RowsDescribe(env, front, t.events)
    ensures RowsDescribe(env, front + [raw], Step(env, t, raw).events)
  {
    var pick, rows := TransitionsIn(env), Step(env, t, raw).events;
    StepShape(env, t, raw);
    EventMeaning(env.mapper, raw.payload);
    PicksSnoc(pick, front, raw);
    if IsTransition(env, raw) {
      RowIsThereIff(env, front, t.events, raw);
    }
  }

  /**
   The events table holds one row for the first transition of each id, in the order of the stream, with the
   state, the issue, the labels, the author and the time that the event gives.
   */
  lemma {:induction false} RowsAreTransitions(env: Env, raws: seq<RawEvent>)
    ensures RowsDescribe(env, raws, Fold(Stepper(env), EMPTY_TABLES, raws).events)
  {
    if raws != [] {
      var front, last := raws[..|raws| - 1], raws[|raws| - 1];
      assert raws == front + [last];
      RowsAreTransitions(env, front);
      FoldKeepsKeysValid(env, EMPTY_TABLES, front);
      NextRowDescribes(env, front, Fold(Stepper(env), EMPTY_TABLES, front), last);
    }
  }

  // ---- Comments ----

  ghost predicate IsUserNote(env: Env, raw: RawEvent) {
    raw.issue.project in env.projects && raw.payload.Note? && !raw.payload.system
  }

  ghost function UserNotesIn(env: Env): RawEvent -> bool {
    raw => IsUserNote(env, raw)
  }

  ghost predicate CommentsDescribe(env: Env, raws: seq<RawEvent>, rows: seq<Comment>) {
    && |rows| == |Firsts(UserNotesIn(env), raws)|
    && forall a :: 0 <= a < |rows| ==> Quotes(PickAt(UserNotesIn(env), raws, a), rows[a])
  }

  /** The comment holds what the note says. */
  ghost predicate Quotes(raw: RawEvent, c: Comment) {
    raw.payload.Note? && c == Comment(raw.payload.id, raw.issue, raw.payload.author, raw.payload.body, raw.payload.at)
  }

  lemma CommentIsThereIff(env: Env, front: seq<RawEvent>, rows: seq<Comment>, raw: RawEvent)
    requires CommentsDescribe(env, front, rows) && IsUserNote(env, raw)
    ensures HasComment(rows, raw.payload.id) <==> !FirstOf(UserNotesIn(env), front + [raw], |front|)
  {
    var pick := UserNotesIn(env);
    NotFirstIff(pick, front, raw);
    forall a | 0 <= a < |rows|
      ensures SameId(PickAt(pick, front, a), raw) <==> rows[a].noteId == raw.payload.id
    {
      assert Quotes(PickAt(pick, front, a), rows[a]);
    }
    if HasComment(rows, raw.payload.id) {
      var c :| c in rows && c.noteId == raw.payload.id;
      var a :| 0 <= a < |rows| && rows[a] == c;
      assert SameId(PickAt(pick, front, a), raw);
    }
    if a :| 0 <= a < |rows| && SameId(PickAt(pick, front, a), raw) {
      assert rows[a] in rows;
    }
  }

  lemma NextCommentDescribes(env: Env, front: seq<RawEvent>, t: Tables, raw: RawEvent)
    requires KeysValid(env, t) && CommentsDescribe(env, front, t.comments)
    ensures CommentsDescribe(env, front + [raw], Step(env, t, raw).comments)
  {
    StepShape(env, t, raw);
    EventMeaning(env.mapper, raw.payload);
    PicksSnoc(UserNotesIn(env), front, raw);
    if IsUserNote(env, raw) {
      CommentIsThereIff(env, front, t.comments, raw);
    }
  }

  /** The comments table quotes the first user note of each id, in the order of the stream. */
  lemma {:induction false} CommentsAreUserNotes(env: Env, raws: seq<RawEvent>)
    ensures CommentsDescribe(env, raws, Fold(Stepper(env), EMPTY_TABLES, raws).comments)
  {
    if raws != [] {
      var front, last := raws[..|raws| - 1], raws[|raws| - 1];
      assert raws == front + [last];
      CommentsAreUserNotes(env, front);
      FoldKeepsKeysValid(env, EMPTY_TABLES, front);
      NextCommentDescribes(env, front, Fold(Stepper(env), EMPTY_TABLES, front), last);
    }
  }

  // ---- Issues ----

  /** The event makes sure that its issue has a row. */
  ghost predicate Touches(env: Env, raw: RawEvent) {
    && raw.issue.project in env.projects
    && (|| IsTransition(env, raw)
        || (exists key :: SaysMetadata(env.mapper, raw.payload, key))
        || (raw.payload.Note? && (raw.payload.system ==> NoteParser.Parse(raw.payload.body) != [])))
  }

  /** The title and the GitLab id come from raw_issues, or stand for missing ones. */
  ghost predicate IsNamed(env: Env, k: IssueKey, issue: Issue) {
    if k in env.rawIssues then
      && issue.title == (if env.rawIssues[k].title != "" then Named(env.rawIssues[k].title) else Placeholder(k.iid))
      && issue.gitlabId == (if env.rawIssues[k].gitlabId > 0 then env.rawIssues[k].gitlabId else 0)
    else issue.title == Placeholder(k.iid) && issue.gitlabId == 0
  }

  ghost predicate IssuesDescribe(env: Env, raws: seq<RawEvent>, issues: map<IssueKey, Issue>) {
    && (forall k :: k in issues <==> exists raw :: raw in raws && raw.issue == k && Touches(env, raw))
    && (forall k :: k in issues ==> IsNamed(env, k, issues[k]))
  }

  lemma StepTouchesIssue(env: Env, t: Tables, raw: RawEvent)
    requires KeysValid(env, t)
    ensures Step(env, t, raw).issues.Keys == t.issues.Keys + if Touches(env, raw) then {raw.issue} else {}
  {
    StepShape(env, t, raw);
    EventMeaning(env.mapper, raw.payload);
  }

  lemma StepKeepsNames(env: Env, t: Tables, raw: RawEvent)
    requires forall k :: k in t.issues ==> IsNamed(env, k, t.issues[k])
    ensures forall k :: k in Step(env, t, raw).issues ==> IsNamed(env, k, Step(env, t, raw).issues[k])
  {
    StepShape(env, t, raw);
    var k := raw.issue;
    assert IsNamed(env, k, Stub(env, k));
  }

  lemma NextIssueDescribes(env: Env, front: seq<RawEvent>, t: Tables, raw: RawEvent)
    requires KeysValid(env, t) && IssuesDescribe(env, front, t.issues)
    ensures IssuesDescribe(env, front + [raw], Step(env, t, raw).issues)
  {
    StepTouchesIssue(env, t, raw);
    StepKeepsNames(env, t, raw);
    forall k
      ensures k in Step(env, t, raw).issues <==> exists a :: a in front + [raw] && a.issue == k && Touches(env, a)
    {
      assert k in Step(env, t, raw).issues <==> k in t.issues || (Touches(env, raw) && raw.issue == k);
      assert raw in front + [raw];
      if a :| a in front && a.issue == k && Touches(env, a) {
        assert a in front + [raw];
      }
    }
  }

  /** The issues of known projects with an event that has an effect, under their names. */
  lemma {:induction false} IssuesAreTouched(env: Env, raws: seq<RawEvent>)
    ensures IssuesDescribe(env, raws, Fold(Stepper(env), EMPTY_TABLES, raws).issues)
  {
    if raws != [] {
      var front, last := raws[..|raws| - 1], raws[|raws| - 1];
      assert raws == front + [last];
      IssuesAreTouched(env, front);
      FoldKeepsKeysValid(env, EMPTY_TABLES, front);
      NextIssueDescribes(env, front, Fold(Stepper(env), EMPTY_TABLES, front), last);
    }
  }

  // ---- Metadata ----

  /** The label is listed under the key of the issue. */
  predicate Listed(issues: map<IssueKey, Issue>, k: IssueKey, key: string, name: string) {
    k in issues && key in issues[k].metadata && name in issues[k].metadata[key]
  }

  predicate Files(env: Env, raw: RawEvent, k: IssueKey, key: string, name: string) {
    && raw.issue == k && k.project in env.projects
    && SaysMetadata(env.mapper, raw.payload, key) && raw.payload.name == name
  }

  /** An event lists its own label under the key that the mapping gives, and leaves everything listed as it is. */
  lemma StepFilesLabel(env: Env, t: Tables, raw: RawEvent, k: IssueKey, key: string, name: string)
    requires KeysValid(env, t)
    ensures Listed(Step(env, t, raw).issues, k, key, name) <==>
            Listed(t.issues, k, key, name) || Files(env, raw, k, key, name)
  {
    StepShape(env, t, raw);
    EventMeaning(env.mapper, raw.payload);
  }

  /** Listed are exactly the labels that some event files there. */
  lemma {:induction false} LabelsAreFiled(env: Env, raws: seq<RawEvent>, k: IssueKey, key: string, name: string)
    ensures Listed(Fold(Stepper(env), EMPTY_TABLES, raws).issues, k, key, name) <==>
            exists raw :: raw in raws && Files(env, raw, k, key, name)
  {
    if raws != [] {
      var front, last := raws[..|raws| - 1], raws[|raws| - 1];
      assert raws == front + [last] && last in raws;
      LabelsAreFiled(env, front, k, key, name);
      FoldKeepsKeysValid(env, EMPTY_TABLES, front);
      StepFilesLabel(env, Fold(Stepper(env), EMPTY_TABLES, front), last, k, key, name);
    }
  }

  // ---- The cached state ----

  ghost predicate CachesLastKnown(t: Tables, k: IssueKey) {
    if k in t.issues then t.issues[k].state == LastKnown(EventsFor(t.events, k)) else EventsFor(t.events, k) == []
  }

  lemma LastKnownSnoc(rows: seq<IssueEvent>, r: IssueEvent)
    ensures LastKnown(rows + [r]) == if r.state == UNKNOWN then LastKnown(rows) else Some(r.state)
  {
    assert (rows + [r])[..|rows|] == rows;
  }

  /** Only a new transition to a known state moves the state of an issue row. */
  lemma StateAfterEvent(env: Env, k: IssueKey, before: Option<Issue>, p: Payload, duplicate: bool)
    ensures var effect := Classify(env.mapper, p);
            IssueAfter(env, k, before, p, duplicate).state ==
            if effect.Transition? && !duplicate && effect.state != UNKNOWN then Some(effect.state)
            else if before.Some? then before.value.state else None
  {
  }

  lemma TransitionCachesLastKnown(env: Env, t: Tables, raw: RawEvent, s: State)
    requires KeysValid(env, t) && CachesLastKnown(t, raw.issue) && Classify(env.mapper, raw.payload) == Transition(s)
    ensures CachesLastKnown(Step(env, t, raw), raw.issue)
  {
    var k, p := raw.issue, raw.payload;
    var row := NewRow(t.events, k, p, s);
    StepShape(env, t, raw);
    StateAfterEvent(env, k, Lookup(t, k), p, HasEvent(t.events, p.id, k.project));
    EventsForSnoc(t.events, row, k);
    LastKnownSnoc(EventsFor(t.events, k), row);
  }

  lemma StepCachesLastKnown(env: Env, t: Tables, raw: RawEvent, k: IssueKey)
    requires KeysValid(env, t) && CachesLastKnown(t, k)
    ensures CachesLastKnown(Step(env, t, raw), k)
  {
    var effect := Classify(env.mapper, raw.payload);
    if raw.issue != k {
      StepLeavesOthers(env, t, raw, k);
    } else if effect.Transition? {
      TransitionCachesLastKnown(env, t, raw, effect.state);
    } else {
      StepShape(env, t, raw);
      StateAfterEvent(env, k, Lookup(t, k), raw.payload, false);
    }
  }

  /** In whatever order events arrive, the cached state is that of the row inserted last whose state is known. */
  lemma {:induction false} CacheIsLastKnown(env: Env, raws: seq<RawEvent>, k: IssueKey)
    ensures CachesLastKnown(Fold(Stepper(env), EMPTY_TABLES, raws), k)
  {
    if raws != [] {
      var front := raws[..|raws| - 1];
      CacheIsLastKnown(env, front, k);
      FoldKeepsKeysValid(env, EMPTY_TABLES, front);
      StepCachesLastKnown(env, Fold(Stepper(env), EMPTY_TABLES, front), raws[|raws| - 1], k);
    }
  }
}
