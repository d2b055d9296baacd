/**
 What the extractor writes to Bronze. Each fetch of an issue appends the label events and then the notes
 the issue has by then, all copies included, and a run fetches several issues. The premises of the theorems
 about streams follow from the lists being in time order in GitLab.
 */
module Fetches {
  import opened Folds
  import opened Assignees
  import opened AssigneeStreams
  import opened Silver
  import opened Locality
  import opened Replay
  import opened IncrementalEvents

  // ---- The label events of one issue inside any stream ----

  predicate IsLabelEventOf(raw: RawEvent, k: IssueKey) {
    raw.issue == k && raw.payload.LabelEvent?
  }

  function LabelEventsOf(raws: seq<RawEvent>, k: IssueKey): seq<RawEvent> {
    if raws == [] then []
    else
      var front, last := raws[..|raws| - 1], raws[|raws| - 1];
      LabelEventsOf(front, k) + if IsLabelEventOf(last, k) then [last] else []
  }

  lemma LabelEventsSnoc(raws: seq<RawEvent>, raw: RawEvent, k: IssueKey)
    ensures LabelEventsOf(raws + [raw], k) == LabelEventsOf(raws, k) + if IsLabelEventOf(raw, k) then [raw] else []
  {
    assert (raws + [raw])[..|raws|] == raws;
  }

  lemma {:induction false} LabelEventsMembers(raws: seq<RawEvent>, k: IssueKey)
    ensures forall raw :: raw in LabelEventsOf(raws, k) <==> raw in raws && IsLabelEventOf(raw, k)
  {
    if raws != [] {
      LabelEventsMembers(raws[..|raws| - 1], k);
      assert raws == raws[..|raws| - 1] + [raws[|raws| - 1]];
    }
  }

  /** Only label events of the same issue absorb a label event. */
  lemma AbsorbedAmongOwn(env: Env, raws: seq<RawEvent>, raw: RawEvent, k: IssueKey)
    requires IsLabelEventOf(raw, k)
    ensures AbsorbedBy(env, raws, raw) <==> AbsorbedBy(env, LabelEventsOf(raws, k), raw)
  {
    LabelEventsMembers(raws, k);
    if first :| first in raws && Absorbs(env, first, raw) {
      assert first in LabelEventsOf(raws, k);
    }
    if first :| first in LabelEventsOf(raws, k) && Absorbs(env, first, raw) {
      assert first in raws;
    }
  }

  /** Taking the label events of an issue commutes with taking first copies. */
  lemma {:induction false} LabelEventsOfFirstCopies(env: Env, raws: seq<RawEvent>, k: IssueKey)
    ensures LabelEventsOf(FirstCopies(env, raws), k) == FirstCopies(env, LabelEventsOf(raws, k))
  {
    if raws != [] {
      var front, last := raws[..|raws| - 1], raws[|raws| - 1];
      LabelEventsOfFirstCopies(env, front, k);
      LabelEventsSnoc(FirstCopies(env, front), last, k);
      if IsLabelEventOf(last, k) {
        AbsorbedAmongOwn(env, front, last, k);
        FirstCopiesSnoc(env, LabelEventsOf(front, k), last);
      } else {
        assert LabelEventsOf(raws, k) == LabelEventsOf(front, k);
      }
    }
  }

  /** However often the label events of an issue are fetched, among whatever else, they count once, in their order. */
  lemma RefetchedLabelEventsCountOnce(env: Env, raws: seq<RawEvent>, k: IssueKey, list: seq<RawEvent>,
                                      lengths: seq<nat>)
    requires Growing(lengths, |list|) && LabelEventsOf(raws, k) == Refetched(list, lengths)
    requires DistinctEvents(env, list) && forall raw :: raw in list ==> raw.payload.LabelEvent?
    ensures LabelEventsOf(FirstCopies(env, raws), k) == FetchedPart(list, lengths)
  {
    LabelEventsOfFirstCopies(env, raws, k);
    RefetchedListCountsOnce(env, list, lengths);
  }

  ghost predicate InTime(list: seq<RawEvent>) {
    forall i, j | 0 <= i < j < |list| :: TimeOf(list[i]) <= TimeOf(list[j])
  }

  function TimeOf(raw: RawEvent): int {
    if raw.payload.LabelEvent? || raw.payload.Note? then raw.payload.at else 0
  }

  lemma {:induction false} OrderOfLabelEvents(raws: seq<RawEvent>, k: IssueKey, i: nat, j: nat)
    requires i < j < |raws| && IsLabelEventOf(raws[i], k) && IsLabelEventOf(raws[j], k)
    requires InTime(LabelEventsOf(raws, k))
    ensures TimeOf(raws[i]) <= TimeOf(raws[j])
  {
    var front, last := raws[..|raws| - 1], raws[|raws| - 1];
    var own := LabelEventsOf(front, k);
    if j < |front| {
      assert forall a :: 0 <= a < |own| ==> own[a] == LabelEventsOf(raws, k)[a];
      OrderOfLabelEvents(front, k, i, j);
    } else {
      LabelEventsMembers(front, k);
      assert front[i] in own;
      var a :| 0 <= a < |own| && own[a] == raws[i];
      assert LabelEventsOf(raws, k)[a] == raws[i] && LabelEventsOf(raws, k)[|own|] == last;
    }
  }

  /** A stream is chronological when the label events of each issue are in time order. */
  lemma ChronologicalByIssue(raws: seq<RawEvent>)
    requires forall k :: InTime(LabelEventsOf(raws, k))
    ensures Chronological(raws)
  {
    forall i, j | 0 <= i < j < |raws| && raws[i].issue == raws[j].issue && raws[i].payload.LabelEvent?
                  && raws[j].payload.LabelEvent?
      ensures raws[i].payload.at <= raws[j].payload.at
    {
      OrderOfLabelEvents(raws, raws[i].issue, i, j);
    }
  }

  // ---- Fetches ----

  /** What GitLab has of an issue: both lists only grow at the end. */
  datatype Lists = Lists(labelEvents: seq<RawEvent>, notes: seq<RawEvent>)

  /** One fetch of an issue, with the lengths the two lists had at the two calls. */
  datatype Fetch = Fetch(issue: IssueKey, labelEvents: nat, notes: nat)

  predicate Has(lists: Lists, f: Fetch) {
    f.labelEvents <= |lists.labelEvents| && f.notes <= |lists.notes|
  }

  ghost predicate Fetchable(gitlab: map<IssueKey, Lists>, fetches: seq<Fetch>) {
    && (forall f :: f in fetches ==> f.issue in gitlab && Has(gitlab[f.issue], f))
    && (forall i, j :: 0 <= i < j < |fetches| && fetches[i].issue == fetches[j].issue ==>
          fetches[i].labelEvents <= fetches[j].labelEvents && fetches[i].notes <= fetches[j].notes)
  }

  function FetchOf(lists: Lists, f: Fetch): seq<RawEvent>
    requires Has(lists, f)
  {
    lists.labelEvents[..f.labelEvents] + lists.notes[..f.notes]
  }

  /** The Bronze stream the fetches leave. */
  ghost function Written(gitlab: map<IssueKey, Lists>, fetches: seq<Fetch>): seq<RawEvent>
    requires Fetchable(gitlab, fetches)
  {
    if fetches == [] then []
    else
      var last := fetches[|fetches| - 1];
      Written(gitlab, fetches[..|fetches| - 1]) + FetchOf(gitlab[last.issue], last)
  }

  /** The lists of an issue hold what their names say, in time order, and no id twice. */
  ghost predicate ListsOf(lists: Lists, k: IssueKey) {
    && (forall raw :: raw in lists.labelEvents ==> IsLabelEventOf(raw, k))
    && (forall raw :: raw in lists.notes ==> raw.issue == k && raw.payload.Note?)
    && InTime(lists.labelEvents) && InTime(lists.notes)
    && (forall i, j :: 0 <= i < j < |lists.labelEvents| ==>
          !SameId(lists.labelEvents[i], lists.labelEvents[j]))
  }

  ghost predicate AllListed(gitlab: map<IssueKey, Lists>) {
    forall k :: k in gitlab ==> ListsOf(gitlab[k], k)
  }

  /** An id belongs to one issue. */
  ghost predicate IdsBelong(gitlab: map<IssueKey, Lists>) {
    forall j, k, a, b ::
      j in gitlab && k in gitlab && InLists(gitlab[j], a) && InLists(gitlab[k], b) && SameId(a, b) ==> j == k
  }

  predicate InLists(lists: Lists, raw: RawEvent) {
    raw in lists.labelEvents || raw in lists.notes
  }

  function LabelLengths(fetches: seq<Fetch>, k: IssueKey): seq<nat> {
    if fetches == [] then []
    else
      var last := fetches[|fetches| - 1];
      LabelLengths(fetches[..|fetches| - 1], k) + if last.issue == k then [last.labelEvents] else []
  }

  function NoteLengths(fetches: seq<Fetch>, k: IssueKey): seq<nat> {
    if fetches == [] then []
    else
      var last := fetches[|fetches| - 1];
      NoteLengths(fetches[..|fetches| - 1], k) + if last.issue == k then [last.notes] else []
  }

  lemma FetchableFront(gitlab: map<IssueKey, Lists>, fetches: seq<Fetch>)
    requires Fetchable(gitlab, fetches) && fetches != []
    ensures Fetchable(gitlab, fetches[..|fetches| - 1])
    ensures fetches[|fetches| - 1] in fetches && forall f :: f in fetches[..|fetches| - 1] ==> f in fetches
  {
  }

  lemma GrowingSnoc(lengths: seq<nat>, n: nat, bound: nat)
    ensures Growing(lengths, bound) && n <= bound && (forall m :: m in lengths ==> m <= n) ==>
              Growing(lengths + [n], bound)
  {
    assert forall i :: 0 <= i < |lengths| ==> lengths[i] in lengths;
  }

  lemma {:induction false} LengthsAreFetched(fetches: seq<Fetch>, k: IssueKey)
    ensures forall n :: n in LabelLengths(fetches, k) ==> exists f :: f in fetches && f.issue == k && f.labelEvents == n
    ensures forall n :: n in NoteLengths(fetches, k) ==> exists f :: f in fetches && f.issue == k && f.notes == n
  {
    if fetches != [] {
      assert fetches[|fetches| - 1] in fetches && forall f :: f in fetches[..|fetches| - 1] ==> f in fetches;
      LengthsAreFetched(fetches[..|fetches| - 1], k);
    }
  }

  lemma LastIsLongest(gitlab: map<IssueKey, Lists>, fetches: seq<Fetch>)
    requires Fetchable(gitlab, fetches) && fetches != []
    ensures var front, last := fetches[..|fetches| - 1], fetches[|fetches| - 1];
            && (forall n :: n in LabelLengths(front, last.issue) ==> n <= last.labelEvents)
            && (forall n :: n in NoteLengths(front, last.issue) ==> n <= last.notes)
  {
    var front, last := fetches[..|fetches| - 1], fetches[|fetches| - 1];
    LengthsAreFetched(front, last.issue);
    forall f | f in front && f.issue == last.issue
      ensures f.labelEvents <= last.labelEvents && f.notes <= last.notes
    {
      var i :| 0 <= i < |front| && front[i] == f;
      assert fetches[i] == f;
    }
  }

  /** The lengths of an issue grow from fetch to fetch. */
  lemma {:induction false} LengthsGrow(gitlab: map<IssueKey, Lists>, fetches: seq<Fetch>, k: IssueKey)
    requires Fetchable(gitlab, fetches) && k in gitlab
    ensures Growing(LabelLengths(fetches, k), |gitlab[k].labelEvents|)
    ensures Growing(NoteLengths(fetches, k), |gitlab[k].notes|)
  {
    if fetches != [] {
      var front, last := fetches[..|fetches| - 1], fetches[|fetches| - 1];
      FetchableFront(gitlab, fetches);
      LengthsGrow(gitlab, front, k);
      LastIsLongest(gitlab, fetches);
      GrowingSnoc(LabelLengths(front, k), last.labelEvents, |gitlab[k].labelEvents|);
      GrowingSnoc(NoteLengths(front, k), last.notes, |gitlab[k].notes|);
    }
  }

  lemma {:induction false} LabelEventsConcat(a: seq<RawEvent>, b: seq<RawEvent>, k: IssueKey)
    ensures LabelEventsOf(a + b, k) == LabelEventsOf(a, k) + LabelEventsOf(b, k)
  {
    if b == [] {
      assert a + b == a;
    } else {
      var front, last := b[..|b| - 1], b[|b| - 1];
      assert (a + b)[..|a + b| - 1] == a + front;
      LabelEventsConcat(a, front, k);
      Assoc(LabelEventsOf(a, k), LabelEventsOf(front, k), if IsLabelEventOf(last, k) then [last] else []);
    }
  }

  lemma {:induction false} AllOrNoLabelEvents(raws: seq<RawEvent>, k: IssueKey)
    ensures (forall raw :: raw in raws ==> IsLabelEventOf(raw, k)) ==> LabelEventsOf(raws, k) == raws
    ensures (forall raw :: raw in raws ==> !IsLabelEventOf(raw, k)) ==> LabelEventsOf(raws, k) == []
  {
    if raws != [] {
      AllOrNoLabelEvents(raws[..|raws| - 1], k);
      assert raws[|raws| - 1] in raws;
    }
  }

  lemma {:induction false} NoChanges(env: Env, raws: seq<RawEvent>, k: IssueKey)
    requires forall raw :: raw in raws ==> raw.issue != k || raw.payload.LabelEvent?
    ensures ChangesFor(env, raws, k) == []
  {
    if raws != [] {
      assert raws[|raws| - 1] in raws;
      NoChanges(env, raws[..|raws| - 1], k);
    }
  }

  /** The label events that one fetch of an issue holds. */
  lemma FetchedLabelEvents(lists: Lists, f: Fetch, k: IssueKey)
    requires ListsOf(lists, f.issue) && Has(lists, f)
    ensures LabelEventsOf(FetchOf(lists, f), k) == if f.issue == k then lists.labelEvents[..f.labelEvents] else []
  {
    var labelEvents, notes := lists.labelEvents[..f.labelEvents], lists.notes[..f.notes];
    assert forall raw :: raw in labelEvents ==> raw in lists.labelEvents && IsLabelEventOf(raw, f.issue);
    assert forall raw :: raw in notes ==> raw in lists.notes && raw.payload.Note?;
    LabelEventsConcat(labelEvents, notes, k);
    AllOrNoLabelEvents(labelEvents, k);
    AllOrNoLabelEvents(notes, k);
  }

  /** The assignee changes that one fetch of an issue holds. */
  lemma FetchedChanges(env: Env, lists: Lists, f: Fetch, k: IssueKey)
    requires ListsOf(lists, f.issue) && Has(lists, f)
    ensures ChangesFor(env, FetchOf(lists, f), k) ==
            if f.issue == k then ChangesFor(env, lists.notes[..f.notes], k) else []
  {
    var labelEvents, notes := lists.labelEvents[..f.labelEvents], lists.notes[..f.notes];
    assert forall raw :: raw in labelEvents ==> raw in lists.labelEvents && IsLabelEventOf(raw, f.issue);
    assert forall raw :: raw in notes ==> raw in lists.notes && raw.issue == f.issue;
    ChangesConcat(env, labelEvents, notes, k);
    NoChanges(env, labelEvents, k);
    if f.issue != k {
      NoChanges(env, notes, k);
    }
  }

  /** Inside what the fetches wrote, the label events of an issue are a list fetched again and again. */
  lemma {:induction false} WrittenLabelEvents(gitlab: map<IssueKey, Lists>, fetches: seq<Fetch>, k: IssueKey)
    requires AllListed(gitlab) && Fetchable(gitlab, fetches) && k in gitlab
    ensures Growing(LabelLengths(fetches, k), |gitlab[k].labelEvents|)
    ensures LabelEventsOf(Written(gitlab, fetches), k) == Refetched(gitlab[k].labelEvents, LabelLengths(fetches, k))
  {
    LengthsGrow(gitlab, fetches, k);
    if fetches != [] {
      var front, last := fetches[..|fetches| - 1], fetches[|fetches| - 1];
      FetchableFront(gitlab, fetches);
      WrittenLabelEvents(gitlab, front, k);
      FetchedLabelEvents(gitlab[last.issue], last, k);
      LabelEventsConcat(Written(gitlab, front), FetchOf(gitlab[last.issue], last), k);
      LengthsSnoc(fetches, k);
    }
  }

  lemma {:induction false} WrittenNotes(env: Env, gitlab: map<IssueKey, Lists>, fetches: seq<Fetch>, k: IssueKey)
    requires AllListed(gitlab) && Fetchable(gitlab, fetches) && k in gitlab
    ensures Growing(NoteLengths(fetches, k), |gitlab[k].notes|)
    ensures ChangesFor(env, Written(gitlab, fetches), k) ==
            ChangesFor(env, Refetched(gitlab[k].notes, NoteLengths(fetches, k)), k)
  {
    LengthsGrow(gitlab, fetches, k);
    if fetches != [] {
      var front, last := fetches[..|fetches| - 1], fetches[|fetches| - 1];
      FetchableFront(gitlab, fetches);
      WrittenNotes(env, gitlab, front, k);
      FetchedChanges(env, gitlab[last.issue], last, k);
      ChangesConcat(env, Written(gitlab, front), FetchOf(gitlab[last.issue], last), k);
      LengthsSnoc(fetches, k);
      if last.issue == k {
        ChangesConcat(env, Refetched(gitlab[k].notes, NoteLengths(front, k)), gitlab[k].notes[..last.notes], k);
      }
    }
  }

  /** So are the changes of its notes. */
  lemma WrittenChanges(env: Env, gitlab: map<IssueKey, Lists>, fetches: seq<Fetch>, k: IssueKey)
    requires AllListed(gitlab) && Fetchable(gitlab, fetches) && k in gitlab
    ensures var notes := gitlab[k].notes;
            && Growing(NoteLengths(fetches, k), |notes|)
            && var cs, ns := ChangesFor(env, notes, k), ChangeLengths(env, notes, NoteLengths(fetches, k), k);
               Growing(ns, |cs|) && ChangesFor(env, Written(gitlab, fetches), k) == Refetched(cs, ns)
  {
    WrittenNotes(env, gitlab, fetches, k);
    ChangesOfRefetched(env, gitlab[k].notes, NoteLengths(fetches, k), k);
  }

  lemma LengthsSnoc(fetches: seq<Fetch>, k: IssueKey)
    requires fetches != []
    ensures var front, last := fetches[..|fetches| - 1], fetches[|fetches| - 1];
            var ls, ns := LabelLengths(fetches, k), NoteLengths(fetches, k);
            if last.issue != k then ls == LabelLengths(front, k) && ns == NoteLengths(front, k)
            else
              && ls != [] && ls[..|ls| - 1] == LabelLengths(front, k) && ls[|ls| - 1] == last.labelEvents
              && ns != [] && ns[..|ns| - 1] == NoteLengths(front, k) && ns[|ns| - 1] == last.notes
  {
  }

  // ---- What follows for Silver and Gold ----

  lemma {:induction false} WrittenIsListed(gitlab: map<IssueKey, Lists>, fetches: seq<Fetch>)
    requires AllListed(gitlab) && Fetchable(gitlab, fetches)
    ensures forall raw :: raw in Written(gitlab, fetches) ==> raw.issue in gitlab && InLists(gitlab[raw.issue], raw)
  {
    if fetches != [] {
      var last := fetches[|fetches| - 1];
      FetchableFront(gitlab, fetches);
      WrittenIsListed(gitlab, fetches[..|fetches| - 1]);
      var lists := gitlab[last.issue];
      forall raw | raw in FetchOf(lists, last)
        ensures raw.issue == last.issue && InLists(lists, raw)
      {
        if raw in lists.labelEvents[..last.labelEvents] {
          assert raw in lists.labelEvents && IsLabelEventOf(raw, last.issue);
        } else {
          assert raw in lists.notes;
        }
      }
    }
  }

  lemma {:induction false} FirstCopiesAreCopies(env: Env, raws: seq<RawEvent>)
    ensures forall raw :: raw in FirstCopies(env, raws) ==> raw in raws
  {
    if raws != [] {
      FirstCopiesAreCopies(env, raws[..|raws| - 1]);
    }
  }

  lemma OwnIdsAreDistinct(env: Env, lists: Lists, k: IssueKey)
    requires ListsOf(lists, k)
    ensures DistinctEvents(env, lists.labelEvents) && forall raw :: raw in lists.labelEvents ==> raw.payload.LabelEvent?
  {
    assert forall raw :: raw in lists.labelEvents ==> IsLabelEventOf(raw, k);
    assert forall i :: 0 <= i < |lists.labelEvents| ==> lists.labelEvents[i] in lists.labelEvents;
    forall i, j | 0 <= i < j < |lists.labelEvents|
      ensures !Absorbs(env, lists.labelEvents[i], lists.labelEvents[j])
    {
      assert IsLabelEventOf(lists.labelEvents[i], k) && IsLabelEventOf(lists.labelEvents[j], k);
    }
  }

  /** The first copies of an issue's label events are the part of the list that was fetched, in its order. */
  lemma WrittenFirstCopies(env: Env, gitlab: map<IssueKey, Lists>, fetches: seq<Fetch>, k: IssueKey)
    requires AllListed(gitlab) && Fetchable(gitlab, fetches) && k in gitlab
    ensures Growing(LabelLengths(fetches, k), |gitlab[k].labelEvents|)
    ensures LabelEventsOf(FirstCopies(env, Written(gitlab, fetches)), k) ==
            FetchedPart(gitlab[k].labelEvents, LabelLengths(fetches, k))
  {
    WrittenLabelEvents(gitlab, fetches, k);
    OwnIdsAreDistinct(env, gitlab[k], k);
    RefetchedLabelEventsCountOnce(env, Written(gitlab, fetches), k, gitlab[k].labelEvents, LabelLengths(fetches, k));
  }

  lemma WrittenIsChronological(env: Env, gitlab: map<IssueKey, Lists>, fetches: seq<Fetch>)
    requires AllListed(gitlab) && Fetchable(gitlab, fetches)
    ensures Chronological(FirstCopies(env, Written(gitlab, fetches)))
  {
    var copies := FirstCopies(env, Written(gitlab, fetches));
    WrittenIsListed(gitlab, fetches);
    FirstCopiesAreCopies(env, Written(gitlab, fetches));
    forall k
      ensures InTime(LabelEventsOf(copies, k))
    {
      if k in gitlab {
        WrittenFirstCopies(env, gitlab, fetches, k);
      } else {
        AllOrNoLabelEvents(copies, k);
      }
    }
    ChronologicalByIssue(copies);
  }

  lemma WrittenIdsIdentify(env: Env, gitlab: map<IssueKey, Lists>, fetches: seq<Fetch>)
    requires AllListed(gitlab) && IdsBelong(gitlab) && Fetchable(gitlab, fetches)
    ensures IdsIdentifyIssues(FirstCopies(env, Written(gitlab, fetches)))
  {
    WrittenIsListed(gitlab, fetches);
    FirstCopiesAreCopies(env, Written(gitlab, fetches));
  }

  /** Every issue's timeline and cache are coherent after whatever the extractor wrote. */
  lemma WrittenTimelines(env: Env, gitlab: map<IssueKey, Lists>, fetches: seq<Fetch>, k: IssueKey)
    requires AllListed(gitlab) && IdsBelong(gitlab) && Fetchable(gitlab, fetches)
    ensures Coherent(ViewOf(Fold(Stepper(env), EMPTY_TABLES, Written(gitlab, fetches)), k), k)
  {
    WrittenIsChronological(env, gitlab, fetches);
    WrittenIdsIdentify(env, gitlab, fetches);
    StreamsAreCoherent(env, Written(gitlab, fetches), k);
  }

  lemma {:induction false} ChangesAreStamped(env: Env, notes: seq<RawEvent>, k: IssueKey, t: int)
    requires forall raw :: raw in notes ==> raw.payload.Note? && raw.payload.at <= t
    ensures forall c :: c in ChangesFor(env, notes, k) ==> c.at <= t
  {
    if notes != [] {
      var front, last := notes[..|notes| - 1], notes[|notes| - 1];
      assert last in notes && forall raw :: raw in front ==> raw in notes;
      ChangesAreStamped(env, front, k, t);
    }
  }

  lemma LaterChanges(cs: seq<TimedChange>, more: seq<TimedChange>, t: int)
    requires Ordered(cs) && (forall c :: c in cs ==> c.at <= t) && forall c :: c in more ==> c.at == t
    ensures Ordered(cs + more)
  {
    assert forall i :: 0 <= i < |cs| ==> cs[i] in cs;
    assert forall i :: 0 <= i < |more| ==> more[i] in more;
  }

  lemma LastIsLatest(notes: seq<RawEvent>)
    requires notes != [] && InTime(notes) && forall raw :: raw in notes ==> raw.payload.Note?
    ensures var front, last := notes[..|notes| - 1], notes[|notes| - 1];
            && InTime(front) && last.payload.Note?
            && (forall raw :: raw in front ==> raw.payload.Note? && raw.payload.at <= last.payload.at)
  {
    var front, last := notes[..|notes| - 1], notes[|notes| - 1];
    assert last in notes;
    forall raw | raw in front
      ensures raw.payload.Note? && raw.payload.at <= last.payload.at
    {
      var i :| 0 <= i < |front| && front[i] == raw;
      assert notes[i] in notes && TimeOf(notes[i]) <= TimeOf(notes[|front|]);
    }
  }

  lemma {:induction false} NotesAreOrdered(env: Env, notes: seq<RawEvent>, k: IssueKey)
    requires InTime(notes) && forall raw :: raw in notes ==> raw.payload.Note?
    ensures Ordered(ChangesFor(env, notes, k))
  {
    if notes != [] {
      var front, last := notes[..|notes| - 1], notes[|notes| - 1];
      LastIsLatest(notes);
      NotesAreOrdered(env, front, k);
      ChangesAreStamped(env, front, k, last.payload.at);
      LaterChanges(ChangesFor(env, front, k), if last.issue == k then ChangesOf(env, last) else [], last.payload.at);
    }
  }

  /** The changes in the notes that each fetch found. */
  function NoteParts(env: Env, notes: seq<RawEvent>, ns: seq<nat>, k: IssueKey): (parts: seq<seq<TimedChange>>)
    requires forall i :: 0 <= i < |ns| ==> ns[i] <= |notes|
    ensures |parts| == |ns| && forall i :: 0 <= i < |ns| ==> parts[i] == ChangesFor(env, notes[..ns[i]], k)
  {
    seq(|ns|, i requires 0 <= i < |ns| => ChangesFor(env, notes[..ns[i]], k))
  }

  lemma {:induction false} PartsAgree(env: Env, notes: seq<RawEvent>, ns: seq<nat>, k: IssueKey)
    requires Growing(ns, |notes|)
    ensures Growing(ChangeLengths(env, notes, ns, k), |ChangesFor(env, notes, k)|)
    ensures PartsOf(ChangesFor(env, notes, k), ChangeLengths(env, notes, ns, k)) == NoteParts(env, notes, ns, k)
  {
    PartsOfChanges(env, notes, ns, k);
  }

  /** The assignee history of an issue after whatever the extractor wrote. */
  lemma WrittenHistory(env: Env, gitlab: map<IssueKey, Lists>, fetches: seq<Fetch>, k: IssueKey)
    requires AllListed(gitlab) && Fetchable(gitlab, fetches) && k in gitlab && NoteLengths(fetches, k) != []
    ensures Growing(NoteLengths(fetches, k), |gitlab[k].notes|)
    ensures HistoryOfFetches(StoredHistory(Fold(Stepper(env), EMPTY_TABLES, Written(gitlab, fetches)), k),
                             NoteParts(env, gitlab[k].notes, NoteLengths(fetches, k), k))
  {
    var notes, ns := gitlab[k].notes, NoteLengths(fetches, k);
    WrittenChanges(env, gitlab, fetches, k);
    assert ListsOf(gitlab[k], k);
    NotesAreOrdered(env, notes, k);
    PartsAgree(env, notes, ns, k);
    RefetchedHistory(env, Written(gitlab, fetches), k, ChangesFor(env, notes, k), ChangeLengths(env, notes, ns, k));
  }
}
