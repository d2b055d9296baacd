/**
 The assignee history of an issue: the list of current assignees and the list of
 assignment periods are two views of one fact, updated in place by one change at a time.
 Timestamps are integer milliseconds.
 */
module Assignees {
  import opened Options

  datatype Entry = Entry(username: string, assignedAt: int, unassignedAt: Option<int>, durationSeconds: Option<int>)

  datatype Action = Assigned | Unassigned | Unrecognised

  datatype Change = Change(username: string, action: Action)

  /** A change together with the creation time of the note it came from. */
  datatype TimedChange = TimedChange(change: Change, at: int)

  /** The value stored in the assignees column. */
  datatype History = History(current: seq<string>, entries: seq<Entry>)

  const EMPTY := History([], [])

  /** Go's integer conversion of a duration in seconds truncates toward zero. */
  function WholeSeconds(ms: int): int {
    if ms >= 0 then ms / 1000 else -((-ms) / 1000)
  }

  predicate OpenFor(e: Entry, u: string) {
    e.username == u && e.unassignedAt.None?
  }

  function OpenIndex(es: seq<Entry>, u: string): (k: nat)
    ensures k <= |es|
    ensures k < |es| ==> OpenFor(es[k], u)
    ensures forall i :: 0 <= i < k ==> !OpenFor(es[i], u)
  {
    if es == [] then 0
    else if OpenFor(es[0], u) then 0
    else 1 + OpenIndex(es[1..], u)
  }

  function Close(e: Entry, at: int): Entry {
    e.(unassignedAt := Some(at), durationSeconds := Some(WholeSeconds(at - e.assignedAt)))
  }

  function Without(us: seq<string>, u: string): seq<string> {
    if us == [] then []
    else if us[|us| - 1] == u then Without(us[..|us| - 1], u)
    else Without(us[..|us| - 1], u) + [us[|us| - 1]]
  }

  function Assign(h: History, u: string, at: int): History {
    History(
      if u in h.current then h.current else h.current + [u],
      if OpenIndex(h.entries, u) < |h.entries| then h.entries
      else h.entries + [Entry(u, at, None, None)])
  }

  function Unassign(h: History, u: string, at: int): History {
    var k := OpenIndex(h.entries, u);
    History(
      Without(h.current, u),
      if k < |h.entries| then h.entries[k := Close(h.entries[k], at)] else h.entries)
  }

  function Apply(h: History, c: Change, at: int): History {
    match c.action
    case Assigned => Assign(h, c.username, at)
    case Unassigned => Unassign(h, c.username, at)
    case Unrecognised => h
  }

  /** All changes of one note, in the order the parser returns them. */
  function ApplyAll(h: History, cs: seq<Change>, at: int): History {
    if cs == [] then h
    else Apply(ApplyAll(h, cs[..|cs| - 1], at), cs[|cs| - 1], at)
  }

  function Run(cs: seq<TimedChange>): History {
    if cs == [] then EMPTY
    else Apply(Run(cs[..|cs| - 1]), cs[|cs| - 1].change, cs[|cs| - 1].at)
  }

  lemma TakeSnoc<T>(s: seq<T>, i: nat)
    requires i < |s|
    ensures s[..i + 1] == s[..i] + [s[i]]
  {
  }

  lemma {:induction false} WithoutMembers(us: seq<string>, u: string)
    ensures forall v :: v in Without(us, u) <==> v in us && v != u
    ensures Without(us, u) == us <==> u !in us
  {
    if us != [] {
      var front, last := us[..|us| - 1], us[|us| - 1];
      WithoutMembers(front, u);
      assert us == front + [last];
    }
  }

  lemma WithoutSnoc(us: seq<string>, v: string, u: string)
    ensures Without(us + [v], u) == Without(us, u) + if v == u then [] else [v]
  {
    assert (us + [v])[..|us|] == us;
  }

  lemma OpenIndexIs(es: seq<Entry>, u: string, i: nat)
    requires i <= |es| && (i < |es| ==> OpenFor(es[i], u)) && forall j :: 0 <= j < i ==> !OpenFor(es[j], u)
    ensures OpenIndex(es, u) == i
  {
  }

  lemma UnassignChangesIff(h: History, u: string, at: int)
    ensures Unassign(h, u, at) != h <==> u in h.current || OpenIndex(h.entries, u) < |h.entries|
  {
    WithoutMembers(h.current, u);
    var k := OpenIndex(h.entries, u);
    if k < |h.entries| {
      assert Unassign(h, u, at).entries[k].unassignedAt.Some?;
    }
  }

  /** The mutable record the transformer works on. */
  class AssigneeHistory {
    var current: seq<string>
    var history: seq<Entry>

    ghost function Value(): History
      reads this
    {
      History(current, history)
    }

    constructor (h: History)
      ensures Value() == h
    {
      current := h.current;
      history := h.entries;
    }

    method HandleAssigned(username: string, assignedAt: int) returns (modified: bool)
      modifies this
      ensures Value() == Assign(old(Value()), username, assignedAt)
      ensures modified <==> Value() != old(Value())
    {
      modified := false;
      var alreadyAssigned := false;
      for i := 0 to |current|
        invariant username !in current[..i]
      {
        if current[i] == username {
          alreadyAssigned := true;
          break;
        }
      }
      if !alreadyAssigned {
        assert current == current[..|current|];
        current := current + [username];
        modified := true;
      }
      for i := 0 to |history|
        invariant forall j :: 0 <= j < i ==> !OpenFor(history[j], username)
      {
        if history[i].username == username && history[i].unassignedAt.None? {
          return modified;
        }
      }
      history := history + [Entry(username, assignedAt, None, None)];
      return true;
    }

    /** The first loop of HandleUnassigned: copy everybody else. */
    method RemoveFromCurrent(username: string) returns (removed: bool)
      modifies this`current
      ensures current == Without(old(current), username)
      ensures removed <==> username in old(current)
    {
      removed := false;
      var newCurrent: seq<string> := [];
      for i := 0 to |current|
        invariant current == old(current)
        invariant newCurrent == Without(current[..i], username)
        invariant removed <==> username in current[..i]
      {
        TakeSnoc(current, i);
        WithoutSnoc(current[..i], current[i], username);
        if current[i] != username {
          newCurrent := newCurrent + [current[i]];
        } else {
          removed := true;
        }
      }
      assert current[..|current|] == current;
      current := newCurrent;
    }

    method HandleUnassigned(username: string, unassignedAt: int) returns (modified: bool)
      modifies this
      ensures Value() == Unassign(old(Value()), username, unassignedAt)
      ensures modified <==> Value() != old(Value())
    {
      UnassignChangesIff(Value(), username, unassignedAt);
      modified := RemoveFromCurrent(username);
      for i := 0 to |history|
        invariant history == old(history) && current == Without(old(current), username)
        invariant forall j :: 0 <= j < i ==> !OpenFor(history[j], username)
      {
        if history[i].username == username && history[i].unassignedAt.None? {
          var duration := WholeSeconds(unassignedAt - history[i].assignedAt);
          OpenIndexIs(history, username, i);
          history := history[i := history[i].(unassignedAt := Some(unassignedAt), durationSeconds := Some(duration))];
          return true;
        }
      }
      OpenIndexIs(history, username, |history|);
    }

    method ApplyAssigneeChange(change: Change, timestamp: int) returns (modified: bool)
      modifies this
      ensures Value() == Apply(old(Value()), change, timestamp)
      ensures modified <==> Value() != old(Value())
    {
      match change.action
      case Assigned => modified := HandleAssigned(change.username, timestamp);
      case Unassigned => modified := HandleUnassigned(change.username, timestamp);
      case Unrecognised => modified := false;
    }
  }

  // ---- The representation invariant ----

  ghost predicate Distinct(us: seq<string>) {
    forall i, j :: 0 <= i < j < |us| ==> us[i] != us[j]
  }

  ghost predicate HasOpen(es: seq<Entry>, u: string) {
    exists i :: 0 <= i < |es| && OpenFor(es[i], u)
  }

  ghost predicate OneOpenEach(es: seq<Entry>) {
    forall i, j :: 0 <= i < j < |es| && es[i].username == es[j].username ==>
      es[i].unassignedAt.Some? || es[j].unassignedAt.Some?
  }

  ghost predicate DurationsMatch(es: seq<Entry>) {
    forall e :: e in es ==>
      e.durationSeconds ==
      if e.unassignedAt.Some? then Some(WholeSeconds(e.unassignedAt.value - e.assignedAt)) else None
  }

  /** Both views agree, nobody has two open periods, and durations sit exactly on closed periods. */
  ghost predicate Consistent(h: History) {
    && Distinct(h.current)
    && (forall u :: u in h.current <==> HasOpen(h.entries, u))
    && OneOpenEach(h.entries)
    && DurationsMatch(h.entries)
  }

  lemma WithoutKeepsDistinct(us: seq<string>, u: string)
    requires Distinct(us)
    ensures Distinct(Without(us, u))
  {
    if us != [] {
      WithoutMembers(us[..|us| - 1], u);
      WithoutKeepsDistinct(us[..|us| - 1], u);
      assert us[|us| - 1] !in us[..|us| - 1];
    }
  }

  lemma AssignKeepsConsistent(h: History, u: string, at: int)
    requires Consistent(h)
    ensures Consistent(Assign(h, u, at))
  {
    var es, es' := h.entries, Assign(h, u, at).entries;
    forall v
      ensures v in Assign(h, u, at).current <==> HasOpen(es', v)
    {
      if HasOpen(es, v) {
        var i :| 0 <= i < |es| && OpenFor(es[i], v);
        assert OpenFor(es'[i], v);
      }
      if v == u && !HasOpen(es, u) {
        assert OpenFor(es'[|es|], u);
      }
    }
  }

  lemma UnassignKeepsConsistent(h: History, u: string, at: int)
    requires Consistent(h)
    ensures Consistent(Unassign(h, u, at))
  {
    WithoutKeepsDistinct(h.current, u);
    WithoutMembers(h.current, u);
    var es, es' := h.entries, Unassign(h, u, at).entries;
    forall v
      ensures v in Unassign(h, u, at).current <==> HasOpen(es', v)
    {
      if v != u && HasOpen(es, v) {
        var i :| 0 <= i < |es| && OpenFor(es[i], v);
        assert OpenFor(es'[i], v);
      }
    }
  }

  /** Every reachable history is consistent. */
  lemma {:induction false} ReachableIsConsistent(cs: seq<TimedChange>)
    ensures Consistent(Run(cs))
  {
    if cs != [] {
      var front, last := cs[..|cs| - 1], cs[|cs| - 1];
      ReachableIsConsistent(front);
      AssignKeepsConsistent(Run(front), last.change.username, last.at);
      UnassignKeepsConsistent(Run(front), last.change.username, last.at);
    }
  }

  /** A change alters a consistent history exactly when it moves the user in or out of Current. */
  lemma ChangeIsAbsorbedIff(h: History, c: Change, at: int)
    requires Consistent(h)
    ensures Apply(h, c, at) == h <==>
            match c.action
            case Assigned => c.username in h.current
            case Unassigned => c.username !in h.current
            case Unrecognised => true
  {
    WithoutMembers(h.current, c.username);
    assert c.username in h.current <==> HasOpen(h.entries, c.username);
    assert HasOpen(h.entries, c.username) <==> OpenIndex(h.entries, c.username) < |h.entries|;
  }

  /** Nothing that is closed is ever touched again, and no entry is dropped or renamed. */
  lemma {:induction false} ClosedEntriesAreFinal(cs: seq<TimedChange>, n: nat, i: nat)
    requires n <= |cs| && i < |Run(cs[..n]).entries|
    ensures i < |Run(cs).entries|
    ensures var e, e' := Run(cs[..n]).entries[i], Run(cs).entries[i];
            && e'.username == e.username && e'.assignedAt == e.assignedAt
            && (e.unassignedAt.Some? ==> e' == e)
  {
    if n == |cs| {
      assert cs[..n] == cs;
    } else {
      assert cs[..|cs| - 1][..n] == cs[..n];
      ClosedEntriesAreFinal(cs[..|cs| - 1], n, i);
    }
  }

  // ---- The order of Current ----

  /** The users are listed in the order in which their open periods began. */
  ghost predicate ListedInOrder(us: seq<string>, es: seq<Entry>) {
    forall i, j :: 0 <= i < j < |us| ==> OpenIndex(es, us[i]) < OpenIndex(es, us[j])
  }

  lemma {:induction false} ListedSnoc(some: seq<string>, front: seq<string>, last: string, es: seq<Entry>)
    requires ListedInOrder(front + [last], es) && ListedInOrder(some, es) && forall v :: v in some ==> v in front
    ensures ListedInOrder(some + [last], es)
  {
    forall i | 0 <= i < |some|
      ensures OpenIndex(es, some[i]) < OpenIndex(es, last)
    {
      assert some[i] in some;
      var j :| 0 <= j < |front| && front[j] == some[i];
      assert (front + [last])[j] == front[j] && (front + [last])[|front|] == last;
    }
  }

  lemma {:induction false} WithoutKeepsOrder(us: seq<string>, u: string, es: seq<Entry>)
    requires ListedInOrder(us, es)
    ensures ListedInOrder(Without(us, u), es)
  {
    if us != [] {
      var front, last := us[..|us| - 1], us[|us| - 1];
      assert us == front + [last];
      WithoutKeepsOrder(front, u, es);
      WithoutMembers(front, u);
      ListedSnoc(Without(front, u), front, last, es);
    }
  }

  lemma {:induction false} AssignKeepsOpenIndex(h: History, u: string, at: int, v: string)
    requires v in h.current && HasOpen(h.entries, v)
    ensures OpenIndex(Assign(h, u, at).entries, v) == OpenIndex(h.entries, v) < |h.entries|
  {
    OpenIndexIs(Assign(h, u, at).entries, v, OpenIndex(h.entries, v));
  }

  lemma {:induction false} UnassignKeepsOpenIndex(h: History, u: string, at: int, v: string)
    requires v != u
    ensures OpenIndex(Unassign(h, u, at).entries, v) == OpenIndex(h.entries, v)
  {
    OpenIndexIs(Unassign(h, u, at).entries, v, OpenIndex(h.entries, v));
  }

  lemma {:induction false} AssignKeepsListed(h: History, u: string, at: int)
    requires Consistent(h) && ListedInOrder(h.current, h.entries)
    ensures ListedInOrder(Assign(h, u, at).current, Assign(h, u, at).entries)
  {
    var h' := Assign(h, u, at);
    forall v | v in h.current
      ensures OpenIndex(h'.entries, v) == OpenIndex(h.entries, v) < |h.entries|
    {
      AssignKeepsOpenIndex(h, u, at, v);
    }
    if u !in h.current {
      assert !HasOpen(h.entries, u);
      OpenIndexIs(h'.entries, u, |h.entries|);
    }
  }

  lemma {:induction false} UnassignKeepsListed(h: History, u: string, at: int)
    requires ListedInOrder(h.current, h.entries)
    ensures ListedInOrder(Unassign(h, u, at).current, Unassign(h, u, at).entries)
  {
    var us := Without(h.current, u);
    WithoutKeepsOrder(h.current, u, h.entries);
    WithoutMembers(h.current, u);
    forall i | 0 <= i < |us|
      ensures OpenIndex(Unassign(h, u, at).entries, us[i]) == OpenIndex(h.entries, us[i])
    {
      assert us[i] in us;
      UnassignKeepsOpenIndex(h, u, at, us[i]);
    }
  }

  /** Over every run, Current lists the users in the order in which their open periods began. */
  lemma {:induction false} CurrentFollowsPeriods(cs: seq<TimedChange>)
    ensures ListedInOrder(Run(cs).current, Run(cs).entries)
  {
    if cs != [] {
      var front, last := cs[..|cs| - 1], cs[|cs| - 1];
      CurrentFollowsPeriods(front);
      ReachableIsConsistent(front);
      AssignKeepsListed(Run(front), last.change.username, last.at);
      UnassignKeepsListed(Run(front), last.change.username, last.at);
    }
  }

  // ---- What the stored periods mean ----

  ghost predicate Ordered(cs: seq<TimedChange>) {
    forall i, j :: 0 <= i < j < |cs| ==> cs[i].at <= cs[j].at
  }

  /** Whether the last recognised change of u at or before t is an assignment. */
  function AssignedAt(cs: seq<TimedChange>, u: string, t: int): bool {
    if cs == [] then false
    else
      var last := cs[|cs| - 1];
      if last.change.username == u && last.at <= t && !last.change.action.Unrecognised?
      then last.change.action.Assigned?
      else AssignedAt(cs[..|cs| - 1], u, t)
  }

  predicate Covers(e: Entry, u: string, t: int) {
    e.username == u && e.assignedAt <= t && (e.unassignedAt.None? || t < e.unassignedAt.value)
  }

  ghost predicate Covered(h: History, u: string, t: int) {
    exists i :: 0 <= i < |h.entries| && Covers(h.entries[i], u, t)
  }

  /** Nothing in the history happens after now. */
  ghost predicate NotAfter(h: History, now: int) {
    forall e :: e in h.entries ==>
      e.assignedAt <= now && (e.unassignedAt.Some? ==> e.assignedAt <= e.unassignedAt.value <= now)
  }

  /** Earlier periods of a user end before later ones begin. */
  ghost predicate Sequential(es: seq<Entry>) {
    forall i, j :: 0 <= i < j < |es| && es[i].username == es[j].username ==>
      es[i].unassignedAt.Some? && es[i].unassignedAt.value <= es[j].assignedAt
  }

  lemma {:induction false} AssignExtends(h: History, u: string, at: int)
    requires Consistent(h) && NotAfter(h, at) && Sequential(h.entries)
    ensures NotAfter(Assign(h, u, at), at) && Sequential(Assign(h, u, at).entries)
    ensures forall v, t :: Covered(Assign(h, u, at), v, t) <==> Covered(h, v, t) || (v == u && at <= t)
  {
    var h' := Assign(h, u, at);
    forall v, t
      ensures Covered(h', v, t) <==> Covered(h, v, t) || (v == u && at <= t)
    {
      if Covered(h, v, t) {
        var i :| 0 <= i < |h.entries| && Covers(h.entries[i], v, t);
        assert Covers(h'.entries[i], v, t);
      }
      if v == u && at <= t {
        var k := OpenIndex(h.entries, u);
        assert k < |h'.entries| && Covers(h'.entries[k], u, t);
      }
    }
  }

  lemma UnassignKeepsOrder(h: History, u: string, at: int)
    requires NotAfter(h, at) && Sequential(h.entries)
    ensures NotAfter(Unassign(h, u, at), at) && Sequential(Unassign(h, u, at).entries)
  {
    var k := OpenIndex(h.entries, u);
    assert k < |h.entries| ==> h.entries[k] in h.entries;
  }

  lemma {:induction false} UnassignTruncates(h: History, u: string, at: int, v: string, t: int)
    requires Consistent(h) && NotAfter(h, at) && Sequential(h.entries)
    ensures Covered(Unassign(h, u, at), v, t) <==> Covered(h, v, t) && (v == u ==> t < at)
  {
    var h', k := Unassign(h, u, at), OpenIndex(h.entries, u);
    if Covered(h, v, t) && (v == u ==> t < at) {
      var i :| 0 <= i < |h.entries| && Covers(h.entries[i], v, t);
      assert Covers(h'.entries[i], v, t);
    }
    if Covered(h', v, t) {
      var i :| 0 <= i < |h'.entries| && Covers(h'.entries[i], v, t);
      assert Covers(h.entries[i], v, t) && h.entries[i] in h.entries;
      OpenEntryIsFirst(h, u, i);
    }
  }

  lemma OpenEntryIsFirst(h: History, u: string, i: nat)
    requires OneOpenEach(h.entries) && i < |h.entries|
    ensures OpenFor(h.entries[i], u) ==> i == OpenIndex(h.entries, u)
  {
  }

  /** The stored periods denote the assignment relation, and the periods of one user never overlap. */
  lemma {:induction false} PeriodsDenoteAssignments(cs: seq<TimedChange>, now: int)
    requires Ordered(cs) && forall c :: c in cs ==> c.at <= now
    ensures NotAfter(Run(cs), now) && Sequential(Run(cs).entries)
    ensures forall u, t :: AssignedAt(cs, u, t) <==> Covered(Run(cs), u, t)
  {
    if cs != [] {
      var front, last := cs[..|cs| - 1], cs[|cs| - 1];
      PeriodsDenoteAssignments(front, last.at);
      ReachableIsConsistent(front);
      match last.change.action
      case Assigned => AssignExtends(Run(front), last.change.username, last.at);
      case Unassigned =>
        UnassignKeepsOrder(Run(front), last.change.username, last.at);
        forall u, t {
          UnassignTruncates(Run(front), last.change.username, last.at, u, t);
        }
      case Unrecognised =>
    }
  }

  // ---- Stored durations ----

  function ClosedCount(es: seq<Entry>, u: string): nat {
    if es == [] then 0
    else ClosedCount(es[1..], u) + if es[0].username == u && es[0].unassignedAt.Some? then 1 else 0
  }

  function ExactMillis(es: seq<Entry>, u: string): int {
    if es == [] then 0
    else ExactMillis(es[1..], u) +
         if es[0].username == u && es[0].unassignedAt.Some? then es[0].unassignedAt.value - es[0].assignedAt else 0
  }

  function StoredSeconds(es: seq<Entry>, u: string): int {
    if es == [] then 0
    else StoredSeconds(es[1..], u) +
         if es[0].username == u && es[0].durationSeconds.Some? then es[0].durationSeconds.value else 0
  }

  lemma {:induction false} TruncationLoss(es: seq<Entry>, u: string)
    requires DurationsMatch(es)
    requires forall e :: e in es && e.unassignedAt.Some? ==> e.assignedAt <= e.unassignedAt.value
    ensures StoredSeconds(es, u) >= 0
    ensures 0 <= ExactMillis(es, u) - 1000 * StoredSeconds(es, u) <= 999 * ClosedCount(es, u)
  {
    if es != [] {
      assert es[0] in es && forall e :: e in es[1..] ==> e in es;
      TruncationLoss(es[1..], u);
    }
  }

  /**
   For notes in order, no stored duration is negative and a user with n >= 1 closed periods
   loses less than n seconds to truncation.
   */
  lemma StoredDurationsAreTight(cs: seq<TimedChange>, u: string)
    requires Ordered(cs)
    ensures var es := Run(cs).entries;
            && (forall e :: e in es && e.durationSeconds.Some? ==> e.durationSeconds.value >= 0)
            && 0 <= ExactMillis(es, u) - 1000 * StoredSeconds(es, u)
            && (ClosedCount(es, u) >= 1 ==>
                  ExactMillis(es, u) - 1000 * StoredSeconds(es, u) < 1000 * ClosedCount(es, u))
  {
    var now := if cs == [] then 0 else cs[|cs| - 1].at;
    PeriodsDenoteAssignments(cs, now);
    ReachableIsConsistent(cs);
    TruncationLoss(Run(cs).entries, u);
  }
}
