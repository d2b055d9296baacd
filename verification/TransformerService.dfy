/** The transformer: reads unprocessed Bronze events in batches and writes the Silver tables in place. */
module TransformerService {
  import opened Options
  import opened Labels
  import opened Assignees
  import opened Silver
  import opened Bronze
  import opened Folds
  import NoteParser

  function Failure(env: Env): RawEvent -> bool {
    raw => Fails(env, raw)
  }

  lemma FoldOne(env: Env, t: Tables, rows: seq<RawRow<RawEvent>>, i: nat, rest: seq<nat>)
    requires i < |rows| && Within(rest, |rows|)
    ensures Within([i] + rest, |rows|)
    ensures Fold(Stepper(env), t, EventsOf(rows, [i] + rest)) ==
            Fold(Stepper(env), Step(env, t, rows[i].event), EventsOf(rows, rest))
  {
    assert EventsOf(rows, [i] + rest) == [rows[i].event] + EventsOf(rows, rest);
    FoldCons(Stepper(env), t, rows[i].event, EventsOf(rows, rest));
  }

  /** Failing events leave no trace, so folding a window is folding its good rows. */
  lemma {:induction false} FoldSkipsFailing(env: Env, t: Tables, rows: seq<RawRow<RawEvent>>, ids: seq<nat>)
    requires KeysValid(env, t) && Within(ids, |rows|)
    ensures Within(Good(Failing(Failure(env), rows), ids), |rows|)
    ensures Fold(Stepper(env), t, EventsOf(rows, ids)) ==
            Fold(Stepper(env), t, EventsOf(rows, Good(Failing(Failure(env), rows), ids)))
    decreases |ids|
  {
    var bad := Failing(Failure(env), rows);
    GoodWithin(bad, ids, |rows|);
    if ids != [] {
      var i, rest := ids[0], ids[1..];
      FailingStepIsIdle(env, t, rows[i].event);
      GoodWithin(bad, rest, |rows|);
      FoldSkipsFailing(env, Step(env, t, rows[i].event), rows, rest);
      FoldOne(env, t, rows, i, rest);
      FoldOne(env, t, rows, i, Good(bad, rest));
      GoodFirst(bad, i, rest);
      assert ids == [i] + rest;
    } else {
      assert EventsOf(rows, ids) == EventsOf(rows, Good(bad, ids));
    }
  }

  /** A database failure around a batch: the window cannot be read, or its rows cannot be marked. */
  datatype Fault = NoFault | ListFails | MarkFails

  /** The good rows of the window are folded into Silver and then marked, unless marking fails. */
  ghost predicate BatchResult(env: Env, size: nat, fault: Fault, t: Tables, rows: seq<RawRow<RawEvent>>,
                              t': Tables, rows': seq<RawRow<RawEvent>>, processed: nat, failed: bool)
  {
    if fault.ListFails? then failed && processed == 0 && t' == t && rows' == rows
    else
      var good := Good(Failing(Failure(env), rows), Window(rows, size));
      && Within(good, |rows|)
      && processed == |good|
      && t' == Fold(Stepper(env), t, EventsOf(rows, good))
      && (failed <==> fault.MarkFails? && good != [])
      && rows' == if failed then rows else Mark(rows, Elements(good))
  }

  lemma WindowIsBatch(env: Env, size: nat, fault: Fault, t: Tables, rows: seq<RawRow<RawEvent>>)
    requires KeysValid(env, t) && !fault.ListFails?
    ensures var good := Good(Failing(Failure(env), rows), Window(rows, size));
            && Within(Window(rows, size), |rows|)
            && BatchResult(env, size, fault, t, rows, Fold(Stepper(env), t, EventsOf(rows, Window(rows, size))),
                           if fault.MarkFails? || good == [] then rows else Mark(rows, Elements(good)),
                           |good|, fault.MarkFails? && good != [])
  {
    PendingIsUnprocessed(rows);
    WindowAdvances(Failing(Failure(env), rows), rows, size);
    FoldSkipsFailing(env, t, rows, Window(rows, size));
    assert Mark(rows, Elements([])) == rows;
  }

  class Service {
    const env: Env
    const batchSize: nat
    var rawEvents: seq<RawRow<RawEvent>>
    var issues: map<IssueKey, Issue>
    var issueEvents: seq<IssueEvent>
    var issueComments: seq<Comment>

    ghost function Contents(): Tables
      reads this
    {
      Tables(issues, issueEvents, issueComments)
    }

    constructor (env: Env, rows: seq<RawRow<RawEvent>>, batchSize: nat)
      ensures this.env == env && this.batchSize == batchSize && rawEvents == rows
      ensures Contents() == Tables(map[], [], [])
    {
      this.env, this.batchSize, rawEvents := env, batchSize, rows;
      issues, issueEvents, issueComments := map[], [], [];
    }

    method EnsureIssue(k: IssueKey) returns (ok: bool)
      modifies this`issues, this`issueEvents, this`issueComments
      ensures ok <==> Silver.EnsureIssue(env, old(Contents()), k).Some?
      ensures Contents() == if ok then Silver.EnsureIssue(env, old(Contents()), k).value else old(Contents())
    {
      if k in issues {
        return true;
      }
      var title, gitlabId := Placeholder(k.iid), 0;
      if k in env.rawIssues {
        var raw := env.rawIssues[k];
        if raw.title != "" {
          title := Named(raw.title);
        }
        if raw.gitlabId > 0 {
          gitlabId := raw.gitlabId;
        }
      }
      if k.project !in env.projects {
        return false;
      }
      issues := issues[k := Issue(title, gitlabId, None, map[], None)];
      return true;
    }

    method UpdateIssueMetadata(k: IssueKey, key: string, name: string)
      requires k in issues
      modifies this`issues, this`issueEvents, this`issueComments
      ensures Contents() == WithMetadata(old(Contents()), k, key, name)
    {
      var metadata := issues[k].metadata;
      var labels := if key in metadata then metadata[key] else [];
      var found := false;
      for i := 0 to |labels|
        invariant name !in labels[..i]
      {
        if labels[i] == name {
          found := true;
          break;
        }
      }
      assert labels[..|labels|] == labels;
      if !found {
        labels := labels + [name];
      }
      issues := issues[k := issues[k].(metadata := metadata[key := labels])];
    }

    method InsertIssueEvent(row: IssueEvent) returns (inserted: bool)
      modifies this`issueEvents
      ensures inserted <==> !HasEvent(old(issueEvents), row.gitlabEventId, row.issue.project)
      ensures issueEvents == if inserted then old(issueEvents) + [row] else old(issueEvents)
    {
      inserted := !HasEvent(issueEvents, row.gitlabEventId, row.issue.project);
      if inserted {
        issueEvents := issueEvents + [row];
      }
    }

    method InsertIssueComment(row: Comment) returns (inserted: bool)
      modifies this`issueComments
      ensures inserted <==> !HasComment(old(issueComments), row.noteId)
      ensures issueComments == if inserted then old(issueComments) + [row] else old(issueComments)
    {
      inserted := !HasComment(issueComments, row.noteId);
      if inserted {
        issueComments := issueComments + [row];
      }
    }

    method TransformLabelEvent(raw: RawEvent) returns (ok: bool)
      requires raw.payload.LabelEvent?
      modifies this`issues, this`issueEvents, this`issueComments
      ensures ok <==> Transform(env, old(Contents()), raw).Some?
      ensures Contents() == Step(env, old(Contents()), raw)
    {
      var le, k := raw.payload, raw.issue;
      var labelAdded, labelRemoved := "", "";
      if le.action.Add? {
        labelAdded := le.name;
      } else {
        labelRemoved := le.name;
      }
      var state := DetermineCanonicalState(env.mapper, le.action, labelAdded, labelRemoved);
      if state == BLANK && le.action.Add? {
        var key := env.mapper.MetadataKey(labelAdded);
        if key != "" {
          ok := EnsureIssue(k);
          if !ok {
            return;
          }
          UpdateIssueMetadata(k, key, labelAdded);
        }
        return true;
      }
      if le.action.Remove? {
        return true;
      }
      ok := EnsureIssue(k);
      if !ok {
        return;
      }
      var last := LastEvent(issueEvents, k);
      var noise, cycles := false, 0;
      if last.Some? {
        noise := DetectNervousFinger(last, state, le.at);
        cycles := CalculateCycleCount(last, state);
      }
      var inserted :=
        InsertIssueEvent(IssueEvent(le.id, k, le.author, labelAdded, labelRemoved, state, le.at, noise, cycles));
      if inserted && state != UNKNOWN {
        issues := issues[k := issues[k].(state := Some(state))];
      }
    }

    method ProcessAssigneeChanges(k: IssueKey, changes: seq<Change>, at: int) returns (ok: bool)
      modifies this`issues, this`issueEvents, this`issueComments
      ensures ok <==> Silver.EnsureIssue(env, old(Contents()), k).Some?
      ensures ok ==> Contents() == WithAssignees(Silver.EnsureIssue(env, old(Contents()), k).value, k, changes, at)
      ensures !ok ==> Contents() == old(Contents())
    {
      ok := EnsureIssue(k);
      if !ok {
        return;
      }
      ghost var ensured := Contents();
      var start := HistoryOf(issues[k]);
      var history := new AssigneeHistory(start);
      var modified := false;
      for i := 0 to |changes|
        invariant Contents() == ensured
        invariant fresh(history) && history.Value() == ApplyAll(start, changes[..i], at)
        invariant !modified ==> history.Value() == start
        invariant modified && start == EMPTY ==> history.history != []
      {
        assert changes[..i + 1][..i] == changes[..i];
        var changeModified := history.ApplyAssigneeChange(changes[i], at);
        if changeModified {
          modified := true;
        }
      }
      assert changes[..|changes|] == changes;
      if !modified {
        return;
      }
      issues := issues[k := issues[k].(assignees := Some(History(history.current, history.history)))];
    }

    method TransformNote(raw: RawEvent) returns (ok: bool)
      requires raw.payload.Note?
      modifies this`issues, this`issueEvents, this`issueComments
      ensures ok <==> Transform(env, old(Contents()), raw).Some?
      ensures Contents() == Step(env, old(Contents()), raw)
    {
      var note, k := raw.payload, raw.issue;
      if note.system {
        var changes := NoteParser.ParseAssigneeChangeFromSystemNote(note.body);
        if |changes| > 0 {
          ok := ProcessAssigneeChanges(k, changes, note.at);
          return;
        }
        return true;
      }
      ok := EnsureIssue(k);
      if !ok {
        return;
      }
      var _ := InsertIssueComment(Comment(note.id, k, note.author, note.body, note.at));
    }

    method TransformEvent(raw: RawEvent) returns (ok: bool)
      modifies this`issues, this`issueEvents, this`issueComments
      ensures ok <==> Transform(env, old(Contents()), raw).Some?
      ensures Contents() == Step(env, old(Contents()), raw)
    {
      match raw.payload
      case LabelEvent(_, _, _, _, _) => ok := TransformLabelEvent(raw);
      case Note(_, _, _, _, _) => ok := TransformNote(raw);
      case Malformed => ok := false;
      case OtherType => ok := true;
    }

    /** The oldest unprocessed rows, at most limit of them. */
    method ListUnprocessedRawEvents(limit: nat) returns (ids: seq<nat>)
      ensures ids == Window(rawEvents, limit)
    {
      ids := Pending(rawEvents);
      if limit < |ids| {
        ids := ids[..limit];
      }
    }

    /** The loop of TransformBatch over the rows it fetched; returns the rows to mark. */
    method TransformRows(ids: seq<nat>) returns (processedIDs: seq<nat>)
      requires KeysValid(env, Contents()) && Within(ids, |rawEvents|)
      modifies this`issues, this`issueEvents, this`issueComments
      ensures KeysValid(env, Contents())
      ensures processedIDs == Good(Failing(Failure(env), rawEvents), ids)
      ensures Contents() == Fold(Stepper(env), old(Contents()), EventsOf(rawEvents, ids))
    {
      ghost var t, bad := Contents(), Failing(Failure(env), rawEvents);
      processedIDs := [];
      for i := 0 to |ids|
        invariant KeysValid(env, Contents())
        invariant Within(ids[..i], |rawEvents|)
        invariant Contents() == Fold(Stepper(env), t, EventsOf(rawEvents, ids[..i]))
        invariant processedIDs == Good(bad, ids[..i])
      {
        var raw := rawEvents[ids[i]].event;
        FailingStepIsIdle(env, Contents(), raw);
        RowAdvances(Stepper(env), t, rawEvents, ids, i, bad);
        var ok := TransformEvent(raw);
        if ok {
          processedIDs := processedIDs + [ids[i]];
        }
      }
      assert ids[..|ids|] == ids;
    }

    method TransformBatch(fault: Fault) returns (processed: nat, failed: bool)
      requires KeysValid(env, Contents())
      modifies this
      ensures KeysValid(env, Contents())
      ensures BatchResult(env, batchSize, fault, old(Contents()), old(rawEvents), Contents(), rawEvents,
                          processed, failed)
    {
      if fault.ListFails? {
        return 0, true;
      }
      var ids := ListUnprocessedRawEvents(batchSize);
      PendingIsUnprocessed(rawEvents);
      WindowIsBatch(env, batchSize, fault, Contents(), rawEvents);
      var processedIDs := TransformRows(ids);
      processed, failed := |processedIDs|, false;
      if |processedIDs| > 0 {
        if fault.MarkFails? {
          return processed, true;
        }
        rawEvents := Mark(rawEvents, Elements(processedIDs));
      }
    }

    /** Batches until one of them transforms nothing or a database failure stops the run. */
    method TransformAll(faults: seq<Fault>) returns (total: nat, failed: bool, ghost applied: seq<nat>)
      requires KeysValid(env, Contents())
      modifies this
      ensures Drained(Stepper(env), Failure(env), old(Contents()), old(rawEvents), batchSize, applied, total,
                      Contents(), rawEvents)
      ensures !failed ==>
                total == |applied| &&
                applied == Reach(Failing(Failure(env), old(rawEvents)), Pending(old(rawEvents)), batchSize)
      ensures !failed ==> Good(Failing(Failure(env), rawEvents), Window(rawEvents, batchSize)) == []
      ensures failed ==> exists f :: f in faults && !f.NoFault?
    {
      ghost var t, rows := Contents(), rawEvents;
      total, applied, failed := 0, [], false;
      var round := 0;
      assert rows == Mark(rows, Elements(applied));
      while true
        invariant KeysValid(env, Contents())
        invariant total == |applied|
        invariant Progress(Stepper(env), Failure(env), t, rows, batchSize, applied, Contents(), rawEvents)
        decreases |Pending(rawEvents)|
      {
        var fault := NoFault;
        if round < |faults| {
          fault := faults[round];
          assert fault in faults;
        }
        round := round + 1;
        ghost var good := Good(Failing(Failure(env), rawEvents), Window(rawEvents, batchSize));
        BatchAdvances(Stepper(env), Failure(env), t, rows, batchSize, applied, Contents(), rawEvents, good);
        BatchesEnd(Failure(env), rawEvents, batchSize, good);
        ProgressIsDrained(Stepper(env), Failure(env), t, rows, batchSize, applied, Contents(), rawEvents);
        LastBatchIsDrained(Stepper(env), Failure(env), t, rows, batchSize, applied, Contents(), rawEvents, good);
        ghost var before := rawEvents;
        var n, err := TransformBatch(fault);
        if err {
          applied := if fault.MarkFails? then applied + good else applied;
          return total, true, applied;
        }
        total := total + n;
        applied := applied + good;
        if n == 0 {
          assert applied[..total] == applied && rawEvents == before;
          return total, false, applied;
        }
      }
    }
  }
}
