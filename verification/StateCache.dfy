/** The cached state of an issue against the state the lifecycle view derives. */
module StateCache {
  import opened Options
  import opened Labels
  import opened Folds
  import opened Silver
  import opened Locality
  import opened Replay
  import opened EventTimelines
  import opened IncrementalEvents
  import opened StateTimeline

  /** For any stream in time order the cache agrees with the view exactly when the last event is not UNKNOWN. */
  lemma {:induction false} CacheAgreesIff(env: Env, raws: seq<RawEvent>, k: IssueKey)
    requires IdsIdentifyIssues(FirstCopies(env, raws)) && Chronological(FirstCopies(env, raws))
    requires k in Fold(Stepper(env), EMPTY_TABLES, raws).issues
    ensures var t := Fold(Stepper(env), EMPTY_TABLES, raws);
            var rows := EventsFor(t.events, k);
            && t.issues[k].state == LastKnown(rows)
            && (Analytical(Collapse(InTimeOrder(rows)), t.issues[k].state) == t.issues[k].state <==>
                rows == [] || rows[|rows| - 1].state != UNKNOWN)
  {
    StreamsAreCoherent(env, raws, k);
    var rows := EventsFor(Fold(Stepper(env), EMPTY_TABLES, raws).events, k);
    InTimeOrderIsStable(rows);
    if rows != [] {
      CollapseShape(rows);
    }
    LastKnownIsKnown(rows);
  }

  lemma {:induction false} LastKnownIsKnown(rows: seq<IssueEvent>)
    ensures LastKnown(rows) != Some(UNKNOWN)
  {
    if rows != [] {
      LastKnownIsKnown(rows[..|rows| - 1]);
    }
  }
}
