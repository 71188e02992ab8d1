/**
 * `runDataRetentionJob`: a sweep over every CV that skips records under an
 * active legal hold, purges records older than the purge threshold, flags
 * records older than the warning threshold, and restores fresh records whose
 * retention state is not active, counting each outcome. The legal holds and
 * the writes that throw are parameters.
 */
module DataRetention {
  import opened Common
  import opened CvDocs
  import opened DocStore

  /** `24 * 60 * 60 * 1000`. */
  const DayMillis: int := 86_400_000

  /** The time of the run and the two day counts from the environment. */
  datatype Policy = Policy(now: Millis, warningDays: int, purgeDays: int)

  datatype Summary = Summary(processed: nat, flagged: nat, purged: nat, restored: nat, skippedLegalHold: nat, errors: nat)

  function WarningThreshold(p: Policy): (t: Millis)
    ensures t == p.now - p.warningDays * DayMillis
  {
    p.now - p.warningDays * DayMillis
  }

  function PurgeThreshold(p: Policy): (t: Millis)
    ensures t == p.now - p.purgeDays * DayMillis
  {
    p.now - p.purgeDays * DayMillis
  }

  /** `cv.updatedAt ?? cv.createdAt`. */
  function LastUpdated(cv: Cv): (t: Millis)
    ensures cv.updatedAt.Some? ==> t == cv.updatedAt.value
    ensures cv.updatedAt.None? ==> t == cv.createdAt
  {
    cv.updatedAt.GetOr(cv.createdAt)
  }

  /** `calculatePurgeSchedule`: `purgeDays` days after the last update. */
  function PurgeSchedule(lastUpdated: Millis, purgeDays: int): (t: Millis)
    ensures t - lastUpdated == purgeDays * DayMillis
  {
    lastUpdated + purgeDays * DayMillis
  }

  /** `createActiveState`. */
  function ActiveState(): (r: Retention)
    ensures r.status == Active
    ensures r.flaggedAt.None? && r.purgeScheduledFor.None? && r.purgedAt.None? && r.warningSentAt.None? && r.reason.None?
  {
    Retention(Active, None, None, None, None, None)
  }

  const Reason: string := "retention_policy"

  /** The state a purge writes: earlier flag and warning times and the earlier schedule are kept. */
  function PurgeState(cv: Cv, p: Policy): (r: Retention)
    ensures r.status == Purged && r.purgedAt == Some(p.now) && r.reason == Some(Reason)
    ensures cv.retention.Some? ==> r.flaggedAt == cv.retention.value.flaggedAt && r.warningSentAt == cv.retention.value.warningSentAt
    ensures cv.retention.None? ==> r.flaggedAt.None? && r.warningSentAt.None?
    ensures r.purgeScheduledFor.Some?
    ensures cv.retention.Some? && cv.retention.value.purgeScheduledFor.Some? ==> r.purgeScheduledFor == cv.retention.value.purgeScheduledFor
    ensures cv.retention.None? || cv.retention.value.purgeScheduledFor.None? ==>
              r.purgeScheduledFor == Some(PurgeSchedule(LastUpdated(cv), p.purgeDays))
  {
    var old_ := cv.retention;
    Retention(
      Purged,
      if old_.Some? then old_.value.flaggedAt else None,
      Some(if old_.Some? && old_.value.purgeScheduledFor.Some? then old_.value.purgeScheduledFor.value
           else PurgeSchedule(LastUpdated(cv), p.purgeDays)),
      Some(p.now),
      if old_.Some? then old_.value.warningSentAt else None,
      Some(Reason))
  }

  /** Whether a record in the warning window needs its flag written. */
  predicate ShouldFlag(cv: Cv, p: Policy) {
    var schedule := PurgeSchedule(LastUpdated(cv), p.purgeDays);
    !(cv.retention.Some? && cv.retention.value.status == Flagged && cv.retention.value.flaggedAt.Some?
      && cv.retention.value.purgeScheduledFor == Some(schedule))
  }

  /** The state a flag writes: earlier flag and warning times are kept, else both become now. */
  function FlagState(cv: Cv, p: Policy): (r: Retention)
    ensures r.status == Flagged && r.purgedAt.None? && r.reason == Some(Reason)
    ensures r.purgeScheduledFor == Some(PurgeSchedule(LastUpdated(cv), p.purgeDays))
    ensures r.flaggedAt.Some? && r.warningSentAt.Some?
    ensures cv.retention.Some? && cv.retention.value.flaggedAt.Some? ==> r.flaggedAt == cv.retention.value.flaggedAt
    ensures cv.retention.None? || cv.retention.value.flaggedAt.None? ==> r.flaggedAt == Some(p.now)
    ensures cv.retention.Some? && cv.retention.value.warningSentAt.Some? ==> r.warningSentAt == cv.retention.value.warningSentAt
    ensures cv.retention.None? || cv.retention.value.warningSentAt.None? ==> r.warningSentAt == Some(p.now)
  {
    var old_ := cv.retention;
    Retention(
      Flagged,
      Some(if old_.Some? && old_.value.flaggedAt.Some? then old_.value.flaggedAt.value else p.now),
      Some(PurgeSchedule(LastUpdated(cv), p.purgeDays)),
      None,
      Some(if old_.Some? && old_.value.warningSentAt.Some? then old_.value.warningSentAt.value else p.now),
      Some(Reason))
  }

  /** The counter a record adds to, if any. */
  datatype Counter = Uncounted | SkippedHold | CountPurged | CountFlagged | CountRestored | CountError

  /** What the sweep does with one record: the state it writes, if any, and the counter it adds to. */
  datatype Decision = Decision(write: Option<Retention>, counted: Counter)

  function HasStatus(cv: Cv, s: RetentionStatus): bool {
    cv.retention.Some? && cv.retention.value.status == s
  }

  /**
   * The decision for one record with an id. `held` is whether its consultant
   * has an active legal hold; `fails` is whether the write throws, in which case
   * nothing is written and the error is counted.
   */
  function Decide(cv: Cv, p: Policy, held: bool, fails: bool): (d: Decision)
    ensures held ==> d == Decision(None, SkippedHold)
    ensures d.write.Some? ==> !held && !fails
    ensures d.counted == CountError ==> fails && d.write.None?
    ensures !held && LastUpdated(cv) <= PurgeThreshold(p) ==>
              if fails then d.counted == CountError else d.write == Some(PurgeState(cv, p))
    ensures !held && PurgeThreshold(p) < LastUpdated(cv) <= WarningThreshold(p) ==>
              if !ShouldFlag(cv, p) then d == Decision(None, Uncounted)
              else if fails then d.counted == CountError
              else d == Decision(Some(FlagState(cv, p)), CountFlagged)
    ensures !held && LastUpdated(cv) > PurgeThreshold(p) && LastUpdated(cv) > WarningThreshold(p) ==>
              if cv.retention.None? || HasStatus(cv, Active) then d == Decision(None, Uncounted)
              else if fails then d.counted == CountError
              else d == Decision(Some(ActiveState()), CountRestored)
    ensures d.counted == CountPurged <==>
              !held && !fails && LastUpdated(cv) <= PurgeThreshold(p)
              && (cv.retention != Some(PurgeState(cv, p)) || !HasStatus(cv, Purged))
  {
    var last := LastUpdated(cv);
    if held then Decision(None, SkippedHold)
    else if last <= PurgeThreshold(p) then
      if fails then Decision(None, CountError)
      else
        var state := PurgeState(cv, p);
        var modified := cv.retention != Some(state);
        Decision(Some(state), if modified || !HasStatus(cv, Purged) then CountPurged else Uncounted)
    else if last <= WarningThreshold(p) then
      if !ShouldFlag(cv, p) then Decision(None, Uncounted)
      else if fails then Decision(None, CountError)
      else
        var state := FlagState(cv, p);
        var modified := cv.retention != Some(state);
        Decision(Some(state), if modified || !HasStatus(cv, Flagged) then CountFlagged else Uncounted)
    else if cv.retention.Some? && cv.retention.value.status != Active then
      if fails then Decision(None, CountError)
      else
        var modified := cv.retention != Some(ActiveState());
        Decision(Some(ActiveState()), if modified then CountRestored else Uncounted)
    else Decision(None, Uncounted)
  }

  /** The record after its decision. */
  function Applied(cv: Cv, d: Decision): (r: Cv)
    ensures d.write.None? ==> r == cv
    ensures d.write.Some? ==> r == cv.(retention := d.write)
  {
    if d.write.Some? then cv.(retention := d.write) else cv
  }

  /** The counter each record's decision adds to. */
  function Counters(cvs: map<Id, Cv>, p: Policy, holds: set<Id>, failing: set<Id>): (kinds: map<Id, Counter>)
    ensures kinds.Keys == cvs.Keys
    ensures forall id | id in cvs :: kinds[id] == Decide(cvs[id], p, id in holds, id in failing).counted
  {
    map id | id in cvs :: Decide(cvs[id], p, id in holds, id in failing).counted
  }

  /** The records of `ids` that add to counter `c`. */
  function Hits(kinds: map<Id, Counter>, ids: set<Id>, c: Counter): set<Id> {
    set id | id in ids && id in kinds && kinds[id] == c
  }

  function Tally(kinds: map<Id, Counter>, ids: set<Id>, c: Counter): nat {
    |Hits(kinds, ids, c)|
  }

  lemma TallyAdd(kinds: map<Id, Counter>, ids: set<Id>, x: Id, c: Counter)
    requires x !in ids && x in kinds
    ensures Tally(kinds, ids + {x}, c) == Tally(kinds, ids, c) + (if kinds[x] == c then 1 else 0)
  {
    var before := Hits(kinds, ids, c);
    assert x !in before;
    if kinds[x] == c {
      assert Hits(kinds, ids + {x}, c) == before + {x};
    } else {
      assert Hits(kinds, ids + {x}, c) == before;
    }
  }

  /** The summary with one more record counted under `c`. */
  function Bump(s: Summary, c: Counter): (r: Summary)
    ensures r.processed == s.processed + 1
    ensures r.purged == s.purged + (if c == CountPurged then 1 else 0)
    ensures r.flagged == s.flagged + (if c == CountFlagged then 1 else 0)
    ensures r.restored == s.restored + (if c == CountRestored then 1 else 0)
    ensures r.skippedLegalHold == s.skippedLegalHold + (if c == SkippedHold then 1 else 0)
    ensures r.errors == s.errors + (if c == CountError then 1 else 0)
  {
    var s := s.(processed := s.processed + 1);
    match c
    case Uncounted => s
    case SkippedHold => s.(skippedLegalHold := s.skippedLegalHold + 1)
    case CountPurged => s.(purged := s.purged + 1)
    case CountFlagged => s.(flagged := s.flagged + 1)
    case CountRestored => s.(restored := s.restored + 1)
    case CountError => s.(errors := s.errors + 1)
  }

  /** Summary `s` counts, for every counter, the records of `ids` that add to it. */
  ghost predicate Counts(s: Summary, kinds: map<Id, Counter>, ids: set<Id>) {
    && s.processed == |ids|
    && s.purged == Tally(kinds, ids, CountPurged)
    && s.flagged == Tally(kinds, ids, CountFlagged)
    && s.restored == Tally(kinds, ids, CountRestored)
    && s.skippedLegalHold == Tally(kinds, ids, SkippedHold)
    && s.errors == Tally(kinds, ids, CountError)
    && s.flagged + s.purged + s.restored + s.skippedLegalHold + s.errors <= s.processed
  }

  lemma CountsStep(s: Summary, kinds: map<Id, Counter>, ids: set<Id>, x: Id)
    requires Counts(s, kinds, ids) && x !in ids && x in kinds
    ensures Counts(Bump(s, kinds[x]), kinds, ids + {x})
  {
    TallyAdd(kinds, ids, x, CountPurged);
    TallyAdd(kinds, ids, x, CountFlagged);
    TallyAdd(kinds, ids, x, CountRestored);
    TallyAdd(kinds, ids, x, SkippedHold);
    TallyAdd(kinds, ids, x, CountError);
  }

  function Visited(order: seq<Id>): set<Id> {
    set i | 0 <= i < |order| :: order[i]
  }

  lemma VisitedAppend(order: seq<Id>, x: Id)
    ensures Visited(order + [x]) == Visited(order) + {x}
  {
    var o := order + [x];
    forall y | y in Visited(o) ensures y in Visited(order) + {x} {
      var i :| 0 <= i < |o| && o[i] == y;
      if i < |order| {
        assert order[i] == y;
      }
    }
    forall y | y in Visited(order) ensures y in Visited(o) {
      var i :| 0 <= i < |order| && order[i] == y;
      assert o[i] == y;
    }
    assert o[|order|] == x;
  }

  predicate Distinct(order: seq<Id>) {
    forall i, j | 0 <= i < j < |order| :: order[i] != order[j]
  }

  /** The summary of visiting the records of `order` one after the other. */
  function SummaryOf(kinds: map<Id, Counter>, order: seq<Id>): Summary
    requires forall i | 0 <= i < |order| :: order[i] in kinds
  {
    if order == [] then Summary(0, 0, 0, 0, 0, 0)
    else Bump(SummaryOf(kinds, order[..|order| - 1]), kinds[order[|order| - 1]])
  }

  /** Visiting each record once, in any order, counts every record under its own counter. */
  lemma {:induction false} SummaryOfCounts(kinds: map<Id, Counter>, order: seq<Id>)
    requires forall i | 0 <= i < |order| :: order[i] in kinds
    requires Distinct(order)
    ensures Counts(SummaryOf(kinds, order), kinds, Visited(order))
  {
    if order != [] {
      var init := order[..|order| - 1];
      var x := order[|order| - 1];
      SummaryOfCounts(kinds, init);
      assert order == init + [x];
      VisitedAppend(init, x);
      CountsStep(SummaryOf(kinds, init), kinds, Visited(init), x);
    }
  }

  /**
   * `runDataRetentionJob` over the CVs of the store, in the cursor's order.
   * Every record ends as its own decision makes it; each counter is the
   * number of records whose decision adds to it, and no record adds to more
   * than one.
   */
  method RunDataRetentionJob(store: Store, p: Policy, holds: set<Id>, failing: set<Id>, cursor: seq<Id>)
    returns (summary: Summary)
    requires Distinct(cursor) && Visited(cursor) == store.cvs.Keys
    modifies store
    ensures store.cvs == Swept(old(store.cvs), p, holds, failing)
    ensures store.versions == old(store.versions) && store.entities == old(store.entities)
    ensures Counts(summary, Counters(old(store.cvs), p, holds, failing), old(store.cvs).Keys)
  {
    ghost var cvs0 := store.cvs;
    ghost var after := Swept(cvs0, p, holds, failing);
    ghost var kinds := Counters(cvs0, p, holds, failing);
    summary := Summary(0, 0, 0, 0, 0, 0);
    assert Sweeping(store.cvs, summary, cursor, 0, cvs0, after, kinds);
    for i := 0 to |cursor|
      invariant Sweeping(store.cvs, summary, cursor, i, cvs0, after, kinds)
      invariant store.versions == old(store.versions) && store.entities == old(store.entities)
    {
      summary := SweepNext(store, p, holds, failing, cursor, i, summary, cvs0, after, kinds);
    }
    assert cursor[..|cursor|] == cursor;
    SweptAll(store.cvs, cvs0, after);
    SummaryOfCounts(kinds, cursor);
  }

  /** The loop's bookkeeping after the first `i` records of the cursor. */
  ghost predicate Sweeping(cvs: map<Id, Cv>, summary: Summary, cursor: seq<Id>, i: nat,
                           cvs0: map<Id, Cv>, after: map<Id, Cv>, kinds: map<Id, Counter>)
  {
    && i <= |cursor| && Distinct(cursor) && Visited(cursor) == cvs0.Keys
    && after.Keys == cvs0.Keys
    && SweptSoFar(cvs, cvs0, after, Visited(cursor[..i]))
    && (forall j | 0 <= j < |cursor| :: cursor[j] in kinds)
    && summary == SummaryOf(kinds, cursor[..i])
  }

  /** One turn of the sweep: the record at `cursor[i]`, and the loop's bookkeeping. */
  method SweepNext(store: Store, p: Policy, holds: set<Id>, failing: set<Id>, cursor: seq<Id>, i: nat, summary: Summary,
                   ghost cvs0: map<Id, Cv>, ghost after: map<Id, Cv>, ghost kinds: map<Id, Counter>)
    returns (next: Summary)
    requires after == Swept(cvs0, p, holds, failing) && kinds == Counters(cvs0, p, holds, failing)
    requires i < |cursor| && Sweeping(store.cvs, summary, cursor, i, cvs0, after, kinds)
    modifies store
    ensures Sweeping(store.cvs, next, cursor, i + 1, cvs0, after, kinds)
    ensures store.versions == old(store.versions) && store.entities == old(store.entities)
  {
    var id := cursor[i];
    ghost var before := store.cvs;
    VisitedStep(cursor, i);
    var counted := SweepRecord(store, id, p, id in holds, id in failing);
    SweptStep(before, cvs0, after, Visited(cursor[..i]), id, p, holds, failing);
    assert cursor[..i + 1][..i] == cursor[..i];
    next := Bump(summary, counted);
  }

  lemma VisitedStep(cursor: seq<Id>, i: nat)
    requires Distinct(cursor) && i < |cursor|
    ensures Visited(cursor[..i + 1]) == Visited(cursor[..i]) + {cursor[i]}
    ensures cursor[i] !in Visited(cursor[..i]) && cursor[i] in Visited(cursor)
  {
    assert cursor[..i + 1] == cursor[..i] + [cursor[i]];
    VisitedAppend(cursor[..i], cursor[i]);
    assert cursor[i] in Visited(cursor) by {
      assert 0 <= i < |cursor|;
    }
  }

  /** The records of `done` are as `after` has them, the others as they were in `cvs0`. */
  ghost predicate SweptSoFar(cvs: map<Id, Cv>, cvs0: map<Id, Cv>, after: map<Id, Cv>, done: set<Id>) {
    && cvs.Keys == cvs0.Keys
    && (forall id | id in done && id in cvs :: id in after && cvs[id] == after[id])
    && (forall id | id in cvs0 && id !in done :: cvs[id] == cvs0[id])
  }

  lemma SweptStep(cvs: map<Id, Cv>, cvs0: map<Id, Cv>, after: map<Id, Cv>, done: set<Id>, id: Id,
                  p: Policy, holds: set<Id>, failing: set<Id>)
    requires after == Swept(cvs0, p, holds, failing)
    requires SweptSoFar(cvs, cvs0, after, done) && id in cvs0 && id !in done && done <= cvs0.Keys
    ensures SweptSoFar(cvs[id := Applied(cvs[id], Decide(cvs[id], p, id in holds, id in failing))], cvs0, after, done + {id})
  {
  }

  lemma SweptAll(cvs: map<Id, Cv>, cvs0: map<Id, Cv>, after: map<Id, Cv>)
    requires after.Keys == cvs0.Keys
    requires SweptSoFar(cvs, cvs0, after, cvs0.Keys)
    ensures cvs == after
  {
  }

  /** Every record after its own decision. */
  function Swept(cvs: map<Id, Cv>, p: Policy, holds: set<Id>, failing: set<Id>): (r: map<Id, Cv>)
    ensures r.Keys == cvs.Keys
    ensures forall id | id in cvs :: r[id] == Applied(cvs[id], Decide(cvs[id], p, id in holds, id in failing))
  {
    map id | id in cvs :: Applied(cvs[id], Decide(cvs[id], p, id in holds, id in failing))
  }

  /** The body of the loop for one record: the decision, the write it calls for, and the counter it adds to. */
  method SweepRecord(store: Store, id: Id, p: Policy, held: bool, fails: bool) returns (counted: Counter)
    requires id in store.cvs
    modifies store
    ensures counted == Decide(old(store.cvs)[id], p, held, fails).counted
    ensures store.cvs == old(store.cvs)[id := Applied(old(store.cvs)[id], Decide(old(store.cvs)[id], p, held, fails))]
    ensures store.versions == old(store.versions) && store.entities == old(store.entities)
  {
    var cv := store.cvs[id];
    var last := LastUpdated(cv);
    if held {
      return SkippedHold;
    }
    if last <= PurgeThreshold(p) {
      if fails {
        return CountError;
      }
      var modified := store.SetRetention(id, PurgeState(cv, p));
      counted := if modified || !HasStatus(cv, Purged) then CountPurged else Uncounted;
    } else if last <= WarningThreshold(p) {
      if !ShouldFlag(cv, p) {
        return Uncounted;
      }
      if fails {
        return CountError;
      }
      var modified := store.SetRetention(id, FlagState(cv, p));
      counted := if modified || !HasStatus(cv, Flagged) then CountFlagged else Uncounted;
    } else if cv.retention.Some? && cv.retention.value.status != Active {
      if fails {
        return CountError;
      }
      var modified := store.SetRetention(id, ActiveState());
      counted := if modified then CountRestored else Uncounted;
    } else {
      counted := Uncounted;
    }
  }

  // Properties across runs.

  /**
   * A flagged record whose last update has not changed is left alone by a
   * later run that still finds it in the warning window: nothing is written
   * and nothing counted.
   */
  lemma FlagRerunWritesNothing(cv: Cv, p: Policy, later: Policy, fails: bool)
    requires Decide(cv, p, false, false).counted == CountFlagged
    requires later.purgeDays == p.purgeDays
    requires PurgeThreshold(later) < LastUpdated(cv) <= WarningThreshold(later)
    ensures Decide(Applied(cv, Decide(cv, p, false, false)), later, false, fails) == Decision(None, Uncounted)
  {
    var flagged := Applied(cv, Decide(cv, p, false, false));
    assert LastUpdated(flagged) == LastUpdated(cv);
    assert PurgeThreshold(p) < LastUpdated(cv) <= WarningThreshold(p);
    assert !ShouldFlag(flagged, later);
  }

  /**
   * A purged record is purged again by every later run that still finds it past
   * the purge threshold: `purgedAt` moves to the new time, the rest of the state
   * is kept, and the record counts as purged again.
   */
  lemma PurgeRerunRewritesPurgedAt(cv: Cv, p: Policy, later: Policy)
    requires Decide(cv, p, false, false).counted == CountPurged
    requires later.now != p.now
    requires LastUpdated(cv) <= PurgeThreshold(later)
    ensures var purged := Applied(cv, Decide(cv, p, false, false));
            Decide(purged, later, false, false)
            == Decision(Some(purged.retention.value.(purgedAt := Some(later.now))), CountPurged)
  {
    var purged := Applied(cv, Decide(cv, p, false, false));
    assert LastUpdated(purged) == LastUpdated(cv);
    assert purged.retention == Some(PurgeState(cv, p));
    assert PurgeState(purged, later) == PurgeState(cv, p).(purgedAt := Some(later.now));
  }

  /** Run again at the same time, a purge writes the same state and counts nothing. */
  lemma PurgeRerunSameTime(cv: Cv, p: Policy)
    requires Decide(cv, p, false, false).counted == CountPurged
    ensures var purged := Applied(cv, Decide(cv, p, false, false));
            Decide(purged, p, false, false) == Decision(purged.retention, Uncounted)
  {
    var purged := Applied(cv, Decide(cv, p, false, false));
    assert LastUpdated(purged) == LastUpdated(cv);
    assert PurgeState(purged, p) == PurgeState(cv, p);
  }

  /** A purge or a flag, once written, is undone by a run that finds the record fresh again. */
  lemma RestoreAfterUpdate(cv: Cv, p: Policy, later: Policy)
    requires Decide(cv, p, false, false).counted in {CountPurged, CountFlagged}
    requires LastUpdated(cv) > PurgeThreshold(later) && LastUpdated(cv) > WarningThreshold(later)
    ensures var written := Applied(cv, Decide(cv, p, false, false));
            Decide(written, later, false, false) == Decision(Some(ActiveState()), CountRestored)
            && Applied(written, Decide(written, later, false, false)).retention == Some(ActiveState())
  {
    var written := Applied(cv, Decide(cv, p, false, false));
    assert LastUpdated(written) == LastUpdated(cv);
  }
}
