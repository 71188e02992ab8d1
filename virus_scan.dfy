/**
 * `runVirusScanJob`: the scan state machine pending → queued → scanning →
 * clean | infected | error over a batch of versions, driven by conditional
 * updates, with its summary counters. The antivirus engine is a parameter
 * (`scan`); the shipped stub is `StubScan`.
 */
module VirusScan {
  import opened Common
  import opened CvDocs
  import opened DocStore

  datatype Summary = Summary(processed: nat, queued: nat, scanned: nat, clean: nat, infected: nat, errors: nat)

  /** The statuses an engine may report. */
  datatype Verdict = VerdictClean | VerdictInfected | VerdictError

  /** What calling the engine gives: a verdict with an optional message, or a thrown value (with its message when it is an `Error`). */
  datatype Attempt = Reported(verdict: Verdict, message: Option<string>) | Raised(error: Option<string>)

  function StatusOf(v: Verdict): (s: ScanStatus)
    ensures s in {Clean, Infected, ScanError}
  {
    match v
    case VerdictClean => Clean
    case VerdictInfected => Infected
    case VerdictError => ScanError
  }

  /** `performVirusScan` as shipped: every file is clean. */
  function StubScan(v: Version): (a: Attempt)
    ensures a.Reported? && a.verdict == VerdictClean && a.message.Some?
  {
    Reported(VerdictClean, Some("No threats detected for " + v.objectKey))
  }

  /** `virusScanStatus: {$in: ["pending", "queued"]}`. */
  predicate Selected(v: Version) {
    v.scan == ScanPending || v.scan == ScanQueued
  }

  function Selector(): Version -> bool {
    v => Selected(v)
  }

  /** `sort({createdAt: 1})`. */
  function SortKey(v: Version): (key: seq<int>)
    ensures key == [v.createdAt]
  {
    [v.createdAt]
  }

  /** `options?.batchSize ?? 10`, passed to `limit` without clamping. */
  function BatchLimit(requested: Option<int>): (r: Option<nat>)
    ensures requested.None? ==> r == Some(10)
    ensures requested.Some? && requested.value > 0 ==> r == Some(requested.value)
    ensures requested == Some(0) ==> r.None?
  {
    Limit(requested.GetOr(10))
  }

  /** The message recorded when a turn throws. */
  function ErrorMessage(error: Option<string>): string {
    error.GetOr("Unknown error")
  }

  /** How one turn of the loop ends. */
  datatype Ending = NotQueued | NotScanning | Scanned(status: ScanStatus) | Errored

  /** One turn: whether the version was queued in it, and how it ended. */
  datatype Step = Step(queued: bool, ending: Ending)

  /** Queueing a pending version: `versions[id]` moves to queued and its message is cleared. */
  function Queue(versions: map<Id, Version>, id: Id, now: Millis): map<Id, Version>
    requires id in versions
  {
    versions[id := versions[id].(scan := ScanQueued, queuedAt := Some(now), scanMessage := None)]
  }

  /** The CV mirror of a finished scan. */
  function MirrorAll(cvs: map<Id, Cv>, cvId: Id, versionId: Id, status: ScanStatus, now: Millis): (r: map<Id, Cv>)
    ensures r.Keys == cvs.Keys
    ensures forall c | c in cvs && c != cvId :: r[c] == cvs[c]
    ensures forall c | c in cvs :: KeptOutside(cvs[c].history, r[c].history, versionId)
    ensures cvId in cvs ==> forall i | 0 <= i < |r[cvId].history| && r[cvId].history[i].versionId == versionId ::
                              r[cvId].history[i].scan == status && r[cvId].history[i].scannedAt == Some(now)
  {
    if cvId in cvs then cvs[cvId := cvs[cvId].(history := MirrorScan(cvs[cvId].history, versionId, status, now))]
    else cvs
  }

  /**
   * One turn of the loop for the version `id`, whose document was `v` when the
   * batch was read. A pending snapshot is queued first (and the snapshot updated);
   * then the version is moved to scanning, scanned, and the result recorded on
   * the version and its CV's history. When the engine throws, only the version
   * is set to error.
   */
  function ScanOne(db: Db, id: Id, v: Version, scan: Version -> Attempt, now: Millis): (r: (Db, Step))
    ensures r.1.queued ==> v.scan == ScanPending
    ensures r.1.ending == NotQueued ==> r.0 == db
    ensures r.1.ending.Scanned? ==> r.1.ending.status in {Clean, Infected, ScanError}
    ensures r.1.ending == Errored ==> r.0.cvs == db.cvs
    ensures r.0.versions.Keys == db.versions.Keys && r.0.entities == db.entities
    ensures forall x | x in db.versions && x != id :: r.0.versions[x] == db.versions[x]
    ensures r.0.cvs.Keys == db.cvs.Keys
    ensures forall c | c in db.cvs :: KeptOutside(db.cvs[c].history, r.0.cvs[c].history, id)
    ensures r.1.ending.Scanned? ==> id in r.0.versions && r.0.versions[id].scan == r.1.ending.status
    ensures r.1.ending.Scanned? && v.cvId in db.cvs ==> ScanMirrored(r.0.cvs[v.cvId].history, id, r.0.versions[id])
  {
    if v.scan == ScanPending && !(id in db.versions && db.versions[id].scan == ScanPending) then (db, Step(false, NotQueued))
    else
      var queued := v.scan == ScanPending;
      var versions := if queued then Queue(db.versions, id, now) else db.versions;
      var snapshot := if queued then v.(scan := ScanQueued, queuedAt := Some(now)) else v;
      if !(id in versions && versions[id].scan in {ScanQueued, ScanPending}) then (db.(versions := versions), Step(queued, NotScanning))
      else
        var scanning := versions[id := versions[id].(scan := Scanning)];
        match scan(snapshot)
        case Reported(verdict, message) =>
          var status := StatusOf(verdict);
          var done := scanning[id := scanning[id].(scan := status, scannedAt := Some(now), scanMessage := message)];
          (Db(done, MirrorAll(db.cvs, v.cvId, id, status, now), db.entities), Step(queued, Scanned(status)))
        case Raised(error) =>
          var failed := scanning[id := scanning[id].(scan := ScanError, scanMessage := Some(ErrorMessage(error)))];
          (db.(versions := failed), Step(queued, Errored))
  }

  function Count(s: Summary, step: Step): Summary {
    var s := if step.queued then s.(queued := s.queued + 1) else s;
    match step.ending
    case NotQueued => s
    case NotScanning => s
    case Scanned(status) =>
      s.(scanned := s.scanned + 1,
         clean := s.clean + (if status == Clean then 1 else 0),
         infected := s.infected + (if status == Infected then 1 else 0))
    case Errored => s.(errors := s.errors + 1)
  }

  /**
   * The loop over a batch `ids` read from `db0`, with `processed` set to the
   * batch size beforehand. Every turn counts at most once as queued, and ends
   * in at most one of scanned or errors; a scan is clean, infected or neither.
   */
  function ScanAll(db0: Db, ids: seq<Id>, scan: Version -> Attempt, now: Millis): (r: (Db, Summary))
    requires forall i | 0 <= i < |ids| :: ids[i] in db0.versions
    ensures r.1.processed == 0
    ensures r.1.queued <= |ids| && r.1.scanned + r.1.errors <= |ids|
    ensures r.1.clean + r.1.infected <= r.1.scanned
    ensures r.0.versions.Keys == db0.versions.Keys && r.0.cvs.Keys == db0.cvs.Keys
    decreases |ids|
  {
    if ids == [] then (db0, Summary(0, 0, 0, 0, 0, 0))
    else
      var before := ScanAll(db0, ids[..|ids| - 1], scan, now);
      var last := ids[|ids| - 1];
      var step := ScanOne(before.0, last, db0.versions[last], scan, now);
      (step.0, Count(before.1, step.1))
  }

  /** `runVirusScanJob`: select the batch, then walk each version through the state machine. */
  method RunVirusScanJob(store: Store, batchSize: Option<int>, scan: Version -> Attempt, now: Millis)
    returns (summary: Summary, batch: seq<Id>)
    modifies store
    ensures IsBatch(old(store.versions), Selector(), SortKey, BatchLimit(batchSize), batch)
    ensures var run := ScanAll(old(store.Contents()), batch, scan, now);
            store.Contents() == run.0 && summary == run.1.(processed := |batch|)
    ensures summary.processed == |batch|
  {
    batch := store.FindVersions(Selector(), SortKey, 1, BatchLimit(batchSize));
    ghost var db0 := store.Contents();
    var snapshot := store.versions;
    summary := Summary(|batch|, 0, 0, 0, 0, 0);
    assert batch[..0] == [];
    for i := 0 to |batch|
      invariant snapshot == db0.versions
      invariant ScannedSoFar(store.Contents(), summary, db0, batch, i, scan, now)
    {
      summary := ScanNext(store, snapshot, batch, i, summary, db0, scan, now);
    }
    assert batch[..|batch|] == batch;
  }

  /** After `i` turns the store and the counters are those of the fold over the first `i` versions. */
  ghost predicate ScannedSoFar(contents: Db, summary: Summary, db0: Db, batch: seq<Id>, i: nat,
                               scan: Version -> Attempt, now: Millis)
  {
    && i <= |batch|
    && (forall j | 0 <= j < |batch| :: batch[j] in db0.versions)
    && contents == ScanAll(db0, batch[..i], scan, now).0
    && summary == ScanAll(db0, batch[..i], scan, now).1.(processed := |batch|)
  }

  /** One turn of the loop of `RunVirusScanJob`. */
  method ScanNext(store: Store, snapshot: map<Id, Version>, batch: seq<Id>, i: nat, summary: Summary,
                  ghost db0: Db, scan: Version -> Attempt, now: Millis) returns (next: Summary)
    requires i < |batch| && snapshot == db0.versions
    requires ScannedSoFar(store.Contents(), summary, db0, batch, i, scan, now)
    modifies store
    ensures ScannedSoFar(store.Contents(), next, db0, batch, i + 1, scan, now)
  {
    assert batch[..i + 1][..i] == batch[..i];
    ghost var before := ScanAll(db0, batch[..i], scan, now);
    var step := ScanVersion(store, batch[i], snapshot[batch[i]], scan, now);
    next := Count(summary, step);
    assert (store.Contents(), step) == ScanOne(before.0, batch[i], db0.versions[batch[i]], scan, now);
  }

  /** The body of the loop for one version. */
  method ScanVersion(store: Store, id: Id, v: Version, scan: Version -> Attempt, now: Millis) returns (step: Step)
    modifies store
    ensures (store.Contents(), step) == ScanOne(old(store.Contents()), id, v, scan, now)
  {
    var snapshot := v;
    var queued := false;
    if v.scan == ScanPending {
      var modified := store.QueueIfPending(id, now);
      if !modified {
        return Step(false, NotQueued);
      }
      queued := true;
      snapshot := snapshot.(scan := ScanQueued, queuedAt := Some(now));
    }
    var moved := store.StartScanning(id);
    if !moved {
      return Step(queued, NotScanning);
    }
    match scan(snapshot)
    case Reported(verdict, message) =>
      store.FinishScan(id, StatusOf(verdict), now, message);
      store.MirrorScanStatus(v.cvId, id, StatusOf(verdict), now);
      step := Step(queued, Scanned(StatusOf(verdict)));
    case Raised(error) =>
      store.FailScan(id, ErrorMessage(error));
      step := Step(queued, Errored);
  }

  // Properties of a run.

  /** Versions outside the batch are left exactly as they were. */
  lemma {:induction false} OutsideBatchUnchanged(db0: Db, ids: seq<Id>, scan: Version -> Attempt, now: Millis, x: Id)
    requires forall i | 0 <= i < |ids| :: ids[i] in db0.versions
    requires x in db0.versions && x !in ids
    ensures ScanAll(db0, ids, scan, now).0.versions[x] == db0.versions[x]
    decreases |ids|
  {
    if ids != [] {
      assert x in ids[..|ids| - 1] ==> x in ids;
      OutsideBatchUnchanged(db0, ids[..|ids| - 1], scan, now, x);
    }
  }

  /** The snapshot the engine is shown: a pending version appears queued. */
  function Shown(v: Version, now: Millis): Version {
    if v.scan == ScanPending then v.(scan := ScanQueued, queuedAt := Some(now)) else v
  }

  /**
   * Run alone over a selected batch of distinct versions, no conditional update
   * misses: every version ends with the engine's verdict, or in error (with the
   * message) when the engine throws; an error version is never selected again.
   */
  lemma {:induction false} FinalScanStatus(db0: Db, ids: seq<Id>, scan: Version -> Attempt, now: Millis, k: nat)
    requires forall i | 0 <= i < |ids| :: ids[i] in db0.versions && Selected(db0.versions[ids[i]])
    requires forall i, j | 0 <= i < j < |ids| :: ids[i] != ids[j]
    requires k < |ids|
    ensures var v := db0.versions[ids[k]];
            var after := ScanAll(db0, ids, scan, now).0.versions[ids[k]];
            match scan(Shown(v, now))
            case Reported(verdict, message) =>
              after.scan == StatusOf(verdict) && after.scannedAt == Some(now) && after.scanMessage == message
            case Raised(error) =>
              after.scan == ScanError && after.scanMessage == Some(ErrorMessage(error)) && !Selected(after)
    decreases |ids|
  {
    var init := ids[..|ids| - 1];
    var x := ids[k];
    if k == |ids| - 1 {
      assert x !in init;
      OutsideBatchUnchanged(db0, init, scan, now, x);
    } else {
      FinalScanStatus(db0, init, scan, now, k);
      assert ids[|ids| - 1] != x;
    }
  }

  /**
   * Run alone over a selected batch of distinct versions, every version the
   * engine reported on has its CV's history entries showing the same status and
   * scan time as the version document: later turns touch neither.
   */
  lemma {:induction false} FinalScanMirrored(db0: Db, ids: seq<Id>, scan: Version -> Attempt, now: Millis, k: nat)
    requires forall i | 0 <= i < |ids| :: ids[i] in db0.versions && Selected(db0.versions[ids[i]])
    requires forall i, j | 0 <= i < j < |ids| :: ids[i] != ids[j]
    requires k < |ids|
    requires scan(Shown(db0.versions[ids[k]], now)).Reported? && db0.versions[ids[k]].cvId in db0.cvs
    ensures var after := ScanAll(db0, ids, scan, now).0;
            var cvId := db0.versions[ids[k]].cvId;
            ids[k] in after.versions && cvId in after.cvs && ScanMirrored(after.cvs[cvId].history, ids[k], after.versions[ids[k]])
    decreases |ids|
  {
    var init := ids[..|ids| - 1];
    var x := ids[k];
    var v := db0.versions[x];
    var before := ScanAll(db0, init, scan, now).0;
    if k == |ids| - 1 {
      assert x !in init;
      OutsideBatchUnchanged(db0, init, scan, now, x);
      ScanOneCompletes(before, x, v, scan, now);
    } else {
      FinalScanMirrored(db0, init, scan, now, k);
      var last := ids[|ids| - 1];
      assert last != x;
      ScanOneKeepsMirror(before, last, db0.versions[last], scan, now, x, v.cvId);
    }
  }

  /** A turn for another version leaves a version, and the mirror of it in a CV's history, as they were. */
  lemma ScanOneKeepsMirror(db: Db, id: Id, v: Version, scan: Version -> Attempt, now: Millis, x: Id, cvId: Id)
    requires x in db.versions && cvId in db.cvs && x != id
    requires ScanMirrored(db.cvs[cvId].history, x, db.versions[x])
    ensures var r := ScanOne(db, id, v, scan, now).0;
            x in r.versions && cvId in r.cvs && r.versions[x] == db.versions[x] && ScanMirrored(r.cvs[cvId].history, x, r.versions[x])
  {
    var r := ScanOne(db, id, v, scan, now).0;
    assert KeptOutside(db.cvs[cvId].history, r.cvs[cvId].history, id);
  }

  /** The turn for a version still in its selected status always ends in a scan or an error. */
  lemma ScanOneCompletes(db: Db, id: Id, v: Version, scan: Version -> Attempt, now: Millis)
    requires id in db.versions && db.versions[id] == v && Selected(v)
    ensures var step := ScanOne(db, id, v, scan, now).1;
            (step.ending.Scanned? || step.ending == Errored) && (step.queued <==> v.scan == ScanPending)
  {
  }

  /** Run alone over a selected batch of distinct versions, every version is scanned or counted as an error. */
  lemma {:induction false} EveryVersionFinishes(db0: Db, ids: seq<Id>, scan: Version -> Attempt, now: Millis)
    requires forall i | 0 <= i < |ids| :: ids[i] in db0.versions && Selected(db0.versions[ids[i]])
    requires forall i, j | 0 <= i < j < |ids| :: ids[i] != ids[j]
    ensures var s := ScanAll(db0, ids, scan, now).1;
            s.scanned + s.errors == |ids|
    decreases |ids|
  {
    if ids != [] {
      var init := ids[..|ids| - 1];
      var last := ids[|ids| - 1];
      EveryVersionFinishes(db0, init, scan, now);
      assert last !in init;
      OutsideBatchUnchanged(db0, init, scan, now, last);
      ScanOneCompletes(ScanAll(db0, init, scan, now).0, last, db0.versions[last], scan, now);
    }
  }

  /** With the shipped stub nothing is infected and nothing throws, so every scan is clean. */
  lemma {:induction false} StubFindsOnlyClean(db0: Db, ids: seq<Id>, now: Millis)
    requires forall i | 0 <= i < |ids| :: ids[i] in db0.versions
    ensures var s := ScanAll(db0, ids, StubScan, now).1;
            s.clean == s.scanned && s.infected == 0 && s.errors == 0
    decreases |ids|
  {
    if ids != [] {
      StubFindsOnlyClean(db0, ids[..|ids| - 1], now);
    }
  }

  /** The error path leaves the CV's history as it was: the mirror keeps its earlier status. */
  lemma ErrorLeavesHistory(db: Db, id: Id, v: Version, scan: Version -> Attempt, now: Millis)
    requires scan(Shown(v, now)).Raised?
    ensures ScanOne(db, id, v, scan, now).0.cvs == db.cvs
  {
  }
}
