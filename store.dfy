/**
 * The document store the jobs and the upload route work on, as in-memory maps
 * from id to record: the `cv_versions` and `cvs` collections and the
 * `cv_entities` collection. Every write the source issues is a method that
 * states the whole new state; the conditional updates (`updateOne` with a
 * status condition, `findOneAndUpdate`) change a record only when its status is
 * in the given set and say whether they did. Timestamps are integer milliseconds.
 */
module DocStore {
  import opened Common
  import SectionParser
  import opened CvDocs

  type Id = nat

  datatype ScanStatus = ScanPending | ScanQueued | Scanning | Clean | Infected | ScanError
  datatype ParseStatus = ParsePending | Processing | Parsed | ParseFailed

  /** What the upload route records about the uploaded file. */
  datatype Upload = Upload(
    size: int,
    originalFilename: string,
    tags: seq<string>,
    notes: Option<string>,
    uploadedBy: Option<string>)

  /** A document of `cv_versions`; `parse` is `None` when the field is missing. */
  datatype Version = Version(
    cvId: Id,
    objectKey: string,
    checksum: string,
    contentType: string,
    upload: Upload,
    createdAt: Millis,
    scan: ScanStatus,
    queuedAt: Option<Millis>,
    scannedAt: Option<Millis>,
    scanMessage: Option<string>,
    parse: Option<ParseStatus>,
    parsedAt: Option<Millis>,
    parseError: Option<string>)

  /** An element of a CV's `versionHistory`. */
  datatype HistoryEntry = HistoryEntry(
    versionId: Id,
    objectKey: string,
    checksum: string,
    createdAt: Millis,
    scan: ScanStatus,
    scannedAt: Option<Millis>,
    parse: Option<ParseStatus>,
    parsedAt: Option<Millis>)

  datatype RetentionStatus = Active | Flagged | Purged

  datatype Retention = Retention(
    status: RetentionStatus,
    flaggedAt: Option<Millis>,
    purgeScheduledFor: Option<Millis>,
    purgedAt: Option<Millis>,
    warningSentAt: Option<Millis>,
    reason: Option<string>)

  /** A document of `cvs`, reduced to the fields the jobs and the upload route touch. */
  datatype Cv = Cv(
    profile: CvDocs.Profile,
    history: seq<HistoryEntry>,
    createdAt: Millis,
    updatedAt: Option<Millis>,
    retention: Option<Retention>,
    latestVersion: Option<Id>)

  datatype Source = FromParser | Manual

  /** A document of `cv_entities`. */
  datatype StoredEntity = StoredEntity(
    cvId: Id,
    versionId: Id,
    entity: SectionParser.Entity,
    source: Source,
    createdAt: Millis,
    updatedAt: Millis)

  /** `"versionHistory.$[entry].parseStatus"` and `parsedAt` for the entries of one version. */
  function MirrorParse(history: seq<HistoryEntry>, versionId: Id, status: ParseStatus, parsedAt: Option<Millis>): (r: seq<HistoryEntry>)
    ensures |r| == |history|
    ensures forall i | 0 <= i < |history| ::
              r[i] == if history[i].versionId == versionId then history[i].(parse := Some(status), parsedAt := parsedAt)
                      else history[i]
  {
    seq(|history|, i requires 0 <= i < |history| =>
      if history[i].versionId == versionId then history[i].(parse := Some(status), parsedAt := parsedAt) else history[i])
  }

  /** `"versionHistory.$[entry].virusScanStatus"` and `virusScannedAt` for the entries of one version. */
  function MirrorScan(history: seq<HistoryEntry>, versionId: Id, status: ScanStatus, scannedAt: Millis): (r: seq<HistoryEntry>)
    ensures |r| == |history|
    ensures forall i | 0 <= i < |history| ::
              r[i] == if history[i].versionId == versionId then history[i].(scan := status, scannedAt := Some(scannedAt))
                      else history[i]
  {
    seq(|history|, i requires 0 <= i < |history| =>
      if history[i].versionId == versionId then history[i].(scan := status, scannedAt := Some(scannedAt)) else history[i])
  }

  /** Every history entry of `versionId` shows the scan status and scan time of the version `v`. */
  predicate ScanMirrored(history: seq<HistoryEntry>, versionId: Id, v: Version) {
    forall i | 0 <= i < |history| && history[i].versionId == versionId ::
      history[i].scan == v.scan && history[i].scannedAt == v.scannedAt
  }

  /** Every history entry of `versionId` shows the parse status `status` and the time `parsedAt`. */
  predicate ParseMirrored(history: seq<HistoryEntry>, versionId: Id, status: Option<ParseStatus>, parsedAt: Option<Millis>) {
    forall i | 0 <= i < |history| && history[i].versionId == versionId ::
      history[i].parse == status && history[i].parsedAt == parsedAt
  }

  /** `after` is `before` with at most the entries of `versionId` changed. */
  predicate KeptOutside(before: seq<HistoryEntry>, after: seq<HistoryEntry>, versionId: Id) {
    && |after| == |before|
    && forall i | 0 <= i < |before| ::
         after[i].versionId == before[i].versionId && (before[i].versionId != versionId ==> after[i] == before[i])
  }

  /** The entities that `deleteMany({cvId, versionId})` leaves: every other version's, whatever their source. */
  function OtherVersions(entities: seq<StoredEntity>, cvId: Id, versionId: Id): (r: seq<StoredEntity>)
    ensures forall e | e in r :: e in entities && !(e.cvId == cvId && e.versionId == versionId)
    ensures forall e | e in entities && !(e.cvId == cvId && e.versionId == versionId) :: e in r
  {
    if entities == [] then []
    else
      var rest := OtherVersions(entities[1..], cvId, versionId);
      var e := entities[0];
      if e.cvId == cvId && e.versionId == versionId then rest else [e] + rest
  }

  /** `limit(n)`: 0 means no limit, and a negative limit acts as its absolute value. */
  function Limit(n: int): (r: Option<nat>)
    ensures r.None? <==> n == 0
    ensures r.Some? ==> r.value > 0 && (r.value == n || r.value == -n)
  {
    if n == 0 then None else if n > 0 then Some(n) else Some(-n)
  }

  /** Lexicographic order on sort keys, the order of a multi-field `sort` in ascending directions. */
  predicate LexLe(a: seq<int>, b: seq<int>) {
    a == [] || (b != [] && (a[0] < b[0] || (a[0] == b[0] && LexLe(a[1..], b[1..]))))
  }

  lemma {:induction false} LexLeRefl(a: seq<int>)
    ensures LexLe(a, a)
    decreases |a|
  {
    if a != [] {
      LexLeRefl(a[1..]);
    }
  }

  lemma {:induction false} LexLeTotal(a: seq<int>, b: seq<int>)
    requires |a| == |b|
    ensures LexLe(a, b) || LexLe(b, a)
    decreases |a|
  {
    if a != [] {
      LexLeTotal(a[1..], b[1..]);
    }
  }

  lemma {:induction false} LexLeTrans(a: seq<int>, b: seq<int>, c: seq<int>)
    requires LexLe(a, b) && LexLe(b, c)
    ensures LexLe(a, c)
    decreases |a|
  {
    if a != [] && a[0] == b[0] && b[0] == c[0] {
      LexLeTrans(a[1..], b[1..], c[1..]);
    }
  }

  /** Every key has the same length, so that any two keys are comparable. */
  ghost predicate FixedWidth(key: Version -> seq<int>, width: nat) {
    forall v :: |key(v)| == width
  }

  /**
   * What `find(filter).sort(key).limit(n)` returns: distinct matching ids in key
   * order, as many as the limit allows, and no matching record left out that
   * sorts before a returned one.
   */
  ghost predicate IsBatch(versions: map<Id, Version>, matches: Version -> bool, key: Version -> seq<int>,
                          limit: Option<nat>, ids: seq<Id>)
  {
    && (forall i | 0 <= i < |ids| :: ids[i] in versions && matches(versions[ids[i]]))
    && (forall i, j | 0 <= i < j < |ids| :: ids[i] != ids[j])
    && (forall i, j | 0 <= i < j < |ids| :: LexLe(key(versions[ids[i]]), key(versions[ids[j]])))
    && (limit.Some? ==> |ids| <= limit.value)
    && (forall id | id in versions && matches(versions[id]) && id !in ids ::
          limit.Some? && |ids| == limit.value
          && forall i | 0 <= i < |ids| :: LexLe(key(versions[ids[i]]), key(versions[id])))
  }

  /** The least of a non-empty set of ids. */
  ghost function Least(s: set<Id>): (r: Id)
    requires s != {}
    ensures r in s && forall k | k in s :: r <= k
    decreases s
  {
    var k :| k in s;
    if s == {k} then k
    else
      var m := Least(s - {k});
      assert forall j | j in s :: j == k || j in s - {k};
      if k <= m then k else m
  }

  /** The greatest of a non-empty set of ids. */
  ghost function Greatest(s: set<Id>): (r: Id)
    requires s != {}
    ensures r in s && forall k | k in s :: k <= r
    decreases s
  {
    var k :| k in s;
    if s == {k} then k
    else
      var m := Greatest(s - {k});
      assert forall j | j in s :: j == k || j in s - {k};
      if k >= m then k else m
  }

  /**
   * The id `insertOne` gives a new document: one more than the greatest id in use,
   * so it is fresh.
   */
  ghost function FreshId(keys: set<Id>): (r: Id)
    ensures r !in keys && forall k | k in keys :: k < r
  {
    if keys == {} then 0 else Greatest(keys) + 1
  }

  predicate HasEmail(cv: Cv, email: string) {
    cv.profile.consultant.email == Some(email)
  }

  /** The ids of the CVs whose consultant has this e-mail address. */
  function WithEmail(cvs: map<Id, Cv>, email: string): (ids: set<Id>)
    ensures forall id | id in ids :: id in cvs && HasEmail(cvs[id], email)
    ensures forall id | id in cvs && HasEmail(cvs[id], email) :: id in ids
  {
    set id | id in cvs && HasEmail(cvs[id], email)
  }

  /** The CV that `findOne({"consultant.email": email})` returns: the one with the least id. */
  ghost function CvWithEmail(cvs: map<Id, Cv>, email: string): (r: Option<Id>)
    ensures r.Some? ==> r.value in cvs && HasEmail(cvs[r.value], email)
    ensures r.None? ==> forall id | id in cvs :: !HasEmail(cvs[id], email)
  {
    var ids := WithEmail(cvs, email);
    if ids == {} then None else Some(Least(ids))
  }

  /** The three collections as one value, for the specifications of the jobs. */
  datatype Db = Db(versions: map<Id, Version>, cvs: map<Id, Cv>, entities: seq<StoredEntity>)

  class Store {
    var versions: map<Id, Version>
    var cvs: map<Id, Cv>
    var entities: seq<StoredEntity>

    constructor (versions: map<Id, Version>, cvs: map<Id, Cv>, entities: seq<StoredEntity>)
      ensures this.versions == versions && this.cvs == cvs && this.entities == entities
    {
      this.versions := versions;
      this.cvs := cvs;
      this.entities := entities;
    }

    ghost function Contents(): Db
      reads this
    {
      Db(versions, cvs, entities)
    }

    /** `find(filter).sort(key).limit(n)` on `cv_versions`; records that tie may come in any order. */
    method FindVersions(matches: Version -> bool, key: Version -> seq<int>, width: nat, limit: Option<nat>)
      returns (ids: seq<Id>)
      requires FixedWidth(key, width)
      ensures IsBatch(versions, matches, key, limit, ids)
    {
      var candidates := set id | id in versions && matches(versions[id]);
      ids := [];
      while candidates != {} && (limit.None? || |ids| < limit.value)
        invariant forall i | 0 <= i < |ids| :: ids[i] in versions && matches(versions[ids[i]]) && ids[i] !in candidates
        invariant forall i, j | 0 <= i < j < |ids| :: ids[i] != ids[j]
        invariant forall i, j | 0 <= i < j < |ids| :: LexLe(key(versions[ids[i]]), key(versions[ids[j]]))
        invariant forall c | c in candidates :: c in versions && matches(versions[c])
        invariant forall c, i | c in candidates && 0 <= i < |ids| :: LexLe(key(versions[ids[i]]), key(versions[c]))
        invariant forall id | id in versions && matches(versions[id]) && id !in ids :: id in candidates
        invariant limit.Some? ==> |ids| <= limit.value
        decreases candidates
      {
        var least := LeastOf(versions, candidates, key, width);
        ids := ids + [least];
        candidates := candidates - {least};
      }
    }

    /** One of the candidates whose key is smallest. */
    static method LeastOf(versions: map<Id, Version>, candidates: set<Id>, key: Version -> seq<int>, width: nat) returns (least: Id)
      requires candidates != {} && forall c | c in candidates :: c in versions
      requires FixedWidth(key, width)
      ensures least in candidates
      ensures forall c | c in candidates :: LexLe(key(versions[least]), key(versions[c]))
    {
      least :| least in candidates;
      var rest := candidates - {least};
      var seen := {least};
      LexLeRefl(key(versions[least]));
      while rest != {}
        invariant least in candidates && seen + rest == candidates && least in seen
        invariant forall c | c in seen :: LexLe(key(versions[least]), key(versions[c]))
        decreases rest
      {
        var c :| c in rest;
        LexLeTotal(key(versions[least]), key(versions[c]));
        if !LexLe(key(versions[least]), key(versions[c])) {
          forall d | d in seen ensures LexLe(key(versions[c]), key(versions[d])) {
            LexLeTrans(key(versions[c]), key(versions[least]), key(versions[d]));
          }
          least := c;
        }
        LexLeRefl(key(versions[c]));
        rest := rest - {c};
        seen := seen + {c};
      }
    }

    /**
     * `findOneAndUpdate({_id, parseStatus: {$in: allowed}}, {$set: {parseStatus: "processing", parseError: null}})`:
     * the claim succeeds exactly when the version exists and its parse status is one of `allowed`.
     */
    method ClaimParse(id: Id, allowed: set<ParseStatus>) returns (claimed: bool)
      modifies this
      ensures claimed <==> id in old(versions) && old(versions)[id].parse.Some? && old(versions)[id].parse.value in allowed
      ensures versions == if claimed then old(versions)[id := old(versions)[id].(parse := Some(Processing), parseError := None)]
                          else old(versions)
      ensures cvs == old(cvs) && entities == old(entities)
    {
      claimed := id in versions && versions[id].parse.Some? && versions[id].parse.value in allowed;
      if claimed {
        versions := versions[id := versions[id].(parse := Some(Processing), parseError := None)];
      }
    }

    /** `updateOne({_id}, {$set: {parseStatus: "parsed", parsedAt: now, parseError: null}})`. */
    method MarkParsed(id: Id, now: Millis)
      modifies this
      ensures versions == if id in old(versions) then old(versions)[id := old(versions)[id].(parse := Some(Parsed), parsedAt := Some(now), parseError := None)]
                          else old(versions)
      ensures cvs == old(cvs) && entities == old(entities)
    {
      if id in versions {
        versions := versions[id := versions[id].(parse := Some(Parsed), parsedAt := Some(now), parseError := None)];
      }
    }

    /** `updateOne({_id}, {$set: {parseStatus: "error", parseError: message}})`; `parsedAt` is left as it was. */
    method MarkParseFailed(id: Id, message: string)
      modifies this
      ensures versions == if id in old(versions) then old(versions)[id := old(versions)[id].(parse := Some(ParseFailed), parseError := Some(message))]
                          else old(versions)
      ensures cvs == old(cvs) && entities == old(entities)
    {
      if id in versions {
        versions := versions[id := versions[id].(parse := Some(ParseFailed), parseError := Some(message))];
      }
    }

    /** The parse status and time of the version's entries in its CV's `versionHistory`. */
    method MirrorParseStatus(cvId: Id, versionId: Id, status: ParseStatus, parsedAt: Option<Millis>)
      modifies this
      ensures cvs == if cvId in old(cvs) then old(cvs)[cvId := old(cvs)[cvId].(history := MirrorParse(old(cvs)[cvId].history, versionId, status, parsedAt))]
                     else old(cvs)
      ensures versions == old(versions) && entities == old(entities)
    {
      if cvId in cvs {
        cvs := cvs[cvId := cvs[cvId].(history := MirrorParse(cvs[cvId].history, versionId, status, parsedAt))];
      }
    }

    /** `deleteMany({cvId, versionId})` followed by `insertMany(docs)` when there are any. */
    method ReplaceEntities(cvId: Id, versionId: Id, docs: seq<StoredEntity>)
      modifies this
      ensures entities == OtherVersions(old(entities), cvId, versionId) + docs
      ensures versions == old(versions) && cvs == old(cvs)
    {
      entities := OtherVersions(entities, cvId, versionId);
      if |docs| > 0 {
        entities := entities + docs;
      }
    }

    /**
     * `updateOne({_id, virusScanStatus: "pending"}, {$set: {virusScanStatus: "queued", virusQueuedAt: now,
     * virusScanResultMessage: null}})`, which modifies the version exactly when it is pending.
     */
    method QueueIfPending(id: Id, now: Millis) returns (modified: bool)
      modifies this
      ensures modified <==> id in old(versions) && old(versions)[id].scan == ScanPending
      ensures versions == if modified then old(versions)[id := old(versions)[id].(scan := ScanQueued, queuedAt := Some(now), scanMessage := None)]
                          else old(versions)
      ensures cvs == old(cvs) && entities == old(entities)
    {
      modified := id in versions && versions[id].scan == ScanPending;
      if modified {
        versions := versions[id := versions[id].(scan := ScanQueued, queuedAt := Some(now), scanMessage := None)];
      }
    }

    /** `updateOne({_id, virusScanStatus: {$in: ["queued", "pending"]}}, {$set: {virusScanStatus: "scanning"}})`. */
    method StartScanning(id: Id) returns (modified: bool)
      modifies this
      ensures modified <==> id in old(versions) && old(versions)[id].scan in {ScanQueued, ScanPending}
      ensures versions == if modified then old(versions)[id := old(versions)[id].(scan := Scanning)] else old(versions)
      ensures cvs == old(cvs) && entities == old(entities)
    {
      modified := id in versions && versions[id].scan in {ScanQueued, ScanPending};
      if modified {
        versions := versions[id := versions[id].(scan := Scanning)];
      }
    }

    /** `updateOne({_id}, {$set: {virusScanStatus, virusScannedAt, virusScanResultMessage}})` after a scan. */
    method FinishScan(id: Id, status: ScanStatus, now: Millis, message: Option<string>)
      modifies this
      ensures versions == if id in old(versions) then old(versions)[id := old(versions)[id].(scan := status, scannedAt := Some(now), scanMessage := message)]
                          else old(versions)
      ensures cvs == old(cvs) && entities == old(entities)
    {
      if id in versions {
        versions := versions[id := versions[id].(scan := status, scannedAt := Some(now), scanMessage := message)];
      }
    }

    /** The scan status and time of the version's entries in its CV's `versionHistory`. */
    method MirrorScanStatus(cvId: Id, versionId: Id, status: ScanStatus, now: Millis)
      modifies this
      ensures cvs == if cvId in old(cvs) then old(cvs)[cvId := old(cvs)[cvId].(history := MirrorScan(old(cvs)[cvId].history, versionId, status, now))]
                     else old(cvs)
      ensures versions == old(versions) && entities == old(entities)
    {
      if cvId in cvs {
        cvs := cvs[cvId := cvs[cvId].(history := MirrorScan(cvs[cvId].history, versionId, status, now))];
      }
    }

    /** `updateOne({_id}, {$set: {virusScanStatus: "error", virusScanResultMessage: message}})`. */
    method FailScan(id: Id, message: string)
      modifies this
      ensures versions == if id in old(versions) then old(versions)[id := old(versions)[id].(scan := ScanError, scanMessage := Some(message))]
                          else old(versions)
      ensures cvs == old(cvs) && entities == old(entities)
    {
      if id in versions {
        versions := versions[id := versions[id].(scan := ScanError, scanMessage := Some(message))];
      }
    }

    /**
     * `updateOne({_id}, {$set: {retention: state}})`: the write reports a modification
     * exactly when the stored state differs from the new one.
     */
    method SetRetention(id: Id, state: Retention) returns (modified: bool)
      modifies this
      ensures modified <==> id in old(cvs) && old(cvs)[id].retention != Some(state)
      ensures cvs == if id in old(cvs) then old(cvs)[id := old(cvs)[id].(retention := Some(state))] else old(cvs)
      ensures versions == old(versions) && entities == old(entities)
    {
      modified := id in cvs && cvs[id].retention != Some(state);
      if id in cvs {
        cvs := cvs[id := cvs[id].(retention := Some(state))];
      }
    }

    /** `findOne({checksum})` on `cv_versions`: whether some version has this checksum. */
    method HasChecksum(checksum: string) returns (found: bool)
      ensures found <==> exists id | id in versions :: versions[id].checksum == checksum
    {
      found := exists id | id in versions :: versions[id].checksum == checksum;
    }

    /** `findOne({"consultant.email": email})` on `cvs`. */
    method FindCvByEmail(email: string) returns (found: Option<Id>)
      ensures found == CvWithEmail(cvs, email)
    {
      var ids := WithEmail(cvs, email);
      if ids == {} {
        return None;
      }
      var least := LeastId(ids);
      found := Some(least);
    }

    /** The least of a non-empty set of ids. */
    static method LeastId(ids: set<Id>) returns (least: Id)
      requires ids != {}
      ensures least == Least(ids)
    {
      ghost var l := Least(ids);
      least :| least in ids && forall k | k in ids :: least <= k;
      assert least <= l && l <= least;
    }

    /** The id the next insertion into a collection with these keys receives. */
    static method NextId(keys: set<Id>) returns (id: Id)
      ensures id == FreshId(keys)
    {
      if keys == {} {
        return 0;
      }
      ghost var greatest := Greatest(keys);
      var m :| m in keys && forall k | k in keys :: k <= m;
      assert m <= greatest && greatest <= m;
      id := m + 1;
    }

    /** `insertOne(cv)` on `cvs`. */
    method InsertCv(cv: Cv) returns (id: Id)
      modifies this
      ensures id == FreshId(old(cvs).Keys)
      ensures cvs == old(cvs)[id := cv]
      ensures versions == old(versions) && entities == old(entities)
    {
      id := NextId(cvs.Keys);
      cvs := cvs[id := cv];
    }

    /** `insertOne(version)` on `cv_versions`. */
    method InsertVersion(v: Version) returns (id: Id)
      modifies this
      ensures id == FreshId(old(versions).Keys)
      ensures versions == old(versions)[id := v]
      ensures cvs == old(cvs) && entities == old(entities)
    {
      id := NextId(versions.Keys);
      versions := versions[id := v];
    }

    /**
     * `updateOne({_id}, {$set: {consultant, skills, availability, tags, notes,
     * latestVersionId, updatedAt}, $push: {versionHistory: entry}})` after an upload.
     */
    method RecordUpload(cvId: Id, profile: CvDocs.Profile, entry: HistoryEntry, now: Millis)
      modifies this
      ensures cvs == if cvId in old(cvs) then old(cvs)[cvId := old(cvs)[cvId].(profile := profile, history := old(cvs)[cvId].history + [entry],
                                                                               latestVersion := Some(entry.versionId), updatedAt := Some(now))]
                     else old(cvs)
      ensures versions == old(versions) && entities == old(entities)
    {
      if cvId in cvs {
        cvs := cvs[cvId := cvs[cvId].(profile := profile, history := cvs[cvId].history + [entry],
                                      latestVersion := Some(entry.versionId), updatedAt := Some(now))];
      }
    }
  }
}
