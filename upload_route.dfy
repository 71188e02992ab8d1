/**
 * The CV upload route (`POST /api/cvs`): the slug and file-name sanitiser that
 * make up the storage key, the normalisation of the metadata, and the loop over
 * the uploaded files with its final status decision. Hashing the file, the S3
 * upload and the request parsing are outside the model: each file arrives with
 * its checksum, its upload time and, when one of the awaited calls throws, the
 * point at which that happens and the message.
 */
module UploadRoute {
  import opened Common
  import opened Text
  import opened Slugs
  import opened CvDocs
  import opened DocStore
  import ParseJob

  // ----- Storage keys -----

  /** `slugify`: lower-cased, then the slug pipeline; unlike the taxonomy slug there is no trim. */
  function Slugify(value: string): (r: string)
    ensures IsSlug(r)
  {
    var r := CollapseHyphens(StripEdgeHyphens(Hyphenate(ToLower(value))));
    PipelineSlug(ToLower(value));
    r
  }

  lemma SlugifyIdempotent(value: string)
    ensures Slugify(Slugify(value)) == Slugify(value)
  {
    SlugFixpoint(Slugify(value));
  }

  /** The class `[a-zA-Z0-9._-]` that a stored file name keeps. */
  predicate IsFileNameChar(c: char) {
    ('a' <= c <= 'z') || ('A' <= c <= 'Z') || ('0' <= c <= '9') || c == '.' || c == '_' || c == '-'
  }

  predicate NotFileNameChar(c: char) {
    !IsFileNameChar(c)
  }

  /** `sanitizeFilename`: every maximal run of other characters becomes one `-`. */
  function SanitizeFilename(name: string): (r: string)
    ensures forall c | c in r :: IsFileNameChar(c)
  {
    ReplaceRunsChars(name, NotFileNameChar, "-");
    ReplaceRuns(name, NotFileNameChar, "-")
  }

  /** A name made only of allowed characters is kept as it is; so sanitising twice is sanitising once. */
  lemma SanitizeFilenameKeepsAllowed(name: string)
    ensures (forall c | c in name :: IsFileNameChar(c)) ==> SanitizeFilename(name) == name
    ensures SanitizeFilename(SanitizeFilename(name)) == SanitizeFilename(name)
  {
    if forall c | c in name :: IsFileNameChar(c) {
      ReplaceRunsNoRun(name, NotFileNameChar, "-");
    }
    ReplaceRunsNoRun(SanitizeFilename(name), NotFileNameChar, "-");
  }

  /**
   * A maximal run of other characters, between allowed characters or the ends of
   * the name, becomes one `-`, and the two sides are sanitised on their own.
   */
  lemma SanitizeFilenameRun(a: string, run: string, b: string)
    requires run != [] && forall c | c in run :: !IsFileNameChar(c)
    requires a == [] || IsFileNameChar(a[|a| - 1])
    requires b == [] || IsFileNameChar(b[0])
    ensures SanitizeFilename(a + run + b) == SanitizeFilename(a) + "-" + SanitizeFilename(b)
  {
    var x, y := SanitizeFilename(a), SanitizeFilename(b);
    assert a + run + b == a + (run + b) && x + "-" + y == x + ("-" + y);
    ReplaceRunsAround(a, run, b, NotFileNameChar, "-");
  }

  /** `value || fallback` on strings: the empty string is falsy. */
  function OrDefault(value: string, fallback: string): (r: string)
    ensures r != "" <== fallback != ""
  {
    if value == "" then fallback else value
  }

  /** `` `cvs/${slugify(name || "consultant")}/${timestamp}-${sanitizeFilename(fileName || "cv.pdf")}` `` */
  function ObjectKey(consultantName: string, timestamp: int, fileName: string): string
  {
    "cvs/" + Slugify(OrDefault(consultantName, "consultant")) + "/" + IntToString(timestamp) + "-"
      + SanitizeFilename(OrDefault(fileName, "cv.pdf"))
  }

  lemma IntToStringChars(i: int)
    ensures forall c | c in IntToString(i) :: c == '-' || ('0' <= c <= '9')
  {
  }

  /** Three pieces free of `/`, joined by `/`, split back into those pieces. */
  lemma SplitThree(a: string, b: string, c: string)
    requires '/' !in a && '/' !in b && '/' !in c
    ensures Split(a + "/" + b + "/" + c, '/') == [a, b, c]
  {
    var parts := [a, b, c];
    assert parts[1..] == [b, c] && parts[1..][1..] == [c];
    assert Join([b, c], "/") == b + "/" + c;
    assert Join(parts, "/") == a + "/" + (b + "/" + c);
    assert a + "/" + (b + "/" + c) == a + "/" + b + "/" + c;
    SplitJoin(parts, '/');
  }

  lemma KeySplit(slug: string, stamp: string, file: string)
    requires '/' !in slug && '/' !in stamp && '/' !in file
    ensures Split("cvs/" + slug + "/" + stamp + "-" + file, '/') == ["cvs", slug, stamp + "-" + file]
  {
    assert "cvs/" == "cvs" + "/";
    assert "cvs/" + slug + "/" + stamp + "-" + file == "cvs" + "/" + slug + "/" + (stamp + "-" + file);
    assert '/' !in stamp + "-" + file;
    SplitThree("cvs", slug, stamp + "-" + file);
  }

  /**
   * A key has exactly three `/`-separated segments: the prefix `cvs`, the
   * consultant's slug and the time-stamped file name, none of which holds a `/`.
   */
  lemma ObjectKeySegments(consultantName: string, timestamp: int, fileName: string)
    ensures Split(ObjectKey(consultantName, timestamp, fileName), '/')
         == ["cvs", Slugify(OrDefault(consultantName, "consultant")),
             IntToString(timestamp) + "-" + SanitizeFilename(OrDefault(fileName, "cv.pdf"))]
  {
    var slug := Slugify(OrDefault(consultantName, "consultant"));
    var file := SanitizeFilename(OrDefault(fileName, "cv.pdf"));
    var stamp := IntToString(timestamp);
    IntToStringChars(timestamp);
    assert '/' !in slug && '/' !in stamp && '/' !in file;
    KeySplit(slug, stamp, file);
  }

  // ----- Metadata -----

  datatype ConsultantInput = ConsultantInput(
    name: string,
    email: Option<string>,
    phone: Option<string>,
    title: Option<string>,
    location: Option<string>,
    seniority: Option<string>,
    languages: Option<seq<string>>)

  /** A skill as sent; `years` is the number `normalizeYears` derives from it, or none. */
  datatype SkillInput = SkillInput(name: string, level: Option<string>, years: Option<int>)

  /** The availability as sent; `availableFrom` is the instant parsed from it, or none. */
  datatype AvailabilityInput = AvailabilityInput(status: Option<AvailabilityStatus>, availableFrom: Option<Millis>, notes: Option<string>)

  /** The metadata part of the request after schema validation; `cvId` is the id it names, if any. */
  datatype MetadataInput = MetadataInput(
    cvId: Option<Id>,
    consultant: ConsultantInput,
    skills: Option<seq<SkillInput>>,
    availability: Option<AvailabilityInput>,
    tags: Option<seq<string>>,
    notes: Option<string>,
    uploadedBy: Option<string>)

  /** `NormalizedMetadata`: the profile to store, who uploaded, and the CV named by the request. */
  datatype Metadata = Metadata(cvId: Option<Id>, profile: Profile, uploadedBy: Option<string>)

  /** `value ? value.trim() : null`: a missing or empty string gives null, any other its trimmed form. */
  function TrimOrNull(value: Option<string>): (r: Option<string>)
    ensures r.Some? <==> value.Some? && value.value != ""
    ensures r.Some? ==> r.value == Trim(value.value) && IsTrimmed(r.value)
  {
    if value.Some? && value.value != "" then Some(Trim(value.value)) else None
  }

  /** `(values ?? []).map(v => v.trim()).filter(Boolean)`. */
  function TrimmedList(values: Option<seq<string>>): (r: seq<string>)
    ensures forall s | s in r :: s != "" && IsTrimmed(s)
    ensures forall s | s in values.GetOr([]) && Trim(s) != "" :: Trim(s) in r
  {
    var trimmed := TrimAll(values.GetOr([]));
    assert forall s | s in values.GetOr([]) :: Trim(s) in trimmed by {
      forall s | s in values.GetOr([]) ensures Trim(s) in trimmed {
        var i := IndexOf(values.GetOr([]), s);
        assert trimmed[i] == Trim(s);
      }
    }
    NonEmpty(trimmed)
  }

  /** The trimmed list of a concatenation is the concatenation of the trimmed lists: the order is kept. */
  lemma TrimmedListAppend(xs: seq<string>, ys: seq<string>)
    ensures TrimmedList(Some(xs + ys)) == TrimmedList(Some(xs)) + TrimmedList(Some(ys))
  {
    TrimAllAppend(xs, ys);
    NonEmptyAppend(TrimAll(xs), TrimAll(ys));
  }

  /** One value is kept, trimmed, exactly when its trimmed form is not empty. */
  lemma TrimmedListSingle(x: string)
    ensures TrimmedList(Some([x])) == if Trim(x) == "" then [] else [Trim(x)]
  {
    assert TrimAll([x]) == [Trim(x)];
    assert [Trim(x)][1..] == [];
  }

  function NormalizeSkill(s: SkillInput): (r: Skill)
    ensures r.name == Trim(s.name) && r.level == TrimOrNull(s.level) && r.years == s.years
  {
    Skill(Trim(s.name), TrimOrNull(s.level), s.years)
  }

  /** `normalizeMetadata`, without the validation of the `cvId` text. */
  function NormalizeMetadata(input: MetadataInput): (m: Metadata)
    ensures m.cvId == input.cvId
    ensures m.profile.consultant.name == Trim(input.consultant.name)
    ensures m.profile.consultant.email == TrimOrNull(input.consultant.email)
    ensures m.profile.consultant.phone == TrimOrNull(input.consultant.phone)
    ensures m.profile.consultant.title == TrimOrNull(input.consultant.title)
    ensures m.profile.consultant.location == TrimOrNull(input.consultant.location)
    ensures m.profile.consultant.seniority == TrimOrNull(input.consultant.seniority)
    ensures m.profile.consultant.languages == Some(TrimmedList(input.consultant.languages))
    ensures m.profile.skills.Some? && |m.profile.skills.value| == |input.skills.GetOr([])|
    ensures forall i | 0 <= i < |m.profile.skills.value| :: m.profile.skills.value[i] == NormalizeSkill(input.skills.GetOr([])[i])
    ensures input.availability.None? || input.availability.value.status.None? ==> m.profile.availability.status == Unknown
    ensures input.availability.Some? && input.availability.value.status.Some?
            ==> m.profile.availability.status == input.availability.value.status.value
    ensures m.profile.availability.availableFrom == if input.availability.Some? then input.availability.value.availableFrom else None
    ensures m.profile.availability.notes == if input.availability.Some? then TrimOrNull(input.availability.value.notes) else None
    ensures m.profile.tags == Some(TrimmedList(input.tags))
    ensures m.profile.notes == TrimOrNull(input.notes)
    ensures m.uploadedBy == TrimOrNull(input.uploadedBy)
  {
    var c := input.consultant;
    var consultant := Consultant(Trim(c.name), TrimOrNull(c.email), TrimOrNull(c.phone), TrimOrNull(c.title),
                                 TrimOrNull(c.location), TrimOrNull(c.seniority), Some(TrimmedList(c.languages)));
    var skillsIn := input.skills.GetOr([]);
    var skills := seq(|skillsIn|, i requires 0 <= i < |skillsIn| => NormalizeSkill(skillsIn[i]));
    var a := input.availability.GetOr(AvailabilityInput(None, None, None));
    var availability := Availability(a.status.GetOr(Unknown), a.availableFrom, TrimOrNull(a.notes));
    Metadata(input.cvId, Profile(consultant, Some(skills), availability, Some(TrimmedList(input.tags)), TrimOrNull(input.notes)),
             TrimOrNull(input.uploadedBy))
  }

  /**
   * The schema trims the consultant's strings before `normalizeMetadata` sees them;
   * for such input an optional string is stored as null exactly when it is missing or
   * empty, and never as the empty string.
   */
  lemma TrimmedOptionalNeverEmpty(value: Option<string>)
    requires value.Some? ==> IsTrimmed(value.value)
    ensures TrimOrNull(value) == if value == Some("") then None else value
    ensures TrimOrNull(value) != Some("")
  {
  }

  /** A string of white space only is truthy, so it is stored as the empty string rather than as null. */
  lemma BlankIsStoredEmpty()
    ensures TrimOrNull(Some(" ")) == Some("")
  {
    assert Trim(" ") == "";
  }

  // ----- The upload loop -----

  /** Where an awaited call throws: before anything is written (hashing, the duplicate lookup, `ensureCvDocument`), in the S3 upload, or in the final `updateOne`. */
  datatype FailurePoint = BeforeWrite | AfterCvEnsured | AfterVersionInserted

  datatype Failure = Failure(point: FailurePoint, message: string)

  /** An uploaded file: its name, size and type, the SHA-256 of its bytes, the instant its upload ends, and its failure if any. */
  datatype FileInput = FileInput(name: string, size: int, contentType: string, checksum: string, now: Millis, failure: Option<Failure>)

  datatype UploadStatus = Stored(versionId: Id) | Duplicate(message: string) | Errored(message: string)

  datatype UploadResult = UploadResult(fileName: string, status: UploadStatus)

  const DuplicateMessage := "This CV has already been uploaded"

  /** `file.type || "application/octet-stream"`. */
  function ContentTypeOf(t: string): string {
    OrDefault(t, "application/octet-stream")
  }

  /** The document `ensureCvDocument` inserts when it finds no CV. */
  function NewCv(m: Metadata, now: Millis): (cv: Cv)
    ensures cv.profile == m.profile && cv.history == [] && cv.latestVersion.None?
    ensures cv.createdAt == now && cv.updatedAt == Some(now)
  {
    Cv(m.profile, [], now, Some(now), None, None)
  }

  /**
   * `ensureCvDocument`: the CV the request names when it exists, else the CV of the
   * consultant's e-mail when the address is non-empty and one exists, else a new CV.
   */
  ghost function EnsureCv(db: Db, m: Metadata, now: Millis): (r: (Db, Id))
    ensures r.1 in r.0.cvs
    ensures r.0.versions == db.versions && r.0.entities == db.entities
    ensures r.1 in db.cvs ==> r.0 == db
    ensures r.1 !in db.cvs ==> r.0.cvs == db.cvs[r.1 := NewCv(m, now)]
    ensures m.cvId.Some? && m.cvId.value in db.cvs ==> r == (db, m.cvId.value)
  {
    var email := m.profile.consultant.email;
    if m.cvId.Some? && m.cvId.value in db.cvs then (db, m.cvId.value)
    else if email.Some? && email.value != "" && CvWithEmail(db.cvs, email.value).Some? then
      (db, CvWithEmail(db.cvs, email.value).value)
    else
      var id := FreshId(db.cvs.Keys);
      (db.(cvs := db.cvs[id := NewCv(m, now)]), id)
  }

  /** The version document stored for a file. */
  function NewVersion(cvId: Id, m: Metadata, file: FileInput): (v: Version)
    ensures v.cvId == cvId && v.checksum == file.checksum && v.createdAt == file.now
    ensures v.scan == ScanPending && v.parse.None?
  {
    Version(cvId, ObjectKey(m.profile.consultant.name, file.now, file.name), file.checksum, ContentTypeOf(file.contentType),
            Upload(file.size, file.name, m.profile.tags.GetOr([]), m.profile.notes, m.uploadedBy),
            file.now, ScanPending, None, None, None, None, None, None)
  }

  /** The summary pushed onto the CV's `versionHistory` for a stored version. */
  function Summary(versionId: Id, v: Version): (e: HistoryEntry)
    ensures e.versionId == versionId && e.scan == v.scan && e.scannedAt.None?
  {
    HistoryEntry(versionId, v.objectKey, v.checksum, v.createdAt, v.scan, None, None, None)
  }

  /** The CV after the `$set`/`$push` that records a stored version. */
  function Recorded(cvs: map<Id, Cv>, cvId: Id, m: Metadata, entry: HistoryEntry, now: Millis): (r: map<Id, Cv>)
    ensures r.Keys == cvs.Keys
    ensures forall id | id in cvs && id != cvId :: r[id] == cvs[id]
    ensures cvId in cvs ==> r[cvId].history == cvs[cvId].history + [entry] && r[cvId].profile == m.profile
                            && r[cvId].latestVersion == Some(entry.versionId)
  {
    if cvId in cvs then
      cvs[cvId := cvs[cvId].(profile := m.profile, history := cvs[cvId].history + [entry],
                             latestVersion := Some(entry.versionId), updatedAt := Some(now))]
    else cvs
  }

  predicate HasChecksum(versions: map<Id, Version>, checksum: string) {
    exists id | id in versions :: versions[id].checksum == checksum
  }

  /** The CV's history holds a pending entry for the version. */
  ghost predicate HistoryHas(cv: Cv, vid: Id) {
    exists k | 0 <= k < |cv.history| :: cv.history[k].versionId == vid && cv.history[k].scan == ScanPending
  }

  /**
   * The part of a turn after the CV is settled: the S3 upload, the version insert
   * and the CV update, stopping at the failure if there is one. Earlier versions and
   * history entries are kept, every added version is this file's, and a stored
   * file's version is new and recorded in the CV's history.
   */
  ghost function Commit(d: Db, cvId: Id, m: Metadata, file: FileInput): (r: (Db, UploadStatus))
    requires cvId in d.cvs
    ensures r.0.entities == d.entities && r.0.cvs.Keys == d.cvs.Keys
    ensures forall id | id in d.versions :: id in r.0.versions && r.0.versions[id] == d.versions[id]
    ensures forall id | id in r.0.versions && id !in d.versions :: r.0.versions[id] == NewVersion(cvId, m, file)
    ensures forall c, k | c in d.cvs && 0 <= k < |d.cvs[c].history| ::
              k < |r.0.cvs[c].history| && r.0.cvs[c].history[k] == d.cvs[c].history[k]
    ensures r.1.Stored? ==> r.1.versionId in r.0.versions && r.1.versionId !in d.versions && HistoryHas(r.0.cvs[cvId], r.1.versionId)
    ensures !r.1.Duplicate?
    ensures r.1.Errored? <==> file.failure.Some?
  {
    var failure := file.failure;
    if failure.Some? && failure.value.point == AfterCvEnsured then (d, Errored(failure.value.message))
    else
      var v := NewVersion(cvId, m, file);
      var vid := FreshId(d.versions.Keys);
      var d2 := d.(versions := d.versions[vid := v]);
      if failure.Some? then (d2, Errored(failure.value.message))
      else
        var entry := Summary(vid, v);
        var cvs := Recorded(d2.cvs, cvId, m, entry, file.now);
        assert cvs[cvId].history[|d.cvs[cvId].history|] == entry;
        (d2.(cvs := cvs), Stored(vid))
  }

  /**
   * One turn of the loop: the store afterwards, the CV the request has settled on
   * so far, and the file's result.
   */
  ghost function UploadOne(db: Db, cvDoc: Option<Id>, m: Metadata, file: FileInput): (r: (Db, Option<Id>, UploadResult))
    requires cvDoc.Some? ==> cvDoc.value in db.cvs
    ensures r.2.fileName == file.name
    ensures cvDoc.Some? ==> r.1 == cvDoc
    ensures r.1.Some? ==> r.1.value in r.0.cvs
    ensures r.2.status.Duplicate? ==> r.0 == db && r.1 == cvDoc
  {
    var failure := file.failure;
    if failure.Some? && failure.value.point == BeforeWrite then
      (db, cvDoc, UploadResult(file.name, Errored(failure.value.message)))
    else if HasChecksum(db.versions, file.checksum) then
      (db, cvDoc, UploadResult(file.name, Duplicate(DuplicateMessage)))
    else
      var (db1, cvId) := if cvDoc.Some? then (db, cvDoc.value) else EnsureCv(db, m, file.now);
      var (db2, status) := Commit(db1, cvId, m, file);
      (db2, Some(cvId), UploadResult(file.name, status))
  }

  /** The loop over all files, from a store `db` and no CV yet. */
  ghost function UploadAll(db: Db, m: Metadata, files: seq<FileInput>): (r: (Db, Option<Id>, seq<UploadResult>))
    ensures |r.2| == |files|
    ensures r.1.Some? ==> r.1.value in r.0.cvs
    decreases |files|
  {
    if files == [] then (db, None, [])
    else
      var (d, c, rs) := UploadAll(db, m, files[..|files| - 1]);
      var (d2, c2, res) := UploadOne(d, c, m, files[|files| - 1]);
      (d2, c2, rs + [res])
  }

  // ----- The response -----

  datatype Response =
    | BadRequest(error: string)
    | Conflict(results: seq<UploadResult>)
    | ServerError(results: seq<UploadResult>)
    | Ok(cvId: Option<Id>, results: seq<UploadResult>, hasStored: bool)

  predicate AllDuplicates(results: seq<UploadResult>) {
    |results| > 0 && forall i | 0 <= i < |results| :: results[i].status.Duplicate?
  }

  predicate AllErrors(results: seq<UploadResult>) {
    |results| > 0 && forall i | 0 <= i < |results| :: results[i].status.Errored?
  }

  predicate AnyStored(results: seq<UploadResult>) {
    exists i | 0 <= i < |results| :: results[i].status.Stored?
  }

  /** The status decision after the loop: 409 when no CV was settled on and every file was a duplicate, 500 when every file failed, else 200. */
  function Decide(results: seq<UploadResult>, cvDoc: Option<Id>): (r: Response)
    ensures r.Conflict? <==> cvDoc.None? && AllDuplicates(results)
    ensures r.ServerError? <==> AllErrors(results)
    ensures r.Ok? <==> !(cvDoc.None? && AllDuplicates(results)) && !AllErrors(results)
    ensures r.Ok? ==> r.cvId == cvDoc && r.results == results && (r.hasStored <==> AnyStored(results))
    ensures !r.BadRequest?
  {
    if cvDoc.None? && AllDuplicates(results) then
      assert results[0].status.Duplicate?;
      Conflict(results)
    else if AllErrors(results) then ServerError(results)
    else Ok(cvDoc, results, AnyStored(results))
  }

  /** The whole route once the metadata is valid: no files is a 400, otherwise the loop and the decision. */
  ghost function PostUpload(db: Db, m: Metadata, files: seq<FileInput>): (r: (Db, Response))
  {
    if files == [] then (db, BadRequest("At least one CV file is required"))
    else
      var (d, c, rs) := UploadAll(db, m, files);
      (d, Decide(rs, c))
  }

  // ----- Properties of the loop -----

  /** Every result names its file, in the order of the files. */
  lemma {:induction false} ResultsFollowFiles(db: Db, m: Metadata, files: seq<FileInput>)
    ensures forall i | 0 <= i < |files| :: UploadAll(db, m, files).2[i].fileName == files[i].name
    decreases |files|
  {
    if files != [] {
      var init := files[..|files| - 1];
      ResultsFollowFiles(db, m, init);
      assert forall i | 0 <= i < |init| :: init[i] == files[i];
    }
  }

  /**
   * A batch whose every file is a duplicate writes nothing and settles on no CV: the
   * duplicate check comes before `ensureCvDocument`.
   */
  lemma {:induction false} DuplicatesWriteNothing(db: Db, m: Metadata, files: seq<FileInput>)
    requires forall i | 0 <= i < |files| :: UploadAll(db, m, files).2[i].status.Duplicate?
    ensures UploadAll(db, m, files).0 == db && UploadAll(db, m, files).1.None?
    decreases |files|
  {
    if files != [] {
      var init := files[..|files| - 1];
      var prev := UploadAll(db, m, init);
      var r := UploadAll(db, m, files);
      assert forall i | 0 <= i < |init| :: r.2[i] == prev.2[i];
      DuplicatesWriteNothing(db, m, init);
      assert r.2[|init|] == UploadOne(prev.0, prev.1, m, files[|init|]).2;
    }
  }

  /** A non-empty batch is answered with 409 exactly when every file was a duplicate. */
  lemma ConflictIffAllDuplicates(db: Db, m: Metadata, files: seq<FileInput>)
    ensures PostUpload(db, m, files).1.Conflict? <==> AllDuplicates(UploadAll(db, m, files).2)
    ensures PostUpload(db, m, files).1.Conflict? ==> PostUpload(db, m, files).0 == db
  {
    var r := UploadAll(db, m, files);
    if AllDuplicates(r.2) {
      DuplicatesWriteNothing(db, m, files);
    }
  }

  /** A non-empty batch is answered with 500 exactly when every file failed. */
  lemma ServerErrorIffAllErrors(db: Db, m: Metadata, files: seq<FileInput>)
    ensures PostUpload(db, m, files).1.ServerError? <==> AllErrors(UploadAll(db, m, files).2)
  {
  }

  /** What the loop keeps true: earlier documents are kept, and every version it added is pending, unparsed and on the settled CV. */
  ghost predicate Grows(db: Db, d: Db, cvDoc: Option<Id>) {
    && d.entities == db.entities
    && (forall id | id in db.versions :: id in d.versions && d.versions[id] == db.versions[id])
    && (forall id | id in db.cvs :: id in d.cvs)
    && (forall id | id in d.versions && id !in db.versions ::
          cvDoc.Some? && d.versions[id].cvId == cvDoc.value && d.versions[id].scan == ScanPending && d.versions[id].parse.None?)
    && (cvDoc.Some? ==> cvDoc.value in d.cvs)
  }

  /** The CV the request settled on records the version in its history, as a pending entry. */
  ghost predicate InHistory(d: Db, cvDoc: Option<Id>, vid: Id) {
    cvDoc.Some? && cvDoc.value in d.cvs && HistoryHas(d.cvs[cvDoc.value], vid)
  }

  /** A turn keeps the history entries it finds. */
  lemma StepKeepsHistory(d: Db, cvDoc: Option<Id>, m: Metadata, file: FileInput, vid: Id)
    requires cvDoc.Some? && cvDoc.value in d.cvs
    requires InHistory(d, cvDoc, vid)
    ensures InHistory(UploadOne(d, cvDoc, m, file).0, UploadOne(d, cvDoc, m, file).1, vid)
  {
    var c := cvDoc.value;
    var k :| 0 <= k < |d.cvs[c].history| && d.cvs[c].history[k].versionId == vid && d.cvs[c].history[k].scan == ScanPending;
    var d2 := UploadOne(d, cvDoc, m, file).0;
    assert k < |d2.cvs[c].history| && d2.cvs[c].history[k] == d.cvs[c].history[k];
  }

  lemma StepGrows(db: Db, d: Db, cvDoc: Option<Id>, m: Metadata, file: FileInput)
    requires Grows(db, d, cvDoc)
    ensures Grows(db, UploadOne(d, cvDoc, m, file).0, UploadOne(d, cvDoc, m, file).1)
    ensures cvDoc.Some? ==> forall vid | InHistory(d, cvDoc, vid) ::
              InHistory(UploadOne(d, cvDoc, m, file).0, UploadOne(d, cvDoc, m, file).1, vid)
    ensures var r := UploadOne(d, cvDoc, m, file);
            r.2.status.Stored? ==> r.2.status.versionId in r.0.versions && r.2.status.versionId !in db.versions
                                   && InHistory(r.0, r.1, r.2.status.versionId)
  {
    if cvDoc.Some? {
      forall vid | InHistory(d, cvDoc, vid)
        ensures InHistory(UploadOne(d, cvDoc, m, file).0, UploadOne(d, cvDoc, m, file).1, vid)
      {
        StepKeepsHistory(d, cvDoc, m, file, vid);
      }
    }
  }

  /**
   * After the loop, every earlier document is unchanged; every version it added
   * belongs to the CV it settled on, is pending its virus scan and has no parse
   * status; and every stored file's version is a new one recorded as pending in
   * that CV's history.
   */
  lemma {:induction false} StoredVersionsPending(db: Db, m: Metadata, files: seq<FileInput>)
    ensures Grows(db, UploadAll(db, m, files).0, UploadAll(db, m, files).1)
    ensures forall i | 0 <= i < |files| && UploadAll(db, m, files).2[i].status.Stored? ::
              var r := UploadAll(db, m, files);
              r.2[i].status.versionId in r.0.versions && r.2[i].status.versionId !in db.versions
              && InHistory(r.0, r.1, r.2[i].status.versionId)
    decreases |files|
  {
    if files != [] {
      var init := files[..|files| - 1];
      var prev := UploadAll(db, m, init);
      StoredVersionsPending(db, m, init);
      StepGrows(db, prev.0, prev.1, m, files[|files| - 1]);
      var r := UploadAll(db, m, files);
      forall i | 0 <= i < |files| && r.2[i].status.Stored?
        ensures r.2[i].status.versionId in r.0.versions && r.2[i].status.versionId !in db.versions
                && InHistory(r.0, r.1, r.2[i].status.versionId)
      {
        if i < |init| {
          assert r.2[i] == prev.2[i];
        }
      }
    }
  }

  /**
   * As written, a freshly uploaded version is never claimed by the parse job: it
   * has no parse status, which the claim never accepts. The unforced selection
   * never matches it; the forced one (`$ne: "processing"`) does, and its claim
   * then fails.
   */
  lemma FreshUploadsNeverClaimed(db: Db, m: Metadata, files: seq<FileInput>, force: bool)
    ensures var d := UploadAll(db, m, files).0;
            forall id | id in d.versions && id !in db.versions ::
              && d.versions[id].parse.None?
              && !ParseJob.Selected(d.versions[id], false)
              && ParseJob.Selected(d.versions[id], true)
              && !(d.versions[id].parse.Some? && d.versions[id].parse.value in ParseJob.ClaimStatuses(force))
  {
    StoredVersionsPending(db, m, files);
  }

  // ----- The route as a method on the store -----

  /** `ensureCvDocument` on the store. */
  method EnsureCvDocument(store: Store, m: Metadata, now: Millis) returns (id: Id)
    modifies store
    ensures (store.Contents(), id) == EnsureCv(old(store.Contents()), m, now)
  {
    if m.cvId.Some? && m.cvId.value in store.cvs {
      return m.cvId.value;
    }
    var email := m.profile.consultant.email;
    if email.Some? && email.value != "" {
      var byEmail := store.FindCvByEmail(email.value);
      if byEmail.Some? {
        return byEmail.value;
      }
    }
    id := store.InsertCv(NewCv(m, now));
  }

  /** The body of the loop for one file. */
  method UploadFile(store: Store, cvDoc: Option<Id>, m: Metadata, file: FileInput)
    returns (settled: Option<Id>, result: UploadResult)
    requires cvDoc.Some? ==> cvDoc.value in store.cvs
    modifies store
    ensures (store.Contents(), settled, result) == UploadOne(old(store.Contents()), cvDoc, m, file)
  {
    settled := cvDoc;
    if file.failure.Some? && file.failure.value.point == BeforeWrite {
      return cvDoc, UploadResult(file.name, Errored(file.failure.value.message));
    }
    var duplicate := store.HasChecksum(file.checksum);
    if duplicate {
      return cvDoc, UploadResult(file.name, Duplicate(DuplicateMessage));
    }
    var cvId;
    if cvDoc.Some? {
      cvId := cvDoc.value;
    } else {
      cvId := EnsureCvDocument(store, m, file.now);
    }
    settled := Some(cvId);
    if file.failure.Some? && file.failure.value.point == AfterCvEnsured {
      return settled, UploadResult(file.name, Errored(file.failure.value.message));
    }
    var v := NewVersion(cvId, m, file);
    var vid := store.InsertVersion(v);
    if file.failure.Some? {
      return settled, UploadResult(file.name, Errored(file.failure.value.message));
    }
    store.RecordUpload(cvId, m.profile, Summary(vid, v), file.now);
    result := UploadResult(file.name, Stored(vid));
  }

  /** `POST /api/cvs` once the metadata is valid and normalised. */
  method Post(store: Store, m: Metadata, files: seq<FileInput>) returns (response: Response)
    modifies store
    ensures (store.Contents(), response) == PostUpload(old(store.Contents()), m, files)
  {
    if |files| == 0 {
      return BadRequest("At least one CV file is required");
    }
    ghost var db0 := store.Contents();
    var cvDoc: Option<Id> := None;
    var results: seq<UploadResult> := [];
    for i := 0 to |files|
      invariant (store.Contents(), cvDoc, results) == UploadAll(db0, m, files[..i])
    {
      assert files[..i + 1][..i] == files[..i];
      var result;
      cvDoc, result := UploadFile(store, cvDoc, m, files[i]);
      results := results + [result];
    }
    assert files[..|files|] == files;
    response := Decide(results, cvDoc);
  }
}
