/**
 * The CV upload form: the queue of files waiting to be sent, the metadata sent
 * with every file, the tag list, and the submission that uploads the queue one
 * file after the other. The transfer itself is an input: for every file, either
 * the result the server answered or the message of the error that was thrown.
 * Upload progress between 0 and 1 is not part of this model.
 */
module UploadForm {
  import opened Common
  import opened Text

  // ----- File ids -----

  /** What the form reads of a `File`; a modification time is a non-negative millisecond count. */
  datatype FileInfo = FileInfo(name: string, size: nat, lastModified: nat)

  /** `makeFileId`: name, size and modification time joined by dashes. */
  function MakeFileId(file: FileInfo): string {
    file.name + "-" + NatToString(file.size) + "-" + NatToString(file.lastModified)
  }

  lemma {:induction false} NatToStringInjective(n: nat, m: nat)
    requires NatToString(n) == NatToString(m)
    ensures n == m
    decreases n
  {
    if n >= 10 && m >= 10 {
      var a, b := NatToString(n), NatToString(m);
      assert a[..|a| - 1] == NatToString(n / 10) && b[..|b| - 1] == NatToString(m / 10);
      NatToStringInjective(n / 10, m / 10);
      assert DigitChar(n % 10) == a[|a| - 1] == DigitChar(m % 10);
    } else if n < 10 && m < 10 {
      assert DigitChar(n) == DigitChar(m);
    }
  }

  /** A text ending in a dash-free part after a dash is split there in one way only. */
  lemma LastDash(a: string, d: string, b: string, e: string)
    requires '-' !in d && '-' !in e
    requires a + "-" + d == b + "-" + e
    ensures a == b && d == e
  {
    var s := a + "-" + d;
    assert s[|a|] == '-' && s[|b|] == '-';
    assert forall j | |a| < j < |s| :: s[j] == d[j - |a| - 1];
    assert forall j | |b| < j < |s| :: s[j] == e[j - |b| - 1];
    assert a == s[..|a|] == b;
    assert d == s[|a| + 1..] == e;
  }

  lemma DigitsDashFree(n: nat)
    ensures '-' !in NatToString(n)
  {
  }

  /** Different files never share an id, so the queue's test by id is a test by name, size and time. */
  lemma MakeFileIdInjective(f: FileInfo, g: FileInfo)
    requires MakeFileId(f) == MakeFileId(g)
    ensures f == g
  {
    DigitsDashFree(f.size);
    DigitsDashFree(g.size);
    DigitsDashFree(f.lastModified);
    DigitsDashFree(g.lastModified);
    LastDash(f.name + "-" + NatToString(f.size), NatToString(f.lastModified),
      g.name + "-" + NatToString(g.size), NatToString(g.lastModified));
    LastDash(f.name, NatToString(f.size), g.name, NatToString(g.size));
    NatToStringInjective(f.size, g.size);
    NatToStringInjective(f.lastModified, g.lastModified);
  }

  // ----- The queue -----

  datatype UploadStatus = Idle | Uploading | Success | Duplicate | Error

  /** A queued file; `progress` is the fraction sent, `error` the message shown. */
  datatype QueuedFile = QueuedFile(
    id: string, file: FileInfo, progress: real, status: UploadStatus, error: Option<string>, versionId: Option<string>)

  /** The ids in the queue. */
  function Ids(queue: seq<QueuedFile>): set<string> {
    set q | q in queue :: q.id
  }

  /** A newly queued file: idle, nothing sent, no error. */
  function Enqueued(file: FileInfo): QueuedFile {
    QueuedFile(MakeFileId(file), file, 0.0, Idle, None, None)
  }

  /** The files of a batch that are queued: non-empty ones whose id is not in `existing`, in order. */
  function Accepted(files: seq<FileInfo>, existing: set<string>): (r: seq<QueuedFile>)
    ensures |r| <= |files|
    ensures forall q | q in r :: q.file in files && q == Enqueued(q.file) && q.file.size > 0 && q.id !in existing
    ensures forall f | f in files && f.size > 0 && MakeFileId(f) !in existing :: Enqueued(f) in r
  {
    if files == [] then []
    else
      (if files[0].size > 0 && MakeFileId(files[0]) !in existing then [Enqueued(files[0])] else [])
      + Accepted(files[1..], existing)
  }

  /** The accepted files of a joined batch are those of each part, in batch order. */
  lemma {:induction false} AcceptedAppend(a: seq<FileInfo>, b: seq<FileInfo>, existing: set<string>)
    ensures Accepted(a + b, existing) == Accepted(a, existing) + Accepted(b, existing)
    decreases |a|
  {
    if a == [] {
      assert a + b == b;
    } else {
      assert (a + b)[0] == a[0] && (a + b)[1..] == a[1..] + b;
      var head := if a[0].size > 0 && MakeFileId(a[0]) !in existing then [Enqueued(a[0])] else [];
      assert Accepted(a + b, existing) == head + Accepted(a[1..] + b, existing);
      AcceptedAppend(a[1..], b, existing);
      AppendAssoc(head, Accepted(a[1..], existing), Accepted(b, existing));
    }
  }

  /** One file is queued exactly when it is non-empty and its id is not already queued. */
  lemma AcceptedSingle(f: FileInfo, existing: set<string>)
    ensures Accepted([f], existing) == if f.size > 0 && MakeFileId(f) !in existing then [Enqueued(f)] else []
  {
    assert [f][1..] == [];
  }

  /** `addFiles`: the queue as it was, followed by the accepted files of the batch. */
  function AddFiles(prev: seq<QueuedFile>, files: seq<FileInfo>): (r: seq<QueuedFile>)
    ensures |r| >= |prev| && r[..|prev|] == prev
    ensures forall q | q in r[|prev|..] :: q == Enqueued(q.file) && q.file in files && q.file.size > 0 && q.id !in Ids(prev)
    ensures forall f | f in files && f.size > 0 && MakeFileId(f) !in Ids(prev) :: Enqueued(f) in r[|prev|..]
  {
    var r := prev + Accepted(files, Ids(prev));
    assert r[|prev|..] == Accepted(files, Ids(prev));
    r
  }

  /**
   * The ids of the queue before the batch are the only ones compared: the second
   * part of a batch is accepted against them, not against the first part.
   */
  lemma AddFilesAppend(prev: seq<QueuedFile>, a: seq<FileInfo>, b: seq<FileInfo>)
    ensures AddFiles(prev, a + b) == AddFiles(prev, a) + Accepted(b, Ids(prev))
  {
    AcceptedAppend(a, b, Ids(prev));
    AppendAssoc(prev, Accepted(a, Ids(prev)), Accepted(b, Ids(prev)));
  }

  /** One file is appended as an idle entry when it is non-empty and its id is not yet queued. */
  lemma AddFilesSingle(prev: seq<QueuedFile>, f: FileInfo)
    ensures AddFiles(prev, [f]) == prev + if f.size > 0 && MakeFileId(f) !in Ids(prev) then [Enqueued(f)] else []
  {
    AcceptedSingle(f, Ids(prev));
  }

  /** Within one batch ids are not compared: the same file twice is queued twice. */
  lemma SameFileTwiceInOneBatch(f: FileInfo)
    requires f.size > 0
    ensures AddFiles([], [f, f]) == [Enqueued(f), Enqueued(f)]
  {
    assert [f, f][1..] == [f];
    assert [f][1..] == [];
  }

  lemma {:induction false} AcceptedNone(files: seq<FileInfo>, existing: set<string>)
    requires forall f | f in files && f.size > 0 :: MakeFileId(f) in existing
    ensures Accepted(files, existing) == []
    decreases |files|
  {
    if files != [] {
      assert files[0] in files;
      AcceptedNone(files[1..], existing);
    }
  }

  /** Adding the same batch again adds nothing. */
  lemma AddFilesIdempotent(prev: seq<QueuedFile>, files: seq<FileInfo>)
    ensures AddFiles(AddFiles(prev, files), files) == AddFiles(prev, files)
  {
    var once := AddFiles(prev, files);
    forall f | f in files && f.size > 0 ensures MakeFileId(f) in Ids(once) {
      if MakeFileId(f) !in Ids(prev) {
        var q := Enqueued(f);
        assert q in once[|prev|..];
        assert q in once;
      } else {
        var q :| q in prev && q.id == MakeFileId(f);
        var i := IndexOf(prev, q);
        assert once[i] == once[..|prev|][i] == q;
      }
    }
    AcceptedNone(files, Ids(once));
    assert once + [] == once;
  }

  /** `removeFile`: every entry with that id is dropped, the others are kept in order. */
  function RemoveFile(queue: seq<QueuedFile>, id: string): (r: seq<QueuedFile>)
    ensures forall q | q in r :: q in queue && q.id != id
    ensures forall q | q in queue && q.id != id :: q in r
    ensures id !in Ids(r)
  {
    if queue == [] then []
    else (if queue[0].id == id then [] else [queue[0]]) + RemoveFile(queue[1..], id)
  }

  /** Removing from a joined queue removes from each part, so the kept entries keep their order and their copies. */
  lemma {:induction false} RemoveFileAppend(a: seq<QueuedFile>, b: seq<QueuedFile>, id: string)
    ensures RemoveFile(a + b, id) == RemoveFile(a, id) + RemoveFile(b, id)
    decreases |a|
  {
    if a == [] {
      assert a + b == b;
    } else {
      var head := if a[0].id == id then [] else [a[0]];
      var rest, tail := RemoveFile(a[1..], id), RemoveFile(b, id);
      AppendAssoc(head, rest, tail);
      assert (a + b)[0] == a[0] && (a + b)[1..] == a[1..] + b;
      RemoveFileFirst(a + b, id);
      RemoveFileFirst(a, id);
      RemoveFileAppend(a[1..], b, id);
    }
  }

  lemma RemoveFileFirst(queue: seq<QueuedFile>, id: string)
    requires queue != []
    ensures RemoveFile(queue, id) == (if queue[0].id == id then [] else [queue[0]]) + RemoveFile(queue[1..], id)
  {
  }

  /** One entry is dropped exactly when it has that id. */
  lemma RemoveFileSingle(q: QueuedFile, id: string)
    ensures RemoveFile([q], id) == if q.id == id then [] else [q]
  {
    assert [q][1..] == [];
  }

  /** `updateFile`: the entries with that id are replaced by the updater's result, every other entry is kept. */
  function UpdateFile(queue: seq<QueuedFile>, id: string, updater: QueuedFile -> QueuedFile): (r: seq<QueuedFile>)
    ensures |r| == |queue|
    ensures forall i | 0 <= i < |queue| && queue[i].id != id :: r[i] == queue[i]
    ensures forall i | 0 <= i < |queue| && queue[i].id == id :: r[i] == updater(queue[i])
  {
    seq(|queue|, i requires 0 <= i < |queue| => if queue[i].id == id then updater(queue[i]) else queue[i])
  }

  /** Removing an entry after updating it is removing it: an update that keeps ids leaves no trace once removed. */
  lemma {:induction false} RemoveAfterUpdate(queue: seq<QueuedFile>, id: string, updater: QueuedFile -> QueuedFile)
    requires forall q :: updater(q).id == q.id
    ensures RemoveFile(UpdateFile(queue, id, updater), id) == RemoveFile(queue, id)
    decreases |queue|
  {
    if queue != [] {
      assert UpdateFile(queue, id, updater)[1..] == UpdateFile(queue[1..], id, updater);
      RemoveAfterUpdate(queue[1..], id, updater);
    }
  }

  // ----- Submission -----

  /** What the server answered for one file; its status is whatever text the response carried. */
  datatype UploadResult = UploadResult(status: string, versionId: Option<string>, message: Option<string>)

  /** How the upload of one file ended: with an answer, or with a thrown error and its message. */
  datatype Outcome = Answered(result: UploadResult) | Failed(message: string)

  /** The fields of the route's JSON answer that the form reads; each is `None` when absent or when the body is not JSON. */
  datatype ResponseBody = ResponseBody(
    resultStatus: Option<string>, resultVersionId: Option<string>, resultMessage: Option<string>,
    versionId: Option<string>, error: Option<string>)

  /**
   * How one request ends: a 2xx or 409 answer resolves, any other status and a
   * network error reject. `answer` is the HTTP status with its body, or `None`
   * when the request never got an answer.
   */
  function UploadOutcome(answer: Option<(int, ResponseBody)>): (r: Outcome)
    ensures answer.None? ==> r == Failed("Network error while uploading CV")
    ensures r.Answered? <==> answer.Some? && (200 <= answer.value.0 < 300 || answer.value.0 == 409)
    ensures r.Answered? && answer.value.1.resultStatus.Some? ==> r.result.status == answer.value.1.resultStatus.value
    ensures r.Answered? && answer.value.1.resultStatus.None? ==>
              ResultStatus(r.result.status) == (if answer.value.0 == 409 then Duplicate else Success)
    ensures r.Answered? && answer.value.0 == 409 ==>
              r.result.versionId.None?
              && r.result.message == (if answer.value.1.resultMessage.Some? then answer.value.1.resultMessage else answer.value.1.error)
    ensures r.Answered? && answer.value.0 != 409 ==>
              r.result.message == answer.value.1.resultMessage
              && r.result.versionId == (if answer.value.1.resultVersionId.Some? then answer.value.1.resultVersionId else answer.value.1.versionId)
    ensures r.Failed? && answer.Some? ==>
              r.message == answer.value.1.error.GetOr("Upload failed with status " + IntToString(answer.value.0))
  {
    match answer
    case None => Failed("Network error while uploading CV")
    case Some((status, body)) =>
      if 200 <= status < 300 then
        Answered(UploadResult(
          body.resultStatus.GetOr("stored"),
          if body.resultVersionId.Some? then body.resultVersionId else body.versionId,
          body.resultMessage))
      else if status == 409 then
        Answered(UploadResult(
          body.resultStatus.GetOr("duplicate"),
          None,
          if body.resultMessage.Some? then body.resultMessage else body.error))
      else
        Failed(body.error.GetOr("Upload failed with status " + IntToString(status)))
  }

  /** The status shown for an answer: duplicate and stored are recognised, anything else is an error. */
  function ResultStatus(status: string): (r: UploadStatus)
    ensures r == Duplicate <==> status == "duplicate"
    ensures r == Success <==> status == "stored"
    ensures r == Error <==> status != "duplicate" && status != "stored"
  {
    if status == "duplicate" then Duplicate else if status == "stored" then Success else Error
  }

  /** The update when a file's upload starts. */
  function StartUpload(q: QueuedFile): QueuedFile {
    q.(status := Uploading, progress := 0.0, error := None)
  }

  /** The update when a file's upload ends. */
  function FinishUpload(outcome: Outcome, q: QueuedFile): (r: QueuedFile)
    ensures r.id == q.id && r.file == q.file
    ensures outcome.Failed? ==> r.status == Error && r.error == Some(outcome.message) && r.progress == q.progress
    ensures outcome.Answered? ==> r.status == ResultStatus(outcome.result.status) && r.progress == 1.0
    ensures outcome.Answered? ==> (r.error.Some? <==> r.status == Error)
  {
    match outcome
    case Answered(result) =>
      var status := ResultStatus(result.status);
      q.(status := status, progress := 1.0,
         versionId := if result.versionId.Some? then result.versionId else q.versionId,
         error := if status == Error then Some(result.message.GetOr("Upload failed")) else None)
    case Failed(message) => q.(status := Error, error := Some(message))
  }

  /** One file's upload in the queue: its entries are started, then finished from the outcome. */
  function UploadStep(queue: seq<QueuedFile>, id: string, outcome: Outcome): (r: seq<QueuedFile>)
    ensures |r| == |queue|
    ensures forall i | 0 <= i < |queue| && queue[i].id != id :: r[i] == queue[i]
    ensures forall i | 0 <= i < |queue| && queue[i].id == id :: r[i] == FinishUpload(outcome, StartUpload(queue[i]))
  {
    var started := UpdateFile(queue, id, StartUpload);
    UpdateFile(started, id, q => FinishUpload(outcome, q))
  }

  /** The queue after the uploads of the first `n` files of `files`. */
  function Processed(queue: seq<QueuedFile>, files: seq<QueuedFile>, outcomes: seq<Outcome>, n: nat): (r: seq<QueuedFile>)
    requires n <= |files| && |outcomes| == |files|
    ensures |r| == |queue|
  {
    if n == 0 then queue
    else UploadStep(Processed(queue, files, outcomes, n - 1), files[n - 1].id, outcomes[n - 1])
  }

  /** The answers collected for the first `n` files: thrown errors leave no entry. */
  function Results(files: seq<QueuedFile>, outcomes: seq<Outcome>, n: nat): (r: seq<(string, UploadResult)>)
    requires n <= |files| && |outcomes| == |files|
    ensures |r| <= n
  {
    if n == 0 then []
    else
      Results(files, outcomes, n - 1)
      + (if outcomes[n - 1].Answered? then [(files[n - 1].id, outcomes[n - 1].result)] else [])
  }

  datatype BannerType = BannerSuccess | BannerError | BannerInfo

  datatype Banner = Banner(kind: BannerType, message: string)

  /** Some collected answer has exactly this status. */
  predicate AnyStatus(results: seq<(string, UploadResult)>, status: string) {
    exists i | 0 <= i < |results| :: results[i].1.status == status
  }

  /** The message after a submission: errors first, then stored files, then duplicates, else none. */
  function SubmitBanner(results: seq<(string, UploadResult)>): (r: Option<Banner>)
    ensures r.Some? && r.value.kind == BannerError <==> AnyStatus(results, "error")
    ensures r.Some? && r.value.kind == BannerSuccess <==> !AnyStatus(results, "error") && AnyStatus(results, "stored")
    ensures r.Some? && r.value.kind == BannerInfo
            <==> !AnyStatus(results, "error") && !AnyStatus(results, "stored") && AnyStatus(results, "duplicate")
    ensures r.None? <==> !AnyStatus(results, "error") && !AnyStatus(results, "stored") && !AnyStatus(results, "duplicate")
  {
    if AnyStatus(results, "error") then Some(Banner(BannerError, "Some files failed to upload. Please review the errors below."))
    else if AnyStatus(results, "stored") then Some(Banner(BannerSuccess, "CVs uploaded successfully and queued for virus scanning."))
    else if AnyStatus(results, "duplicate") then Some(Banner(BannerInfo, "All files were identified as duplicates."))
    else None
  }

  /**
   * The loop of `handleSubmit` over the files queued when it started: each file is
   * marked as uploading, then updated from its outcome, and every answer is
   * collected; the banner is chosen from the answers.
   */
  method SubmitUploads(files: seq<QueuedFile>, outcomes: seq<Outcome>)
    returns (queue: seq<QueuedFile>, results: seq<(string, UploadResult)>, banner: Option<Banner>)
    requires |outcomes| == |files|
    ensures queue == Processed(files, files, outcomes, |files|)
    ensures results == Results(files, outcomes, |files|)
    ensures banner == SubmitBanner(results)
  {
    queue := files;
    results := [];
    for i := 0 to |files|
      invariant queue == Processed(files, files, outcomes, i)
      invariant results == Results(files, outcomes, i)
    {
      var id := files[i].id;
      queue := UpdateFile(queue, id, StartUpload);
      var outcome := outcomes[i];
      queue := UpdateFile(queue, id, q => FinishUpload(outcome, q));
      if outcome.Answered? {
        results := results + [(id, outcome.result)];
      }
    }
    banner := SubmitBanner(results);
  }

  /** The ids of the queue are pairwise different. */
  predicate DistinctIds(queue: seq<QueuedFile>) {
    forall i, j | 0 <= i < j < |queue| :: queue[i].id != queue[j].id
  }

  /** With distinct ids, each of the first `n` files carries its own outcome and the rest are untouched. */
  lemma {:induction false} ProcessedEntry(files: seq<QueuedFile>, outcomes: seq<Outcome>, n: nat, k: nat)
    requires n <= |files| && |outcomes| == |files| && DistinctIds(files) && k < |files|
    ensures Processed(files, files, outcomes, n)[k]
            == if k < n then FinishUpload(outcomes[k], StartUpload(files[k])) else files[k]
  {
    if n > 0 {
      ProcessedEntry(files, outcomes, n - 1, k);
      var before := Processed(files, files, outcomes, n - 1);
      assert before[k].id == files[k].id;
      assert k != n - 1 ==> files[k].id != files[n - 1].id;
    }
  }

  /** After a submission over distinct ids, every file shows the status its outcome gives. */
  lemma SubmitStatuses(files: seq<QueuedFile>, outcomes: seq<Outcome>, k: nat)
    requires |outcomes| == |files| && DistinctIds(files) && k < |files|
    ensures Processed(files, files, outcomes, |files|)[k].status
            == if outcomes[k].Answered? then ResultStatus(outcomes[k].result.status) else Error
    ensures outcomes[k].Failed? ==> Processed(files, files, outcomes, |files|)[k].error == Some(outcomes[k].message)
  {
    ProcessedEntry(files, outcomes, |files|, k);
  }

  /** A thrown error is shown on its file but is not among the answers, so it alone does not raise the error banner. */
  lemma ThrownErrorNotInBanner(a: QueuedFile, b: QueuedFile, message: string, stored: UploadResult)
    requires a.id != b.id && stored.status == "stored"
    ensures Processed([a, b], [a, b], [Failed(message), Answered(stored)], 2)[0].status == Error
    ensures SubmitBanner(Results([a, b], [Failed(message), Answered(stored)], 2)).Some?
    ensures SubmitBanner(Results([a, b], [Failed(message), Answered(stored)], 2)).value.kind == BannerSuccess
  {
    SubmitStatuses([a, b], [Failed(message), Answered(stored)], 0);
    var results := Results([a, b], [Failed(message), Answered(stored)], 2);
    assert Results([a, b], [Failed(message), Answered(stored)], 1) == [];
    assert results == [(b.id, stored)];
    assert AnyStatus(results, "stored") by { assert results[0].1.status == "stored"; }
  }

  /** `isSubmitDisabled`. */
  function SubmitDisabled(isUploading: bool, queueLength: nat, consultantName: string): (r: bool)
    ensures !r <==> !isUploading && queueLength > 0 && Trim(consultantName) != ""
  {
    isUploading || queueLength == 0 || |Trim(consultantName)| == 0
  }

  // ----- Tags -----

  /** The tag list and the text of the tag input. */
  datatype TagState = TagState(tags: seq<string>, input: string)

  /**
   * `handleTagKeyDown`: with a non-blank input, Enter or a comma adds the trimmed
   * input unless the list already holds it exactly, and clears the input.
   */
  function TagKeyDown(state: TagState, key: string): (r: TagState)
    ensures Trim(state.input) == "" || (key != "Enter" && key != ",") ==> r == state
    ensures Trim(state.input) != "" && (key == "Enter" || key == ",") ==>
              r.input == "" && r.tags == (if Trim(state.input) in state.tags then state.tags else state.tags + [Trim(state.input)])
  {
    if Trim(state.input) == "" then state
    else if key == "Enter" || key == "," then
      var tag := Trim(state.input);
      TagState(if tag !in state.tags then state.tags + [tag] else state.tags, "")
    else state
  }

  /** Tags added this way are trimmed, non-empty and never repeated. */
  lemma TagKeyDownKeepsTagsClean(state: TagState, key: string)
    requires NoDuplicates(state.tags) && forall t | t in state.tags :: t != "" && IsTrimmed(t)
    ensures NoDuplicates(TagKeyDown(state, key).tags)
    ensures forall t | t in TagKeyDown(state, key).tags :: t != "" && IsTrimmed(t)
  {
    var r := TagKeyDown(state, key);
    if r.tags != state.tags {
      var tag := Trim(state.input);
      forall i, j | 0 <= i < j < |r.tags| ensures r.tags[i] != r.tags[j] {
        if j == |state.tags| {
          assert r.tags[i] == state.tags[i] && state.tags[i] in state.tags;
        }
      }
    }
  }

  /** `removeTag`: every copy of the tag is dropped, the others kept in order. */
  function RemoveTag(tags: seq<string>, tag: string): (r: seq<string>)
    ensures tag !in r
    ensures forall t | t in tags && t != tag :: t in r
    ensures forall t | t in r :: t in tags
  {
    if tags == [] then []
    else (if tags[0] == tag then [] else [tags[0]]) + RemoveTag(tags[1..], tag)
  }

  /** Removing from joined tags removes from each part, so the kept tags keep their order. */
  lemma {:induction false} RemoveTagAppend(a: seq<string>, b: seq<string>, tag: string)
    ensures RemoveTag(a + b, tag) == RemoveTag(a, tag) + RemoveTag(b, tag)
    decreases |a|
  {
    if a == [] {
      assert a + b == b;
    } else {
      assert (a + b)[0] == a[0] && (a + b)[1..] == a[1..] + b;
      var head := if a[0] == tag then [] else [a[0]];
      assert RemoveTag(a + b, tag) == head + RemoveTag(a[1..] + b, tag);
      RemoveTagAppend(a[1..], b, tag);
      AppendAssoc(head, RemoveTag(a[1..], tag), RemoveTag(b, tag));
    }
  }

  /** One tag is dropped exactly when it is the removed one. */
  lemma RemoveTagSingle(t: string, tag: string)
    ensures RemoveTag([t], tag) == if t == tag then [] else [t]
  {
    assert [t][1..] == [];
  }

  // ----- Metadata -----

  /** A skill row of the form. */
  datatype SkillInput = SkillInput(id: string, name: string, level: string, years: string)

  /** A skill of the payload; the years are kept as the trimmed text that `Number` would read. */
  datatype SkillPayload = SkillPayload(name: string, level: Option<string>, years: Option<string>)

  function SkillPayloadOf(skill: SkillInput): SkillPayload {
    SkillPayload(Trim(skill.name), OrUndefined(Trim(skill.level)), OrUndefined(Trim(skill.years)))
  }

  /** The skill rows mapped to payload skills, dropping those whose trimmed name is empty. */
  function SkillPayloads(skills: seq<SkillInput>): (r: seq<SkillPayload>)
    ensures |r| <= |skills|
    ensures forall p | p in r :: p.name != "" && IsTrimmed(p.name)
  {
    if skills == [] then []
    else (if Trim(skills[0].name) != "" then [SkillPayloadOf(skills[0])] else []) + SkillPayloads(skills[1..])
  }

  /** Every row with a non-blank name gives a payload skill. */
  lemma {:induction false} SkillPayloadsKeep(skills: seq<SkillInput>, s: SkillInput)
    requires s in skills && Trim(s.name) != ""
    ensures SkillPayloadOf(s) in SkillPayloads(skills)
    decreases |skills|
  {
    if skills[0] != s {
      SkillPayloadsKeep(skills[1..], s);
    }
  }

  /** Every payload skill comes from a row of the form with a non-blank name. */
  lemma {:induction false} SkillPayloadSource(skills: seq<SkillInput>, p: SkillPayload) returns (s: SkillInput)
    requires p in SkillPayloads(skills)
    ensures s in skills && Trim(s.name) != "" && p == SkillPayloadOf(s)
    decreases |skills|
  {
    if Trim(skills[0].name) != "" && p == SkillPayloadOf(skills[0]) {
      s := skills[0];
    } else {
      s := SkillPayloadSource(skills[1..], p);
    }
  }

  /** The dropping keeps the order of the rows. */
  lemma {:induction false} SkillPayloadsAppend(a: seq<SkillInput>, b: seq<SkillInput>)
    ensures SkillPayloads(a + b) == SkillPayloads(a) + SkillPayloads(b)
    decreases |a|
  {
    if a == [] {
      assert a + b == b;
    } else {
      assert (a + b)[0] == a[0] && (a + b)[1..] == a[1..] + b;
      var head := if Trim(a[0].name) != "" then [SkillPayloadOf(a[0])] else [];
      assert SkillPayloads(a + b) == head + SkillPayloads(a[1..] + b);
      SkillPayloadsAppend(a[1..], b);
      AppendAssoc(head, SkillPayloads(a[1..]), SkillPayloads(b));
    }
  }

  datatype ConsultantPayload = ConsultantPayload(
    name: string, email: Option<string>, phone: Option<string>, title: Option<string>, location: Option<string>)

  /** The availability; `availableFrom` holds the date text as entered, its conversion to an ISO date is not modelled. */
  datatype AvailabilityPayload = AvailabilityPayload(status: string, availableFrom: Option<string>, notes: Option<string>)

  datatype MetadataPayload = MetadataPayload(
    cvId: Option<string>, consultant: ConsultantPayload, skills: seq<SkillPayload>,
    availability: AvailabilityPayload, tags: seq<string>, notes: Option<string>, uploadedBy: Option<string>)

  /** The fields of the form that go into the metadata. */
  datatype MetadataForm = MetadataForm(
    cvId: string, name: string, email: string, phone: string, title: string, location: string,
    skills: seq<SkillInput>, availabilityStatus: string, availabilityDate: string, availabilityNotes: string,
    tags: seq<string>, notes: string, uploadedBy: string)

  /** `value.trim() || undefined`. */
  function TrimmedOrUndefined(value: string): (r: Option<string>)
    ensures r.None? <==> Trim(value) == ""
    ensures r.Some? ==> r.value == Trim(value) && r.value != "" && IsTrimmed(r.value)
  {
    OrUndefined(Trim(value))
  }

  /** `buildMetadataPayload`. */
  function BuildMetadataPayload(form: MetadataForm): (r: MetadataPayload)
    ensures r.consultant.name == Trim(form.name)
    ensures r.skills == SkillPayloads(form.skills)
    ensures r.tags == NonEmpty(TrimAll(form.tags)) && forall t | t in r.tags :: t != "" && IsTrimmed(t)
    ensures r.cvId == TrimmedOrUndefined(form.cvId) && r.notes == TrimmedOrUndefined(form.notes)
    ensures r.uploadedBy == TrimmedOrUndefined(form.uploadedBy)
    ensures r.consultant.email == TrimmedOrUndefined(form.email) && r.consultant.phone == TrimmedOrUndefined(form.phone)
    ensures r.consultant.title == TrimmedOrUndefined(form.title) && r.consultant.location == TrimmedOrUndefined(form.location)
    ensures r.availability.status == form.availabilityStatus
    ensures r.availability.availableFrom == OrUndefined(form.availabilityDate)
    ensures r.availability.notes == TrimmedOrUndefined(form.availabilityNotes)
  {
    var tags := NonEmpty(TrimAll(form.tags));
    assert forall t | t in tags :: IsTrimmed(t) by {
      forall t | t in tags ensures IsTrimmed(t) {
        var i :| 0 <= i < |form.tags| && TrimAll(form.tags)[i] == t;
      }
    }
    MetadataPayload(
      TrimmedOrUndefined(form.cvId),
      ConsultantPayload(Trim(form.name), TrimmedOrUndefined(form.email), TrimmedOrUndefined(form.phone),
        TrimmedOrUndefined(form.title), TrimmedOrUndefined(form.location)),
      SkillPayloads(form.skills),
      AvailabilityPayload(form.availabilityStatus, OrUndefined(form.availabilityDate), TrimmedOrUndefined(form.availabilityNotes)),
      tags,
      TrimmedOrUndefined(form.notes),
      TrimmedOrUndefined(form.uploadedBy))
  }
}
