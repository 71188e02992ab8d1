/**
 * The claim-and-count loop of `runParseCvJob`: select a batch of versions,
 * claim each with a conditional update, parse it, replace its entities and
 * record the outcome on the version and in its CV's history. Fetching the file
 * and extracting its text is a parameter (`fetch`) that either yields the text
 * or throws.
 */
module ParseJob {
  import opened Common
  import SectionParser
  import EntityDedup
  import opened CvDocs
  import opened DocStore

  datatype Summary = Summary(processed: nat, parsed: nat, failed: nat, skipped: nat)

  /** What downloading and extracting a version gives: text (possibly null), or a thrown value, with its message when it is an `Error`. */
  datatype Fetch = Fetched(text: Option<string>) | Threw(message: Option<string>)

  datatype Outcome = Skipped | ParsedOk | Failed

  /** `Math.max(1, Math.min(batchSize ?? 10, 50))`. */
  function BatchSize(requested: Option<int>): (n: int)
    ensures 1 <= n <= 50
    ensures requested.None? ==> n == 10
    ensures requested.Some? && 1 <= requested.value <= 50 ==> n == requested.value
    ensures requested.Some? && requested.value < 1 ==> n == 1
    ensures requested.Some? && requested.value > 50 ==> n == 50
  {
    var n := requested.GetOr(10);
    if n < 1 then 1 else if n > 50 then 50 else n
  }

  /**
   * The selector: with `force`, `parseStatus: {$ne: "processing"}`, which a
   * missing status also satisfies; otherwise `parseStatus: {$in: ["pending", "error"]}`.
   */
  predicate Selected(v: Version, force: bool) {
    if force then v.parse != Some(Processing)
    else v.parse == Some(ParsePending) || v.parse == Some(ParseFailed)
  }

  /** The statuses a claim accepts. */
  function ClaimStatuses(force: bool): (r: set<ParseStatus>)
    ensures Processing !in r && ParsePending in r && ParseFailed in r
    ensures Parsed in r <==> force
  {
    if force then {ParsePending, ParseFailed, Parsed} else {ParsePending, ParseFailed}
  }

  /** `sort({parsedAt: 1, createdAt: 1})`: a missing `parsedAt` sorts first. */
  function SortKey(v: Version): (key: seq<int>)
    ensures |key| == 3
    ensures v.parsedAt.None? ==> key[0] == 0
    ensures v.parsedAt.Some? ==> key[0] == 1 && key[1] == v.parsedAt.value
    ensures key[2] == v.createdAt
  {
    [if v.parsedAt.None? then 0 else 1, v.parsedAt.GetOr(0), v.createdAt]
  }

  /** The documents inserted for the deduplicated entities of one version. */
  function ParserDocs(entities: seq<SectionParser.Entity>, cvId: Id, versionId: Id, now: Millis): (docs: seq<StoredEntity>)
    ensures |docs| == |entities|
    ensures forall i | 0 <= i < |docs| ::
              docs[i].entity == entities[i] && docs[i].cvId == cvId && docs[i].versionId == versionId
              && docs[i].source == FromParser && docs[i].createdAt == now && docs[i].updatedAt == now
  {
    seq(|entities|, i requires 0 <= i < |entities| => StoredEntity(cvId, versionId, entities[i], FromParser, now, now))
  }

  /** What parsing the text of a version stores: the deduplicated entities of the text, or of "" when it is null. */
  function ParsedEntities(text: Option<string>, parserVersion: string): seq<SectionParser.Entity> {
    EntityDedup.Deduplicated(SectionParser.Extracted(text.GetOr(""), parserVersion))
  }

  /** The parser for one parser version, as the function of the text the spec functions take. */
  function EntitiesOf(parserVersion: string): Option<string> -> seq<SectionParser.Entity> {
    t => ParsedEntities(t, parserVersion)
  }

  /** The message recorded when parsing throws. */
  function FailureMessage(message: Option<string>): string {
    message.GetOr("Unknown parsing error")
  }

  /** One turn of the loop for the version `id`, whose document was `v` when the batch was read. */
  function ParseOne(db: Db, id: Id, v: Version, force: bool, entitiesOf: Option<string> -> seq<SectionParser.Entity>, fetch: Version -> Fetch, now: Millis): (r: (Db, Outcome))
    ensures r.1 == Skipped <==> !(id in db.versions && db.versions[id].parse.Some? && db.versions[id].parse.value in ClaimStatuses(force))
    ensures r.1 == Skipped ==> r.0 == db
    ensures r.1 != Skipped ==> (r.1 == ParsedOk <==> fetch(v).Fetched?)
    ensures r.0.versions.Keys == db.versions.Keys
    ensures forall x | x in db.versions && x != id :: r.0.versions[x] == db.versions[x]
    ensures r.0.cvs.Keys == db.cvs.Keys
    ensures forall c | c in db.cvs :: KeptOutside(db.cvs[c].history, r.0.cvs[c].history, id)
    ensures r.1 == ParsedOk ==> r.0.versions[id].parse == Some(Parsed) && r.0.versions[id].parsedAt == Some(now)
    ensures r.1 == Failed ==> r.0.versions[id].parse == Some(ParseFailed) && r.0.versions[id].parsedAt == db.versions[id].parsedAt
    ensures r.1 != Skipped && v.cvId in db.cvs ==>
              ParseMirrored(r.0.cvs[v.cvId].history, id, r.0.versions[id].parse, if r.1 == ParsedOk then Some(now) else None)
  {
    if !(id in db.versions && db.versions[id].parse.Some? && db.versions[id].parse.value in ClaimStatuses(force)) then (db, Skipped)
    else
      var claimed := db.versions[id := db.versions[id].(parse := Some(Processing), parseError := None)];
      var cvs := MirrorAll(db.cvs, v.cvId, id, Processing, None);
      match fetch(v)
      case Fetched(text) =>
        var docs := ParserDocs(entitiesOf(text), v.cvId, id, now);
        var entities := OtherVersions(db.entities, v.cvId, id) + docs;
        var versions := claimed[id := claimed[id].(parse := Some(Parsed), parsedAt := Some(now), parseError := None)];
        (Db(versions, MirrorAll(cvs, v.cvId, id, Parsed, Some(now)), entities), ParsedOk)
      case Threw(message) =>
        var versions := claimed[id := claimed[id].(parse := Some(ParseFailed), parseError := Some(FailureMessage(message)))];
        (Db(versions, MirrorAll(cvs, v.cvId, id, ParseFailed, None), db.entities), Failed)
  }

  /** `cvs.updateOne({_id: cvId}, …, {arrayFilters: [{"entry.versionId": versionId}]})` on the parse fields. */
  function MirrorAll(cvs: map<Id, Cv>, cvId: Id, versionId: Id, status: ParseStatus, parsedAt: Option<Millis>): (r: map<Id, Cv>)
    ensures r.Keys == cvs.Keys
    ensures forall c | c in cvs && c != cvId :: r[c] == cvs[c]
    ensures forall c | c in cvs :: KeptOutside(cvs[c].history, r[c].history, versionId)
    ensures cvId in cvs ==> ParseMirrored(r[cvId].history, versionId, Some(status), parsedAt)
  {
    if cvId in cvs then cvs[cvId := cvs[cvId].(history := MirrorParse(cvs[cvId].history, versionId, status, parsedAt))]
    else cvs
  }

  function Count(s: Summary, o: Outcome): Summary {
    match o
    case Skipped => s.(skipped := s.skipped + 1)
    case ParsedOk => s.(processed := s.processed + 1, parsed := s.parsed + 1)
    case Failed => s.(processed := s.processed + 1, failed := s.failed + 1)
  }

  /**
   * The loop over a batch `ids`, each turn working on the document the batch
   * read from `db0`. Every version counts once as skipped or processed, and every
   * processed one once as parsed or failed.
   */
  function ParseAll(db0: Db, ids: seq<Id>, force: bool, entitiesOf: Option<string> -> seq<SectionParser.Entity>, fetch: Version -> Fetch, now: Millis): (r: (Db, Summary))
    requires forall i | 0 <= i < |ids| :: ids[i] in db0.versions
    ensures r.1.processed + r.1.skipped == |ids|
    ensures r.1.parsed + r.1.failed == r.1.processed
    ensures r.0.versions.Keys == db0.versions.Keys && r.0.cvs.Keys == db0.cvs.Keys
    decreases |ids|
  {
    if ids == [] then (db0, Summary(0, 0, 0, 0))
    else
      var before := ParseAll(db0, ids[..|ids| - 1], force, entitiesOf, fetch, now);
      var last := ids[|ids| - 1];
      var step := ParseOne(before.0, last, db0.versions[last], force, entitiesOf, fetch, now);
      (step.0, Count(before.1, step.1))
  }

  /** The version filter used when selecting the batch. */
  function Selector(force: bool): Version -> bool {
    v => Selected(v, force)
  }

  /** `runParseCvJob`: select the batch, then claim and parse each version in order. */
  method RunParseJob(store: Store, batchSize: Option<int>, parserVersion: Option<string>, force: bool,
                     fetch: Version -> Fetch, now: Millis)
    returns (summary: Summary, batch: seq<Id>)
    modifies store
    ensures IsBatch(old(store.versions), Selector(force), SortKey, Limit(BatchSize(batchSize)), batch)
    ensures (store.Contents(), summary) == ParseAll(old(store.Contents()), batch, force, EntitiesOf(parserVersion.GetOr("v1")), fetch, now)
  {
    var pv := parserVersion.GetOr("v1");
    batch := store.FindVersions(Selector(force), SortKey, 3, Limit(BatchSize(batchSize)));
    ghost var db0 := store.Contents();
    var snapshot := store.versions;
    summary := Summary(0, 0, 0, 0);
    if |batch| == 0 {
      return;
    }
    assert forall k | 0 <= k < |batch| :: batch[k] in db0.versions;
    for i := 0 to |batch|
      invariant (store.Contents(), summary) == ParseAll(db0, batch[..i], force, EntitiesOf(pv), fetch, now)
    {
      var id := batch[i];
      ghost var prev := ParseAll(db0, batch[..i], force, EntitiesOf(pv), fetch, now);
      var outcome := ParseVersion(store, id, snapshot[id], force, pv, fetch, now);
      summary := Count(summary, outcome);
      ParseAllSnoc(db0, batch, i, force, EntitiesOf(pv), fetch, now);
    }
    assert batch[..|batch|] == batch;
  }

  /** One more turn of the loop: `ParseAll` over one more id is one more `ParseOne` on its result. */
  lemma ParseAllSnoc(db0: Db, ids: seq<Id>, i: nat, force: bool, entitiesOf: Option<string> -> seq<SectionParser.Entity>,
                     fetch: Version -> Fetch, now: Millis)
    requires i < |ids| && forall k | 0 <= k < |ids| :: ids[k] in db0.versions
    ensures var prev := ParseAll(db0, ids[..i], force, entitiesOf, fetch, now);
            var step := ParseOne(prev.0, ids[i], db0.versions[ids[i]], force, entitiesOf, fetch, now);
            ParseAll(db0, ids[..i + 1], force, entitiesOf, fetch, now) == (step.0, Count(prev.1, step.1))
  {
    assert ids[..i + 1][..i] == ids[..i];
  }

  /** The body of the loop for one version. */
  method ParseVersion(store: Store, id: Id, v: Version, force: bool, parserVersion: string,
                      fetch: Version -> Fetch, now: Millis)
    returns (outcome: Outcome)
    modifies store
    ensures (store.Contents(), outcome) == ParseOne(old(store.Contents()), id, v, force, EntitiesOf(parserVersion), fetch, now)
  {
    var claimed := store.ClaimParse(id, ClaimStatuses(force));
    if !claimed {
      return Skipped;
    }
    store.MirrorParseStatus(v.cvId, id, Processing, None);
    match fetch(v)
    case Fetched(text) =>
      var raw := SectionParser.ExtractEntities(text.GetOr(""), parserVersion);
      var deduped := EntityDedup.Deduplicate(raw);
      store.ReplaceEntities(v.cvId, id, ParserDocs(deduped, v.cvId, id, now));
      store.MarkParsed(id, now);
      store.MirrorParseStatus(v.cvId, id, Parsed, Some(now));
      outcome := ParsedOk;
    case Threw(message) =>
      store.MarkParseFailed(id, FailureMessage(message));
      store.MirrorParseStatus(v.cvId, id, ParseFailed, None);
      outcome := Failed;
  }

  // Properties of a run.

  /** Versions outside the batch are left exactly as they were. */
  lemma {:induction false} OutsideBatchUnchanged(db0: Db, ids: seq<Id>, force: bool, entitiesOf: Option<string> -> seq<SectionParser.Entity>, fetch: Version -> Fetch, now: Millis, x: Id)
    requires forall i | 0 <= i < |ids| :: ids[i] in db0.versions
    requires x in db0.versions && x !in ids
    ensures ParseAll(db0, ids, force, entitiesOf, fetch, now).0.versions[x] == db0.versions[x]
    decreases |ids|
  {
    if ids != [] {
      assert x in ids[..|ids| - 1] ==> x in ids;
      OutsideBatchUnchanged(db0, ids[..|ids| - 1], force, entitiesOf, fetch, now, x);
    }
  }

  /**
   * The parse status a version of a batch of distinct ids ends in: parsed or
   * error after a successful claim, depending on whether fetching threw, and
   * the version untouched when the claim fails.
   */
  lemma {:induction false} FinalParseStatus(db0: Db, ids: seq<Id>, force: bool, entitiesOf: Option<string> -> seq<SectionParser.Entity>, fetch: Version -> Fetch, now: Millis, k: nat)
    requires forall i | 0 <= i < |ids| :: ids[i] in db0.versions
    requires forall i, j | 0 <= i < j < |ids| :: ids[i] != ids[j]
    requires k < |ids|
    ensures var v := db0.versions[ids[k]];
            var after := ParseAll(db0, ids, force, entitiesOf, fetch, now).0.versions[ids[k]];
            if v.parse.Some? && v.parse.value in ClaimStatuses(force) then
              after.parse == Some(if fetch(v).Fetched? then Parsed else ParseFailed)
            else after == v
    decreases |ids|
  {
    var init := ids[..|ids| - 1];
    var x := ids[k];
    var before := ParseAll(db0, init, force, entitiesOf, fetch, now);
    if k == |ids| - 1 {
      assert x !in init;
      OutsideBatchUnchanged(db0, init, force, entitiesOf, fetch, now, x);
      assert before.0.versions[x] == db0.versions[x];
    } else {
      FinalParseStatus(db0, init, force, entitiesOf, fetch, now, k);
      assert ids[|ids| - 1] != x;
    }
  }

  /**
   * Run over a batch of distinct ids, a version whose claim succeeds ends with
   * its CV's history entries showing its parse status; their `parsedAt` equals
   * the version's after a parse, and is null after a failure although the
   * version keeps the `parsedAt` of its last successful parse.
   */
  lemma {:induction false} FinalParseMirrored(db0: Db, ids: seq<Id>, force: bool, entitiesOf: Option<string> -> seq<SectionParser.Entity>, fetch: Version -> Fetch, now: Millis, k: nat)
    requires forall i | 0 <= i < |ids| :: ids[i] in db0.versions
    requires forall i, j | 0 <= i < j < |ids| :: ids[i] != ids[j]
    requires k < |ids|
    requires var v := db0.versions[ids[k]];
             v.parse.Some? && v.parse.value in ClaimStatuses(force) && v.cvId in db0.cvs
    ensures var v := db0.versions[ids[k]];
            var after := ParseAll(db0, ids, force, entitiesOf, fetch, now).0;
            var w := after.versions[ids[k]];
            && v.cvId in after.cvs
            && ParseMirrored(after.cvs[v.cvId].history, ids[k], w.parse, if fetch(v).Fetched? then w.parsedAt else None)
            && (fetch(v).Threw? ==> w.parsedAt == v.parsedAt)
    decreases |ids|
  {
    var init := ids[..|ids| - 1];
    var x := ids[k];
    var v := db0.versions[x];
    var before := ParseAll(db0, init, force, entitiesOf, fetch, now).0;
    if k == |ids| - 1 {
      assert x !in init;
      OutsideBatchUnchanged(db0, init, force, entitiesOf, fetch, now, x);
      assert before.versions[x] == v;
    } else {
      FinalParseMirrored(db0, init, force, entitiesOf, fetch, now, k);
      var last := ids[|ids| - 1];
      assert last != x;
      var t := if fetch(v).Fetched? then before.versions[x].parsedAt else None;
      ParseOneKeepsMirror(before, last, db0.versions[last], force, entitiesOf, fetch, now, x, v.cvId, t);
    }
  }

  /** A turn for another version leaves a version, and the mirror of it in a CV's history, as they were. */
  lemma ParseOneKeepsMirror(db: Db, id: Id, v: Version, force: bool, entitiesOf: Option<string> -> seq<SectionParser.Entity>, fetch: Version -> Fetch, now: Millis,
                            x: Id, cvId: Id, parsedAt: Option<Millis>)
    requires x in db.versions && cvId in db.cvs && x != id
    requires ParseMirrored(db.cvs[cvId].history, x, db.versions[x].parse, parsedAt)
    ensures var r := ParseOne(db, id, v, force, entitiesOf, fetch, now).0;
            && x in r.versions && cvId in r.cvs && r.versions[x] == db.versions[x]
            && ParseMirrored(r.cvs[cvId].history, x, r.versions[x].parse, parsedAt)
  {
    var r := ParseOne(db, id, v, force, entitiesOf, fetch, now).0;
    assert KeptOutside(db.cvs[cvId].history, r.cvs[cvId].history, id);
  }

  /**
   * A version without a `parseStatus`, as the upload route creates them, is
   * never changed by a run, forced or not: without `force` it is not selected;
   * with `force` it is selected, but its claim fails and the turn is skipped.
   */
  lemma UnparsedVersionsStayUnparsed(db0: Db, ids: seq<Id>, force: bool, entitiesOf: Option<string> -> seq<SectionParser.Entity>, fetch: Version -> Fetch, now: Millis, x: Id)
    requires forall i | 0 <= i < |ids| :: ids[i] in db0.versions
    requires forall i, j | 0 <= i < j < |ids| :: ids[i] != ids[j]
    requires x in db0.versions && db0.versions[x].parse.None?
    ensures ParseAll(db0, ids, force, entitiesOf, fetch, now).0.versions[x] == db0.versions[x]
    ensures !Selected(db0.versions[x], false) && Selected(db0.versions[x], true)
    ensures ParseOne(db0, x, db0.versions[x], force, entitiesOf, fetch, now).1 == Skipped
  {
    if k :| 0 <= k < |ids| && ids[k] == x {
      FinalParseStatus(db0, ids, force, entitiesOf, fetch, now, k);
    } else {
      OutsideBatchUnchanged(db0, ids, force, entitiesOf, fetch, now, x);
    }
  }

  /** Every stored entity of a (CV, version) pair comes from the parser. */
  ghost predicate OnlyParserEntities(entities: seq<StoredEntity>, cvId: Id, versionId: Id) {
    forall e | e in entities && e.cvId == cvId && e.versionId == versionId :: e.source == FromParser
  }

  /**
   * After a successful parse the version's entities are exactly the parser's
   * documents: manually entered entities of that version are deleted as well.
   */
  lemma ParsedReplacesAll(db: Db, id: Id, v: Version, force: bool, entitiesOf: Option<string> -> seq<SectionParser.Entity>, fetch: Version -> Fetch, now: Millis)
    requires ParseOne(db, id, v, force, entitiesOf, fetch, now).1 == ParsedOk
    ensures var es := ParseOne(db, id, v, force, entitiesOf, fetch, now).0.entities;
            var docs := ParserDocs(entitiesOf(fetch(v).text), v.cvId, id, now);
            (forall e | e in es && e.cvId == v.cvId && e.versionId == id :: e in docs)
            && (forall e | e in docs :: e in es)
            && OnlyParserEntities(es, v.cvId, id)
  {
    var es := ParseOne(db, id, v, force, entitiesOf, fetch, now).0.entities;
    var docs := ParserDocs(entitiesOf(fetch(v).text), v.cvId, id, now);
    var kept := OtherVersions(db.entities, v.cvId, id);
    assert es == kept + docs;
    forall e | e in es && e.cvId == v.cvId && e.versionId == id
      ensures e in docs && e.source == FromParser
    {
      assert e !in kept;
      var j :| 0 <= j < |docs| && docs[j] == e;
    }
  }

  /** A later turn of the loop never brings a manual entity back for a pair that had none. */
  lemma StepKeepsParserOnly(db: Db, id: Id, v: Version, force: bool, entitiesOf: Option<string> -> seq<SectionParser.Entity>, fetch: Version -> Fetch, now: Millis, cvId: Id, versionId: Id)
    requires OnlyParserEntities(db.entities, cvId, versionId)
    ensures OnlyParserEntities(ParseOne(db, id, v, force, entitiesOf, fetch, now).0.entities, cvId, versionId)
  {
    var r := ParseOne(db, id, v, force, entitiesOf, fetch, now);
    if r.1 == ParsedOk {
      var docs := ParserDocs(entitiesOf(fetch(v).text), v.cvId, id, now);
      var kept := OtherVersions(db.entities, v.cvId, id);
      assert r.0.entities == kept + docs;
      forall e | e in docs ensures e.source == FromParser {
        var j :| 0 <= j < |docs| && docs[j] == e;
      }
    }
  }

  /** Once a run has parsed a version, no manual entity of that version is left. */
  lemma {:induction false} ParsedVersionsLoseManualEntities(db0: Db, ids: seq<Id>, force: bool, entitiesOf: Option<string> -> seq<SectionParser.Entity>, fetch: Version -> Fetch, now: Millis, k: nat)
    requires forall i | 0 <= i < |ids| :: ids[i] in db0.versions
    requires k < |ids|
    requires ParseOne(ParseAll(db0, ids[..k], force, entitiesOf, fetch, now).0, ids[k], db0.versions[ids[k]],
                      force, entitiesOf, fetch, now).1 == ParsedOk
    ensures OnlyParserEntities(ParseAll(db0, ids, force, entitiesOf, fetch, now).0.entities, db0.versions[ids[k]].cvId, ids[k])
    decreases |ids|
  {
    var v := db0.versions[ids[k]];
    if k == |ids| - 1 {
      assert ids[..k] == ids[..|ids| - 1];
      ParsedReplacesAll(ParseAll(db0, ids[..k], force, entitiesOf, fetch, now).0, ids[k], v, force, entitiesOf, fetch, now);
    } else {
      var init := ids[..|ids| - 1];
      assert init[..k] == ids[..k] && init[k] == ids[k];
      ParsedVersionsLoseManualEntities(db0, init, force, entitiesOf, fetch, now, k);
      var last := ids[|ids| - 1];
      StepKeepsParserOnly(ParseAll(db0, init, force, entitiesOf, fetch, now).0, last, db0.versions[last],
                          force, entitiesOf, fetch, now, v.cvId, ids[k]);
    }
  }
}
