# cvsearch — a verified model of the CV platform's core

cvsearch stores consultants' CVs. A web application accepts uploads, keeps one
document per CV with a history of uploaded versions, and lets recruiters search,
filter and export them. Background jobs scan new versions for viruses, parse
them into entities (summary, education, experience, skills, languages,
certifications) and enforce the retention policy.

This project models that core in Dafny and proves properties of the model.

- **Worker jobs.** The parse job (`ParseJob`, with `SectionParser`, `EntityDedup`
  and `Embedding` for `extractEntities`, `deduplicateEntities` and
  `computeEmbedding`), the virus-scan job (`VirusScan`) and the data-retention
  job (`DataRetention`). Each job is a method over a `DocStore.Store` object that
  holds the three collections (`cv_versions`, `cvs`, `cv_entities`) as maps and
  sequences. Each is proved equal to a fold function over the selected batch.
  Lemmas about that fold state what the job promises and what it does as
  written.
- **Upload route** (`UploadRoute`). `POST /api/cvs`: metadata normalisation,
  object keys, the duplicate check by checksum, settling on a CV document and the
  status decision (200, 409 or 500).
- **Server libraries.** Rate limiting (`RateLimit`, a class over a map),
  consultant consent (`Consent`), search filters and the Mongo match stage
  (`Search`), saved-search normalisation (`SavedSearches`), taxonomy slugs and
  synonyms (`Slugs`, `Taxonomy`), CSV/HTML export and JSON escaping (`Export`),
  locale resolution and translation (`I18nConfig`, `I18nServer`), route
  authorisation (`Authorize`) and the document-access guard (`Privacy`).
- **Client components.** The filter panel (`FilterPanel`), the saved-search
  builder (`SearchBuilder`), the search page's form and URL parameters
  (`SearchClient`) and the upload form (`UploadForm`).

Shared pieces: `Common` holds `Option` and `Maybe`, the latter for fields where
`undefined` and `null` differ. `Text` holds the JavaScript string operations:
`trim`, ASCII `toLowerCase`, `split`, `join`, regex run replacement, comma lists
and decimal rendering. `CvDocs` holds the shapes of a CV document.

The clock, the S3 client, the antivirus engine, the text extractor and any
thrown exception are parameters of the model. Each is a function value or an
explicit outcome passed in by the caller. Times are integer milliseconds.
Confidences are integer hundredths.

## Model

| member | source | states |
|---|---|---|
| Embedding.HashIsPolynomialMod | apps/worker/src/jobs/parse-cv.ts:59-65 | the 32-bit truncating rolling hash equals the token's base-31 value modulo 2^32 |
| Embedding.HashToken | apps/worker/src/jobs/parse-cv.ts:59-65 | the hash loop computes `Hash(token)`, which is below 2^32 |
| Embedding.Tokens | apps/worker/src/jobs/parse-cv.ts:69-73 | every token is longer than one character and made only of `[a-z0-9+]` |
| Embedding.LongerThanOne | apps/worker/src/jobs/parse-cv.ts:73 | the kept tokens are the input tokens longer than one character |
| Embedding.NoSpaceIsTrimmed | apps/worker/src/jobs/parse-cv.ts:72 | a token of class characters is unchanged by `trim`, so the `map(trim)` step is the identity |
| Embedding.CountsStep | apps/worker/src/jobs/parse-cv.ts:75-78 | one more token adds one to its own slot and leaves every other slot alone |
| Embedding.CountsSumToTokenCount | apps/worker/src/jobs/parse-cv.ts:75-78 | the 256 slot counts add up to the number of tokens |
| Embedding.ZeroVectorIffNoTokens | apps/worker/src/jobs/parse-cv.ts:80-84 | the count vector is all zeros (returned unnormalised) exactly when the text has no token |
| Embedding.CountTokens | apps/worker/src/jobs/parse-cv.ts:67-79 | the counting loop yields a vector of 256 entries equal to the counts of the text's tokens |
| Embedding.CountSlots | apps/worker/src/jobs/parse-cv.ts:75-78 | the loop over tokens yields their count vector |
| SectionParser.NormalizeLine | apps/worker/src/jobs/parse-cv.ts:143-145 | the line is trimmed, has no two white-space or bullet characters side by side, and keeps every other character of the input in order |
| SectionParser.NormalizeIdempotent | apps/worker/src/jobs/parse-cv.ts:143-145 | normalising a normalised line changes nothing |
| SectionParser.Lines | apps/worker/src/jobs/parse-cv.ts:164-167 | every line kept is non-empty and normalised |
| SectionParser.DropTrailingColons | apps/worker/src/jobs/parse-cv.ts:148 | the result has no trailing colon and is a prefix of the input followed only by colons |
| SectionParser.DetectSectionIff | apps/worker/src/jobs/parse-cv.ts:147-155 | a line opens section `t` exactly when its lower-cased, colon-stripped, trimmed text is an alias of `t` |
| SectionParser.FirstSectionIff | apps/worker/src/jobs/parse-cv.ts:131-141 | searching the alias table in order finds `t` exactly when the text is one of `t`'s aliases |
| SectionParser.AliasesDisjoint | apps/worker/src/jobs/parse-cv.ts:131-141 | no alias belongs to two sections, so the search order never decides |
| SectionParser.DetectSectionExample | apps/worker/src/jobs/parse-cv.ts:147-155 | "Work Experience:" opens the experience section |
| SectionParser.Buffers.Push | apps/worker/src/jobs/parse-cv.ts:180-182 | the line is appended to the buffer of its section and every other buffer is unchanged |
| SectionParser.RouteLines | apps/worker/src/jobs/parse-cv.ts:163-183 | the routing loop ends with the buffers of `Routed`, the fold that starts in the summary |
| SectionParser.RoutedPartitionsContent | apps/worker/src/jobs/parse-cv.ts:169-183 | the buffers together hold exactly the non-heading lines, counted with multiplicity |
| SectionParser.HeadingsNotStored | apps/worker/src/jobs/parse-cv.ts:170-174 | no heading line is stored as content |
| SectionParser.NoHeadingMeansSummary | apps/worker/src/jobs/parse-cv.ts:163 | with no heading, every line goes to the summary |
| SectionParser.HeadingCollectsBody | apps/worker/src/jobs/parse-cv.ts:169-183 | the lines after a heading, up to the next heading, are appended to that heading's section in order |
| SectionParser.RoutedLast | apps/worker/src/jobs/parse-cv.ts:169-183 | one more line either switches the current section (a heading) or is pushed onto the current one |
| SectionParser.Parts | apps/worker/src/jobs/parse-cv.ts:207 | the parts of a split are trimmed and non-empty |
| SectionParser.SummaryEntities | apps/worker/src/jobs/parse-cv.ts:187-203 | no summary lines give no entity, otherwise one entity "Summary" at 0.60 holding the lines joined by " \n " |
| SectionParser.EducationFrom | apps/worker/src/jobs/parse-cv.ts:205-224 | the first part is the label at 0.85, the other parts joined by " - " are the details, and a line with no part is its own label at 0.70 |
| SectionParser.ExperienceFrom | apps/worker/src/jobs/parse-cv.ts:226-245 | the first part is the role at 0.80, the other parts joined by " - " are the employer, and a line with no part is its own label at 0.65 with no employer |
| SectionParser.RoleAtEmployer | apps/worker/src/jobs/parse-cv.ts:228-230 | a line `role at employer - years` whose pieces hold no separator is the role at 0.80 with employer `employer - years` |
| SectionParser.ExperienceExample | apps/worker/src/jobs/parse-cv.ts:226-245 | "Senior Engineer at Acme - 2018-2022" is the role "Senior Engineer" at 0.80 with employer "Acme - 2018-2022" |
| SectionParser.SkillListParts | apps/worker/src/jobs/parse-cv.ts:250-253 | splitting a ", "-joined list of trimmed, separator-free skills, trimming and dropping empties gives the list back |
| SectionParser.SkillLine | apps/worker/src/jobs/parse-cv.ts:247-271 | a skills line that joins such skills with ", " gives one skill entity per skill, in order, at 0.75 |
| SectionParser.SkillExample | apps/worker/src/jobs/parse-cv.ts:247-271 | "Go, Rust, Kubernetes" gives the skills Go, Rust and Kubernetes at 0.75 |
| SectionParser.ItemEntities | apps/worker/src/jobs/parse-cv.ts:257-271 | one entity per item, in order, each labelled with its item and embedded on it |
| SectionParser.LanguageLineEntities | apps/worker/src/jobs/parse-cv.ts:276-313 | a line with items gives one 0.70 entity per item, and a line without items gives the whole line at 0.60 |
| SectionParser.ExtractEntities | apps/worker/src/jobs/parse-cv.ts:157-333 | the method's entities are those of `Extracted(text)`: the routed sections' entities in table order |
| SectionParser.EmitSkills | apps/worker/src/jobs/parse-cv.ts:247-273 | the skill loop emits the skill entities of the section, skipping lines without items |
| SectionParser.EmitLanguages | apps/worker/src/jobs/parse-cv.ts:275-313 | the language loop emits the language entities of the section |
| SectionParser.ExtractedWellFormed | apps/worker/src/jobs/parse-cv.ts:157-333 | every extracted entity carries the parser version and a confidence its kind allows, and kinds come in section order |
| SectionParser.UnsplitLine | apps/worker/src/jobs/parse-cv.ts:207 | a trimmed, non-empty line with no separator is its own single part |
| SectionParser.ExperienceWithoutSeparator | apps/worker/src/jobs/parse-cv.ts:228-234 | an experience line with no separator becomes a role at 0.80 with no employer |
| SectionParser.EducationWithoutSeparator | apps/worker/src/jobs/parse-cv.ts:207-213 | an education line with no separator becomes an institution at 0.85 whose details repeat the line |
| EntityDedup.KeyTextInjective | apps/worker/src/jobs/parse-cv.ts:339 | the key string `type:label` determines the kind and the lower-cased label |
| EntityDedup.Best | apps/worker/src/jobs/parse-cv.ts:338-344 | the entity held for a key is an input entity of that key |
| EntityDedup.BestSomeIff | apps/worker/src/jobs/parse-cv.ts:338-344 | a key is held exactly when some input entity has it |
| EntityDedup.Deduplicate | apps/worker/src/jobs/parse-cv.ts:335-347 | the map-filling loop returns `Deduplicated(entities)` |
| EntityDedup.Scan | apps/worker/src/jobs/parse-cv.ts:336-344 | the map holds the best entity of every key seen, and its insertion order is the first-seen order of the keys |
| EntityDedup.DeduplicatedKeys | apps/worker/src/jobs/parse-cv.ts:346 | the result has one entity per distinct key, in first-seen order, and covers every input key |
| EntityDedup.DeduplicatedFromInput | apps/worker/src/jobs/parse-cv.ts:346 | every kept entity is an input entity, unchanged |
| EntityDedup.BestIsMaximal | apps/worker/src/jobs/parse-cv.ts:341-343 | the kept entity has the highest confidence among the entities of its key |
| EntityDedup.BestIsFirstMaximal | apps/worker/src/jobs/parse-cv.ts:341 | among equally confident entities the first one wins, because replacement needs `<` |
| EntityDedup.BestOfUniqueKey | apps/worker/src/jobs/parse-cv.ts:341-343 | an entity whose key no other entity has is kept |
| EntityDedup.DeduplicateIdempotent | apps/worker/src/jobs/parse-cv.ts:335-347 | deduplicating twice is deduplicating once |
| ParseJob.BatchSize | apps/worker/src/jobs/parse-cv.ts:350 | the batch size is 10 by default and is clamped to 1..50 |
| ParseJob.ClaimStatuses | apps/worker/src/jobs/parse-cv.ts:390 | a claim accepts pending and error, and also parsed exactly when forced, never processing |
| ParseJob.SortKey | apps/worker/src/jobs/parse-cv.ts:381 | the sort key orders by `parsedAt`, missing first, then by `createdAt` |
| ParseJob.ParserDocs | apps/worker/src/jobs/parse-cv.ts:428-438 | one stored document per entity, on the version's CV and version, with source "parser" |
| ParseJob.ParseOne | apps/worker/src/jobs/parse-cv.ts:389-485 | a turn is skipped exactly when the claim fails, then nothing changes; otherwise it ends parsed (with `parsedAt` now) exactly when the fetch succeeds, else error with `parsedAt` kept; the CV's history entries of the version get the same status, with `parsedAt` now after a parse and null after a failure; other versions and other history entries are untouched |
| ParseJob.ParseAll | apps/worker/src/jobs/parse-cv.ts:389-485 | processed plus skipped is the batch size, and parsed plus failed is processed |
| ParseJob.RunParseJob | apps/worker/src/jobs/parse-cv.ts:349-491 | the batch is the selected, sorted and limited versions, and the store and summary end as `ParseAll` over it |
| ParseJob.ParseVersion | apps/worker/src/jobs/parse-cv.ts:390-484 | the loop body changes the store and returns the outcome exactly as `ParseOne` |
| ParseJob.OutsideBatchUnchanged | apps/worker/src/jobs/parse-cv.ts:379-389 | a version outside the batch is left as it was |
| ParseJob.FinalParseStatus | apps/worker/src/jobs/parse-cv.ts:391-474 | with distinct ids, each batch version ends parsed, error or unchanged according to its claim and fetch |
| ParseJob.FinalParseMirrored | apps/worker/src/jobs/parse-cv.ts:403-471 | with distinct ids, every claimed version ends with its CV's history entries showing its parse status; their `parsedAt` equals the version's after a parse and is null after a failure, while the version keeps its earlier `parsedAt` |
| ParseJob.UnparsedVersionsStayUnparsed | apps/worker/src/jobs/parse-cv.ts:375-377 | a version with no `parseStatus` is not selected without `force`; with `force` it is selected but its claim fails, so a run never changes it |
| ParseJob.ParsedReplacesAll | apps/worker/src/jobs/parse-cv.ts:426-438 | after a successful parse the version's entities are exactly the parser documents; manual ones are deleted |
| ParseJob.StepKeepsParserOnly | apps/worker/src/jobs/parse-cv.ts:426-438 | a later turn never brings a manual entity back to a version that had none |
| ParseJob.ParsedVersionsLoseManualEntities | apps/worker/src/jobs/parse-cv.ts:426 | once a run has parsed a version, no manual entity of it is left at the end of the run |
| DocStore.MirrorParse | apps/worker/src/jobs/parse-cv.ts:446-455 | the history entries of the version get the new parse status and time; others are unchanged |
| DocStore.MirrorScan | apps/worker/src/jobs/virus-scan.ts:120-131 | the history entries of the version get the new scan status and time; others are unchanged |
| DocStore.OtherVersions | apps/worker/src/jobs/parse-cv.ts:426 | `deleteMany({cvId, versionId})` keeps exactly the entities of other pairs |
| DocStore.Limit | apps/worker/src/jobs/virus-scan.ts:66 | `limit(0)` is no limit, and a negative limit acts as its absolute value |
| DocStore.CvWithEmail | apps/web/app/api/cvs/route.ts:219-224 | the CV found by e-mail has that address, and none is found only when no CV has it |
| DocStore.Store.FindVersions | apps/worker/src/jobs/parse-cv.ts:379-383 | `find().sort().limit()` returns matching versions, sorted by the key, limited, taking the least keys |
| DocStore.Store.ClaimParse | apps/worker/src/jobs/parse-cv.ts:391-395 | the claim succeeds exactly when the status is allowed, and then sets processing and clears the error |
| DocStore.Store.MarkParsed | apps/worker/src/jobs/parse-cv.ts:442-445 | sets parsed, the parse time and no error, changing nothing else |
| DocStore.Store.MarkParseFailed | apps/worker/src/jobs/parse-cv.ts:460-463 | sets error and the message and keeps `parsedAt` |
| DocStore.Store.MirrorParseStatus | apps/worker/src/jobs/parse-cv.ts:404-413 | the CV's history mirrors the parse status; nothing else changes |
| DocStore.Store.ReplaceEntities | apps/worker/src/jobs/parse-cv.ts:426-439 | the entities become the other pairs' entities followed by the new documents |
| DocStore.Store.QueueIfPending | apps/worker/src/jobs/virus-scan.ts:76-90 | the update modifies exactly a pending version, which becomes queued with its time set and message cleared |
| DocStore.Store.StartScanning | apps/worker/src/jobs/virus-scan.ts:97-104 | the update modifies exactly a queued or pending version, which becomes scanning |
| DocStore.Store.FinishScan | apps/worker/src/jobs/virus-scan.ts:109-118 | records the verdict, the time and the message |
| DocStore.Store.MirrorScanStatus | apps/worker/src/jobs/virus-scan.ts:120-131 | the CV's history mirrors the scan status and time |
| DocStore.Store.FailScan | apps/worker/src/jobs/virus-scan.ts:141-149 | sets the error status and message and keeps the scan time |
| DocStore.Store.SetRetention | apps/worker/src/jobs/data-retention.ts:117-124 | writes the retention state and reports a modification exactly when it differs |
| DocStore.Store.HasChecksum | apps/web/app/api/cvs/route.ts:297 | found exactly when some version has the checksum |
| DocStore.Store.FindCvByEmail | apps/web/app/api/cvs/route.ts:220 | returns the CV `findOne` picks by e-mail |
| DocStore.Store.InsertCv | apps/web/app/api/cvs/route.ts:237-238 | inserts the CV under a fresh id, changing nothing else |
| DocStore.Store.InsertVersion | apps/web/app/api/cvs/route.ts:351-352 | inserts the version under a fresh id, changing nothing else |
| DocStore.Store.RecordUpload | apps/web/app/api/cvs/route.ts:366-382 | sets the profile, the latest version and `updatedAt`, and appends the history entry |
| CvDocs.StatusNameInjective | apps/web/app/api/cvs/route.ts:43 | the four availability statuses are stored under distinct names |
| VirusScan.StatusOf | apps/worker/src/jobs/virus-scan.ts:26-29 | a verdict is stored as clean, infected or error |
| VirusScan.StubScan | apps/worker/src/jobs/virus-scan.ts:31-38 | the shipped engine reports every file clean, with a message |
| VirusScan.SortKey | apps/worker/src/jobs/virus-scan.ts:65 | versions are taken oldest first by `createdAt` |
| VirusScan.BatchLimit | apps/worker/src/jobs/virus-scan.ts:45 | the limit is 10 by default, the requested value unclamped, and 0 means no limit |
| VirusScan.ScanOne | apps/worker/src/jobs/virus-scan.ts:71-152 | a lost queue or scan claim writes nothing; a scan records clean, infected or error on the version, and the CV's history entries of that version get the same status and scan time; a thrown error leaves the CVs alone; other versions and other history entries are untouched |
| VirusScan.ScanAll | apps/worker/src/jobs/virus-scan.ts:71-153 | queued, scanned and errors are each bounded by the batch, and clean plus infected is at most scanned |
| VirusScan.RunVirusScanJob | apps/worker/src/jobs/virus-scan.ts:44-159 | the batch is the selected, sorted and limited versions, the store ends as `ScanAll` over it, and `processed` is the batch size |
| VirusScan.ScanNext | apps/worker/src/jobs/virus-scan.ts:71-153 | one turn keeps the store and counters equal to the fold over one more version |
| VirusScan.ScanVersion | apps/worker/src/jobs/virus-scan.ts:72-152 | the loop body acts on the store exactly as `ScanOne` |
| VirusScan.OutsideBatchUnchanged | apps/worker/src/jobs/virus-scan.ts:63-71 | a version outside the batch is left as it was |
| VirusScan.FinalScanStatus | apps/worker/src/jobs/virus-scan.ts:75-149 | with distinct selected ids, each version ends with the status its engine attempt gives, or error |
| VirusScan.FinalScanMirrored | apps/worker/src/jobs/virus-scan.ts:106-131 | with distinct selected ids, every version the engine reported on ends with its CV's history entries showing the version's status and scan time |
| VirusScan.ScanOneCompletes | apps/worker/src/jobs/virus-scan.ts:75-104 | a version still in its selected status is always claimed and ends scanned or errored |
| VirusScan.EveryVersionFinishes | apps/worker/src/jobs/virus-scan.ts:69-153 | run alone over distinct selected versions, scanned plus errors is the batch size |
| VirusScan.StubFindsOnlyClean | apps/worker/src/jobs/virus-scan.ts:31-38 | with the shipped engine nothing is infected and nothing errors |
| VirusScan.ErrorLeavesHistory | apps/worker/src/jobs/virus-scan.ts:139-149 | on the error path the CV's history is not updated and keeps its earlier status |
| DataRetention.WarningThreshold | apps/worker/src/jobs/data-retention.ts:73 | the warning threshold lies `warningDays` days before now |
| DataRetention.PurgeThreshold | apps/worker/src/jobs/data-retention.ts:74 | the purge threshold lies `purgeDays` days before now |
| DataRetention.LastUpdated | apps/worker/src/jobs/data-retention.ts:96 | the last update is `updatedAt`, else `createdAt` |
| DataRetention.PurgeSchedule | apps/worker/src/jobs/data-retention.ts:44-46 | the purge is scheduled `purgeDays` days after the last update |
| DataRetention.ActiveState | apps/worker/src/jobs/data-retention.ts:48-57 | the active state has every time and the reason cleared |
| DataRetention.PurgeState | apps/worker/src/jobs/data-retention.ts:107-115 | purged now for the retention policy, keeping earlier flag, warning and schedule times, else scheduling from the last update |
| DataRetention.FlagState | apps/worker/src/jobs/data-retention.ts:142-149 | flagged, scheduled from the last update, keeping earlier flag and warning times, else now |
| DataRetention.Decide | apps/worker/src/jobs/data-retention.ts:94-187 | a legal hold skips the record; otherwise a purge, a flag or a restore according to the thresholds, with the counter each adds to |
| DataRetention.Bump | apps/worker/src/jobs/data-retention.ts:94-181 | processed and exactly the chosen counter go up by one |
| DataRetention.SummaryOfCounts | apps/worker/src/jobs/data-retention.ts:87-188 | visiting distinct records in any order counts each record under its own counter |
| DataRetention.RunDataRetentionJob | apps/worker/src/jobs/data-retention.ts:59-194 | every CV ends as its own decision applied, versions and entities are untouched, and the summary counts every record |
| DataRetention.SweepNext | apps/worker/src/jobs/data-retention.ts:87-188 | one turn of the cursor keeps the sweep invariant for one more record |
| DataRetention.SweepRecord | apps/worker/src/jobs/data-retention.ts:89-187 | the loop body writes the decided state to that one record and returns its counter |
| DataRetention.Swept | apps/worker/src/jobs/data-retention.ts:87-188 | every record after its own decision, with the same keys |
| DataRetention.FlagRerunWritesNothing | apps/worker/src/jobs/data-retention.ts:135-141 | a later run that finds the record in the warning window again writes and counts nothing |
| DataRetention.PurgeRerunRewritesPurgedAt | apps/worker/src/jobs/data-retention.ts:106-128 | a later run at a different time rewrites `purgedAt` of an already purged record, keeps the rest of its state and counts it as purged again |
| DataRetention.PurgeRerunSameTime | apps/worker/src/jobs/data-retention.ts:106-128 | a rerun at the same time writes the same state and counts nothing |
| DataRetention.RestoreAfterUpdate | apps/worker/src/jobs/data-retention.ts:168-181 | a purged or flagged record that is fresh again is restored to the active state |
| UploadRoute.Slugify | apps/web/app/api/cvs/route.ts:87-93 | the slug is lower-case `[a-z0-9]` words joined by single hyphens |
| UploadRoute.SlugifyIdempotent | apps/web/app/api/cvs/route.ts:87-93 | slugifying a slug changes nothing |
| UploadRoute.SanitizeFilename | apps/web/app/api/cvs/route.ts:95-97 | the stored name has only characters of `[a-zA-Z0-9._-]` |
| UploadRoute.SanitizeFilenameRun | apps/web/app/api/cvs/route.ts:95-97 | a maximal run of disallowed characters becomes one "-" and the allowed text on either side is sanitised on its own |
| UploadRoute.SanitizeFilenameKeepsAllowed | apps/web/app/api/cvs/route.ts:95-97 | an allowed name is kept, so sanitising is idempotent |
| UploadRoute.OrDefault | apps/web/app/api/cvs/route.ts:311-312 | `value \|\| fallback` is never empty when the fallback is not |
| UploadRoute.ObjectKeySegments | apps/web/app/api/cvs/route.ts:311-313 | the object key splits on `/` into "cvs", the consultant slug and `timestamp-file` |
| UploadRoute.TrimOrNull | apps/web/app/api/cvs/route.ts:137-141 | a missing or empty string gives null, any other its trimmed form |
| UploadRoute.TrimmedList | apps/web/app/api/cvs/route.ts:142-144 | every kept entry is non-empty and trimmed, and every entry that trims to non-empty is kept |
| UploadRoute.TrimmedListAppend | apps/web/app/api/cvs/route.ts:142-144 | the list of a concatenation is the concatenation of the lists: the filter keeps input order |
| UploadRoute.TrimmedListSingle | apps/web/app/api/cvs/route.ts:142-144 | one entry gives its trimmed form, or nothing when that is empty |
| UploadRoute.NormalizeMetadata | apps/web/app/api/cvs/route.ts:134-199 | every consultant, skill, availability, tag and note field is trimmed as the route does; the status defaults to unknown, the availability notes are trimmed or null and `availableFrom` is passed through |
| UploadRoute.TrimmedOptionalNeverEmpty | apps/web/app/api/cvs/route.ts:137-141 | a trimmed optional value is stored as null only when empty |
| UploadRoute.BlankIsStoredEmpty | apps/web/app/api/cvs/route.ts:137 | a blank string is truthy and is stored as "" rather than null |
| UploadRoute.NewCv | apps/web/app/api/cvs/route.ts:226-235 | a new CV has the profile, an empty history and both times now |
| UploadRoute.EnsureCv | apps/web/app/api/cvs/route.ts:208-239 | an existing CV named by id wins, then one found by e-mail, else a new CV is inserted |
| UploadRoute.NewVersion | apps/web/app/api/cvs/route.ts:335-349 | the stored version is pending virus scan, unparsed, on the CV, with the file's checksum |
| UploadRoute.Summary | apps/web/app/api/cvs/route.ts:354-364 | the history entry names the version with its pending scan status |
| UploadRoute.Recorded | apps/web/app/api/cvs/route.ts:366-382 | only the settled CV changes: its profile is set and the entry is appended |
| UploadRoute.Commit | apps/web/app/api/cvs/route.ts:311-396 | a stored file adds one pending version recorded in the CV's history; a failure errors the file |
| UploadRoute.UploadOne | apps/web/app/api/cvs/route.ts:292-397 | the result names the file; a duplicate writes nothing; a settled CV stays settled |
| UploadRoute.Decide | apps/web/app/api/cvs/route.ts:399-427 | 409 exactly when no CV was settled and all files were duplicates, 500 exactly when all failed, else 200 with `hasStored` |
| UploadRoute.ResultsFollowFiles | apps/web/app/api/cvs/route.ts:292-397 | the results name the files in order |
| UploadRoute.DuplicatesWriteNothing | apps/web/app/api/cvs/route.ts:297-305 | a batch of duplicates writes nothing and settles no CV |
| UploadRoute.ConflictIffAllDuplicates | apps/web/app/api/cvs/route.ts:400-411 | a batch is answered 409 exactly when every file was a duplicate, and then nothing was written |
| UploadRoute.ServerErrorIffAllErrors | apps/web/app/api/cvs/route.ts:401-421 | a batch is answered 500 exactly when every file failed |
| UploadRoute.StoredVersionsPending | apps/web/app/api/cvs/route.ts:335-382 | every stored file's version is pending, unparsed and recorded in the settled CV's history |
| UploadRoute.FreshUploadsNeverClaimed | apps/web/app/api/cvs/route.ts:335-349 | a newly uploaded version has no parse status: the unforced parse job never selects it, and the forced one selects it but can never claim it |
| UploadRoute.EnsureCvDocument | apps/web/app/api/cvs/route.ts:208-239 | the method acts on the store as `EnsureCv` |
| UploadRoute.UploadFile | apps/web/app/api/cvs/route.ts:293-396 | the loop body acts on the store as `UploadOne` |
| UploadRoute.Post | apps/web/app/api/cvs/route.ts:241-432 | the route acts on the store and answers as `PostUpload` |
| RateLimit.Step | apps/web/lib/rate-limit.ts:19-37 | a missing or expired entry restarts the window with count 1; a full window refuses with nothing left; otherwise the call is counted and `remaining` is what is left |
| RateLimit.StepAllowedIff | apps/web/lib/rate-limit.ts:23-31 | a call is refused exactly when the entry is live and its count has reached the limit |
| RateLimit.StepCountsOne | apps/web/lib/rate-limit.ts:33-36 | an allowed call in a live window adds one to the count and keeps the reset time |
| RateLimit.StepKeepsBound | apps/web/lib/rate-limit.ts:23-36 | with a limit of at least one, stored counts stay between 1 and the limit and `remaining` is never negative |
| RateLimit.LiveWindowAllows | apps/web/lib/rate-limit.ts:29-36 | calls inside a live window are allowed at most up to what the window has left |
| RateLimit.AtMostLimitPerWindow | apps/web/lib/rate-limit.ts:19-37 | a call that opens a window plus the calls before it closes are allowed at most `limit` times |
| RateLimit.Limiter.constructor | apps/web/lib/rate-limit.ts:17 | the store starts empty |
| RateLimit.Limiter.CheckRateLimit | apps/web/lib/rate-limit.ts:19-37 | the key's entry and the verdict are one `Step`, every other key is unchanged, and the bound is kept |
| Consent.DefaultConsent | apps/web/lib/consultants/consent.ts:42-69 | a new record is pending, with one pending history entry, an inactive legal hold and everything else null |
| Consent.Spread | apps/web/lib/consultants/consent.ts:136-139 | an object spread keeps the stored field when the update leaves it undefined, and otherwise takes the update's value or null |
| Consent.SanitizeLanguagePreference | apps/web/lib/consultants/consent.ts:80-87 | null exactly when the value is missing or blank, otherwise its trimmed, non-empty text |
| Consent.SanitizeIdempotent | apps/web/lib/consultants/consent.ts:80-87 | sanitising twice is sanitising once |
| Consent.BuildHistoryEntry | apps/web/lib/consultants/consent.ts:102-116 | the entry carries the status, note, policy version and time, and an actor exactly when one was given |
| Consent.KeepLast | apps/web/lib/consultants/consent.ts:210 | `$slice: -n` keeps the last `n` entries, or all of them when there are fewer |
| Consent.PushCapped | apps/web/lib/consultants/consent.ts:207-212 | the entry is appended last and the oldest entries are dropped beyond 50 |
| Consent.MergeLegalHold | apps/web/lib/consultants/consent.ts:118-152 | no patch keeps the hold; a patch spreads over the stored hold, a changed `active` restamps time and actor, and a given `reason` is taken or nulled |
| Consent.MergeKeepsStamps | apps/web/lib/consultants/consent.ts:141-145 | a patch that leaves `active`, `setAt` and `setBy` undefined keeps the earlier stamps |
| Consent.UpdatedFields | apps/web/lib/consultants/consent.ts:162-193 | status, note, policy version and language preference follow the input when given and are kept otherwise; the time, actor and legal hold are set |
| Consent.UpdatedTimestamps | apps/web/lib/consultants/consent.ts:180-188 | granting sets `consentedAt` and clears `revokedAt`, revoking sets `revokedAt` and keeps `consentedAt`, pending clears both |
| Consent.UpdatedHistory | apps/web/lib/consultants/consent.ts:199-213 | history grows by one capped entry exactly when the status, note or policy version changes |
| Consent.RepeatedUpdateAddsNoHistory | apps/web/lib/consultants/consent.ts:89-100 | applying the same update again adds no history entry |
| Consent.UpdateKeepsHistoryCapped | apps/web/lib/consultants/consent.ts:207-212 | a history of at most 50 entries stays at most 50 |
| Consent.BuildUpdate | apps/web/lib/consultants/consent.ts:162-213 | the method that assembles `$set` and `$push` yields the record `Updated` describes |
| Consent.ConsentStore.constructor | apps/web/lib/consultants/consent.ts:42-78 | the store starts with no consent record and the given CVs |
| Consent.ConsentStore.Ensure | apps/web/lib/consultants/consent.ts:71-78 | the stored record is returned, or a default one is inserted and returned |
| Consent.ConsentStore.UpdateConsultantConsent | apps/web/lib/consultants/consent.ts:154-237 | the record becomes `Updated` of the ensured record; the CV's language preference and time change exactly when the input gives a preference |
| Authorize.Missing | apps/web/lib/auth/authorize.ts:33 | the missing permissions are exactly the required ones the user lacks |
| Authorize.Authorize | apps/web/lib/auth/authorize.ts:13-40 | no session gives 401, and the handler runs only on the session |
| Authorize.AuthorizeIffAllowed | apps/web/lib/auth/authorize.ts:19-39 | the handler runs exactly when the role and permission checks pass, and a signed-in user who fails them gets 403 |
| Authorize.EmptyOptionsAllowAll | apps/web/lib/auth/authorize.ts:26-37 | an empty list of roles or permissions restricts nothing |
| Authorize.MorePermissionsKeepAccess | apps/web/lib/auth/authorize.ts:32-37 | granting more permissions never removes access |
| Privacy.ClientIp | apps/web/app/api/middleware/privacy.ts:58-68 | the first non-empty trimmed entry of `x-forwarded-for`, else the runtime address |
| Privacy.ClientIpFromHeader | apps/web/app/api/middleware/privacy.ts:58-65 | an address taken from the header is non-empty, trimmed, free of commas and one of the header's entries |
| Privacy.EventType | apps/web/app/api/middleware/privacy.ts:71 | the event is `document_download` exactly for downloads |
| Privacy.PolicyVersion | apps/web/app/api/middleware/privacy.ts:154 | the option's policy version wins, then the consent's, then the environment's |
| Privacy.GuardDocumentAccess | apps/web/app/api/middleware/privacy.ts:99-189 | 401 exactly without a session, 400 exactly for an invalid consultant id, 451 exactly when consent is required and not granted, otherwise the access context |
| Privacy.ConsentGate | apps/web/app/api/middleware/privacy.ts:153-157 | when consent is required, access is granted exactly when the consent is granted |
| Privacy.ExplicitOptOut | apps/web/app/api/middleware/privacy.ts:153 | `requireConsent: false` grants access whatever the consent and the environment say |
| Privacy.Outcome | apps/web/app/api/middleware/privacy.ts:94 | authorized on success, denied with a reason, error otherwise |
| Privacy.LogAccess | apps/web/app/api/middleware/privacy.ts:70-97 | the audit event has the action's type, the success flag, the derived outcome and the context's policy version |
| Privacy.FinalizeDocumentAccess | apps/web/app/api/middleware/privacy.ts:191-203 | a successful response logs authorized; a failed one logs an error naming the status |
| Privacy.RecordDocumentAccessFailure | apps/web/app/api/middleware/privacy.ts:205-218 | a failure is logged as denied for `internal_error` |
| Search.GetAll | apps/web/lib/cv/search.ts:54 | `getAll` returns exactly the values of the pairs with that name |
| Search.EscapeRegex | apps/web/lib/cv/search.ts:32-34 | escaping never shortens and leaves text without special characters unchanged |
| Search.EscapeRegexLiteral | apps/web/lib/cv/search.ts:32-34 | the escaped pattern is a literal and unescapes to the input |
| Search.CreateExactMatchRegex | apps/web/lib/cv/search.ts:36-38 | the anchored, case-insensitive pattern matches a text exactly when it equals the value ignoring case |
| Search.CommaLists | apps/web/lib/cv/search.ts:42-47 | the parts are trimmed, non-empty and comma-free |
| Search.NormalizeFilterValues | apps/web/lib/cv/search.ts:40-49 | the result is duplicate-free and holds exactly the parts of the comma lists |
| Search.NormalizeFilterValuesFixpoint | apps/web/lib/cv/search.ts:40-49 | a duplicate-free list of clean values is unchanged |
| Search.NormalizeFilterValuesIdempotent | apps/web/lib/cv/search.ts:40-49 | normalising twice is normalising once |
| Search.NormalizeFilterValuesPrefix | apps/web/lib/cv/search.ts:48 | the first occurrence wins, so the result of a prefix is a prefix of the result |
| Search.IfAny | apps/web/lib/cv/search.ts:55-57 | an empty list leaves the filter unset, any other list is set |
| Search.FieldFrom | apps/web/lib/cv/search.ts:54-57 | a filter read from the query is well formed |
| Search.FieldPresence | apps/web/lib/cv/search.ts:54-57 | a filter is set exactly when its parameters hold a non-empty part |
| Search.ParsedFiltersWellFormed | apps/web/lib/cv/search.ts:51-90 | every parsed filter is unset or a non-empty, duplicate-free list of clean values |
| Search.ParsedFiltersPresence | apps/web/lib/cv/search.ts:51-90 | each filter is read from its own parameter name (skills, language, location, technology, industry, seniority, availability) |
| Search.ParseSearchFiltersFromParams | apps/web/lib/cv/search.ts:51-90 | the method returns `ParsedFilters` of the parameters |
| Search.ExactAll | apps/web/lib/cv/search.ts:110 | one exact-match pattern per value, in order |
| Search.SkillConditions | apps/web/lib/cv/search.ts:95-105 | one `$elemMatch` condition per skill, in order |
| Search.MatchStageShape | apps/web/lib/cv/search.ts:92-160 | one condition per skill plus one per other non-empty filter, and no stage exactly when every filter is empty |
| Search.AllOfMeaning | apps/web/lib/cv/search.ts:123-129 | `$all` of exact patterns holds exactly when every value is in the array, ignoring case |
| Search.InMeaning | apps/web/lib/cv/search.ts:107-113 | some pattern matches the text exactly when the text equals one of the values, ignoring case |
| Search.TextInMeaning | apps/web/lib/cv/search.ts:107-113 | `$in` of exact patterns holds exactly when the field equals one of the values, ignoring case |
| Search.SkillsMeaning | apps/web/lib/cv/search.ts:95-105 | the skill conditions hold exactly when the CV has a skill of every wanted name, ignoring case |
| Search.WhenMeaning | apps/web/lib/cv/search.ts:107 | a condition guarded by a non-empty filter holds when the filter is empty or the condition holds |
| Search.MatchStageMeaning | apps/web/lib/cv/search.ts:92-160 | a CV passes the stage exactly when it meets every non-empty filter |
| Search.BuildMatchStage | apps/web/lib/cv/search.ts:92-160 | the method builds `MatchStage` of the filters |
| Search.MapDocumentToListItem | apps/web/lib/cv/search.ts:162-176 | the item copies the CV's fields and defaults missing languages, skills and tags to empty |
| Search.PageNumber | apps/web/lib/cv/search.ts:182 | the page is at least 1: 1 when absent or below 1, and a page of 1 or more is kept as given |
| Search.PageSize | apps/web/lib/cv/search.ts:183 | the page size is 20 when absent; below 1 it becomes 1, above 100 it becomes 100, and 1..100 is kept as given |
| Search.Window | apps/web/lib/cv/search.ts:197-198 | `$skip` then `$limit` take the documents from `skip` on, at most `size` of them |
| Search.ListItems | apps/web/lib/cv/search.ts:219-221 | one list item per document, in order |
| Search.FindCvs | apps/web/lib/cv/search.ts:178-224 | the total counts every match and the results are the requested page's window, mapped to items |
| SavedSearches.NormalizeSavedSearchFilters | apps/web/lib/saved-searches.ts:62-72 | every filter becomes a list holding exactly the trimmed, non-empty comma pieces of the stored list, and a missing one becomes the empty list |
| SavedSearches.NormalizedFiltersClean | apps/web/lib/saved-searches.ts:51-72 | every normalised list is duplicate-free and made of clean, comma-free values |
| SavedSearches.NormalizeSavedSearchFiltersIdempotent | apps/web/lib/saved-searches.ts:62-72 | normalising twice is normalising once |
| SavedSearches.NormalizeSavedSearchNotifications | apps/web/lib/saved-searches.ts:74-93 | both channels get an explicit flag; recipients are kept only when e-mail is on, and the URL and secret only when the webhook is on |
| SavedSearches.NormalizeSavedSearchNotificationsIdempotent | apps/web/lib/saved-searches.ts:74-93 | normalising twice is normalising once |
| Slugs.Hyphenate | apps/web/lib/taxonomy.ts:38 | after replacing runs of other characters there are only slug characters and single hyphens |
| Slugs.StripEdgeHyphens | apps/web/lib/taxonomy.ts:39 | stripping never adds characters and keeps a text without edge hyphens |
| Slugs.StripEdgesSlug | apps/web/lib/taxonomy.ts:38-39 | stripping the edges of a hyphenated text gives a slug |
| Slugs.CollapseIsolated | apps/web/lib/taxonomy.ts:40 | the final collapse changes nothing when hyphens are already single |
| Slugs.PipelineSlug | apps/web/lib/taxonomy.ts:38-40 | the replace steps always give a slug, and the last one never has work to do |
| Slugs.SlugFixpoint | apps/web/lib/taxonomy.ts:34-41 | every step of the pipeline leaves a slug unchanged |
| Taxonomy.NormalizeSynonyms | apps/web/lib/taxonomy.ts:28-32 | every synonym is non-empty and trimmed |
| Taxonomy.NormalizeSynonymsMeaning | apps/web/lib/taxonomy.ts:28-32 | the synonyms are duplicate-free and are exactly the non-empty trimmed inputs |
| Taxonomy.NormalizeSynonymsPrefix | apps/web/lib/taxonomy.ts:28-32 | the synonyms of a prefix of the input are a prefix of the synonyms: each is kept at its first occurrence, in input order |
| Taxonomy.NormalizeSynonymsIdempotent | apps/web/lib/taxonomy.ts:28-32 | normalising twice is normalising once |
| Taxonomy.SlugifyTaxonomyValue | apps/web/lib/taxonomy.ts:34-41 | the result is a slug |
| Taxonomy.SlugifyTaxonomyValueIdempotent | apps/web/lib/taxonomy.ts:34-41 | slugifying a slug changes nothing |
| Taxonomy.NormalizeTaxonomyInput | apps/web/lib/taxonomy.ts:139-145 | the name and any description are trimmed and the synonyms normalised |
| Taxonomy.NormalizeTaxonomyInputIdempotent | apps/web/lib/taxonomy.ts:139-145 | normalising twice is normalising once |
| Taxonomy.MapTaxonomyDocument | apps/web/lib/taxonomy.ts:56-66 | the response copies the document, with a null description and an empty synonym list where they are missing |
| Export.FormatLanguages | apps/web/lib/export/cv.ts:18-20 | missing languages give the empty text |
| Export.FormatLanguagesRoundTrip | apps/web/lib/export/cv.ts:18-20 | splitting the cell on commas gives back the languages |
| Export.SkillParts | apps/web/lib/export/cv.ts:6-12 | a skill shows its name, then its level in parentheses when non-empty, then its years with " yrs" when numeric |
| Export.SkillTexts | apps/web/lib/export/cv.ts:4-14 | one text per skill, in order |
| Export.FormatSkillListPieces | apps/web/lib/export/cv.ts:3-16 | with no `;` in names or levels, splitting the cell on `;` gives back one text per skill |
| Export.EscapeHtmlNoSpecials | apps/web/lib/export/cv.ts:26-33 | escaped text holds no `<`, `>`, `"` or `'` |
| Export.EscapeHtmlIsEach | apps/web/lib/export/cv.ts:26-33 | the five replace passes are one escape per character, so `&` is never escaped twice |
| Export.EscapeHtmlPlain | apps/web/lib/export/cv.ts:26-33 | text without special characters is unchanged |
| Export.UnescapeEscapeHtml | apps/web/lib/export/cv.ts:26-33 | unescaping the escaped text gives back the input |
| Export.JsonString | apps/web/lib/export/cv.ts:60-70 | `JSON.stringify` of a text has no control character |
| Export.JsonStringRoundTrip | apps/web/lib/export/cv.ts:60-70 | parsing the quoted text gives back the input |
| Export.RowCells | apps/web/lib/export/cv.ts:53-71 | a row has one cell per header, from the name to the update time |
| Export.CsvLine | apps/web/lib/export/cv.ts:59-73 | a CSV line holds no line break |
| Export.CsvLines | apps/web/lib/export/cv.ts:52-74 | one line per row, in order |
| Export.CreateCsv | apps/web/lib/export/cv.ts:35-77 | splitting the file on line breaks gives the header and then one line per row |
| Export.AppendCsvLines | apps/web/lib/export/cv.ts:52-74 | the loop appends the rows' lines |
| Export.EscapedCells | apps/web/lib/export/cv.ts:98-112 | every cell is escaped |
| Export.TableCells | apps/web/lib/export/cv.ts:96-116 | one cell list per row, languages joined by ", " |
| Export.DocumentTagged | apps/web/lib/export/cv.ts:94-118 | the document is the fixed opening, the header row, the body rows and the fixed closing, and only the markup opens a tag |
| Export.ExcelStructure | apps/web/lib/export/cv.ts:79-121 | splitting the document on `<` yields exactly the intended tags and escaped cells, so no cell text can open a tag |
| I18nConfig.LocaleName | apps/web/i18n/config.ts:1-3 | the two locales are "en" and "de" |
| I18nConfig.MatchLocale | apps/web/i18n/config.ts:163 | a tag matches exactly when it is a locale's name |
| I18nConfig.GetDictionary | apps/web/i18n/config.ts:157-169 | German exactly when the lower-cased primary subtag is "de"; English for a missing, empty or unknown tag |
| I18nConfig.GetDictionaryOfTag | apps/web/i18n/config.ts:162-166 | a locale name with any region picks that locale |
| I18nConfig.WalkAppend | apps/web/i18n/config.ts:175-180 | walking a path in two parts is walking it at once |
| I18nConfig.Translation | apps/web/i18n/config.ts:171-188 | the result is the text found at the key's dotted path when a text is there, and the key itself otherwise |
| I18nConfig.Translate | apps/web/i18n/config.ts:171-188 | the segment loop returns `Translation` of the key |
| I18nConfig.WalkPut | apps/web/i18n/config.ts:175-183 | a text placed at a path is found there |
| I18nConfig.PutKeepsOthers | apps/web/i18n/config.ts:175-183 | placing a text under one first segment leaves paths under other first segments unchanged |
| I18nConfig.TranslationOfPut | apps/web/i18n/config.ts:171-188 | translating the dotted key of a placed text returns the text |
| I18nConfig.TranslationMissing | apps/web/i18n/config.ts:176-177 | a key whose first segment is missing translates to itself |
| I18nServer.ResolveRequestLocale | apps/web/i18n/server.ts:5-29 | a known cookie locale wins, then the first `accept-language` entry, then English |
| I18nServer.CookieWins | apps/web/i18n/server.ts:8-14 | a cookie naming a locale with any region decides, whatever the header says |
| I18nServer.InvalidCookieFallsThrough | apps/web/i18n/server.ts:8-14 | an unknown cookie is ignored |
| I18nServer.FirstEntry | apps/web/i18n/server.ts:18 | the first entry of the header is read up to its first comma |
| I18nServer.HeaderFirstEntry | apps/web/i18n/server.ts:17-26 | without a cookie, a header starting with a locale, with or without a region, picks that locale |
| I18nServer.HeaderNames | apps/web/i18n/server.ts:18-24 | a first entry whose primary subtag is a locale's name picks that locale |
| I18nServer.WeightedEntryIgnored | apps/web/i18n/server.ts:18-24 | a first entry with a `;q=` weight is not recognised, and English is returned |
| I18nServer.NothingGivesDefault | apps/web/i18n/server.ts:28 | no cookie and no header gives English |
| FilterPanel.EnsureArray | apps/web/components/cv/CvFilterPanel.tsx:43-45 | a missing list is empty, a present one is kept |
| FilterPanel.Unmatched | apps/web/components/cv/CvFilterPanel.tsx:34 | the kept values are those different from the value ignoring case, and nothing is dropped exactly when none matches |
| FilterPanel.UnmatchedAppend | apps/web/components/cv/CvFilterPanel.tsx:34 | filtering a concatenation filters each part |
| FilterPanel.UnmatchedKeepsAll | apps/web/components/cv/CvFilterPanel.tsx:36 | when the length is unchanged, the filtered list is the list itself |
| FilterPanel.ToggleValue | apps/web/components/cv/CvFilterPanel.tsx:32-41 | an absent value is appended; a present one is removed with every case variant |
| FilterPanel.ToggleFlips | apps/web/components/cv/CvFilterPanel.tsx:32-41 | after a toggle the value is present exactly when it was absent before |
| FilterPanel.ToggleTwiceRestores | apps/web/components/cv/CvFilterPanel.tsx:32-41 | toggling an absent value twice restores the list |
| FilterPanel.ToggleMissing | apps/web/components/cv/CvFilterPanel.tsx:33 | toggling on a missing list is toggling on an empty one |
| FilterPanel.Set | apps/web/components/cv/CvFilterPanel.tsx:53-54 | a spread update sets one filter and keeps the others |
| FilterPanel.HandleToggle | apps/web/components/cv/CvFilterPanel.tsx:48-58 | the toggled filter gets the toggled list and the others are kept |
| FilterPanel.HandleToggleTwice | apps/web/components/cv/CvFilterPanel.tsx:48-58 | clicking an unchecked box twice leaves the filters as they were, with the list made explicit |
| FilterPanel.HandleListChange | apps/web/components/cv/CvFilterPanel.tsx:60-80 | the languages or locations filter becomes the comma list of the text, and the others are kept |
| FilterPanel.ListInputRoundTrip | apps/web/components/cv/CvFilterPanel.tsx:60-83 | re-entering the displayed ", "-joined text gives back the same list |
| SearchBuilder.NormalizeList | apps/web/components/searches/SavedSearchBuilder.tsx:61 | a missing list stays missing, otherwise its entries are trimmed and the empty ones dropped |
| SearchBuilder.NormalizeListMembers | apps/web/components/searches/SavedSearchBuilder.tsx:61 | the kept entries are exactly the non-empty trimmed inputs |
| SearchBuilder.NormalizeListNoDedup | apps/web/components/searches/SavedSearchBuilder.tsx:61 | unlike the server, the builder keeps duplicates |
| SearchBuilder.NormalizeFilters | apps/web/components/searches/SavedSearchBuilder.tsx:56-72 | no filters give none, otherwise each list is normalised, keeping order and repeats by NormalizeListAppend |
| SearchBuilder.NormalizeListKeeps | apps/web/components/searches/SavedSearchBuilder.tsx:61 | a list of clean entries is unchanged |
| SearchBuilder.NormalizeListAppend | apps/web/components/searches/SavedSearchBuilder.tsx:61 | the list of a concatenation is the concatenation of the lists: input order and repeated values are kept |
| SearchBuilder.NormalizeListSingle | apps/web/components/searches/SavedSearchBuilder.tsx:61 | one value gives its trimmed form, or nothing when that is empty |
| SearchBuilder.NormalizeFiltersIdempotent | apps/web/components/searches/SavedSearchBuilder.tsx:56-72 | normalising twice is normalising once |
| SearchBuilder.Pairs | apps/web/components/searches/SavedSearchBuilder.tsx:39-43 | one pair per value, in order |
| SearchBuilder.AppendValues | apps/web/components/searches/SavedSearchBuilder.tsx:39-43 | the loop appends the pairs of the values |
| SearchBuilder.FiltersToQuery | apps/web/components/searches/SavedSearchBuilder.tsx:37-54 | the query is `QueryPairs` of the filters |
| SearchBuilder.QueryFields | apps/web/components/searches/SavedSearchBuilder.tsx:45-51 | each filter is written under the name the search reads it from |
| SearchBuilder.Compact | apps/web/components/searches/SavedSearchBuilder.tsx:37-54 | compacting keeps every list and unsets only the empty ones |
| SearchBuilder.FieldRoundTrip | apps/web/components/searches/SavedSearchBuilder.tsx:39-43 | a field written and read back is its compacted list |
| SearchBuilder.QueryRoundTrip | apps/web/components/searches/SavedSearchBuilder.tsx:37-54 | parsing the builder's query gives back the compacted filters |
| SearchBuilder.WellFormedQueryRoundTrip | apps/web/components/searches/SavedSearchBuilder.tsx:37-54 | parsing the query of parsed filters gives them back unchanged |
| SearchBuilder.Recipients | apps/web/components/searches/SavedSearchBuilder.tsx:165-168 | recipients are clean, comma-free values |
| SearchBuilder.RecipientsRoundTrip | apps/web/components/searches/SavedSearchBuilder.tsx:165-168 | the ", "-joined recipients parse back to themselves |
| SearchBuilder.BuildSaveBody | apps/web/components/searches/SavedSearchBuilder.tsx:170-182 | the body carries the filters and the parsed recipients; an empty URL or secret is left undefined |
| SearchBuilder.SaveTarget | apps/web/components/searches/SavedSearchBuilder.tsx:185-186 | PUT to the search's own URL exactly when an id is known, otherwise POST to the collection |
| SearchClient.ChangeInput | apps/web/app/search/SearchClient.tsx:59-64 | typing keeps the text and sets the list to its comma list, so the two agree |
| SearchClient.InitialInSync | apps/web/app/search/SearchClient.tsx:76-98 | initial ", "-joined text agrees with the initial list |
| SearchClient.AddValue | apps/web/app/search/SearchClient.tsx:203-210 | a value already present ignoring case is not added again; otherwise it is appended |
| SearchClient.AddValueIdempotent | apps/web/app/search/SearchClient.tsx:203-210 | adding the same value twice is adding it once |
| SearchClient.AddValueIsToggleOn | apps/web/app/search/SearchClient.tsx:203-207 | adding an absent value is the filter panel's toggle |
| SearchClient.AddToInput | apps/web/app/search/SearchClient.tsx:199-211 | the list gets the value, and the text is rewritten only when the list changed |
| SearchClient.AddToInputInSync | apps/web/app/search/SearchClient.tsx:199-211 | adding a clean value keeps text and list in agreement |
| SearchClient.SuggestionTarget | apps/web/app/search/SearchClient.tsx:213-232 | experience goes to roles, education, language and certification to their own lists, and anything else to skills |
| SearchClient.WithInput | apps/web/app/search/SearchClient.tsx:199-232 | one input is replaced and the others are kept |
| SearchClient.HandleSuggestionClick | apps/web/app/search/SearchClient.tsx:196-238 | the value is added to its target list only, and semantic search is switched on |
| SearchClient.TotalPages | apps/web/app/search/SearchClient.tsx:109 | the page count is at least 1 and is the least that covers every result |
| SearchClient.SetParam | apps/web/app/search/SearchClient.tsx:115 | `set` leaves exactly one value under the name and keeps other names |
| SearchClient.SetKeyword | apps/web/app/search/SearchClient.tsx:114-116 | the keyword is set only when its trimmed text is non-empty |
| SearchClient.AppendLists | apps/web/app/search/SearchClient.tsx:117-124 | the eight lists are appended under their names |
| SearchClient.SetThreshold | apps/web/app/search/SearchClient.tsx:126-128 | the threshold is set when present |
| SearchClient.AppendSettings | apps/web/app/search/SearchClient.tsx:125-130 | semantic flag, threshold, page and page size are set after the lists |
| SearchClient.BuildSearchParams | apps/web/app/search/SearchClient.tsx:111-132 | the method builds `SearchParams` of the form and page |
| SearchClient.SearchParamsKeyword | apps/web/app/search/SearchClient.tsx:114-116 | `q` is the trimmed keyword, or absent when it is blank |
| SearchClient.SearchParamsSemantic | apps/web/app/search/SearchClient.tsx:125 | `semantic` is "1" or "0" |
| SearchClient.SearchParamsPage | apps/web/app/search/SearchClient.tsx:129 | `page` is the requested page |
| SearchClient.SearchParamsPageSize | apps/web/app/search/SearchClient.tsx:130 | `pageSize` is the form's page size |
| UploadForm.MakeFileIdInjective | apps/web/components/cv/CvUploadForm.tsx:95-97 | two files with the same id have the same name, size and time |
| UploadForm.Accepted | apps/web/components/cv/CvUploadForm.tsx:241-251 | exactly the non-empty files whose id is not queued become idle entries |
| UploadForm.AddFiles | apps/web/components/cv/CvUploadForm.tsx:237-255 | the queue is kept as a prefix and every accepted file is appended |
| UploadForm.AcceptedAppend | apps/web/components/cv/CvUploadForm.tsx:241-251 | the accepted files of a concatenated batch are those of each part, in batch order, one entry per occurrence |
| UploadForm.AcceptedSingle | apps/web/components/cv/CvUploadForm.tsx:241-251 | one file becomes an idle entry exactly when it is non-empty and its id is not already queued |
| UploadForm.AddFilesAppend | apps/web/components/cv/CvUploadForm.tsx:237-255 | the second part of a batch is checked against the old queue's ids only, not against the first part |
| UploadForm.AddFilesSingle | apps/web/components/cv/CvUploadForm.tsx:237-255 | one file is appended as an idle entry when it is non-empty and its id is not yet queued |
| UploadForm.SameFileTwiceInOneBatch | apps/web/components/cv/CvUploadForm.tsx:241-244 | ids are checked against the old queue only, so one file twice in a batch is queued twice |
| UploadForm.AddFilesIdempotent | apps/web/components/cv/CvUploadForm.tsx:237-255 | adding the same batch again adds nothing |
| UploadForm.RemoveFile | apps/web/components/cv/CvUploadForm.tsx:281-283 | every entry with the id is removed and the others are kept |
| UploadForm.RemoveFileAppend | apps/web/components/cv/CvUploadForm.tsx:281-283 | removing from a concatenated queue removes from each part, so the kept entries keep their order and their copies |
| UploadForm.RemoveFileSingle | apps/web/components/cv/CvUploadForm.tsx:281-283 | one entry is dropped exactly when it has the id |
| UploadForm.UpdateFile | apps/web/components/cv/CvUploadForm.tsx:285-287 | entries with the id are replaced by the updater's result, others are unchanged |
| UploadForm.RemoveAfterUpdate | apps/web/components/cv/CvUploadForm.tsx:281-287 | removing after an id-keeping update is removing |
| UploadForm.UploadOutcome | apps/web/components/cv/CvUploadForm.tsx:119-154 | 2xx and 409 resolve, defaulting to stored and duplicate; other statuses reject with the server's error or the status; a network error rejects |
| UploadForm.ResultStatus | apps/web/components/cv/CvUploadForm.tsx:385-390 | duplicate and stored are recognised and anything else shows as an error |
| UploadForm.FinishUpload | apps/web/components/cv/CvUploadForm.tsx:392-407 | an answer sets the mapped status and full progress, with an error message exactly on error; a thrown error sets error and keeps progress |
| UploadForm.UploadStep | apps/web/components/cv/CvUploadForm.tsx:369-408 | one iteration changes only the entries with that file's id |
| UploadForm.Processed | apps/web/components/cv/CvUploadForm.tsx:369-409 | the queue keeps its length |
| UploadForm.SubmitBanner | apps/web/components/cv/CvUploadForm.tsx:411-424 | an error wins over a stored file, which wins over a duplicate; otherwise no banner |
| UploadForm.SubmitUploads | apps/web/components/cv/CvUploadForm.tsx:339-427 | the loop leaves the queue, results and banner that the fold functions give |
| UploadForm.ProcessedEntry | apps/web/components/cv/CvUploadForm.tsx:369-408 | with distinct ids, after `n` files each of the first `n` entries has finished and the rest are untouched |
| UploadForm.SubmitStatuses | apps/web/components/cv/CvUploadForm.tsx:385-407 | each file ends with its answer's status or, when thrown, error with the thrown message |
| UploadForm.ThrownErrorNotInBanner | apps/web/components/cv/CvUploadForm.tsx:400-424 | a thrown failure next to a stored file shows the success banner while the failed file shows error |
| UploadForm.SubmitDisabled | apps/web/components/cv/CvUploadForm.tsx:233-235 | submitting is enabled exactly when idle, with files queued and a non-blank name |
| UploadForm.TagKeyDown | apps/web/components/cv/CvUploadForm.tsx:317-333 | Enter or comma on non-blank input adds the trimmed tag once and clears the input; otherwise nothing changes |
| UploadForm.TagKeyDownKeepsTagsClean | apps/web/components/cv/CvUploadForm.tsx:317-333 | clean, duplicate-free tags stay so |
| UploadForm.RemoveTag | apps/web/components/cv/CvUploadForm.tsx:335-337 | the tag is gone and every other tag is kept |
| UploadForm.RemoveTagAppend | apps/web/components/cv/CvUploadForm.tsx:335-337 | removing from concatenated tags removes from each part, so the kept tags keep their order |
| UploadForm.RemoveTagSingle | apps/web/components/cv/CvUploadForm.tsx:335-337 | one tag is dropped exactly when it is the removed tag |
| UploadForm.SkillPayloads | apps/web/components/cv/CvUploadForm.tsx:171-177 | every kept skill has a non-empty trimmed name |
| UploadForm.SkillPayloadsKeep | apps/web/components/cv/CvUploadForm.tsx:171-177 | a skill with a non-blank name is sent |
| UploadForm.SkillPayloadSource | apps/web/components/cv/CvUploadForm.tsx:171-177 | every sent skill comes from a skill row with a non-blank name |
| UploadForm.SkillPayloadsAppend | apps/web/components/cv/CvUploadForm.tsx:171-177 | the skills of two lists are the skills of each, in order |
| UploadForm.TrimmedOrUndefined | apps/web/components/cv/CvUploadForm.tsx:192-204 | `trim() \|\| undefined` is undefined exactly for blank text, else the trimmed text |
| UploadForm.BuildMetadataPayload | apps/web/components/cv/CvUploadForm.tsx:160-208 | every field is the trimmed input or undefined when blank; skills and tags are cleaned |

## Left out

- Store and storage I/O: connecting to MongoDB, S3 `GetObjectCommand` and `PutObject`, `bodyToBuffer`, textract extraction and the SHA-256 checksum. The store is the in-memory `DocStore.Store`. Extracted text, the checksum and the object-store outcome are inputs.
- Concurrency between worker instances: each conditional update is modelled with its single-run meaning, a claim that either modifies the record or does not. Records changed by another worker between selection and claim appear as claims that fail.
- The `{value}` wrapper that `findOneAndUpdate` returns in some driver versions: a claim is modelled as succeeded or not.
- Floating point: the L2 normalisation and `toFixed(6)` of `computeEmbedding` (parse-cv.ts lines 80-86) are not modelled, only the integer count vector. Confidences are integer hundredths. `formatBytes`, upload progress fractions and the search page's similarity threshold are out; the threshold is carried as the text that is sent.
- Number parsing: `normalizeYears` in the upload route, `Number()` of skill years in the upload form and page parameters are not modelled. Years arrive already parsed (`Option<int>`), and the form's years text is passed through as text.
- Clocks and date formatting: `new Date()`, `Date.now()`, `toISOString` and the CSV's ISO dates. Times are integer milliseconds given by the caller, and ISO rendering is a function parameter `iso`. `UploadForm.BuildMetadataPayload` carries the availability date as its input text rather than converting it.
- Unicode: `toLowerCase` and `trim` are modelled on ASCII case and on the white-space characters JavaScript trims. JSON escaping does not treat lone surrogates specially.
- `ObjectId` semantics: hex strings, `ObjectId.isValid`, `resolveConsultantObjectId`, `resolveVersionId` and `normalizeUserId`. An invalid consultant id is an absent id in `Privacy.GuardDocumentAccess`, and the version id is not resolved.
- Request parsing and validation with zod, multipart form data, environment loading with dotenv, and `auth()`. The session, the environment flags and the parsed metadata are inputs.
- Audit and export-log inserts: `Privacy.LogAccess` and its callers return the event that would be written, without writing it.
- Saved-search CRUD (`getSavedSearchesForUser`, `getSavedSearchById`, `createSavedSearch`, `updateSavedSearch`, `deleteSavedSearch`, `runSavedSearch`) and taxonomy persistence (`getTaxonomyCollection`, `ensureUniqueSlug`, `saveTaxonomyDocument`): these are database calls around the modelled normalisers.
- `getConsultantConsent` and `getConsentSummary` are plain reads of the consent store. `collectCvRows` is `findCvs` with page 1.
- `Search.FindCvs`: the `$sort` stage is not modelled. The matched documents are given in sort order, and the page and page size are integers, so `Math.trunc` has no effect.
- React state, rendering, `fetch`/XHR transport, `setTimeout` and `window.history`. The handlers are modelled as functions from the old state to the new. The upload form's skill-row handlers (`handleAddSkill`, `handleSkillChange`, `handleRemoveSkill`) are not modelled; they edit rows keyed by a random UUID.
- URLSearchParams percent-encoding: query parameters are a sequence of name/value pairs.
- The translator: JavaScript's `in` also finds inherited properties. Every inherited property of a plain object is a function, never a string, so modelling own properties only gives the same translations.
- SearchClient.TotalPages: requires a page size of at least 1, which the server's clamp always returns. With 0, the source's count would be `Infinity`, or `NaN` for an empty result.
- Privacy.ClientIpFromHeader: weaker than the source's rule. It states only that the address is one trimmed, non-empty, comma-free entry of the header. That it is the first such entry is stated by `Privacy.ClientIp` itself.
- Export.CreateCsv: requires every row to carry an update time, as does `Export.CreateExcel`. The source formats `updatedAt` without a check and would throw on a row without one.
- DataRetention.RunDataRetentionJob: takes the cursor's visiting order as a parameter, a list of distinct ids that covers every CV. Records without an `_id` are not modelled.
- UploadForm.BuildMetadataPayload: the availability date is passed on as its input text (or left undefined when empty) rather than converted by `new Date(...).toISOString()`.
- Route handlers, pages, layout, providers, notification delivery and the health check are not part of this model.
