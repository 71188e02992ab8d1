/**
 * Consultant consent records: the default record, the rules by which an update
 * request produces the next record (status timestamps, null handling, legal-hold
 * merge, capped history) and the store that holds the records and the CVs'
 * language preference.
 */
module Consent {
  import opened Common
  import opened Text

  type Id = nat
  type Millis = int
  /** An object id or a string naming whoever made a change. */
  type Actor = string

  datatype ConsentStatus = Pending | Granted | Revoked

  datatype LegalHold = LegalHold(active: bool, reason: Option<string>, setAt: Option<Millis>, setBy: Option<Actor>)

  /** `Partial<LegalHoldInfo>`: every field may be absent, or present and null. */
  datatype LegalHoldPatch = LegalHoldPatch(active: Maybe<bool>, reason: Maybe<string>, setAt: Maybe<Millis>, setBy: Maybe<Actor>)

  datatype HistoryEntry = HistoryEntry(
    status: ConsentStatus, note: Option<string>, policyVersion: Option<string>,
    updatedAt: Millis, updatedBy: Option<Actor>)

  datatype ConsentRecord = ConsentRecord(
    consultantId: Id,
    status: ConsentStatus,
    note: Option<string>,
    consentedAt: Option<Millis>,
    revokedAt: Option<Millis>,
    updatedAt: Millis,
    updatedBy: Option<Actor>,
    history: seq<HistoryEntry>,
    legalHold: Option<LegalHold>,
    languagePreference: Option<string>,
    policyVersion: Option<string>)

  /** The body of an update request; an absent `legalHold` and a null one behave alike. */
  datatype ConsentUpdate = ConsentUpdate(
    status: Option<ConsentStatus>,
    note: Maybe<string>,
    languagePreference: Maybe<string>,
    policyVersion: Maybe<string>,
    updatedBy: Maybe<Actor>,
    legalHold: Option<LegalHoldPatch>)

  /** The part of a CV document that a consent update touches. */
  datatype CvLanguage = CvLanguage(languagePreference: Option<string>, updatedAt: Millis)

  /** The most history entries a record keeps. */
  const HistoryCap := 50

  /** The record created for a consultant who has none yet. */
  function DefaultConsent(consultantId: Id, now: Millis): (c: ConsentRecord)
    ensures c.consultantId == consultantId && c.status == Pending
    ensures c.consentedAt == None && c.revokedAt == None
    ensures c.history == [HistoryEntry(Pending, None, None, now, None)]
    ensures c.legalHold == Some(LegalHold(false, None, None, None))
    ensures c.note == None && c.policyVersion == None && c.languagePreference == None
    ensures c.updatedAt == now && c.updatedBy == None
  {
    ConsentRecord(
      consultantId, Pending, None, None, None, now, None,
      [HistoryEntry(Pending, None, None, now, None)],
      Some(LegalHold(false, None, None, None)), None, None)
  }

  /** Spreading a partial field over a stored one: an absent field keeps the stored value, a null one clears it. */
  function Spread<T>(update: Maybe<T>, stored: Option<T>): (r: Option<T>)
    ensures update.Undefined? ==> r == stored
    ensures !update.Undefined? ==> r == update.OrNull()
  {
    match update
    case Undefined => stored
    case Null => None
    case Defined(v) => Some(v)
  }

  /** A missing, empty or blank preference is dropped; any other is trimmed. */
  function SanitizeLanguagePreference(value: Option<string>): (r: Option<string>)
    ensures r.None? <==> value.None? || Trim(value.value) == ""
    ensures r.Some? ==> r.value == Trim(value.value) && r.value != "" && IsTrimmed(r.value)
  {
    if value.None? || value.value == "" then None
    else
      var trimmed := Trim(value.value);
      if |trimmed| > 0 then Some(trimmed) else None
  }

  lemma SanitizeIdempotent(value: Option<string>)
    ensures SanitizeLanguagePreference(SanitizeLanguagePreference(value)) == SanitizeLanguagePreference(value)
  {
    if SanitizeLanguagePreference(value).Some? {
      TrimIdempotent(value.value);
    }
  }

  /** History is written when the status, the note or the policy version differs from the stored one. */
  predicate ShouldRecordHistory(previous: ConsentRecord, nextStatus: ConsentStatus, note: Option<string>, policyVersion: Option<string>) {
    previous.status != nextStatus || note != previous.note || policyVersion != previous.policyVersion
  }

  function BuildHistoryEntry(status: ConsentStatus, note: Option<string>, policyVersion: Option<string>,
                             updatedAt: Millis, updatedBy: Maybe<Actor>): (e: HistoryEntry)
    ensures e.status == status && e.note == note && e.policyVersion == policyVersion && e.updatedAt == updatedAt
    ensures e.updatedBy.Some? <==> updatedBy.Defined?
  {
    HistoryEntry(status, note, policyVersion, updatedAt, updatedBy.OrNull())
  }

  /** `$push` with `$slice: -n`: only the last `n` elements survive. */
  function KeepLast<T>(xs: seq<T>, n: nat): (r: seq<T>)
    ensures |r| == if |xs| <= n then |xs| else n
    ensures r == xs[|xs| - |r|..]
  {
    if |xs| <= n then xs else xs[|xs| - n..]
  }

  /**
   * One entry pushed onto a capped history: the new entry is last, the entries before
   * it are the newest of the old ones, and the cap is never exceeded.
   */
  function PushCapped(history: seq<HistoryEntry>, entry: HistoryEntry): (r: seq<HistoryEntry>)
    ensures |r| == if |history| < HistoryCap then |history| + 1 else HistoryCap
    ensures r[|r| - 1] == entry
    ensures r[..|r| - 1] == history[|history| + 1 - |r|..]
    ensures |history| < HistoryCap ==> r == history + [entry]
  {
    var r := KeepLast(history + [entry], HistoryCap);
    assert r[..|r| - 1] == (history + [entry])[|history| + 1 - |r|..|history|];
    r
  }

  /** The hold a record starts from when it has none. */
  const NoHold := LegalHold(false, None, None, None)

  /**
   * The legal hold after an update: an absent patch keeps the current hold; otherwise
   * the patch's present fields are laid over the current hold (or an inactive blank
   * one), and a present `active` also stamps `setAt` and `setBy`.
   */
  function MergeLegalHold(current: Option<LegalHold>, update: Option<LegalHoldPatch>, now: Millis, actor: Maybe<Actor>): (r: Option<LegalHold>)
    ensures update.None? ==> r == current
    ensures update.Some? ==> r.Some?
    ensures update.Some? && update.value.active.Defined? ==>
              r.value.active == update.value.active.value && r.value.setAt == Some(now) && r.value.setBy == actor.OrNull()
    ensures update.Some? && update.value.active.Null? ==>
              !r.value.active && r.value.setAt == Some(now) && r.value.setBy == actor.OrNull()
    ensures update.Some? && update.value.active.Undefined? ==>
              r.value.active == current.GetOr(NoHold).active
    ensures update.Some? && update.value.reason.Undefined? ==> r.value.reason == current.GetOr(NoHold).reason
    ensures update.Some? && !update.value.reason.Undefined? ==> r.value.reason == update.value.reason.OrNull()
  {
    if update.None? then current
    else
      var u := update.value;
      var baseline := current.GetOr(NoHold);
      var next := LegalHold(
        match u.active case Undefined => baseline.active case Null => false case Defined(b) => b,
        Spread(u.reason, baseline.reason),
        Spread(u.setAt, baseline.setAt),
        Spread(u.setBy, baseline.setBy));
      var next := if u.active.Undefined? then next else next.(setAt := Some(now), setBy := actor.OrNull());
      Some(next)
  }

  /** A patch that leaves out `active` also keeps the stamps it does not mention. */
  lemma MergeKeepsStamps(current: Option<LegalHold>, u: LegalHoldPatch, now: Millis, actor: Maybe<Actor>)
    requires u.active.Undefined? && u.setAt.Undefined? && u.setBy.Undefined?
    ensures var r := MergeLegalHold(current, Some(u), now, actor).value;
      r.setAt == current.GetOr(NoHold).setAt && r.setBy == current.GetOr(NoHold).setBy
  {
  }

  /** The status the record ends with. */
  function NextStatus(consent: ConsentRecord, input: ConsentUpdate): ConsentStatus {
    input.status.GetOr(consent.status)
  }

  function NextNote(consent: ConsentRecord, input: ConsentUpdate): Option<string> {
    Spread(input.note, consent.note)
  }

  function NextPolicyVersion(consent: ConsentRecord, input: ConsentUpdate): Option<string> {
    Spread(input.policyVersion, consent.policyVersion)
  }

  function NextLanguagePreference(consent: ConsentRecord, input: ConsentUpdate): Option<string> {
    if input.languagePreference.Undefined? then consent.languagePreference
    else SanitizeLanguagePreference(input.languagePreference.OrNull())
  }

  /** The record an update request produces from `consent` at instant `now`. */
  function Updated(consent: ConsentRecord, input: ConsentUpdate, now: Millis): ConsentRecord
  {
    var status := NextStatus(consent, input);
    var note := NextNote(consent, input);
    var policyVersion := NextPolicyVersion(consent, input);
    var consentedAt := match status case Granted => Some(now) case Revoked => consent.consentedAt case Pending => None;
    var revokedAt := match status case Granted => None case Revoked => Some(now) case Pending => None;
    var history :=
      if ShouldRecordHistory(consent, status, note, policyVersion) then
        PushCapped(consent.history, BuildHistoryEntry(status, note, policyVersion, now, input.updatedBy))
      else consent.history;
    ConsentRecord(
      consent.consultantId, status, note, consentedAt, revokedAt, now, input.updatedBy.OrNull(),
      history, MergeLegalHold(consent.legalHold, input.legalHold, now, input.updatedBy),
      NextLanguagePreference(consent, input), policyVersion)
  }

  /**
   * The next status is the requested one or else the stored one; a note, policy version
   * or language preference that the request names (even as null) replaces the stored
   * one, and one it leaves out is kept.
   */
  lemma UpdatedFields(consent: ConsentRecord, input: ConsentUpdate, now: Millis)
    ensures var r := Updated(consent, input, now);
      && r.consultantId == consent.consultantId
      && r.status == (if input.status.Some? then input.status.value else consent.status)
      && (input.note.Undefined? ==> r.note == consent.note)
      && (!input.note.Undefined? ==> r.note == input.note.OrNull())
      && (input.policyVersion.Undefined? ==> r.policyVersion == consent.policyVersion)
      && (!input.policyVersion.Undefined? ==> r.policyVersion == input.policyVersion.OrNull())
      && (input.languagePreference.Undefined? ==> r.languagePreference == consent.languagePreference)
      && (!input.languagePreference.Undefined? ==>
            r.languagePreference == SanitizeLanguagePreference(input.languagePreference.OrNull()))
      && r.updatedAt == now && (r.updatedBy.Some? <==> input.updatedBy.Defined?)
      && r.legalHold == MergeLegalHold(consent.legalHold, input.legalHold, now, input.updatedBy)
  {
  }

  /** Granting stamps consent and clears revocation, revoking stamps revocation only, pending clears both. */
  lemma UpdatedTimestamps(consent: ConsentRecord, input: ConsentUpdate, now: Millis)
    ensures var r := Updated(consent, input, now);
      && (r.status == Granted ==> r.consentedAt == Some(now) && r.revokedAt == None)
      && (r.status == Revoked ==> r.revokedAt == Some(now) && r.consentedAt == consent.consentedAt)
      && (r.status == Pending ==> r.consentedAt == None && r.revokedAt == None)
  {
  }

  /**
   * History grows by one entry describing the new state exactly when the status, note
   * or policy version changed, and only the newest `HistoryCap` entries are kept.
   */
  lemma UpdatedHistory(consent: ConsentRecord, input: ConsentUpdate, now: Millis)
    ensures var r := Updated(consent, input, now);
      && (!ShouldRecordHistory(consent, r.status, r.note, r.policyVersion) ==> r.history == consent.history)
      && (ShouldRecordHistory(consent, r.status, r.note, r.policyVersion) ==>
            && |r.history| == (if |consent.history| < HistoryCap then |consent.history| + 1 else HistoryCap)
            && r.history[|r.history| - 1] == HistoryEntry(r.status, r.note, r.policyVersion, now, r.updatedBy)
            && r.history[..|r.history| - 1] == consent.history[|consent.history| + 1 - |r.history|..])
  {
  }

  /** Sending the same request twice writes history at most once: the second time nothing it names has changed. */
  lemma RepeatedUpdateAddsNoHistory(consent: ConsentRecord, input: ConsentUpdate, first: Millis, second: Millis)
    ensures var once := Updated(consent, input, first);
      Updated(once, input, second).history == once.history
  {
  }

  /** A record never grows its history beyond the cap once it is within it. */
  lemma UpdateKeepsHistoryCapped(consent: ConsentRecord, input: ConsentUpdate, now: Millis)
    requires |consent.history| <= HistoryCap
    ensures |Updated(consent, input, now).history| <= HistoryCap
  {
  }

  /**
   * The `$set` and `$push` of `updateConsultantConsent` applied to the stored record,
   * built field by field as the request handler builds its update.
   */
  method BuildUpdate(consent: ConsentRecord, input: ConsentUpdate, now: Millis) returns (next: ConsentRecord)
    ensures next == Updated(consent, input, now)
  {
    var nextStatus := NextStatus(consent, input);
    var nextNote := NextNote(consent, input);
    var nextPolicyVersion := NextPolicyVersion(consent, input);
    var nextLanguagePreference := NextLanguagePreference(consent, input);

    next := consent.(
      status := nextStatus, note := nextNote, updatedAt := now, updatedBy := input.updatedBy.OrNull(),
      policyVersion := nextPolicyVersion, languagePreference := nextLanguagePreference);
    if nextStatus == Granted {
      next := next.(consentedAt := Some(now), revokedAt := None);
    } else if nextStatus == Revoked {
      next := next.(revokedAt := Some(now));
    } else if nextStatus == Pending {
      next := next.(consentedAt := None, revokedAt := None);
    }

    var legalHold := MergeLegalHold(consent.legalHold, input.legalHold, now, input.updatedBy);
    if legalHold.Some? {
      next := next.(legalHold := legalHold);
    }

    if ShouldRecordHistory(consent, nextStatus, nextNote, nextPolicyVersion) {
      var entry := BuildHistoryEntry(nextStatus, nextNote, nextPolicyVersion, now, input.updatedBy);
      next := next.(history := PushCapped(consent.history, entry));
    }
  }

  /** The consent collection and the language preference held on each CV. */
  class ConsentStore {
    var consents: map<Id, ConsentRecord>
    var cvs: map<Id, CvLanguage>

    constructor(cvs: map<Id, CvLanguage>)
      ensures this.consents == map[] && this.cvs == cvs
    {
      consents := map[];
      this.cvs := cvs;
    }

    /** `ensureConsultantConsent`: the stored record, or a default one stored on the spot. */
    method Ensure(consultantId: Id, now: Millis) returns (consent: ConsentRecord)
      modifies this
      ensures consent == if consultantId in old(consents) then old(consents)[consultantId] else DefaultConsent(consultantId, now)
      ensures consents == old(consents)[consultantId := consent] && cvs == old(cvs)
    {
      if consultantId in consents {
        consent := consents[consultantId];
      } else {
        consent := DefaultConsent(consultantId, now);
        consents := consents[consultantId := consent];
      }
    }

    /**
     * `updateConsultantConsent`: the record is ensured, then replaced by the updated
     * one; a request that names a language preference also writes it to the CV.
     */
    method UpdateConsultantConsent(consultantId: Id, input: ConsentUpdate, now: Millis) returns (updated: ConsentRecord)
      modifies this
      ensures var before := if consultantId in old(consents) then old(consents)[consultantId] else DefaultConsent(consultantId, now);
        updated == Updated(before, input, now)
      ensures consents == old(consents)[consultantId := updated]
      ensures input.languagePreference.Defined? || input.languagePreference.Null? ==>
                cvs == if consultantId in old(cvs) then old(cvs)[consultantId := CvLanguage(updated.languagePreference, now)] else old(cvs)
      ensures input.languagePreference.Undefined? ==> cvs == old(cvs)
    {
      var consent := Ensure(consultantId, now);
      var next := BuildUpdate(consent, input, now);
      consents := consents[consultantId := next];
      updated := next;

      if !input.languagePreference.Undefined? && consultantId in cvs {
        cvs := cvs[consultantId := CvLanguage(next.languagePreference, now)];
      }
    }
  }
}
