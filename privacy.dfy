/**
 * The privacy guard in front of CV document downloads and views: the client
 * address read from the request, the order of the access checks, and the audit
 * record written for an access. The session, the validity of the consultant id,
 * the stored consent record and the environment are inputs; writing the audit
 * event is not part of this model, the event itself is returned.
 */
module Privacy {
  import opened Common
  import opened Text
  import Consent

  /** `getClientIp`: the first non-empty trimmed entry of `x-forwarded-for`, else the runtime address, else none. */
  function ClientIp(forwardedFor: Option<string>, runtimeIp: Option<string>): (r: Option<string>)
    ensures forwardedFor.Some? && NonEmpty(TrimAll(Split(forwardedFor.value, ','))) != []
            ==> r == Some(NonEmpty(TrimAll(Split(forwardedFor.value, ',')))[0])
    ensures (forwardedFor.None? || NonEmpty(TrimAll(Split(forwardedFor.value, ','))) == []) ==> r == runtimeIp
  {
    if forwardedFor.Some? && forwardedFor.value != "" then
      var entries := NonEmpty(TrimAll(Split(forwardedFor.value, ',')));
      if entries != [] then Some(entries[0]) else runtimeIp
    else runtimeIp
  }

  /** The first of the non-empty trimmed entries is the trimmed form of one of the entries. */
  lemma FirstEntry(parts: seq<string>) returns (k: nat)
    requires NonEmpty(TrimAll(parts)) != []
    ensures k < |parts| && NonEmpty(TrimAll(parts))[0] == Trim(parts[k])
    ensures NonEmpty(TrimAll(parts))[0] != ""
  {
    var entries := NonEmpty(TrimAll(parts));
    assert entries[0] in entries;
    k := IndexOf(TrimAll(parts), entries[0]);
  }

  /** An address taken from the header is a non-empty, trimmed, comma-free entry of it. */
  lemma ClientIpFromHeader(forwardedFor: string, runtimeIp: Option<string>)
    requires NonEmpty(TrimAll(Split(forwardedFor, ','))) != []
    ensures ClientIp(Some(forwardedFor), runtimeIp).Some?
    ensures var ip := ClientIp(Some(forwardedFor), runtimeIp).value;
            ip != "" && IsTrimmed(ip) && ',' !in ip
    ensures exists k | 0 <= k < |Split(forwardedFor, ',')| ::
              ClientIp(Some(forwardedFor), runtimeIp).value == Trim(Split(forwardedFor, ',')[k])
  {
    var parts := Split(forwardedFor, ',');
    var k := FirstEntry(parts);
    var ip := Trim(parts[k]);
    assert ClientIp(Some(forwardedFor), runtimeIp) == Some(ip);
    SplitPartsFree(forwardedFor, ',');
    assert parts[k] in parts;
    assert ',' !in ip;
  }

  // ----- Access guard -----

  datatype DocumentAction = View | Download

  /** The audit event type of an access. */
  function EventType(action: DocumentAction): (r: string)
    ensures r == "document_download" <==> action == Download
  {
    if action == Download then "document_download" else "document_view"
  }

  /** The options of one guarded access; `requireConsent` and `policyVersion` may be missing. */
  datatype AccessOptions = AccessOptions(
    action: DocumentAction, requireConsent: Option<bool>, policyVersion: Option<string>)

  /** The settings read from the environment. */
  datatype PrivacyEnv = PrivacyEnv(consentRequired: bool, privacyPolicyVersion: Option<string>)

  /** The audit event of a refused access. */
  datatype Refusal = Refusal(eventType: string, message: string, deniedReason: string, outcome: string)

  /** What an accepted access carries on to the handler. */
  datatype AccessContext = AccessContext(
    consultantId: Consent.Id, consent: Consent.ConsentRecord, action: DocumentAction, policyVersion: Option<string>)

  datatype GuardResult =
    | Refused(status: nat, error: string, event: Refusal)
    | Accepted(context: AccessContext)

  /** `options.requireConsent ?? env.CONSENT_REQUIRED`. */
  function RequireConsent(options: AccessOptions, env: PrivacyEnv): bool {
    options.requireConsent.GetOr(env.consentRequired)
  }

  /** `options.policyVersion ?? consent.policyVersion ?? env.PRIVACY_POLICY_VERSION ?? null`. */
  function PolicyVersion(options: AccessOptions, consent: Consent.ConsentRecord, env: PrivacyEnv): (r: Option<string>)
    ensures options.policyVersion.Some? ==> r == options.policyVersion
    ensures options.policyVersion.None? && consent.policyVersion.Some? ==> r == consent.policyVersion
    ensures options.policyVersion.None? && consent.policyVersion.None? ==> r == env.privacyPolicyVersion
  {
    if options.policyVersion.Some? then options.policyVersion
    else if consent.policyVersion.Some? then consent.policyVersion
    else env.privacyPolicyVersion
  }

  /**
   * `guardDocumentAccess`: no signed-in user gives 401, an id that does not resolve
   * gives 400, a required consent that is not granted gives 451 (section 3 of RFC
   * 7725); otherwise the access is accepted with the resolved policy version.
   */
  function GuardDocumentAccess(
    signedIn: bool, consultantId: Option<Consent.Id>, consentOf: Consent.Id -> Consent.ConsentRecord,
    options: AccessOptions, env: PrivacyEnv): (r: GuardResult)
    ensures r.Refused? ==> r.status in {401, 400, 451} && r.event.eventType == EventType(options.action)
    ensures r.Refused? && r.status == 401 <==> !signedIn
    ensures r.Refused? && r.status == 400 <==> signedIn && consultantId.None?
    ensures r.Refused? && r.status == 451 <==>
            signedIn && consultantId.Some? && RequireConsent(options, env)
            && consentOf(consultantId.value).status != Consent.Granted
    ensures r.Accepted? ==> (consultantId.Some? && r.context.consultantId == consultantId.value
                             && r.context.consent == consentOf(consultantId.value) && r.context.action == options.action
                             && r.context.policyVersion == PolicyVersion(options, consentOf(consultantId.value), env))
  {
    var eventType := EventType(options.action);
    if !signedIn then
      Refused(401, "Unauthorized", Refusal(eventType, "Unauthenticated access attempt", "unauthenticated", "denied"))
    else if consultantId.None? then
      Refused(400, "Invalid consultant identifier",
        Refusal(eventType, "Invalid consultant identifier", "invalid_consultant_id", "error"))
    else
      var consent := consentOf(consultantId.value);
      if RequireConsent(options, env) && consent.status != Consent.Granted then
        Refused(451, "Consultant consent required",
          Refusal(eventType, "Consultant consent is required", "consent_not_granted", "denied"))
      else Accepted(AccessContext(consultantId.value, consent, options.action, PolicyVersion(options, consent, env)))
  }

  /** With consent required by the options, only a granted consent lets a signed-in user with a valid id through. */
  lemma ConsentGate(consultantId: Consent.Id, consentOf: Consent.Id -> Consent.ConsentRecord, options: AccessOptions, env: PrivacyEnv)
    requires options.requireConsent == Some(true)
    ensures GuardDocumentAccess(true, Some(consultantId), consentOf, options, env).Accepted?
            <==> consentOf(consultantId).status == Consent.Granted
  {
  }

  /** An option given explicitly overrides the environment: `requireConsent: false` lets any consent through. */
  lemma ExplicitOptOut(consultantId: Consent.Id, consentOf: Consent.Id -> Consent.ConsentRecord, action: DocumentAction,
                       policyVersion: Option<string>, env: PrivacyEnv)
    ensures GuardDocumentAccess(true, Some(consultantId), consentOf, AccessOptions(action, Some(false), policyVersion), env).Accepted?
  {
  }

  // ----- Access log -----

  /** The audit record of a finished access. */
  datatype AccessLog = AccessLog(
    eventType: string, success: bool, message: Option<string>, deniedReason: Option<string>,
    policyVersion: Option<string>, outcome: string)

  /** The outcome rule of `logAccess`: authorized on success, denied with a non-empty reason, error otherwise. */
  function Outcome(success: bool, deniedReason: Option<string>): (r: string)
    ensures r == "authorized" <==> success
    ensures r == "denied" <==> !success && deniedReason.Some? && deniedReason.value != ""
    ensures r in {"authorized", "denied", "error"}
  {
    if success then "authorized" else if deniedReason.Some? && deniedReason.value != "" then "denied" else "error"
  }

  function LogAccess(context: AccessContext, success: bool, message: Option<string>, deniedReason: Option<string>): (log: AccessLog)
    ensures log.eventType == EventType(context.action) && log.success == success
    ensures log.outcome == Outcome(success, deniedReason) && log.deniedReason == deniedReason
    ensures log.policyVersion == context.policyVersion
  {
    AccessLog(EventType(context.action), success, message, deniedReason, context.policyVersion, Outcome(success, deniedReason))
  }

  /**
   * `finalizeDocumentAccess`: the response's `ok` flag is the success, a failed
   * response is described by its status, and no denial reason is given.
   */
  function FinalizeDocumentAccess(context: AccessContext, responseOk: bool, responseStatus: int): (log: AccessLog)
    ensures log.outcome == (if responseOk then "authorized" else "error")
    ensures log.success == responseOk && log.deniedReason.None?
    ensures !responseOk ==> log.message == Some("Response returned status " + IntToString(responseStatus))
  {
    LogAccess(context, responseOk,
      if responseOk then None else Some("Response returned status " + IntToString(responseStatus)), None)
  }

  /** `recordDocumentAccessFailure`: a failure with the reason `internal_error`, so its outcome is denied. */
  function RecordDocumentAccessFailure(context: AccessContext, message: string): (log: AccessLog)
    ensures !log.success && log.outcome == "denied" && log.deniedReason == Some("internal_error")
  {
    LogAccess(context, false, Some(message), Some("internal_error"))
  }
}
