/**
 * The normalisers applied to a saved search before it is stored: its filters and
 * its notification settings.
 */
module SavedSearches {
  import opened Common
  import opened Text
  import opened Search

  /**
   * A normalised list holds exactly the trimmed, non-empty comma-separated pieces of
   * the stored list (none when it is missing).
   */
  ghost predicate SamePieces(normalised: Option<seq<string>>, stored: Option<seq<string>>) {
    normalised.Some? && forall s :: s in normalised.value <==> s in CommaLists(stored.GetOr([]))
  }

  /**
   * `normalizeSavedSearchFilters`: every one of the seven lists normalised, a missing
   * list becoming the empty one.
   */
  function NormalizeSavedSearchFilters(f: Filters): (r: Filters)
    ensures SamePieces(r.skills, f.skills) && SamePieces(r.industries, f.industries)
    ensures SamePieces(r.technologies, f.technologies) && SamePieces(r.seniority, f.seniority)
    ensures SamePieces(r.availability, f.availability) && SamePieces(r.languages, f.languages)
    ensures SamePieces(r.locations, f.locations)
    ensures r.skills.Some? && r.industries.Some? && r.technologies.Some? && r.seniority.Some?
    ensures r.availability.Some? && r.languages.Some? && r.locations.Some?
    ensures f.skills.None? ==> r.skills == Some([])
    ensures f.industries.None? ==> r.industries == Some([])
    ensures f.technologies.None? ==> r.technologies == Some([])
    ensures f.seniority.None? ==> r.seniority == Some([])
    ensures f.availability.None? ==> r.availability == Some([])
    ensures f.languages.None? ==> r.languages == Some([])
    ensures f.locations.None? ==> r.locations == Some([])
  {
    Filters(
      skills := Some(NormalizeFilterValues(f.skills)),
      industries := Some(NormalizeFilterValues(f.industries)),
      technologies := Some(NormalizeFilterValues(f.technologies)),
      seniority := Some(NormalizeFilterValues(f.seniority)),
      availability := Some(NormalizeFilterValues(f.availability)),
      languages := Some(NormalizeFilterValues(f.languages)),
      locations := Some(NormalizeFilterValues(f.locations)))
  }

  /** Every list of a normalised filter set holds distinct, trimmed, non-empty, comma-free values. */
  predicate Clean(o: Option<seq<string>>) {
    o.Some? && NoDuplicates(o.value) && forall s | s in o.value :: IsListValue(s)
  }

  lemma NormalizedFiltersClean(f: Filters)
    ensures var r := NormalizeSavedSearchFilters(f);
      && Clean(r.skills) && Clean(r.industries) && Clean(r.technologies) && Clean(r.seniority)
      && Clean(r.availability) && Clean(r.languages) && Clean(r.locations)
  {
  }

  /** Normalising stored filters again changes nothing. */
  lemma NormalizeSavedSearchFiltersIdempotent(f: Filters)
    ensures NormalizeSavedSearchFilters(NormalizeSavedSearchFilters(f)) == NormalizeSavedSearchFilters(f)
  {
    NormalizeFilterValuesIdempotent(f.skills);
    NormalizeFilterValuesIdempotent(f.industries);
    NormalizeFilterValuesIdempotent(f.technologies);
    NormalizeFilterValuesIdempotent(f.seniority);
    NormalizeFilterValuesIdempotent(f.availability);
    NormalizeFilterValuesIdempotent(f.languages);
    NormalizeFilterValuesIdempotent(f.locations);
  }

  /** The e-mail part of the settings; each field may be missing. */
  datatype EmailSettings = EmailSettings(enabled: Option<bool>, recipients: Option<seq<string>>)

  /** The webhook part of the settings; each field may be missing. */
  datatype WebhookSettings = WebhookSettings(enabled: Option<bool>, url: Option<string>, secret: Option<string>)

  /** `SavedSearchNotificationSettings`; both parts may be missing. */
  datatype NotificationSettings = NotificationSettings(email: Option<EmailSettings>, webhook: Option<WebhookSettings>)

  function EmailEnabled(s: NotificationSettings): bool {
    s.email.Some? && s.email.value.enabled == Some(true)
  }

  function WebhookEnabled(s: NotificationSettings): bool {
    s.webhook.Some? && s.webhook.value.enabled == Some(true)
  }

  /**
   * `normalizeSavedSearchNotifications`: a missing `enabled` is false; recipients are
   * normalised when e-mail is on and dropped when it is off; the webhook url and secret
   * pass through (missing ones become null) when the webhook is on and are null when it is off.
   */
  function NormalizeSavedSearchNotifications(s: NotificationSettings): (r: NotificationSettings)
    ensures r.email.Some? && r.email.value.enabled == Some(EmailEnabled(s)) && r.email.value.recipients.Some?
    ensures r.webhook.Some? && r.webhook.value.enabled == Some(WebhookEnabled(s))
    ensures !EmailEnabled(s) ==> r.email.value.recipients == Some([])
    ensures EmailEnabled(s) ==> r.email.value.recipients == Some(NormalizeFilterValues(s.email.value.recipients))
    ensures !WebhookEnabled(s) ==> r.webhook.value.url.None? && r.webhook.value.secret.None?
    ensures WebhookEnabled(s) ==> r.webhook.value.url == s.webhook.value.url && r.webhook.value.secret == s.webhook.value.secret
  {
    var emailEnabled := EmailEnabled(s);
    var webhookEnabled := WebhookEnabled(s);
    NotificationSettings(
      Some(EmailSettings(Some(emailEnabled),
        Some(if emailEnabled then NormalizeFilterValues(Some(s.email.value.recipients.GetOr([]))) else []))),
      Some(WebhookSettings(Some(webhookEnabled),
        if webhookEnabled then s.webhook.value.url else None,
        if webhookEnabled then s.webhook.value.secret else None)))
  }

  /** Normalising stored settings again changes nothing. */
  lemma NormalizeSavedSearchNotificationsIdempotent(s: NotificationSettings)
    ensures NormalizeSavedSearchNotifications(NormalizeSavedSearchNotifications(s)) == NormalizeSavedSearchNotifications(s)
  {
    if EmailEnabled(s) {
      NormalizeFilterValuesIdempotent(Some(s.email.value.recipients.GetOr([])));
    }
  }
}
