/**
 * The locale of a request, chosen from the `locale` cookie and the
 * `Accept-Language` header, which are given as optional strings.
 */
module I18nServer {
  import opened Common
  import opened Text
  import opened I18nConfig

  /** The locale named by a non-empty cookie value, compared on its lower-cased primary subtag. */
  function CookieLocale(cookie: Option<string>): Option<Locale> {
    if cookie.Some? && cookie.value != "" then MatchLocale(ToLower(PrimarySubtag(cookie.value))) else None
  }

  /**
   * The locale named by the first comma-separated entry of the header, trimmed and
   * lower-cased; quality weights (section 12.5.4 of RFC 9110) are not read.
   */
  function HeaderLocale(acceptLanguage: Option<string>): Option<Locale> {
    if acceptLanguage.Some? && acceptLanguage.value != "" then
      var preferred := ToLower(Trim(Split(acceptLanguage.value, ',')[0]));
      if preferred != "" then MatchLocale(PrimarySubtag(preferred)) else None
    else None
  }

  /** `resolveRequestLocale`: the cookie's locale, else the header's, else the default. */
  function ResolveRequestLocale(cookie: Option<string>, acceptLanguage: Option<string>): (r: Locale)
    ensures CookieLocale(cookie).Some? ==> r == CookieLocale(cookie).value
    ensures CookieLocale(cookie).None? && HeaderLocale(acceptLanguage).Some? ==> r == HeaderLocale(acceptLanguage).value
    ensures CookieLocale(cookie).None? && HeaderLocale(acceptLanguage).None? ==> r == DefaultLocale
  {
    var fromCookie := CookieLocale(cookie);
    if fromCookie.Some? then fromCookie.value
    else
      var fromHeader := HeaderLocale(acceptLanguage);
      if fromHeader.Some? then fromHeader.value else DefaultLocale
  }

  /** A cookie naming a locale, with or without a region, wins over any header. */
  lemma CookieWins(l: Locale, region: string, acceptLanguage: Option<string>)
    requires region == [] || region[0] == '-'
    ensures ResolveRequestLocale(Some(LocaleName(l) + region), acceptLanguage) == l
  {
    SplitFirst(LocaleName(l), region, '-');
    var tag := ToLower(PrimarySubtag(LocaleName(l) + region));
    assert tag == LocaleName(l);
  }

  /** A cookie that names no locale is ignored: the header decides as if there were no cookie. */
  lemma InvalidCookieFallsThrough(cookie: Option<string>, acceptLanguage: Option<string>)
    requires CookieLocale(cookie).None?
    ensures ResolveRequestLocale(cookie, acceptLanguage) == ResolveRequestLocale(None, acceptLanguage)
  {
  }

  /** Text without commas, white space or upper-case letters. */
  predicate Plain(s: string) {
    forall c | c in s :: c != ',' && !IsSpace(c) && !('A' <= c <= 'Z')
  }

  lemma PlainAppend(a: string, b: string)
    requires Plain(a) && Plain(b)
    ensures Plain(a + b)
  {
    assert forall c | c in a + b :: c in a || c in b;
  }

  lemma PlainLocale(l: Locale)
    ensures Plain(LocaleName(l)) && '-' !in LocaleName(l)
  {
  }

  /** Plain text is left alone by trimming and lower-casing. */
  lemma PlainText(s: string)
    requires Plain(s)
    ensures Trim(s) == s && ToLower(s) == s
  {
    if s != [] {
      assert s[0] in s && s[|s| - 1] in s;
    }
    assert forall i | 0 <= i < |s| :: s[i] in s;
  }

  /** The header entry that is read is the text before the first comma, trimmed and lower-cased. */
  lemma FirstEntry(entry: string, rest: string)
    requires Plain(entry)
    requires rest == [] || rest[0] == ','
    ensures ToLower(Trim(Split(entry + rest, ',')[0])) == entry
  {
    SplitFirst(entry, rest, ',');
    PlainText(entry);
  }

  /** A first header entry naming a locale, with or without a region, selects it when there is no usable cookie. */
  lemma HeaderFirstEntry(l: Locale, region: string, rest: string)
    requires region == [] || region[0] == '-'
    requires Plain(region)
    requires rest == [] || rest[0] == ','
    ensures ResolveRequestLocale(None, Some(LocaleName(l) + region + rest)) == l
  {
    var entry := LocaleName(l) + region;
    PlainLocale(l);
    PlainAppend(LocaleName(l), region);
    FirstEntry(entry, rest);
    SplitFirst(LocaleName(l), region, '-');
    HeaderNames(l, entry, rest);
    assert LocaleName(l) + region + rest == entry + rest;
  }

  lemma HeaderNames(l: Locale, entry: string, rest: string)
    requires ToLower(Trim(Split(entry + rest, ',')[0])) == entry
    requires Split(entry, '-')[0] == LocaleName(l)
    ensures HeaderLocale(Some(entry + rest)) == Some(l)
  {
    assert entry != "";
    assert MatchLocale(LocaleName(l)) == Some(l);
  }

  /**
   * A quality weight is not understood: an entry such as `de;q=0.9` names no locale,
   * so a request carrying only it gets the default.
   */
  lemma WeightedEntryIgnored(l: Locale, weight: string)
    requires Plain(weight) && '-' !in weight
    ensures ResolveRequestLocale(None, Some(LocaleName(l) + ";" + weight)) == DefaultLocale
  {
    var entry := LocaleName(l) + ";" + weight;
    PlainLocale(l);
    PlainAppend(LocaleName(l), ";");
    PlainAppend(LocaleName(l) + ";", weight);
    assert '-' !in entry by {
      assert forall c | c in entry :: c in LocaleName(l) + ";" || c in weight;
    }
    assert entry + "" == entry;
    FirstEntry(entry, "");
    SplitFirst(entry, "", '-');
    assert |entry| > 2;
  }

  /** Without a cookie or a header, the default locale is used. */
  lemma NothingGivesDefault()
    ensures ResolveRequestLocale(None, None) == DefaultLocale
  {
  }
}
