/**
 * The slug builders of the web app share one pipeline: every run of characters
 * outside `[a-z0-9]` becomes one `-`, a hyphen at either end is removed
 * (`/(^-|-$)+/g` and `/(^-|-$)/g`) and runs of hyphens are collapsed (`/-{2,}/g`).
 */
module Slugs {
  import opened Text

  predicate IsSlugChar(c: char) {
    ('a' <= c <= 'z') || ('0' <= c <= '9')
  }

  /** The class `[^a-z0-9]`. */
  predicate NotSlugChar(c: char) {
    !IsSlugChar(c)
  }

  predicate IsHyphen(c: char) {
    c == '-'
  }

  /** `.replace(/[^a-z0-9]+/g, "-")`. */
  function Hyphenate(s: string): (r: string)
    ensures forall c | c in r :: c == '-' || IsSlugChar(c)
    ensures Isolated(r, IsHyphen)
  {
    var r := ReplaceRuns(s, NotSlugChar, "-");
    ReplaceRunsChars(s, NotSlugChar, "-");
    ReplaceRunsIsolated(s, NotSlugChar, '-');
    assert forall i | 0 <= i < |r| :: IsHyphen(r[i]) ==> NotSlugChar(r[i]);
    r
  }

  /**
   * `.replace(/(^-|-$)+/g, "")`: a hyphen in the first position is removed, and so is
   * one in the last position; a string of two hyphens loses both in one match.
   */
  function StripEdgeHyphens(s: string): (r: string)
    ensures |r| <= |s|
    ensures forall c | c in r :: c in s
    ensures s == [] || (s[0] != '-' && s[|s| - 1] != '-') ==> r == s
  {
    if s == [] then []
    else
      var a := if s[0] == '-' then 1 else 0;
      var b := if |s| > a && s[|s| - 1] == '-' then |s| - 1 else |s|;
      s[a..b]
  }

  /** `.replace(/-{2,}/g, "-")`: every run of hyphens becomes one hyphen. */
  function CollapseHyphens(s: string): string {
    ReplaceRuns(s, IsHyphen, "-")
  }

  /** A slug: only `[a-z0-9-]`, no hyphen at either end and never two hyphens side by side. */
  predicate IsSlug(s: string) {
    && (forall c | c in s :: c == '-' || IsSlugChar(c))
    && (s == [] || (s[0] != '-' && s[|s| - 1] != '-'))
    && Isolated(s, IsHyphen)
  }

  /** Removing the edge hyphens of a hyphenated string leaves a slug. */
  lemma StripEdgesSlug(s: string)
    requires forall c | c in s :: c == '-' || IsSlugChar(c)
    requires Isolated(s, IsHyphen)
    ensures IsSlug(StripEdgeHyphens(s))
  {
    if s != [] {
      var a := if s[0] == '-' then 1 else 0;
      var b := if |s| > a && s[|s| - 1] == '-' then |s| - 1 else |s|;
      IsolatedInfix(s, IsHyphen, a, b);
      var r := s[a..b];
      if r != [] {
        assert r[0] == s[a] && r[|r| - 1] == s[b - 1];
        assert a == 1 ==> !IsHyphen(s[1]);
        assert b == |s| - 1 ==> !IsHyphen(s[|s| - 2]);
      }
    }
  }

  /** Collapsing runs of hyphens changes nothing in a string whose hyphens are isolated. */
  lemma CollapseIsolated(s: string)
    requires Isolated(s, IsHyphen)
    ensures CollapseHyphens(s) == s
  {
    ReplaceRunsSingles(s, IsHyphen, '-');
  }

  /** The whole pipeline, applied to any text, yields a slug, and its last step changes nothing. */
  lemma PipelineSlug(s: string)
    ensures IsSlug(CollapseHyphens(StripEdgeHyphens(Hyphenate(s))))
    ensures CollapseHyphens(StripEdgeHyphens(Hyphenate(s))) == StripEdgeHyphens(Hyphenate(s))
  {
    StripEdgesSlug(Hyphenate(s));
    CollapseIsolated(StripEdgeHyphens(Hyphenate(s)));
  }

  /** Lower-casing, trimming and every step of the pipeline leave a slug as it is. */
  lemma SlugFixpoint(s: string)
    requires IsSlug(s)
    ensures ToLower(s) == s
    ensures Trim(s) == s
    ensures Hyphenate(s) == s
    ensures StripEdgeHyphens(s) == s
    ensures CollapseHyphens(s) == s
  {
    SlugLower(s);
    SlugTrimmed(s);
    SlugHyphenated(s);
    CollapseIsolated(s);
  }

  lemma SlugLower(s: string)
    requires forall c | c in s :: c == '-' || IsSlugChar(c)
    ensures ToLower(s) == s
  {
    assert forall i | 0 <= i < |s| :: s[i] in s;
  }

  lemma SlugTrimmed(s: string)
    requires forall c | c in s :: c == '-' || IsSlugChar(c)
    ensures Trim(s) == s
  {
    if s != [] {
      assert s[0] in s && s[|s| - 1] in s;
    }
  }

  lemma SlugHyphenated(s: string)
    requires forall c | c in s :: c == '-' || IsSlugChar(c)
    requires Isolated(s, IsHyphen)
    ensures Hyphenate(s) == s
  {
    assert Isolated(s, NotSlugChar) by {
      forall i | 0 <= i < |s| - 1
        ensures !(NotSlugChar(s[i]) && NotSlugChar(s[i + 1]))
      {
        assert s[i] in s && s[i + 1] in s;
      }
    }
    ReplaceRunsSingles(s, NotSlugChar, '-');
  }
}
