/**
 * The taxonomy helpers (skills, industries, technologies): the synonym list
 * normaliser, the slug of a value, the normalised input of a create or update, and
 * the response a stored document maps to.
 */
module Taxonomy {
  import opened Common
  import opened Text
  import opened Slugs

  /**
   * `normalizeSynonyms`: every value trimmed, then a value kept only when it is
   * non-empty and this is its first occurrence in the trimmed list.
   */
  function NormalizeSynonyms(values: Option<seq<string>>): (r: seq<string>)
    ensures forall s | s in r :: s != "" && IsTrimmed(s)
  {
    var trimmed := TrimAll(values.GetOr([]));
    DedupSameValues(trimmed);
    NonEmpty(Dedup(trimmed))
  }

  /** Dropping empty strings from a list without duplicates leaves it without duplicates. */
  lemma {:induction false} NonEmptyDistinct(xs: seq<string>)
    requires NoDuplicates(xs)
    ensures NoDuplicates(NonEmpty(xs))
    decreases |xs|
  {
    if xs != [] {
      assert NoDuplicates(xs[1..]) by {
        forall i, j | 0 <= i < j < |xs[1..]| ensures xs[1..][i] != xs[1..][j] {
          assert xs[1..][i] == xs[i + 1] && xs[1..][j] == xs[j + 1];
        }
      }
      NonEmptyDistinct(xs[1..]);
      assert xs[0] !in xs[1..] by {
        forall j | 0 <= j < |xs[1..]| ensures xs[1..][j] != xs[0] {
          assert xs[1..][j] == xs[j + 1];
        }
      }
    }
  }

  /**
   * The synonyms are distinct, and they are exactly the non-empty trimmed values of
   * the input, in the order in which each first occurs.
   */
  lemma NormalizeSynonymsMeaning(values: Option<seq<string>>)
    ensures NoDuplicates(NormalizeSynonyms(values))
    ensures forall s | s in NormalizeSynonyms(values) :: s in TrimAll(values.GetOr([]))
    ensures forall s | s in TrimAll(values.GetOr([])) && s != "" :: s in NormalizeSynonyms(values)
  {
    var trimmed := TrimAll(values.GetOr([]));
    DedupNoDuplicates(trimmed);
    DedupSameValues(trimmed);
    NonEmptyDistinct(Dedup(trimmed));
  }

  /**
   * The synonyms of the first `k` values come first and in the same order: the
   * output follows the order in which each value first occurs.
   */
  lemma NormalizeSynonymsPrefix(values: seq<string>, k: nat)
    requires k <= |values|
    ensures NormalizeSynonyms(Some(values[..k])) <= NormalizeSynonyms(Some(values))
  {
    var trimmed := TrimAll(values);
    assert TrimAll(values[..k]) == trimmed[..k];
    DedupPrefix(trimmed, k);
    var d := Dedup(trimmed);
    var m := |Dedup(trimmed[..k])|;
    assert d[..m] == Dedup(trimmed[..k]);
    NonEmptyPrefix(d, m);
  }

  /** Normalising the synonyms of a normalised list changes nothing. */
  lemma NormalizeSynonymsIdempotent(values: Option<seq<string>>)
    ensures NormalizeSynonyms(Some(NormalizeSynonyms(values))) == NormalizeSynonyms(values)
  {
    var r := NormalizeSynonyms(values);
    NormalizeSynonymsMeaning(values);
    TrimAllKeeps(r);
    DedupOfDistinct(r);
    NonEmptyKeeps(r);
  }

  /** `slugifyTaxonomyValue`: lower-cased, trimmed, then the slug pipeline. */
  function SlugifyTaxonomyValue(value: string): (r: string)
    ensures IsSlug(r)
  {
    var r := CollapseHyphens(StripEdgeHyphens(Hyphenate(Trim(ToLower(value)))));
    PipelineSlug(Trim(ToLower(value)));
    r
  }

  /** A slug is its own slug, so slugifying twice is slugifying once. */
  lemma SlugifyTaxonomyValueIdempotent(value: string)
    ensures SlugifyTaxonomyValue(SlugifyTaxonomyValue(value)) == SlugifyTaxonomyValue(value)
  {
    SlugFixpoint(SlugifyTaxonomyValue(value));
  }

  /** The fields a caller supplies when creating or updating a taxonomy entry. */
  datatype TaxonomyInput = TaxonomyInput(name: string, description: Option<string>, synonyms: Option<seq<string>>)

  /**
   * `normalizeTaxonomyInput`: the name trimmed, the description trimmed or null
   * when missing, the synonyms normalised.
   */
  function NormalizeTaxonomyInput(input: TaxonomyInput): (r: TaxonomyInput)
    ensures r.name == Trim(input.name)
    ensures r.description.Some? <==> input.description.Some?
    ensures input.description.Some? ==> r.description.value == Trim(input.description.value)
    ensures r.synonyms == Some(NormalizeSynonyms(input.synonyms))
  {
    TaxonomyInput(
      Trim(input.name),
      if input.description.Some? then Some(Trim(input.description.value)) else None,
      Some(NormalizeSynonyms(input.synonyms)))
  }

  /** Normalising a normalised input changes nothing. */
  lemma NormalizeTaxonomyInputIdempotent(input: TaxonomyInput)
    ensures NormalizeTaxonomyInput(NormalizeTaxonomyInput(input)) == NormalizeTaxonomyInput(input)
  {
    TrimIdempotent(input.name);
    if input.description.Some? {
      TrimIdempotent(input.description.value);
    }
    NormalizeSynonymsIdempotent(input.synonyms);
  }

  /** A stored taxonomy document; `description` and `synonyms` may be missing. */
  datatype TaxonomyDocument = TaxonomyDocument(
    id: nat, slug: string, name: string, description: Maybe<string>, synonyms: Option<seq<string>>,
    createdAt: int, updatedAt: int)

  /** The response shape; the description is a string or null. */
  datatype TaxonomyResponse = TaxonomyResponse(
    id: nat, slug: string, name: string, description: Option<string>, synonyms: seq<string>,
    createdAt: int, updatedAt: int)

  /** `mapTaxonomyDocument`: a missing description becomes null, missing synonyms the empty list. */
  function MapTaxonomyDocument(d: TaxonomyDocument): (r: TaxonomyResponse)
    ensures r.id == d.id && r.slug == d.slug && r.name == d.name
    ensures r.createdAt == d.createdAt && r.updatedAt == d.updatedAt
    ensures r.description.Some? <==> d.description.Defined?
    ensures d.description.Defined? ==> r.description.value == d.description.value
    ensures d.synonyms.None? ==> r.synonyms == []
    ensures d.synonyms.Some? ==> r.synonyms == d.synonyms.value
  {
    TaxonomyResponse(d.id, d.slug, d.name, d.description.OrNull(), d.synonyms.GetOr([]), d.createdAt, d.updatedAt)
  }
}
