/**
 * The saved-search editor: the filters it keeps (trimmed, without empty values),
 * the query it sends to the CV list for a preview, and the request body it saves.
 * A query is kept as its ordered name/value pairs; the percent-encoding of
 * `URLSearchParams.toString` is not part of this model.
 */
module SearchBuilder {
  import opened Common
  import opened Text
  import opened Search
  import FilterPanel

  // ----- Normalising the edited filters -----

  /** `values?.map(v => v.trim()).filter(Boolean)`: a present list trimmed and without empty values, a missing one kept missing. */
  function NormalizeList(values: Option<seq<string>>): (r: Option<seq<string>>)
    ensures r.None? <==> values.None?
    ensures r.Some? ==> |r.value| <= |values.value| && forall s | s in r.value :: s != "" && IsTrimmed(s)
  {
    if values.None? then None else Some(NonEmpty(TrimAll(values.value)))
  }

  /** The values kept are exactly the non-empty trimmed forms of the given ones. */
  lemma NormalizeListMembers(values: seq<string>)
    ensures forall s :: s in NormalizeList(Some(values)).value <==> s != "" && exists x | x in values :: s == Trim(x)
  {
    var r := NonEmpty(TrimAll(values));
    forall s | s in r ensures exists x | x in values :: s == Trim(x) {
      var i :| 0 <= i < |values| && TrimAll(values)[i] == s;
      assert values[i] in values;
    }
    forall x | x in values && Trim(x) != "" ensures Trim(x) in r {
      var i :| 0 <= i < |values| && values[i] == x;
      assert TrimAll(values)[i] == Trim(x);
    }
  }

  /** The filter keeps order and duplicates: a joined list normalises to the joined normalised lists. */
  lemma NormalizeListAppend(xs: seq<string>, ys: seq<string>)
    ensures NormalizeList(Some(xs + ys)) == Some(NormalizeList(Some(xs)).value + NormalizeList(Some(ys)).value)
  {
    TrimAllAppend(xs, ys);
    NonEmptyAppend(TrimAll(xs), TrimAll(ys));
  }

  /** One value gives its trimmed form, or nothing when that is empty. */
  lemma NormalizeListSingle(x: string)
    ensures NormalizeList(Some([x])) == Some(if Trim(x) == "" then [] else [Trim(x)])
  {
    var y := Trim(x);
    assert TrimAll([x]) == [y];
    assert [y][1..] == [];
    assert NonEmpty([y]) == (if y != "" then [y] else []) + NonEmpty([]);
    assert NonEmpty([]) == [];
    assert NonEmpty([y]) == (if y != "" then [y] else []);
    assert NormalizeList(Some([x])) == Some(NonEmpty(TrimAll([x])));
  }

  /** `normalizeFilters`: no filters give the empty filters; otherwise each of the seven lists is normalised. */
  function NormalizeFilters(filters: Option<Filters>): (r: Filters)
    ensures filters.None? ==> forall k :: FilterPanel.Get(r, k).None?
    ensures filters.Some? ==> forall k :: FilterPanel.Get(r, k) == NormalizeList(FilterPanel.Get(filters.value, k))
  {
    if filters.None? then
      var r := Filters(None, None, None, None, None, None, None);
      assert forall k :: FilterPanel.Get(r, k).None? by {
        forall k ensures FilterPanel.Get(r, k).None? { EachKey(k); }
      }
      r
    else
      var f := filters.value;
      var r := Filters(
        skills := NormalizeList(f.skills),
        industries := NormalizeList(f.industries),
        technologies := NormalizeList(f.technologies),
        seniority := NormalizeList(f.seniority),
        availability := NormalizeList(f.availability),
        languages := NormalizeList(f.languages),
        locations := NormalizeList(f.locations));
      assert forall k :: FilterPanel.Get(r, k) == NormalizeList(FilterPanel.Get(f, k)) by {
        forall k ensures FilterPanel.Get(r, k) == NormalizeList(FilterPanel.Get(f, k)) { EachKey(k); }
      }
      r
  }

  /** The seven keys, for a proof by cases. */
  lemma EachKey(k: FilterPanel.FilterKey)
    ensures k in {FilterPanel.Skills, FilterPanel.Industries, FilterPanel.Technologies, FilterPanel.Seniority,
                  FilterPanel.Availability, FilterPanel.Languages, FilterPanel.Locations}
  {
  }

  /** A list of trimmed, non-empty values is left as it is, duplicates included. */
  lemma NormalizeListKeeps(values: seq<string>)
    requires forall s | s in values :: s != "" && IsTrimmed(s)
    ensures NormalizeList(Some(values)) == Some(values)
  {
    TrimAllKeeps(values);
    NonEmptyKeeps(values);
  }

  /** Duplicates are not removed: a value given twice is kept twice. */
  lemma NormalizeListNoDedup(v: string)
    requires v != "" && IsTrimmed(v)
    ensures NormalizeList(Some([v, v])) == Some([v, v])
  {
    NormalizeListKeeps([v, v]);
  }

  /** Normalising the edited filters twice is normalising them once. */
  lemma NormalizeFiltersIdempotent(filters: Option<Filters>)
    ensures NormalizeFilters(Some(NormalizeFilters(filters))) == NormalizeFilters(filters)
  {
    var once := NormalizeFilters(filters);
    forall k ensures NormalizeList(FilterPanel.Get(once, k)) == FilterPanel.Get(once, k) {
      if FilterPanel.Get(once, k).Some? {
        NormalizeListKeeps(FilterPanel.Get(once, k).value);
      }
    }
    FilterPanel.FiltersByKeys(NormalizeFilters(Some(once)), once);
  }

  // ----- The preview query -----

  /** One pair `(name, value)` for every value, in order. */
  function Pairs(name: string, values: seq<string>): (r: Params)
    ensures |r| == |values|
    ensures forall i | 0 <= i < |values| :: r[i] == (name, values[i])
  {
    seq(|values|, i requires 0 <= i < |values| => (name, values[i]))
  }

  /** The values read back under `other` from the pairs of `name`. */
  lemma {:induction false} GetAllPairs(name: string, values: seq<string>, other: string)
    ensures GetAll(Pairs(name, values), other) == if name == other then values else []
    decreases |values|
  {
    if values != [] {
      assert Pairs(name, values)[1..] == Pairs(name, values[1..]);
      GetAllPairs(name, values[1..], other);
      if name == other {
        assert [values[0]] + values[1..] == values;
      }
    }
  }

  /** `appendValues(key, values)`: one `params.append` per value. */
  method AppendValues(params: Params, name: string, values: Option<seq<string>>) returns (next: Params)
    ensures next == params + Pairs(name, Values(values))
  {
    next := params;
    var vs := Values(values);
    for i := 0 to |vs|
      invariant next == params + Pairs(name, vs[..i])
    {
      assert Pairs(name, vs[..i + 1]) == Pairs(name, vs[..i]) + [(name, vs[i])];
      next := next + [(name, vs[i])];
    }
    assert vs[..|vs|] == vs;
  }

  /** The parameter names in the order the query lists them. */
  function QueryPairs(f: Filters): Params {
    Pairs("skills", Values(f.skills)) + Pairs("technology", Values(f.technologies))
    + Pairs("industry", Values(f.industries)) + Pairs("seniority", Values(f.seniority))
    + Pairs("availability", Values(f.availability)) + Pairs("language", Values(f.languages))
    + Pairs("location", Values(f.locations))
  }

  /** `filtersToQuery`: the pairs of the seven lists, one list after the other. */
  method FiltersToQuery(filters: Filters) returns (params: Params)
    ensures params == QueryPairs(filters)
  {
    params := [];
    params := AppendValues(params, "skills", filters.skills);
    params := AppendValues(params, "technology", filters.technologies);
    params := AppendValues(params, "industry", filters.industries);
    params := AppendValues(params, "seniority", filters.seniority);
    params := AppendValues(params, "availability", filters.availability);
    params := AppendValues(params, "language", filters.languages);
    params := AppendValues(params, "location", filters.locations);
  }

  /** Reading one name from a concatenation of seven blocks of pairs. */
  lemma GetAllSeven(names: seq<string>, lists: seq<seq<string>>, other: string)
    requires |names| == 7 && |lists| == 7
    ensures GetAll(Pairs(names[0], lists[0]) + Pairs(names[1], lists[1]) + Pairs(names[2], lists[2])
                   + Pairs(names[3], lists[3]) + Pairs(names[4], lists[4]) + Pairs(names[5], lists[5])
                   + Pairs(names[6], lists[6]), other)
            == (if names[0] == other then lists[0] else []) + (if names[1] == other then lists[1] else [])
               + (if names[2] == other then lists[2] else []) + (if names[3] == other then lists[3] else [])
               + (if names[4] == other then lists[4] else []) + (if names[5] == other then lists[5] else [])
               + (if names[6] == other then lists[6] else [])
  {
    var p0, p1, p2, p3 := Pairs(names[0], lists[0]), Pairs(names[1], lists[1]), Pairs(names[2], lists[2]), Pairs(names[3], lists[3]);
    var p4, p5, p6 := Pairs(names[4], lists[4]), Pairs(names[5], lists[5]), Pairs(names[6], lists[6]);
    GetAllAppend(p0, p1, other);
    GetAllAppend(p0 + p1, p2, other);
    GetAllAppend(p0 + p1 + p2, p3, other);
    GetAllAppend(p0 + p1 + p2 + p3, p4, other);
    GetAllAppend(p0 + p1 + p2 + p3 + p4, p5, other);
    GetAllAppend(p0 + p1 + p2 + p3 + p4 + p5, p6, other);
    GetAllPairs(names[0], lists[0], other);
    GetAllPairs(names[1], lists[1], other);
    GetAllPairs(names[2], lists[2], other);
    GetAllPairs(names[3], lists[3], other);
    GetAllPairs(names[4], lists[4], other);
    GetAllPairs(names[5], lists[5], other);
    GetAllPairs(names[6], lists[6], other);
  }

  /** The query names, in query order. */
  const QueryNames: seq<string> := ["skills", "technology", "industry", "seniority", "availability", "language", "location"]

  function QueryLists(f: Filters): seq<seq<string>> {
    [Values(f.skills), Values(f.technologies), Values(f.industries), Values(f.seniority),
     Values(f.availability), Values(f.languages), Values(f.locations)]
  }

  /** Every name of the query is read by the search as the field it was written from. */
  lemma QueryFields(f: Filters)
    ensures GetAll(QueryPairs(f), "skills") == Values(f.skills)
    ensures GetAll(QueryPairs(f), "technology") == Values(f.technologies)
    ensures GetAll(QueryPairs(f), "industry") == Values(f.industries)
    ensures GetAll(QueryPairs(f), "seniority") == Values(f.seniority)
    ensures GetAll(QueryPairs(f), "availability") == Values(f.availability)
    ensures GetAll(QueryPairs(f), "language") == Values(f.languages)
    ensures GetAll(QueryPairs(f), "location") == Values(f.locations)
  {
    var names, lists := QueryNames, QueryLists(f);
    GetAllSeven(names, lists, "skills");
    GetAllSeven(names, lists, "technology");
    GetAllSeven(names, lists, "industry");
    GetAllSeven(names, lists, "seniority");
    GetAllSeven(names, lists, "availability");
    GetAllSeven(names, lists, "language");
    GetAllSeven(names, lists, "location");
  }

  /** A list the search reads back unchanged: distinct, trimmed, non-empty, comma-free values. */
  predicate Reloadable(o: Option<seq<string>>) {
    NoDuplicates(Values(o)) && forall s | s in Values(o) :: IsListValue(s)
  }

  /** The filters with every empty list dropped. */
  function Compact(f: Filters): (r: Filters)
    ensures forall k :: Values(FilterPanel.Get(r, k)) == Values(FilterPanel.Get(f, k))
    ensures forall k :: FilterPanel.Get(r, k).None? <==> Values(FilterPanel.Get(f, k)) == []
  {
    Filters(IfAny(Values(f.skills)), IfAny(Values(f.industries)), IfAny(Values(f.technologies)),
      IfAny(Values(f.seniority)), IfAny(Values(f.availability)), IfAny(Values(f.languages)),
      IfAny(Values(f.locations)))
  }

  lemma FieldRoundTrip(params: Params, name: string, o: Option<seq<string>>)
    requires Reloadable(o) && GetAll(params, name) == Values(o)
    ensures FieldFrom(params, name) == IfAny(Values(o))
  {
    NormalizeFilterValuesFixpoint(Values(o));
  }

  /**
   * The preview query is read by the search as the same filters, except that an
   * empty list comes back missing.
   */
  lemma QueryRoundTrip(f: Filters)
    requires Reloadable(f.skills) && Reloadable(f.industries) && Reloadable(f.technologies) && Reloadable(f.seniority)
    requires Reloadable(f.availability) && Reloadable(f.languages) && Reloadable(f.locations)
    ensures ParsedFilters(QueryPairs(f)) == Compact(f)
  {
    var params := QueryPairs(f);
    QueryFields(f);
    FieldRoundTrip(params, "skills", f.skills);
    FieldRoundTrip(params, "technology", f.technologies);
    FieldRoundTrip(params, "industry", f.industries);
    FieldRoundTrip(params, "seniority", f.seniority);
    FieldRoundTrip(params, "availability", f.availability);
    FieldRoundTrip(params, "language", f.languages);
    FieldRoundTrip(params, "location", f.locations);
  }

  /** A well-formed list is read back as itself. */
  lemma WellFormedListReloadable(o: Option<seq<string>>)
    requires WellFormedList(o)
    ensures Reloadable(o) && IfAny(Values(o)) == o
  {
  }

  /** Well-formed filters, whose present lists are never empty, come back exactly. */
  lemma WellFormedQueryRoundTrip(f: Filters)
    requires WellFormed(f)
    ensures ParsedFilters(QueryPairs(f)) == f
  {
    WellFormedListReloadable(f.skills);
    WellFormedListReloadable(f.industries);
    WellFormedListReloadable(f.technologies);
    WellFormedListReloadable(f.seniority);
    WellFormedListReloadable(f.availability);
    WellFormedListReloadable(f.languages);
    WellFormedListReloadable(f.locations);
    QueryRoundTrip(f);
  }

  // ----- Saving -----

  datatype Notifications = Notifications(
    emailEnabled: bool, recipients: seq<string>,
    webhookEnabled: bool, webhookUrl: Option<string>, webhookSecret: Option<string>)

  datatype SaveBody = SaveBody(name: string, description: string, filters: Filters, notifications: Notifications)

  /** The recipients field: the comma-separated addresses, trimmed, without empty ones. */
  function Recipients(text: string): (r: seq<string>)
    ensures forall s | s in r :: IsListValue(s)
  {
    CommaList(text)
  }

  /** The recipients of a stored search, shown joined by `", "`, are read back as they were. */
  lemma RecipientsRoundTrip(recipients: seq<string>)
    requires forall s | s in recipients :: IsListValue(s)
    ensures Recipients(Join(recipients, ", ")) == recipients
  {
    CommaListJoin(recipients);
  }

  /** The body of the save request built from the editor's fields. */
  function BuildSaveBody(
    name: string, description: string, filters: Filters, emailEnabled: bool, recipientsText: string,
    webhookEnabled: bool, webhookUrl: string, webhookSecret: string): (r: SaveBody)
    ensures r.filters == filters && r.notifications.recipients == Recipients(recipientsText)
    ensures r.notifications.webhookUrl == OrUndefined(webhookUrl)
    ensures r.notifications.webhookSecret == OrUndefined(webhookSecret)
  {
    SaveBody(name, description, filters,
      Notifications(emailEnabled, Recipients(recipientsText), webhookEnabled, OrUndefined(webhookUrl), OrUndefined(webhookSecret)))
  }

  datatype HttpMethod = Post | Put

  /** A search that has a (non-empty) id is updated at its own address; otherwise a new one is created. */
  function SaveTarget(currentSearchId: Option<string>): (r: (HttpMethod, string))
    ensures r.0 == Put <==> currentSearchId.Some? && currentSearchId.value != ""
    ensures r.0 == Put ==> r.1 == "/api/searches/" + currentSearchId.value
    ensures r.0 == Post ==> r.1 == "/api/searches"
  {
    if currentSearchId.Some? && currentSearchId.value != "" then (Put, "/api/searches/" + currentSearchId.value)
    else (Post, "/api/searches")
  }
}
