/**
 * The search page's form: list inputs typed as comma-separated text, the values a
 * clicked suggestion adds, the page count shown under the results, and the query
 * parameters of a search request. The similarity threshold is a floating-point
 * number and is given here as its rendered text, or none when it is not finite.
 */
module SearchClient {
  import opened Common
  import opened Text
  import opened Search
  import SearchBuilder
  import FilterPanel

  // ----- List inputs -----

  /** A list input: the text in the field and the values the form holds for it. */
  datatype ListInput = ListInput(text: string, values: seq<string>)

  /** The held values are what `parseList` reads from the text. */
  predicate InSync(input: ListInput) {
    CommaList(input.text) == input.values
  }

  /** Typing into a list input: the text is kept and `parseList` of it becomes the values. */
  function ChangeInput(text: string): (r: ListInput)
    ensures r.text == text && InSync(r)
    ensures forall s | s in r.values :: IsListValue(s)
  {
    ListInput(text, CommaList(text))
  }

  /** The input as first shown holds the initial values joined by `", "`; list values make it agree. */
  lemma InitialInSync(values: seq<string>)
    requires forall s | s in values :: IsListValue(s)
    ensures InSync(ListInput(Join(values, ", "), values))
  {
    CommaListJoin(values);
  }

  /** `addValue`: a value already present, ignoring case, changes nothing; otherwise it is appended. */
  function AddValue(prev: seq<string>, value: string): (r: seq<string>)
    ensures ContainsIgnoreCase(prev, value) ==> r == prev
    ensures !ContainsIgnoreCase(prev, value) ==> r == prev + [value]
    ensures ContainsIgnoreCase(r, value)
  {
    if ContainsIgnoreCase(prev, value) then prev
    else
      var r := prev + [value];
      assert EqualsIgnoreCase(r[|prev|], value);
      r
  }

  /** Adding the same value twice is adding it once. */
  lemma AddValueIdempotent(prev: seq<string>, value: string)
    ensures AddValue(AddValue(prev, value), value) == AddValue(prev, value)
  {
  }

  /** Adding a value that is not there is what toggling it in the filter panel does. */
  lemma AddValueIsToggleOn(prev: seq<string>, value: string)
    requires !ContainsIgnoreCase(prev, value)
    ensures AddValue(prev, value) == FilterPanel.ToggleValue(Some(prev), value)
  {
  }

  /** A suggestion added to an input: the list grows as `addValue` says and the text shows the new list. */
  function AddToInput(input: ListInput, value: string): (r: ListInput)
    ensures r.values == AddValue(input.values, value)
    ensures ContainsIgnoreCase(input.values, value) ==> r == input
    ensures !ContainsIgnoreCase(input.values, value) ==> r.text == Join(r.values, ", ")
  {
    if ContainsIgnoreCase(input.values, value) then input
    else
      var next := input.values + [value];
      ListInput(Join(next, ", "), next)
  }

  /** An input whose text and values agree still agrees after a list value is added. */
  lemma AddToInputInSync(input: ListInput, value: string)
    requires InSync(input) && IsListValue(value)
    ensures InSync(AddToInput(input, value))
  {
    if !ContainsIgnoreCase(input.values, value) {
      var next := input.values + [value];
      assert forall s | s in next :: IsListValue(s);
      CommaListJoin(next);
    }
  }

  // ----- Suggestions -----

  /** The lists a suggestion can be added to. */
  datatype Target = Roles | Education | Skills | Languages | Certifications

  /** The `switch` over the suggestion type; an unknown type goes to the skills. */
  function SuggestionTarget(suggestionType: string): (r: Target)
    ensures suggestionType == "experience" <==> r == Roles
    ensures suggestionType == "education" <==> r == Education
    ensures suggestionType == "language" <==> r == Languages
    ensures suggestionType == "certification" <==> r == Certifications
    ensures r == Skills <==> suggestionType !in {"experience", "education", "language", "certification"}
  {
    match suggestionType
    case "experience" => Roles
    case "education" => Education
    case "skill" => Skills
    case "language" => Languages
    case "certification" => Certifications
    case _ => Skills
  }

  /** The state of the search form. */
  datatype SearchForm = SearchForm(
    keyword: string,
    skills: ListInput, roles: ListInput, education: ListInput, certifications: ListInput,
    languages: ListInput, locations: ListInput, technologies: ListInput, industries: ListInput,
    semanticEnabled: bool, threshold: Option<string>, pageSize: int)

  function Input(form: SearchForm, t: Target): ListInput {
    match t
    case Roles => form.roles
    case Education => form.education
    case Skills => form.skills
    case Languages => form.languages
    case Certifications => form.certifications
  }

  function WithInput(form: SearchForm, t: Target, input: ListInput): (r: SearchForm)
    ensures Input(r, t) == input
    ensures forall u | u != t :: Input(r, u) == Input(form, u)
  {
    match t
    case Roles => form.(roles := input)
    case Education => form.(education := input)
    case Skills => form.(skills := input)
    case Languages => form.(languages := input)
    case Certifications => form.(certifications := input)
  }

  /**
   * `handleSuggestionClick`: the suggested value is added to the list its type
   * selects, and semantic search is switched on; the new search it starts is not
   * part of this model.
   */
  function HandleSuggestionClick(form: SearchForm, suggestionType: string, value: string): (r: SearchForm)
    ensures Input(r, SuggestionTarget(suggestionType)).values
            == AddValue(Input(form, SuggestionTarget(suggestionType)).values, value)
    ensures forall u | u != SuggestionTarget(suggestionType) :: Input(r, u) == Input(form, u)
    ensures r.semanticEnabled
    ensures r.keyword == form.keyword && r.locations == form.locations && r.technologies == form.technologies
    ensures r.industries == form.industries && r.threshold == form.threshold && r.pageSize == form.pageSize
  {
    var t := SuggestionTarget(suggestionType);
    WithInput(form, t, AddToInput(Input(form, t), value)).(semanticEnabled := true)
  }

  // ----- Paging -----

  /** `Math.max(1, Math.ceil(total / pageSize))` for a positive page size. */
  function TotalPages(total: nat, pageSize: nat): (r: nat)
    requires pageSize >= 1
    ensures r >= 1
    ensures total <= r * pageSize
    ensures r == 1 || (r - 1) * pageSize < total
  {
    if total == 0 then 1 else (total + pageSize - 1) / pageSize
  }

  // ----- Request parameters -----

  /**
   * `URLSearchParams.set` as the URL Standard defines it: the first pair of that
   * name takes the value and the other pairs of that name are removed; without
   * such a pair, the pair is appended.
   */
  function SetParam(params: Params, name: string, value: string): (r: Params)
    ensures GetAll(r, name) == [value]
    ensures forall other | other != name :: GetAll(r, other) == GetAll(params, other)
    ensures GetAll(params, name) == [] ==> r == params + [(name, value)]
  {
    if GetAll(params, name) == [] then
      GetAllAppend(params, [(name, value)], name);
      assert forall other | other != name :: GetAll(params + [(name, value)], other) == GetAll(params, other) by {
        forall other | other != name ensures GetAll(params + [(name, value)], other) == GetAll(params, other) {
          GetAllAppend(params, [(name, value)], other);
        }
      }
      params + [(name, value)]
    else ReplaceFirst(params, name, value)
  }

  /** The pairs without any of name `name`. */
  function DropName(params: Params, name: string): (r: Params)
    ensures GetAll(r, name) == []
    ensures forall other | other != name :: GetAll(r, other) == GetAll(params, other)
  {
    if params == [] then []
    else if params[0].0 == name then DropName(params[1..], name)
    else [params[0]] + DropName(params[1..], name)
  }

  function ReplaceFirst(params: Params, name: string, value: string): (r: Params)
    requires GetAll(params, name) != []
    ensures GetAll(r, name) == [value]
    ensures forall other | other != name :: GetAll(r, other) == GetAll(params, other)
  {
    if params[0].0 == name then [(name, value)] + DropName(params[1..], name)
    else [params[0]] + ReplaceFirst(params[1..], name, value)
  }

  /** The list parameters, in the order the form appends them. */
  function ListPairs(form: SearchForm): Params {
    SearchBuilder.Pairs("skills", form.skills.values) + SearchBuilder.Pairs("role", form.roles.values)
    + SearchBuilder.Pairs("education", form.education.values)
    + SearchBuilder.Pairs("certification", form.certifications.values)
    + SearchBuilder.Pairs("language", form.languages.values) + SearchBuilder.Pairs("location", form.locations.values)
    + SearchBuilder.Pairs("technology", form.technologies.values)
    + SearchBuilder.Pairs("industry", form.industries.values)
  }

  const ListNames: set<string> :=
    {"skills", "role", "education", "certification", "language", "location", "technology", "industry"}

  lemma ListPairsNames(form: SearchForm)
    ensures NamedFrom(ListPairs(form), ListNames)
  {
    forall p | p in ListPairs(form) ensures p.0 in ListNames {
      var i :| 0 <= i < |ListPairs(form)| && ListPairs(form)[i] == p;
    }
  }

  /** The keyword parameter, sent when the trimmed keyword is not empty. */
  function KeywordPairs(keyword: string): Params {
    if Trim(keyword) != "" then [("q", Trim(keyword))] else []
  }

  /** The threshold parameter, sent when the threshold is a finite number. */
  function ThresholdPairs(threshold: Option<string>): Params {
    if threshold.Some? then [("semanticThreshold", threshold.value)] else []
  }

  /** The settings sent with every search: semantic search on or off, the threshold when known, and the page. */
  function SettingsPairs(form: SearchForm, nextPage: int): Params {
    [("semantic", if form.semanticEnabled then "1" else "0")]
    + ThresholdPairs(form.threshold)
    + [("page", IntToString(nextPage))] + [("pageSize", IntToString(form.pageSize))]
  }

  /** The query parameters of a search for page `nextPage`, in order. */
  function SearchParams(form: SearchForm, nextPage: int): Params {
    KeywordPairs(form.keyword) + ListPairs(form) + SettingsPairs(form, nextPage)
  }

  /** No pair of `params` has a name outside `names`. */
  predicate NamedFrom(params: Params, names: set<string>) {
    forall p | p in params :: p.0 in names
  }

  lemma NotNamed(params: Params, names: set<string>, name: string)
    requires NamedFrom(params, names) && name !in names
    ensures GetAll(params, name) == []
  {
    var r := GetAll(params, name);
    assert forall i | 0 <= i < |r| :: r[i] in r;
  }

  lemma NamedFromAppend(a: Params, b: Params, names: set<string>)
    requires NamedFrom(a, names) && NamedFrom(b, names)
    ensures NamedFrom(a + b, names)
  {
  }

  lemma NamedFromWider(params: Params, names: set<string>, more: set<string>)
    requires NamedFrom(params, names) && names <= more
    ensures NamedFrom(params, more)
  {
  }

  /** `const q = keyword.trim(); if (q) params.set("q", q)` on the empty parameters. */
  method SetKeyword(keyword: string) returns (params: Params)
    ensures params == KeywordPairs(keyword)
    ensures NamedFrom(params, {"q"})
  {
    params := [];
    var q := Trim(keyword);
    if q != "" {
      params := SetParam(params, "q", q);
    }
  }

  lemma AppendNamed(params: Params, names: set<string>, name: string, value: string)
    requires NamedFrom(params, names)
    ensures NamedFrom(params + [(name, value)], names + {name})
  {
  }

  /** The eight `forEach(... params.append ...)` loops. */
  method AppendLists(params: Params, form: SearchForm) returns (next: Params)
    ensures next == params + ListPairs(form)
  {
    next := SearchBuilder.AppendValues(params, "skills", Some(form.skills.values));
    next := SearchBuilder.AppendValues(next, "role", Some(form.roles.values));
    next := SearchBuilder.AppendValues(next, "education", Some(form.education.values));
    next := SearchBuilder.AppendValues(next, "certification", Some(form.certifications.values));
    next := SearchBuilder.AppendValues(next, "language", Some(form.languages.values));
    next := SearchBuilder.AppendValues(next, "location", Some(form.locations.values));
    next := SearchBuilder.AppendValues(next, "technology", Some(form.technologies.values));
    next := SearchBuilder.AppendValues(next, "industry", Some(form.industries.values));
    Regroup(params, SearchBuilder.Pairs("skills", form.skills.values), SearchBuilder.Pairs("role", form.roles.values),
      SearchBuilder.Pairs("education", form.education.values), SearchBuilder.Pairs("certification", form.certifications.values),
      SearchBuilder.Pairs("language", form.languages.values), SearchBuilder.Pairs("location", form.locations.values),
      SearchBuilder.Pairs("technology", form.technologies.values), SearchBuilder.Pairs("industry", form.industries.values));
  }

  /** Appending eight blocks one after the other is appending their concatenation. */
  lemma Regroup<T>(p: seq<T>, a: seq<T>, b: seq<T>, c: seq<T>, d: seq<T>, e: seq<T>, f: seq<T>, g: seq<T>, h: seq<T>)
    ensures p + a + b + c + d + e + f + g + h == p + (a + b + c + d + e + f + g + h)
  {
  }

  /** `params.set` of a name not in use yet appends the pair. */
  method SetNew(params: Params, ghost names: set<string>, name: string, value: string) returns (next: Params)
    requires NamedFrom(params, names) && name !in names
    ensures next == params + [(name, value)]
    ensures NamedFrom(next, names + {name})
  {
    NotNamed(params, names, name);
    next := SetParam(params, name, value);
    AppendNamed(params, names, name, value);
  }

  /** `if (Number.isFinite(similarityThreshold)) params.set("semanticThreshold", ...)`. */
  method SetThreshold(params: Params, ghost names: set<string>, threshold: Option<string>) returns (next: Params)
    requires NamedFrom(params, names) && "semanticThreshold" !in names
    ensures next == params + ThresholdPairs(threshold)
    ensures NamedFrom(next, names + {"semanticThreshold"})
  {
    next := params;
    if threshold.Some? {
      next := SetNew(next, names, "semanticThreshold", threshold.value);
    }
  }

  /** The `params.set` calls after the lists; none of their names is in use yet, so each appends. */
  method AppendSettings(params: Params, form: SearchForm, nextPage: int) returns (next: Params)
    requires NamedFrom(params, ListNames + {"q"})
    ensures next == params + SettingsPairs(form, nextPage)
  {
    ghost var names := ListNames + {"q"};
    var semantic := if form.semanticEnabled then "1" else "0";
    next := SetNew(params, names, "semantic", semantic);
    names := names + {"semantic"};
    next := SetThreshold(next, names, form.threshold);
    names := names + {"semanticThreshold"};
    next := SetNew(next, names, "page", IntToString(nextPage));
    names := names + {"page"};
    next := SetNew(next, names, "pageSize", IntToString(form.pageSize));
    Regroup4(params, [("semantic", semantic)], ThresholdPairs(form.threshold), [("page", IntToString(nextPage))],
      [("pageSize", IntToString(form.pageSize))]);
  }

  lemma Regroup4<T>(p: seq<T>, a: seq<T>, b: seq<T>, c: seq<T>, d: seq<T>)
    ensures p + a + b + c + d == p + (a + b + c + d)
  {
  }

  /** `buildSearchParams`: the keyword when it is not blank, every list value, then the settings and the page. */
  method BuildSearchParams(form: SearchForm, nextPage: int) returns (params: Params)
    ensures params == SearchParams(form, nextPage)
  {
    params := SetKeyword(form.keyword);
    ghost var head := params;
    params := AppendLists(params, form);
    ListPairsNames(form);
    NamedFromWider(head, {"q"}, ListNames + {"q"});
    NamedFromWider(ListPairs(form), ListNames, ListNames + {"q"});
    NamedFromAppend(head, ListPairs(form), ListNames + {"q"});
    params := AppendSettings(params, form, nextPage);
  }

  /** Only the first of three blocks carries pairs of that name. */
  lemma GetAllFirst(a: Params, b: Params, c: Params, name: string)
    requires GetAll(b, name) == [] && GetAll(c, name) == []
    ensures GetAll(a + b + c, name) == GetAll(a, name)
  {
    GetAllAppend(a, b, name);
    GetAllAppend(a + b, c, name);
  }

  const SettingNames: set<string> := {"semantic", "semanticThreshold", "page", "pageSize"}

  lemma SettingsNames(form: SearchForm, nextPage: int)
    ensures NamedFrom(SettingsPairs(form, nextPage), SettingNames)
  {
  }

  /** A `q` parameter is sent exactly when the keyword is not blank, and it is the trimmed keyword. */
  lemma SearchParamsKeyword(form: SearchForm, nextPage: int)
    ensures GetAll(SearchParams(form, nextPage), "q") == if Trim(form.keyword) != "" then [Trim(form.keyword)] else []
  {
    ListPairsNames(form);
    NotNamed(ListPairs(form), ListNames, "q");
    SettingsNames(form, nextPage);
    NotNamed(SettingsPairs(form, nextPage), SettingNames, "q");
    GetAllFirst(KeywordPairs(form.keyword), ListPairs(form), SettingsPairs(form, nextPage), "q");
  }

  lemma GetAllFour(a: Params, b: Params, c: Params, d: Params, name: string)
    ensures GetAll(a + b + c + d, name) == GetAll(a, name) + GetAll(b, name) + GetAll(c, name) + GetAll(d, name)
  {
    GetAllAppend(a, b, name);
    GetAllAppend(a + b, c, name);
    GetAllAppend(a + b + c, d, name);
  }

  lemma GetAllSingle(n: string, v: string, name: string)
    ensures GetAll([(n, v)], name) == if n == name then [v] else []
  {
    assert [(n, v)][1..] == [];
  }

  /** Reading one name from the settings: the `semantic`, threshold, `page` and `pageSize` blocks in turn. */
  lemma SettingsGetAll(form: SearchForm, nextPage: int, name: string)
    requires name != "semanticThreshold"
    ensures GetAll(SettingsPairs(form, nextPage), name)
            == (if name == "semantic" then [if form.semanticEnabled then "1" else "0"] else [])
               + (if name == "page" then [IntToString(nextPage)] else [])
               + (if name == "pageSize" then [IntToString(form.pageSize)] else [])
  {
    var semantic := if form.semanticEnabled then "1" else "0";
    var page, pageSize := IntToString(nextPage), IntToString(form.pageSize);
    var b := ThresholdPairs(form.threshold);
    GetAllFour([("semantic", semantic)], b, [("page", page)], [("pageSize", pageSize)], name);
    if form.threshold.Some? {
      GetAllSingle("semanticThreshold", form.threshold.value, name);
    }
    GetAllSingle("semantic", semantic, name);
    GetAllSingle("page", page, name);
    GetAllSingle("pageSize", pageSize, name);
  }

  /** A name that is neither `q` nor a list name is read from the settings alone. */
  lemma SearchParamsTail(form: SearchForm, nextPage: int, name: string)
    requires name != "q" && name !in ListNames
    ensures GetAll(SearchParams(form, nextPage), name) == GetAll(SettingsPairs(form, nextPage), name)
  {
    var k, l := KeywordPairs(form.keyword), ListPairs(form);
    assert NamedFrom(k, {"q"});
    ListPairsNames(form);
    NotNamed(k, {"q"}, name);
    NotNamed(l, ListNames, name);
    GetAllLast(k, l, SettingsPairs(form, nextPage), name);
  }

  /** Only the last of three blocks carries pairs of that name. */
  lemma GetAllLast(a: Params, b: Params, c: Params, name: string)
    requires GetAll(a, name) == [] && GetAll(b, name) == []
    ensures GetAll(a + b + c, name) == GetAll(c, name)
  {
    GetAllAppend(a, b, name);
    GetAllAppend(a + b, c, name);
  }

  /** Every search request says whether semantic search is on. */
  lemma SearchParamsSemantic(form: SearchForm, nextPage: int)
    ensures GetAll(SearchParams(form, nextPage), "semantic") == [if form.semanticEnabled then "1" else "0"]
  {
    SettingsGetAll(form, nextPage, "semantic");
    SearchParamsTail(form, nextPage, "semantic");
  }

  /** Every search request names the page it asks for. */
  lemma SearchParamsPage(form: SearchForm, nextPage: int)
    ensures GetAll(SearchParams(form, nextPage), "page") == [IntToString(nextPage)]
  {
    SettingsGetAll(form, nextPage, "page");
    SearchParamsTail(form, nextPage, "page");
  }

  /** Every search request names the page size. */
  lemma SearchParamsPageSize(form: SearchForm, nextPage: int)
    ensures GetAll(SearchParams(form, nextPage), "pageSize") == [IntToString(form.pageSize)]
  {
    SettingsGetAll(form, nextPage, "pageSize");
    SearchParamsTail(form, nextPage, "pageSize");
  }
}
