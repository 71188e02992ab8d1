/**
 * The CV search of the web app: filter values read from query parameters, the
 * exact-match regular expressions built from them, the `$match` stage of the
 * aggregation and the page window of `findCvs`. A regular expression is kept as
 * its source text and flag; the meaning given to it here is that of an anchored
 * literal pattern, the only kind this module builds.
 */
module Search {
  import opened Common
  import opened Text
  import opened CvDocs
  import DocStore

  /** `SavedSearchFilters`: seven optional lists of values. */
  datatype Filters = Filters(
    skills: Option<seq<string>>,
    industries: Option<seq<string>>,
    technologies: Option<seq<string>>,
    seniority: Option<seq<string>>,
    availability: Option<seq<string>>,
    languages: Option<seq<string>>,
    locations: Option<seq<string>>)

  /** A list that may be missing, read as empty when it is. */
  function Values(o: Option<seq<string>>): seq<string> {
    o.GetOr([])
  }

  /** Query parameters in order, as name/value pairs. */
  type Params = seq<(string, string)>

  /** `params.getAll(name)`: the values of every pair with that name, in order. */
  function GetAll(params: Params, name: string): (r: seq<string>)
    ensures forall v | v in r :: (name, v) in params
    ensures forall p | p in params && p.0 == name :: p.1 in r
  {
    if params == [] then []
    else (if params[0].0 == name then [params[0].1] else []) + GetAll(params[1..], name)
  }

  lemma {:induction false} GetAllAppend(a: Params, b: Params, name: string)
    ensures GetAll(a + b, name) == GetAll(a, name) + GetAll(b, name)
    decreases |a|
  {
    if a == [] {
      assert a + b == b;
    } else {
      assert (a + b)[1..] == a[1..] + b;
      GetAllAppend(a[1..], b, name);
    }
  }

  // ---------------------------------------------------------------------------
  // Regular expressions

  /** The characters `escapeRegex` escapes: `. * + ? ^ $ { } ( ) | [ ] \`. */
  predicate IsRegexSpecial(c: char) {
    c in ".*+?^${}()|[]\\"
  }

  /** `value.replace(/[.*+?^${}()|[\]\\]/g, "\\$&")`: a backslash before every special character. */
  function EscapeRegex(s: string): (r: string)
    ensures |r| >= |s|
    ensures (forall c | c in s :: !IsRegexSpecial(c)) ==> r == s
  {
    if s == [] then []
    else (if IsRegexSpecial(s[0]) then ['\\', s[0]] else [s[0]]) + EscapeRegex(s[1..])
  }

  /** Reading a pattern back as text: a backslash stands for the character after it. */
  function UnescapeRegex(t: string): string
    decreases |t|
  {
    if t == [] then []
    else if t[0] == '\\' && |t| >= 2 then [t[1]] + UnescapeRegex(t[2..])
    else [t[0]] + UnescapeRegex(t[1..])
  }

  /** A pattern made only of ordinary characters and escaped special ones, which matches its text literally. */
  predicate IsLiteralPattern(t: string)
    decreases |t|
  {
    || t == []
    || (!IsRegexSpecial(t[0]) && IsLiteralPattern(t[1..]))
    || (|t| >= 2 && t[0] == '\\' && IsRegexSpecial(t[1]) && IsLiteralPattern(t[2..]))
  }

  /** Escaping yields a literal pattern whose text is the input again. */
  lemma {:induction false} EscapeRegexLiteral(s: string)
    ensures IsLiteralPattern(EscapeRegex(s))
    ensures UnescapeRegex(EscapeRegex(s)) == s
    decreases |s|
  {
    if s != [] {
      EscapeRegexLiteral(s[1..]);
      var rest := EscapeRegex(s[1..]);
      if IsRegexSpecial(s[0]) {
        assert EscapeRegex(s) == ['\\', s[0]] + rest;
        assert (['\\', s[0]] + rest)[2..] == rest;
      } else {
        assert EscapeRegex(s) == [s[0]] + rest;
        assert ([s[0]] + rest)[1..] == rest;
      }
    }
  }

  datatype Regex = Regex(source: string, ignoreCase: bool)

  /**
   * What an anchored literal pattern `^p$` matches: exactly the text of `p`, ignoring
   * ASCII case under the `i` flag. Other patterns are not given a meaning here.
   */
  predicate ExactMatches(r: Regex, s: string) {
    && |r.source| >= 2 && r.source[0] == '^' && r.source[|r.source| - 1] == '$'
    && var p := r.source[1..|r.source| - 1];
       IsLiteralPattern(p) && (if r.ignoreCase then EqualsIgnoreCase(UnescapeRegex(p), s) else UnescapeRegex(p) == s)
  }

  /** ``new RegExp(`^${escapeRegex(value)}$`, "i")``: it matches `value` and nothing else, ignoring case. */
  function CreateExactMatchRegex(value: string): (r: Regex)
    ensures forall s :: ExactMatches(r, s) <==> EqualsIgnoreCase(value, s)
  {
    EscapeRegexLiteral(value);
    var r := Regex("^" + EscapeRegex(value) + "$", true);
    assert r.source[1..|r.source| - 1] == EscapeRegex(value);
    r
  }

  function ExactAll(values: seq<string>): (r: seq<Regex>)
    ensures |r| == |values|
    ensures forall i | 0 <= i < |values| :: r[i] == CreateExactMatchRegex(values[i])
  {
    seq(|values|, i requires 0 <= i < |values| => CreateExactMatchRegex(values[i]))
  }

  // ---------------------------------------------------------------------------
  // Filter values

  /** `text.split(",").map(trim).filter(Boolean)` for every value, concatenated (`flatMap`). */
  function CommaLists(values: seq<string>): (r: seq<string>)
    ensures forall s | s in r :: IsListValue(s)
  {
    if values == [] then [] else CommaList(values[0]) + CommaLists(values[1..])
  }

  lemma {:induction false} CommaListsAppend(a: seq<string>, b: seq<string>)
    ensures CommaLists(a + b) == CommaLists(a) + CommaLists(b)
    decreases |a|
  {
    if a == [] {
      assert a + b == b;
    } else {
      var head := CommaList(a[0]);
      assert (a + b)[0] == a[0] && (a + b)[1..] == a[1..] + b;
      assert CommaLists(a + b) == head + CommaLists(a[1..] + b);
      CommaListsAppend(a[1..], b);
      AppendAssoc(head, CommaLists(a[1..]), CommaLists(b));
    }
  }

  /** Values that are already list values come through the comma split as they are. */
  lemma {:induction false} CommaListsOfListValues(values: seq<string>)
    requires forall s | s in values :: IsListValue(s)
    ensures CommaLists(values) == values
    decreases |values|
  {
    if values != [] {
      assert values[0] in values;
      CommaListJoin([values[0]]);
      assert Join([values[0]], ", ") == values[0];
      CommaListsOfListValues(values[1..]);
      assert [values[0]] + values[1..] == values;
    }
  }

  /**
   * `normalizeFilterValues` (and `normalizeStringArray`, which is the same code): every
   * value split on commas, the pieces trimmed, the empty ones dropped and every piece
   * kept only where it first occurs.
   */
  function NormalizeFilterValues(values: Option<seq<string>>): (r: seq<string>)
    ensures forall s | s in r :: IsListValue(s)
    ensures NoDuplicates(r)
    ensures forall s :: s in r <==> s in CommaLists(values.GetOr([]))
  {
    var pieces := CommaLists(values.GetOr([]));
    DedupSameValues(pieces);
    DedupNoDuplicates(pieces);
    Dedup(pieces)
  }

  /** The pieces of the first `k` values come first and in the same order: the output follows first occurrences. */
  lemma NormalizeFilterValuesPrefix(values: seq<string>, k: nat)
    requires k <= |values|
    ensures NormalizeFilterValues(Some(values[..k])) <= NormalizeFilterValues(Some(values))
  {
    assert values == values[..k] + values[k..];
    CommaListsAppend(values[..k], values[k..]);
    var all := CommaLists(values);
    var m := |CommaLists(values[..k])|;
    assert all[..m] == CommaLists(values[..k]);
    DedupPrefix(all, m);
  }

  /** Distinct list values are their own normal form. */
  lemma NormalizeFilterValuesFixpoint(values: seq<string>)
    requires forall s | s in values :: IsListValue(s)
    requires NoDuplicates(values)
    ensures NormalizeFilterValues(Some(values)) == values
  {
    CommaListsOfListValues(values);
    DedupOfDistinct(values);
  }

  /** Normalising twice is normalising once. */
  lemma NormalizeFilterValuesIdempotent(values: Option<seq<string>>)
    ensures NormalizeFilterValues(Some(NormalizeFilterValues(values))) == NormalizeFilterValues(values)
  {
    NormalizeFilterValuesFixpoint(NormalizeFilterValues(values));
  }

  /** A list that is kept only when it is not empty. */
  function IfAny(values: seq<string>): (r: Option<seq<string>>)
    ensures r.None? <==> values == []
    ensures Values(r) == values
  {
    if |values| > 0 then Some(values) else None
  }

  /** A present list holds at least one value, and only distinct list values. */
  predicate WellFormedList(o: Option<seq<string>>) {
    o.Some? ==> o.value != [] && NoDuplicates(o.value) && forall s | s in o.value :: IsListValue(s)
  }

  /** One field of the parsed filters: the normalised values of parameter `name`, kept when there is one. */
  function FieldFrom(params: Params, name: string): (r: Option<seq<string>>)
    ensures WellFormedList(r)
  {
    IfAny(NormalizeFilterValues(Some(GetAll(params, name))))
  }

  /** The filters that `parseSearchFiltersFromParams` reads from the query. */
  function ParsedFilters(params: Params): Filters {
    Filters(
      skills := FieldFrom(params, "skills"),
      industries := FieldFrom(params, "industry"),
      technologies := FieldFrom(params, "technology"),
      seniority := FieldFrom(params, "seniority"),
      availability := FieldFrom(params, "availability"),
      languages := FieldFrom(params, "language"),
      locations := FieldFrom(params, "location"))
  }

  predicate WellFormed(f: Filters) {
    && WellFormedList(f.skills) && WellFormedList(f.industries) && WellFormedList(f.technologies)
    && WellFormedList(f.seniority) && WellFormedList(f.availability) && WellFormedList(f.languages)
    && WellFormedList(f.locations)
  }

  /** Every field read from a query is absent or a non-empty list of distinct list values. */
  lemma ParsedFiltersWellFormed(params: Params)
    ensures WellFormed(ParsedFilters(params))
  {
  }

  /** A field is set exactly when some parameter of its name carries a non-blank piece. */
  lemma FieldPresence(params: Params, name: string)
    ensures FieldFrom(params, name).Some? <==> CommaLists(GetAll(params, name)) != []
  {
    var pieces := CommaLists(GetAll(params, name));
    if pieces != [] {
      assert pieces[0] in NormalizeFilterValues(Some(GetAll(params, name)));
    }
  }

  /**
   * The presence of every field: `language`, `location`, `technology` and `industry`
   * fill `languages`, `locations`, `technologies` and `industries`.
   */
  lemma ParsedFiltersPresence(params: Params)
    ensures ParsedFilters(params).skills.Some? <==> CommaLists(GetAll(params, "skills")) != []
    ensures ParsedFilters(params).languages.Some? <==> CommaLists(GetAll(params, "language")) != []
    ensures ParsedFilters(params).locations.Some? <==> CommaLists(GetAll(params, "location")) != []
    ensures ParsedFilters(params).technologies.Some? <==> CommaLists(GetAll(params, "technology")) != []
    ensures ParsedFilters(params).industries.Some? <==> CommaLists(GetAll(params, "industry")) != []
    ensures ParsedFilters(params).seniority.Some? <==> CommaLists(GetAll(params, "seniority")) != []
    ensures ParsedFilters(params).availability.Some? <==> CommaLists(GetAll(params, "availability")) != []
  {
    FieldPresence(params, "skills");
    FieldPresence(params, "language");
    FieldPresence(params, "location");
    FieldPresence(params, "technology");
    FieldPresence(params, "industry");
    FieldPresence(params, "seniority");
    FieldPresence(params, "availability");
  }

  /** `parseSearchFiltersFromParams`: one field after the other, each set only when its list is not empty. */
  method ParseSearchFiltersFromParams(params: Params) returns (filters: Filters)
    ensures filters == ParsedFilters(params)
  {
    filters := Filters(None, None, None, None, None, None, None);

    var skills := NormalizeFilterValues(Some(GetAll(params, "skills")));
    if |skills| > 0 {
      filters := filters.(skills := Some(skills));
    }
    assert filters.skills == FieldFrom(params, "skills");
    var seniority := NormalizeFilterValues(Some(GetAll(params, "seniority")));
    if |seniority| > 0 {
      filters := filters.(seniority := Some(seniority));
    }
    assert filters.seniority == FieldFrom(params, "seniority");
    var availability := NormalizeFilterValues(Some(GetAll(params, "availability")));
    if |availability| > 0 {
      filters := filters.(availability := Some(availability));
    }
    assert filters.availability == FieldFrom(params, "availability");
    var languages := NormalizeFilterValues(Some(GetAll(params, "language")));
    if |languages| > 0 {
      filters := filters.(languages := Some(languages));
    }
    assert filters.languages == FieldFrom(params, "language");
    var locations := NormalizeFilterValues(Some(GetAll(params, "location")));
    if |locations| > 0 {
      filters := filters.(locations := Some(locations));
    }
    assert filters.locations == FieldFrom(params, "location");
    var technologies := NormalizeFilterValues(Some(GetAll(params, "technology")));
    if |technologies| > 0 {
      filters := filters.(technologies := Some(technologies));
    }
    assert filters.technologies == FieldFrom(params, "technology");
    var industries := NormalizeFilterValues(Some(GetAll(params, "industry")));
    if |industries| > 0 {
      filters := filters.(industries := Some(industries));
    }
  }

  // ---------------------------------------------------------------------------
  // The match stage

  /** The array fields the stage tests with `$all`: `consultant.languages` and `tags`. */
  datatype ArrayField = ConsultantLanguages | Tags

  /** The text fields the stage tests with `$in`: `consultant.seniority` and `consultant.location`. */
  datatype TextField = ConsultantSeniority | ConsultantLocation

  /** One element of the `$and` list. */
  datatype Condition =
    | SkillNamed(pattern: Regex)                       // skills: {$elemMatch: {name: pattern}}
    | TextIn(text: TextField, patterns: seq<Regex>)    // field: {$in: patterns}
    | StatusIn(statuses: seq<string>)                  // "availability.status": {$in: statuses}
    | AllOf(field: ArrayField, patterns: seq<Regex>)   // field: {$all: patterns}

  function TextAt(f: TextField, p: Profile): Option<string> {
    match f
    case ConsultantSeniority => p.consultant.seniority
    case ConsultantLocation => p.consultant.location
  }

  /** An array field; a missing array holds nothing. */
  function ArrayAt(f: ArrayField, p: Profile): seq<string> {
    match f
    case ConsultantLanguages => p.consultant.languages.GetOr([])
    case Tags => p.tags.GetOr([])
  }

  /** Whether a CV with this profile satisfies one condition. */
  predicate Holds(c: Condition, p: Profile) {
    match c
    case SkillNamed(r) => p.skills.Some? && exists k | k in p.skills.value :: ExactMatches(r, k.name)
    case TextIn(f, rs) => TextAt(f, p).Some? && exists r | r in rs :: ExactMatches(r, TextAt(f, p).value)
    case StatusIn(vs) => StatusName(p.availability.status) in vs
    case AllOf(f, rs) => forall r | r in rs :: exists x | x in ArrayAt(f, p) :: ExactMatches(r, x)
  }

  /** Every condition of a list holds: the meaning of `$and`. */
  predicate AllHold(cs: seq<Condition>, p: Profile) {
    forall c | c in cs :: Holds(c, p)
  }

  lemma AllHoldAppend(a: seq<Condition>, b: seq<Condition>, p: Profile)
    ensures AllHold(a + b, p) <==> AllHold(a, p) && AllHold(b, p)
  {
    assert forall c :: c in a + b <==> c in a || c in b;
  }

  function SkillConditions(skills: seq<string>): (r: seq<Condition>)
    ensures |r| == |skills|
    ensures forall i | 0 <= i < |skills| :: r[i] == SkillNamed(CreateExactMatchRegex(skills[i]))
  {
    seq(|skills|, i requires 0 <= i < |skills| => SkillNamed(CreateExactMatchRegex(skills[i])))
  }

  /** One condition when the list is not empty, none otherwise. */
  function When(values: seq<string>, c: Condition): seq<Condition> {
    if |values| > 0 then [c] else []
  }

  /** The `$and` list `buildMatchStage` collects, in the order it pushes them. */
  function Conditions(f: Filters): seq<Condition> {
    SkillConditions(Values(f.skills))
    + When(Values(f.seniority), TextIn(ConsultantSeniority, ExactAll(Values(f.seniority))))
    + When(Values(f.availability), StatusIn(Values(f.availability)))
    + When(Values(f.languages), AllOf(ConsultantLanguages, ExactAll(Values(f.languages))))
    + When(Values(f.locations), TextIn(ConsultantLocation, ExactAll(Values(f.locations))))
    + When(Values(f.technologies), AllOf(Tags, ExactAll(Values(f.technologies))))
    + When(Values(f.industries), AllOf(Tags, ExactAll(Values(f.industries))))
  }

  /** `buildMatchStage`: no stage when there is no condition, `{$and: conditions}` otherwise. */
  function MatchStage(f: Filters): Option<seq<Condition>> {
    var cs := Conditions(f);
    if |cs| == 0 then None else Some(cs)
  }

  function Count(b: bool): nat {
    if b then 1 else 0
  }

  /** One condition per skill and one per other non-empty field; no stage exactly when every list is empty. */
  lemma MatchStageShape(f: Filters)
    ensures |Conditions(f)| == |Values(f.skills)|
      + Count(Values(f.seniority) != []) + Count(Values(f.availability) != []) + Count(Values(f.languages) != [])
      + Count(Values(f.locations) != []) + Count(Values(f.technologies) != []) + Count(Values(f.industries) != [])
    ensures MatchStage(f).None? <==>
      && Values(f.skills) == [] && Values(f.seniority) == [] && Values(f.availability) == []
      && Values(f.languages) == [] && Values(f.locations) == [] && Values(f.technologies) == []
      && Values(f.industries) == []
  {
  }

  /** Every wanted skill is the name of one of the CV's skills, ignoring case. */
  predicate HasSkills(skills: seq<string>, p: Profile) {
    forall s | s in skills :: p.skills.Some? && exists k | k in p.skills.value :: EqualsIgnoreCase(s, k.name)
  }

  /** An empty list asks nothing; otherwise the text is present and equals one of the values, ignoring case. */
  predicate OneOf(values: seq<string>, text: Option<string>) {
    values != [] ==> text.Some? && exists s | s in values :: EqualsIgnoreCase(s, text.value)
  }

  /** Every value is, ignoring case, an element of the array. */
  predicate AllIn(values: seq<string>, elements: seq<string>) {
    forall s | s in values :: exists x | x in elements :: EqualsIgnoreCase(s, x)
  }

  /** What the filters ask of a CV, stated directly on its profile. */
  predicate Wanted(f: Filters, p: Profile) {
    && HasSkills(Values(f.skills), p)
    && OneOf(Values(f.seniority), p.consultant.seniority)
    && (Values(f.availability) != [] ==> StatusName(p.availability.status) in Values(f.availability))
    && AllIn(Values(f.languages), p.consultant.languages.GetOr([]))
    && OneOf(Values(f.locations), p.consultant.location)
    && AllIn(Values(f.technologies), p.tags.GetOr([]))
    && AllIn(Values(f.industries), p.tags.GetOr([]))
  }

  /** A CV passes the stage (or there is none). */
  predicate Admitted(stage: Option<seq<Condition>>, p: Profile) {
    stage.None? || AllHold(stage.value, p)
  }

  /** `$all` with the exact-match patterns of `values`: every value is in the array, ignoring case. */
  lemma AllOfMeaning(f: ArrayField, values: seq<string>, p: Profile)
    ensures Holds(AllOf(f, ExactAll(values)), p) <==> AllIn(values, ArrayAt(f, p))
  {
    var rs := ExactAll(values);
    var xs := ArrayAt(f, p);
    if Holds(AllOf(f, rs), p) {
      forall s | s in values ensures exists x | x in xs :: EqualsIgnoreCase(s, x) {
        var i := IndexOf(values, s);
        assert rs[i] in rs;
        var x :| x in xs && ExactMatches(rs[i], x);
        assert EqualsIgnoreCase(s, x);
      }
    }
    if AllIn(values, xs) {
      forall r | r in rs ensures exists x | x in xs :: ExactMatches(r, x) {
        var i := IndexOf(rs, r);
        assert values[i] in values;
        var x :| x in xs && EqualsIgnoreCase(values[i], x);
        assert ExactMatches(r, x);
      }
    }
  }

  /** `$in` with the exact-match patterns of `values` on a text that may be missing. */
  lemma InMeaning(values: seq<string>, text: Option<string>)
    requires values != []
    ensures (text.Some? && exists r | r in ExactAll(values) :: ExactMatches(r, text.value)) <==> OneOf(values, text)
  {
    var rs := ExactAll(values);
    if OneOf(values, text) {
      var s :| s in values && EqualsIgnoreCase(s, text.value);
      var i := IndexOf(values, s);
      assert rs[i] in rs && ExactMatches(rs[i], text.value);
    }
    if text.Some? && exists r | r in rs :: ExactMatches(r, text.value) {
      var r :| r in rs && ExactMatches(r, text.value);
      var i := IndexOf(rs, r);
      assert values[i] in values && EqualsIgnoreCase(values[i], text.value);
    }
  }

  /** `$in` on a text field: the field is present and equals one of the values, ignoring case. */
  lemma TextInMeaning(f: TextField, values: seq<string>, p: Profile)
    requires values != []
    ensures Holds(TextIn(f, ExactAll(values)), p) <==> OneOf(values, TextAt(f, p))
  {
    InMeaning(values, TextAt(f, p));
  }

  /** One `$elemMatch` per skill: every skill names one of the CV's skills, ignoring case. */
  lemma SkillsMeaning(skills: seq<string>, p: Profile)
    ensures AllHold(SkillConditions(skills), p) <==> HasSkills(skills, p)
  {
    var cs := SkillConditions(skills);
    if AllHold(cs, p) {
      forall s | s in skills ensures p.skills.Some? && exists k | k in p.skills.value :: EqualsIgnoreCase(s, k.name) {
        var i := IndexOf(skills, s);
        assert cs[i] in cs;
        var k :| k in p.skills.value && ExactMatches(cs[i].pattern, k.name);
        assert EqualsIgnoreCase(s, k.name);
      }
    }
    if HasSkills(skills, p) {
      forall c | c in cs ensures Holds(c, p) {
        var i := IndexOf(cs, c);
        assert skills[i] in skills;
        var k :| k in p.skills.value && EqualsIgnoreCase(skills[i], k.name);
        assert ExactMatches(c.pattern, k.name);
      }
    }
  }

  /** A pushed-when-not-empty condition holds exactly when its list is empty or it holds. */
  lemma WhenMeaning(values: seq<string>, c: Condition, p: Profile)
    ensures AllHold(When(values, c), p) <==> (values != [] ==> Holds(c, p))
  {
  }

  /** The stage built from the filters admits exactly the CVs the filters describe. */
  lemma MatchStageMeaning(f: Filters, p: Profile)
    ensures Admitted(MatchStage(f), p) <==> Wanted(f, p)
  {
    var skills, seniority, availability := Values(f.skills), Values(f.seniority), Values(f.availability);
    var languages, locations := Values(f.languages), Values(f.locations);
    var technologies, industries := Values(f.technologies), Values(f.industries);
    var c0 := SkillConditions(skills);
    var c1 := When(seniority, TextIn(ConsultantSeniority, ExactAll(seniority)));
    var c2 := When(availability, StatusIn(availability));
    var c3 := When(languages, AllOf(ConsultantLanguages, ExactAll(languages)));
    var c4 := When(locations, TextIn(ConsultantLocation, ExactAll(locations)));
    var c5 := When(technologies, AllOf(Tags, ExactAll(technologies)));
    var c6 := When(industries, AllOf(Tags, ExactAll(industries)));
    assert Conditions(f) == c0 + c1 + c2 + c3 + c4 + c5 + c6;
    assert Admitted(MatchStage(f), p) <==> AllHold(Conditions(f), p);
    AllHoldAppend(c0 + c1 + c2 + c3 + c4 + c5, c6, p);
    AllHoldAppend(c0 + c1 + c2 + c3 + c4, c5, p);
    AllHoldAppend(c0 + c1 + c2 + c3, c4, p);
    AllHoldAppend(c0 + c1 + c2, c3, p);
    AllHoldAppend(c0 + c1, c2, p);
    AllHoldAppend(c0, c1, p);
    SkillsMeaning(skills, p);
    WhenMeaning(seniority, TextIn(ConsultantSeniority, ExactAll(seniority)), p);
    if seniority != [] {
      TextInMeaning(ConsultantSeniority, seniority, p);
    }
    WhenMeaning(availability, StatusIn(availability), p);
    WhenMeaning(languages, AllOf(ConsultantLanguages, ExactAll(languages)), p);
    AllOfMeaning(ConsultantLanguages, languages, p);
    WhenMeaning(locations, TextIn(ConsultantLocation, ExactAll(locations)), p);
    if locations != [] {
      TextInMeaning(ConsultantLocation, locations, p);
    }
    WhenMeaning(technologies, AllOf(Tags, ExactAll(technologies)), p);
    AllOfMeaning(Tags, technologies, p);
    WhenMeaning(industries, AllOf(Tags, ExactAll(industries)), p);
    AllOfMeaning(Tags, industries, p);
  }

  /** `buildMatchStage`: the skill conditions pushed one by one, then one condition per other non-empty list. */
  method BuildMatchStage(f: Filters) returns (stage: Option<seq<Condition>>)
    ensures stage == MatchStage(f)
  {
    var conditions: seq<Condition> := [];
    var skills := Values(f.skills);
    for i := 0 to |skills|
      invariant conditions == SkillConditions(skills[..i])
    {
      conditions := conditions + [SkillNamed(CreateExactMatchRegex(skills[i]))];
    }
    assert skills[..|skills|] == skills;
    ghost var expected := conditions;
    if |Values(f.seniority)| > 0 {
      conditions := conditions + [TextIn(ConsultantSeniority, ExactAll(Values(f.seniority)))];
    }
    expected := expected + When(Values(f.seniority), TextIn(ConsultantSeniority, ExactAll(Values(f.seniority))));
    assert conditions == expected;
    if |Values(f.availability)| > 0 {
      conditions := conditions + [StatusIn(Values(f.availability))];
    }
    expected := expected + When(Values(f.availability), StatusIn(Values(f.availability)));
    assert conditions == expected;
    if |Values(f.languages)| > 0 {
      conditions := conditions + [AllOf(ConsultantLanguages, ExactAll(Values(f.languages)))];
    }
    expected := expected + When(Values(f.languages), AllOf(ConsultantLanguages, ExactAll(Values(f.languages))));
    assert conditions == expected;
    if |Values(f.locations)| > 0 {
      conditions := conditions + [TextIn(ConsultantLocation, ExactAll(Values(f.locations)))];
    }
    expected := expected + When(Values(f.locations), TextIn(ConsultantLocation, ExactAll(Values(f.locations))));
    assert conditions == expected;
    if |Values(f.technologies)| > 0 {
      conditions := conditions + [AllOf(Tags, ExactAll(Values(f.technologies)))];
    }
    expected := expected + When(Values(f.technologies), AllOf(Tags, ExactAll(Values(f.technologies))));
    assert conditions == expected;
    if |Values(f.industries)| > 0 {
      conditions := conditions + [AllOf(Tags, ExactAll(Values(f.industries)))];
    }
    expected := expected + When(Values(f.industries), AllOf(Tags, ExactAll(Values(f.industries))));
    assert conditions == expected == Conditions(f);
    if |conditions| == 0 {
      return None;
    }
    stage := Some(conditions);
  }

  // ---------------------------------------------------------------------------
  // Listing

  /** The fields of a search result. The hexadecimal rendering of the id is not part of this model. */
  datatype ListItem = ListItem(
    objectId: DocStore.Id,
    consultant: Consultant,
    availability: Availability,
    skills: seq<Skill>,
    tags: seq<string>,
    createdAt: Millis,
    updatedAt: Option<Millis>)

  /** `mapDocumentToListItem`: missing languages, skills and tags become empty lists; the rest is copied. */
  function MapDocumentToListItem(id: DocStore.Id, cv: DocStore.Cv): (item: ListItem)
    ensures item.consultant.languages.Some?
    ensures item.consultant == cv.profile.consultant.(languages := Some(cv.profile.consultant.languages.GetOr([])))
    ensures item.skills == cv.profile.skills.GetOr([]) && item.tags == cv.profile.tags.GetOr([])
    ensures item.objectId == id && item.availability == cv.profile.availability
    ensures item.createdAt == cv.createdAt && item.updatedAt == cv.updatedAt
  {
    var p := cv.profile;
    ListItem(id, p.consultant.(languages := Some(p.consultant.languages.GetOr([]))), p.availability,
             p.skills.GetOr([]), p.tags.GetOr([]), cv.createdAt, cv.updatedAt)
  }

  /** `Math.max(1, page ?? 1)`. */
  function PageNumber(page: Option<int>): (n: int)
    ensures n >= 1
    ensures page.None? ==> n == 1
    ensures page.Some? && page.value >= 1 ==> n == page.value
    ensures page.Some? && page.value < 1 ==> n == 1
  {
    var p := page.GetOr(1);
    if p < 1 then 1 else p
  }

  /** `Math.min(100, Math.max(1, pageSize ?? 20))`. */
  function PageSize(pageSize: Option<int>): (n: int)
    ensures 1 <= n <= 100
    ensures pageSize.None? ==> n == 20
    ensures pageSize.Some? && 1 <= pageSize.value <= 100 ==> n == pageSize.value
    ensures pageSize.Some? && pageSize.value < 1 ==> n == 1
    ensures pageSize.Some? && pageSize.value > 100 ==> n == 100
  {
    var s := pageSize.GetOr(20);
    if s < 1 then 1 else if s > 100 then 100 else s
  }

  datatype SearchResult = SearchResult(results: seq<ListItem>, total: nat, page: int, pageSize: int)

  /** The documents at positions `skip` to `skip + size`, or as many of them as there are. */
  function Window<T>(docs: seq<T>, skip: nat, size: nat): (w: seq<T>)
    ensures |w| == if skip >= |docs| then 0 else if |docs| - skip < size then |docs| - skip else size
    ensures forall i | 0 <= i < |w| :: skip + i < |docs| && w[i] == docs[skip + i]
  {
    if skip >= |docs| then [] else docs[skip..if skip + size <= |docs| then skip + size else |docs|]
  }

  /** Every document mapped to its list item, in order. */
  function ListItems(docs: seq<(DocStore.Id, DocStore.Cv)>): (items: seq<ListItem>)
    ensures |items| == |docs|
    ensures forall i | 0 <= i < |docs| :: items[i] == MapDocumentToListItem(docs[i].0, docs[i].1)
  {
    seq(|docs|, i requires 0 <= i < |docs| => MapDocumentToListItem(docs[i].0, docs[i].1))
  }

  /**
   * `findCvs` over the documents the match stage selected, already in the order of the
   * sort: the `$facet` counts them all and returns the window `$skip`/`$limit` of the page.
   */
  function FindCvs(matched: seq<(DocStore.Id, DocStore.Cv)>, page: Option<int>, pageSize: Option<int>): (r: SearchResult)
    ensures r.page >= 1 && 1 <= r.pageSize <= 100 && r.total == |matched|
    ensures |r.results| <= r.pageSize
    ensures var skip := (r.page - 1) * r.pageSize;
      skip >= 0
      && |r.results| == (if skip >= |matched| then 0 else if |matched| - skip < r.pageSize then |matched| - skip else r.pageSize)
      && forall i | 0 <= i < |r.results| :: skip + i < |matched|
           && r.results[i] == MapDocumentToListItem(matched[skip + i].0, matched[skip + i].1)
  {
    var n := PageNumber(page);
    var size := PageSize(pageSize);
    var skip := (n - 1) * size;
    var window := Window(matched, skip, size);
    SearchResult(ListItems(window), |matched|, n, size)
  }
}
