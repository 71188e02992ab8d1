/**
 * The filter panel of the CV list: a checkbox toggles a value in one of the
 * filter lists, compared without regard to ASCII case, and the free-text inputs
 * for languages and locations are read as comma-separated lists.
 */
module FilterPanel {
  import opened Common
  import opened Text
  import Search

  /** `ensureArray`: a missing list is read as empty. */
  function EnsureArray(values: Option<seq<string>>): (r: seq<string>)
    ensures values.None? ==> r == []
    ensures values.Some? ==> r == values.value
  {
    values.GetOr([])
  }

  /** The entries of `xs` that do not equal `value` ignoring case, in their order. */
  function Unmatched(xs: seq<string>, value: string): (r: seq<string>)
    ensures forall s | s in r :: s in xs && !EqualsIgnoreCase(s, value)
    ensures forall s | s in xs && !EqualsIgnoreCase(s, value) :: s in r
    ensures |r| <= |xs|
    ensures |r| == |xs| <==> !ContainsIgnoreCase(xs, value)
  {
    if xs == [] then []
    else
      var rest := Unmatched(xs[1..], value);
      assert ContainsIgnoreCase(xs, value) <==> EqualsIgnoreCase(xs[0], value) || ContainsIgnoreCase(xs[1..], value) by {
        if ContainsIgnoreCase(xs[1..], value) {
          var i :| 0 <= i < |xs[1..]| && EqualsIgnoreCase(xs[1..][i], value);
          assert xs[i + 1] == xs[1..][i];
        }
        if ContainsIgnoreCase(xs, value) && !EqualsIgnoreCase(xs[0], value) {
          var i :| 0 <= i < |xs| && EqualsIgnoreCase(xs[i], value);
          assert xs[1..][i - 1] == xs[i];
        }
      }
      (if EqualsIgnoreCase(xs[0], value) then [] else [xs[0]]) + rest
  }

  /** Dropping matches distributes over concatenation, so the kept entries stay in order. */
  lemma {:induction false} UnmatchedAppend(xs: seq<string>, ys: seq<string>, value: string)
    ensures Unmatched(xs + ys, value) == Unmatched(xs, value) + Unmatched(ys, value)
    decreases |xs|
  {
    if xs == [] {
      assert xs + ys == ys;
    } else {
      assert (xs + ys)[0] == xs[0] && (xs + ys)[1..] == xs[1..] + ys;
      var head := if EqualsIgnoreCase(xs[0], value) then [] else [xs[0]];
      assert Unmatched(xs + ys, value) == head + Unmatched(xs[1..] + ys, value);
      UnmatchedAppend(xs[1..], ys, value);
      AppendAssoc(head, Unmatched(xs[1..], value), Unmatched(ys, value));
    }
  }

  /** A list with no entry matching `value` loses nothing. */
  lemma {:induction false} UnmatchedNone(xs: seq<string>, value: string)
    requires !ContainsIgnoreCase(xs, value)
    ensures Unmatched(xs, value) == xs
  {
    var r := Unmatched(xs, value);
    assert |r| == |xs|;
    UnmatchedKeepsAll(xs, value);
  }

  lemma {:induction false} UnmatchedKeepsAll(xs: seq<string>, value: string)
    requires |Unmatched(xs, value)| == |xs|
    ensures Unmatched(xs, value) == xs
    decreases |xs|
  {
    if xs != [] && !EqualsIgnoreCase(xs[0], value) {
      UnmatchedKeepsAll(xs[1..], value);
      assert [xs[0]] + xs[1..] == xs;
    }
  }

  /**
   * `toggleValue`: with no entry equal to `value` ignoring case, `value` is appended;
   * otherwise every such entry is removed and nothing is appended.
   */
  function ToggleValue(values: Option<seq<string>>, value: string): (r: seq<string>)
    ensures !ContainsIgnoreCase(EnsureArray(values), value) ==> r == EnsureArray(values) + [value]
    ensures ContainsIgnoreCase(EnsureArray(values), value) ==>
              r == Unmatched(EnsureArray(values), value) && !ContainsIgnoreCase(r, value)
  {
    var current := EnsureArray(values);
    var filtered := Unmatched(current, value);
    assert forall i | 0 <= i < |filtered| :: filtered[i] in filtered;
    if |filtered| == |current| then current + [value] else filtered
  }

  /** After a toggle the checkbox of `value` shows the opposite state. */
  lemma ToggleFlips(values: Option<seq<string>>, value: string)
    ensures ContainsIgnoreCase(ToggleValue(values, value), value) <==> !ContainsIgnoreCase(EnsureArray(values), value)
  {
    var r := ToggleValue(values, value);
    if !ContainsIgnoreCase(EnsureArray(values), value) {
      assert EqualsIgnoreCase(r[|r| - 1], value);
    }
  }

  /** Toggling a value that is not selected, then toggling it again, gives back the original list. */
  lemma ToggleTwiceRestores(values: Option<seq<string>>, value: string)
    requires !ContainsIgnoreCase(EnsureArray(values), value)
    ensures ToggleValue(Some(ToggleValue(values, value)), value) == EnsureArray(values)
  {
    var current := EnsureArray(values);
    var once := ToggleValue(values, value);
    assert once == current + [value];
    assert ContainsIgnoreCase(once, value) by {
      assert EqualsIgnoreCase(once[|current|], value);
    }
    UnmatchedAppend(current, [value], value);
    UnmatchedNone(current, value);
    assert Unmatched([value], value) == [];
  }

  /** A missing list toggles like an empty one. */
  lemma ToggleMissing(value: string)
    ensures ToggleValue(None, value) == [value]
    ensures ToggleValue(None, value) == ToggleValue(Some([]), value)
  {
  }

  // ----- The panel's update of the filters -----

  /** The filter fields that hold lists of values. */
  datatype FilterKey = Skills | Industries | Technologies | Seniority | Availability | Languages | Locations

  function Get(filters: Search.Filters, key: FilterKey): Option<seq<string>> {
    match key
    case Skills => filters.skills
    case Industries => filters.industries
    case Technologies => filters.technologies
    case Seniority => filters.seniority
    case Availability => filters.availability
    case Languages => filters.languages
    case Locations => filters.locations
  }

  /** `{ ...filters, [key]: values }`. */
  function Set(filters: Search.Filters, key: FilterKey, values: Option<seq<string>>): (r: Search.Filters)
    ensures Get(r, key) == values
    ensures forall k | k != key :: Get(r, k) == Get(filters, k)
  {
    match key
    case Skills => filters.(skills := values)
    case Industries => filters.(industries := values)
    case Technologies => filters.(technologies := values)
    case Seniority => filters.(seniority := values)
    case Availability => filters.(availability := values)
    case Languages => filters.(languages := values)
    case Locations => filters.(locations := values)
  }

  /** Two filters with the same list under every key are the same filters. */
  lemma FiltersByKeys(f: Search.Filters, g: Search.Filters)
    requires forall k :: Get(f, k) == Get(g, k)
    ensures f == g
  {
    assert Get(f, Skills) == Get(g, Skills) && Get(f, Industries) == Get(g, Industries);
    assert Get(f, Technologies) == Get(g, Technologies) && Get(f, Seniority) == Get(g, Seniority);
    assert Get(f, Availability) == Get(g, Availability) && Get(f, Languages) == Get(g, Languages);
    assert Get(f, Locations) == Get(g, Locations);
  }

  /** `handleToggle`: the toggled key receives the toggled list, every other field is kept. */
  function HandleToggle(filters: Search.Filters, key: FilterKey, value: string): (r: Search.Filters)
    ensures Get(r, key) == Some(ToggleValue(Get(filters, key), value))
    ensures forall k | k != key :: Get(r, k) == Get(filters, k)
  {
    Set(filters, key, Some(ToggleValue(Get(filters, key), value)))
  }

  /** Toggling a value that was not selected twice leaves the filters as they were, except that a missing list becomes empty. */
  lemma HandleToggleTwice(filters: Search.Filters, key: FilterKey, value: string)
    requires !ContainsIgnoreCase(EnsureArray(Get(filters, key)), value)
    ensures HandleToggle(HandleToggle(filters, key, value), key, value)
            == Set(filters, key, Some(EnsureArray(Get(filters, key))))
  {
    ToggleTwiceRestores(Get(filters, key), value);
    var twice := HandleToggle(HandleToggle(filters, key, value), key, value);
    var expected := Set(filters, key, Some(EnsureArray(Get(filters, key))));
    FiltersByKeys(twice, expected);
  }

  /** The languages and locations inputs: the comma-separated text becomes the new list. */
  function HandleListChange(filters: Search.Filters, key: FilterKey, text: string): (r: Search.Filters)
    requires key == Languages || key == Locations
    ensures Get(r, key) == Some(CommaList(text))
    ensures forall k | k != key :: Get(r, k) == Get(filters, k)
  {
    Set(filters, key, Some(CommaList(text)))
  }

  /** The text shown in those inputs reads back as the list it shows. */
  lemma ListInputRoundTrip(filters: Search.Filters, key: FilterKey)
    requires key == Languages || key == Locations
    requires forall s | s in EnsureArray(Get(filters, key)) :: IsListValue(s)
    ensures Get(HandleListChange(filters, key, Join(EnsureArray(Get(filters, key)), ", ")), key)
            == Some(EnsureArray(Get(filters, key)))
  {
    CommaListJoin(EnsureArray(Get(filters, key)));
  }
}
