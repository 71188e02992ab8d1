/**
 * The locales of the web app, the choice of a dictionary for a locale tag, and the
 * translator that resolves a dot-separated key in a nested message tree. The
 * texts of the two dictionaries are data and are not part of this model; a
 * dictionary is identified by its locale.
 */
module I18nConfig {
  import opened Common
  import opened Text

  datatype Locale = En | De

  const DefaultLocale: Locale := En

  function LocaleName(l: Locale): (r: string)
    ensures r in {"en", "de"}
  {
    match l
    case En => "en"
    case De => "de"
  }

  /** `locales.find(candidate => candidate === tag)`. */
  function MatchLocale(tag: string): (r: Option<Locale>)
    ensures r.Some? <==> tag in {"en", "de"}
    ensures r.Some? ==> LocaleName(r.value) == tag
  {
    if tag == "en" then Some(En) else if tag == "de" then Some(De) else None
  }

  /** `value.split("-")[0]`: the primary language subtag (section 2.2.1 of RFC 5646). */
  function PrimarySubtag(value: string): string {
    Split(value, '-')[0]
  }

  /**
   * `getDictionary`: a missing or empty tag gives the default; otherwise the
   * lower-cased primary subtag selects `en` or `de`, and anything else the default.
   */
  function GetDictionary(locale: Option<string>): (r: Locale)
    ensures locale.None? || locale.value == "" ==> r == DefaultLocale
    ensures r == De <==> locale.Some? && locale.value != "" && ToLower(PrimarySubtag(locale.value)) == "de"
  {
    if locale.None? || locale.value == "" then DefaultLocale
    else
      var found := MatchLocale(ToLower(PrimarySubtag(locale.value)));
      if found.Some? then found.value else DefaultLocale
  }

  /** A tag whose primary subtag names a locale, with or without a region, selects that locale. */
  lemma GetDictionaryOfTag(l: Locale, region: string)
    requires region == [] || region[0] == '-'
    ensures GetDictionary(Some(LocaleName(l) + region)) == l
  {
    SplitFirst(LocaleName(l), region, '-');
  }

  // ----- Translator -----

  /** A node of the message tree: a text or a group of named children. */
  datatype Message = Leaf(text: string) | Group(children: map<string, Message>)

  /**
   * The node reached by following `path` from `m`, or none when a step meets a
   * text or a missing name.
   */
  function Walk(m: Message, path: seq<string>): Option<Message>
    decreases |path|
  {
    if path == [] then Some(m)
    else if m.Leaf? || path[0] !in m.children then None
    else Walk(m.children[path[0]], path[1..])
  }

  /** Following `p + q` is following `p`, then `q` from where `p` ends. */
  lemma {:induction false} WalkAppend(m: Message, p: seq<string>, q: seq<string>)
    ensures Walk(m, p + q) == if Walk(m, p).Some? then Walk(Walk(m, p).value, q) else None
    decreases |p|
  {
    if p == [] {
      assert p + q == q;
    } else {
      assert (p + q)[0] == p[0] && (p + q)[1..] == p[1..] + q;
      if m.Group? && p[0] in m.children {
        WalkAppend(m.children[p[0]], p[1..], q);
      }
    }
  }

  /**
   * What `createTranslator(messages)(key)` returns: the text at the dot-separated
   * path when the path ends at a text, and the key itself otherwise.
   */
  function Translation(messages: Message, key: string): (r: string)
    ensures r == key || Walk(messages, Split(key, '.')) == Some(Leaf(r))
    ensures forall t :: Walk(messages, Split(key, '.')) == Some(Leaf(t)) ==> r == t
    ensures !(Walk(messages, Split(key, '.')).Some? && Walk(messages, Split(key, '.')).value.Leaf?) ==> r == key
  {
    var reached := Walk(messages, Split(key, '.'));
    if reached.Some? && reached.value.Leaf? then reached.value.text else key
  }

  /** The translator's loop over the segments of the key. */
  method Translate(messages: Message, key: string) returns (r: string)
    ensures r == Translation(messages, key)
  {
    var segments := Split(key, '.');
    var value := messages;
    for i := 0 to |segments|
      invariant Walk(messages, segments[..i]) == Some(value)
    {
      WalkAppend(messages, segments[..i], [segments[i]]);
      assert segments[..i] + [segments[i]] == segments[..i + 1];
      if value.Leaf? || segments[i] !in value.children {
        WalkAppend(messages, segments[..i + 1], segments[i + 1..]);
        assert segments[..i + 1] + segments[i + 1..] == segments;
        return key;
      }
      value := value.children[segments[i]];
    }
    assert segments[..|segments|] == segments;
    if value.Leaf? {
      return value.text;
    }
    return key;
  }

  /** `m` with the text `text` stored at `path`, creating groups where needed and replacing what was there. */
  function Put(m: Message, path: seq<string>, text: string): Message
    decreases |path|
  {
    if path == [] then Leaf(text)
    else
      var children := if m.Group? then m.children else map[];
      var child := if path[0] in children then children[path[0]] else Group(map[]);
      Group(children[path[0] := Put(child, path[1..], text)])
  }

  /** A text stored at a path is found by following that path. */
  lemma {:induction false} WalkPut(m: Message, path: seq<string>, text: string)
    ensures Walk(Put(m, path, text), path) == Some(Leaf(text))
    decreases |path|
  {
    if path != [] {
      var children := if m.Group? then m.children else map[];
      var child := if path[0] in children then children[path[0]] else Group(map[]);
      WalkPut(child, path[1..], text);
    }
  }

  /** Storing a text leaves every path that does not start with the same first name as it was. */
  lemma PutKeepsOthers(m: Message, path: seq<string>, text: string, other: seq<string>)
    requires m.Group? && path != [] && other != [] && other[0] != path[0]
    ensures Walk(Put(m, path, text), other) == Walk(m, other)
  {
  }

  /**
   * A key made of dot-free segments joined by dots is translated to the text
   * stored at those segments.
   */
  lemma TranslationOfPut(m: Message, path: seq<string>, text: string)
    requires path != [] && forall s | s in path :: '.' !in s
    ensures Translation(Put(m, path, text), Join(path, ".")) == text
  {
    SplitJoin(path, '.');
    WalkPut(m, path, text);
  }

  /** A key whose first segment names no entry of the root group translates to itself. */
  lemma TranslationMissing(children: map<string, Message>, key: string)
    requires Split(key, '.')[0] !in children
    ensures Translation(Group(children), key) == key
  {
  }
}
