/**
 * The heuristic CV section parser of the parse worker: the text is cut into
 * normalised lines, lines that name a section (an alias such as "Work
 * Experience:") switch the current section, every other line is routed to the
 * buffer of the current section, and each buffer is turned into entities with
 * fixed confidences. Confidences are kept in hundredths (0.85 is 85).
 */
module SectionParser {
  import opened Common
  import Text
  import Embedding

  datatype EntityType = Summary | Education | Experience | Skill | Language | Certification

  /** A parsed entity as the parser emits it, before it is stored. */
  datatype Entity = Entity(
    kind: EntityType,
    name: string,
    confidence: nat,
    rawText: string,
    details: Option<string>,
    employer: Option<string>,
    parserVersion: string,
    embedding: seq<nat>)

  /** The alias table: the lower-cased heading texts that open each section. */
  function Aliases(t: EntityType): seq<string> {
    match t
    case Summary => ["summary", "profile", "about", "professional summary"]
    case Education => ["education", "academic", "studies"]
    case Experience => ["experience", "work experience", "professional experience", "employment history"]
    case Skill => ["skills", "technical skills", "competencies", "expertise"]
    case Language => ["languages", "spoken languages"]
    case Certification => ["certifications", "certification", "licenses"]
  }

  /** The order in which the alias table is searched and in which entities are emitted. */
  const SectionOrder: seq<EntityType> := [Summary, Education, Experience, Skill, Language, Certification]

  // ----- Lines -----

  /** The characters of the class `[\s•]`. */
  predicate IsSpaceOrBullet(c: char) {
    Text.IsSpace(c) || c == '\U{2022}'
  }

  /** `normalizeLine`: every run of white space and bullets becomes one space, then the line is trimmed. */
  function NormalizeLine(line: string): (r: string)
    ensures Text.IsTrimmed(r)
    ensures forall c | c in r :: c == ' ' || !IsSpaceOrBullet(c)
    ensures Text.Isolated(r, IsSpaceOrBullet)
    ensures Text.Without(r, IsSpaceOrBullet) == Text.Without(line, IsSpaceOrBullet)
  {
    var collapsed := Text.ReplaceRuns(line, IsSpaceOrBullet, " ");
    Text.ReplaceRunsChars(line, IsSpaceOrBullet, " ");
    Text.ReplaceRunsIsolated(line, IsSpaceOrBullet, ' ');
    Text.IsolatedTrim(collapsed, IsSpaceOrBullet);
    Text.WithoutCollapse(line, IsSpaceOrBullet, ' ');
    Text.Trim(collapsed)
  }

  function NormalizeAll(lines: seq<string>): (r: seq<string>)
    ensures |r| == |lines|
    ensures forall i | 0 <= i < |lines| :: r[i] == NormalizeLine(lines[i])
  {
    seq(|lines|, i requires 0 <= i < |lines| => NormalizeLine(lines[i]))
  }

  /** `text.split(/\r?\n/).map(normalizeLine).filter(Boolean)`. */
  function Lines(text: string): (lines: seq<string>)
    ensures forall l | l in lines :: l != "" && l == NormalizeLine(l)
  {
    var raw := Text.SplitOn(text, ["\r\n", "\n"], false);
    var lines := Text.NonEmpty(NormalizeAll(raw));
    assert forall l | l in lines :: l == NormalizeLine(l) by {
      forall l | l in lines ensures l == NormalizeLine(l) {
        NormalizeIdempotent(l);
      }
    }
    lines
  }

  /** A normalised line is its own normalisation. */
  lemma NormalizeIdempotent(l: string)
    requires Text.IsTrimmed(l)
    requires forall c | c in l :: c == ' ' || !IsSpaceOrBullet(c)
    requires Text.Isolated(l, IsSpaceOrBullet)
    ensures NormalizeLine(l) == l
  {
    Text.ReplaceRunsSingles(l, IsSpaceOrBullet, ' ');
  }

  // ----- Headings -----

  /** `/[:]+$/` removed: every trailing colon dropped. */
  function DropTrailingColons(s: string): (r: string)
    ensures |r| <= |s| && r == s[..|r|]
    ensures r == [] || r[|r| - 1] != ':'
  {
    if s != [] && s[|s| - 1] == ':' then DropTrailingColons(s[..|s| - 1]) else s
  }

  /** The text a line is compared with: lower-cased, trailing colons removed, trimmed. */
  function HeadingText(line: string): string {
    Text.Trim(DropTrailingColons(Text.ToLower(line)))
  }

  function FirstSectionWithAlias(text: string, order: seq<EntityType>): (r: Option<EntityType>)
    ensures r.Some? ==> r.value in order && text in Aliases(r.value)
    ensures r.None? ==> forall t | t in order :: text !in Aliases(t)
  {
    if order == [] then None
    else if text in Aliases(order[0]) then Some(order[0])
    else FirstSectionWithAlias(text, order[1..])
  }

  /** `detectSection`: the section whose alias list holds the heading text, if any. */
  function DetectSection(line: string): Option<EntityType> {
    FirstSectionWithAlias(HeadingText(line), SectionOrder)
  }

  /** A line opens section `t` exactly when its heading text is one of the aliases of `t`. */
  lemma DetectSectionIff(line: string, t: EntityType)
    ensures DetectSection(line) == Some(t) <==> HeadingText(line) in Aliases(t)
  {
    FirstSectionIff(HeadingText(line), t);
  }

  /** Searching the whole alias table finds `t` exactly when `text` is an alias of `t`. */
  lemma FirstSectionIff(text: string, t: EntityType)
    ensures FirstSectionWithAlias(text, SectionOrder) == Some(t) <==> text in Aliases(t)
  {
    if text in Aliases(t) {
      forall u | u != t ensures text !in Aliases(u) {
        AliasesDisjoint(t, u);
      }
      assert t in SectionOrder;
    }
  }

  /** No alias belongs to two sections. */
  lemma AliasesDisjoint(t: EntityType, u: EntityType)
    requires t != u
    ensures forall a | a in Aliases(t) :: a !in Aliases(u)
  {
  }

  /** Heading detection ignores case and trailing colons: "Work Experience:" opens the experience section. */
  lemma DetectSectionExample()
    ensures DetectSection("Work Experience:") == Some(Experience)
  {
    HeadingTextExample();
    assert "work experience" == Aliases(Experience)[1];
    DetectSectionIff("Work Experience:", Experience);
  }

  lemma HeadingTextExample()
    ensures HeadingText("Work Experience:") == "work experience"
  {
    LowerExample();
    var d := DropTrailingColons("work experience:");
    assert "work experience:"[..|"work experience:"| - 1] == "work experience";
    assert d == "work experience";
    assert Text.IsTrimmed(d);
  }

  lemma LowerExample()
    ensures Text.ToLower("Work Experience:") == "work experience:"
  {
    var s := "Work Experience:";
    var r := Text.ToLower(s);
    assert s[0] == 'W' && s[5] == 'E';
    forall i | 0 <= i < |s| ensures r[i] == "work experience:"[i] {
      if i != 0 && i != 5 {
        assert !('A' <= s[i] <= 'Z');
      }
    }
  }

  // ----- Routing -----

  /** The buffer of every section (the `sections` map of the source, one field per key). */
  datatype Buffers = Buffers(
    summary: seq<string>, education: seq<string>, experience: seq<string>,
    skill: seq<string>, language: seq<string>, certification: seq<string>)
  {
    function Get(t: EntityType): seq<string> {
      match t
      case Summary => summary
      case Education => education
      case Experience => experience
      case Skill => skill
      case Language => language
      case Certification => certification
    }

    /** `store.push(line)` on the buffer of `t`. */
    function Push(t: EntityType, line: string): (b: Buffers)
      ensures forall u :: b.Get(u) == if u == t then Get(u) + [line] else Get(u)
    {
      match t
      case Summary => this.(summary := summary + [line])
      case Education => this.(education := education + [line])
      case Experience => this.(experience := experience + [line])
      case Skill => this.(skill := skill + [line])
      case Language => this.(language := language + [line])
      case Certification => this.(certification := certification + [line])
    }

    /** The lines `more` appended to the buffer of `t`. */
    function Extend(t: EntityType, more: seq<string>): (b: Buffers)
      ensures forall u :: b.Get(u) == if u == t then Get(u) + more else Get(u)
    {
      match t
      case Summary => this.(summary := summary + more)
      case Education => this.(education := education + more)
      case Experience => this.(experience := experience + more)
      case Skill => this.(skill := skill + more)
      case Language => this.(language := language + more)
      case Certification => this.(certification := certification + more)
    }

    /** All buffers, in section order. */
    function All(): seq<string> {
      summary + education + experience + skill + language + certification
    }
  }

  const NoBuffers := Buffers([], [], [], [], [], [])

  /** The state of the routing loop: the current section and the buffers. */
  datatype Routing = Routing(current: EntityType, buffers: Buffers)

  /**
   * The routing after a list of lines, for a heading detector `detect`: a heading
   * switches the current section, any other line is appended to the buffer of the
   * current section, which is `summary` before the first heading. The parser uses
   * it with `DetectSection`; the lemmas below hold for every detector.
   */
  function Routed(lines: seq<string>, detect: string -> Option<EntityType>): Routing {
    if lines == [] then Routing(Summary, NoBuffers)
    else
      var prev := Routed(lines[..|lines| - 1], detect);
      var line := lines[|lines| - 1];
      match detect(line)
      case Some(t) => Routing(t, prev.buffers)
      case None => Routing(prev.current, prev.buffers.Push(prev.current, line))
  }

  /** The loop of `extractEntities` that fills the section buffers; the parser passes `DetectSection`. */
  method RouteLines(lines: seq<string>, detect: string -> Option<EntityType>) returns (buffers: Buffers)
    ensures buffers == Routed(lines, detect).buffers
  {
    var current := Summary;
    buffers := NoBuffers;
    for i := 0 to |lines|
      invariant Routed(lines[..i], detect) == Routing(current, buffers)
    {
      assert lines[..i + 1][..i] == lines[..i];
      var detected := detect(lines[i]);
      if detected.Some? {
        current := detected.value;
        continue;
      }
      buffers := buffers.Push(current, lines[i]);
    }
    assert lines[..|lines|] == lines;
  }

  /** The lines that are not headings, in order. */
  function ContentLines(lines: seq<string>, detect: string -> Option<EntityType>): (r: seq<string>)
    ensures forall l | l in r :: detect(l).None?
  {
    if lines == [] then []
    else
      var line := lines[|lines| - 1];
      ContentLines(lines[..|lines| - 1], detect) + (if detect(line).None? then [line] else [])
  }

  /** The lines of all buffers, counted with multiplicity. */
  function Bag(b: Buffers): multiset<string> {
    multiset(b.summary) + multiset(b.education) + multiset(b.experience)
    + multiset(b.skill) + multiset(b.language) + multiset(b.certification)
  }

  lemma BagOfAll(b: Buffers)
    ensures multiset(b.All()) == Bag(b)
  {
  }

  lemma BagPush(b: Buffers, t: EntityType, line: string)
    ensures Bag(b.Push(t, line)) == Bag(b) + multiset{line}
  {
    match t
    case Summary => assert multiset(b.summary + [line]) == multiset(b.summary) + multiset{line};
    case Education => assert multiset(b.education + [line]) == multiset(b.education) + multiset{line};
    case Experience => assert multiset(b.experience + [line]) == multiset(b.experience) + multiset{line};
    case Skill => assert multiset(b.skill + [line]) == multiset(b.skill) + multiset{line};
    case Language => assert multiset(b.language + [line]) == multiset(b.language) + multiset{line};
    case Certification => assert multiset(b.certification + [line]) == multiset(b.certification) + multiset{line};
  }

  /** Every line that is not a heading lands in exactly one buffer, and nothing else does. */
  lemma {:induction false} RoutedPartitionsContent(lines: seq<string>, detect: string -> Option<EntityType>)
    ensures multiset(Routed(lines, detect).buffers.All()) == multiset(ContentLines(lines, detect))
  {
    RoutedBag(lines, detect);
    BagOfAll(Routed(lines, detect).buffers);
  }

  lemma {:induction false} RoutedBag(lines: seq<string>, detect: string -> Option<EntityType>)
    ensures Bag(Routed(lines, detect).buffers) == multiset(ContentLines(lines, detect))
    decreases |lines|
  {
    if lines != [] {
      var init := lines[..|lines| - 1];
      var line := lines[|lines| - 1];
      RoutedBag(init, detect);
      var prev := Routed(init, detect);
      if detect(line).None? {
        BagPush(prev.buffers, prev.current, line);
      }
    }
  }

  /** Heading lines are never stored as content. */
  lemma {:induction false} HeadingsNotStored(lines: seq<string>, detect: string -> Option<EntityType>)
    ensures forall t, l | l in Routed(lines, detect).buffers.Get(t) :: detect(l).None?
    decreases |lines|
  {
    if lines != [] {
      HeadingsNotStored(lines[..|lines| - 1], detect);
    }
  }

  /** Before any heading, every line belongs to the summary. */
  lemma {:induction false} NoHeadingMeansSummary(lines: seq<string>, detect: string -> Option<EntityType>)
    requires forall l | l in lines :: detect(l).None?
    ensures Routed(lines, detect) == Routing(Summary, NoBuffers.(summary := lines))
    decreases |lines|
  {
    if lines != [] {
      var init := lines[..|lines| - 1];
      assert forall l | l in init :: l in lines;
      NoHeadingMeansSummary(init, detect);
      assert lines[|lines| - 1] in lines;
      assert init + [lines[|lines| - 1]] == lines;
    }
  }

  /**
   * The lines after a heading of section `t` and up to the next heading are
   * appended, in order, to the buffer of `t`; no other buffer changes.
   */
  lemma {:induction false} HeadingCollectsBody(
    before: seq<string>, heading: string, body: seq<string>, t: EntityType, detect: string -> Option<EntityType>)
    requires detect(heading) == Some(t)
    requires forall l | l in body :: detect(l).None?
    ensures Routed(before + [heading] + body, detect)
         == Routing(t, Routed(before, detect).buffers.Extend(t, body))
    decreases |body|
  {
    var all := before + [heading] + body;
    var start := Routed(before, detect).buffers;
    if body == [] {
      assert all == before + [heading];
      RoutedLast(before, heading, detect);
      ExtendNothing(start, t);
    } else {
      var init := body[..|body| - 1];
      var line := body[|body| - 1];
      var prefix := before + [heading] + init;
      assert forall l | l in init :: l in body;
      HeadingCollectsBody(before, heading, init, t, detect);
      assert all == prefix + [line];
      assert line in body;
      RoutedLast(prefix, line, detect);
      assert body == init + [line];
      ExtendPush(start, t, init, line);
    }
  }

  lemma ExtendNothing(b: Buffers, t: EntityType)
    ensures b.Extend(t, []) == b
  {
    match t
    case Summary => assert b.summary + [] == b.summary;
    case Education => assert b.education + [] == b.education;
    case Experience => assert b.experience + [] == b.experience;
    case Skill => assert b.skill + [] == b.skill;
    case Language => assert b.language + [] == b.language;
    case Certification => assert b.certification + [] == b.certification;
  }

  lemma ExtendPush(b: Buffers, t: EntityType, more: seq<string>, line: string)
    ensures b.Extend(t, more).Push(t, line) == b.Extend(t, more + [line])
  {
    match t
    case Summary => AppendAssoc(b.summary, more, [line]);
    case Education => AppendAssoc(b.education, more, [line]);
    case Experience => AppendAssoc(b.experience, more, [line]);
    case Skill => AppendAssoc(b.skill, more, [line]);
    case Language => AppendAssoc(b.language, more, [line]);
    case Certification => AppendAssoc(b.certification, more, [line]);
  }

  /** One more line: a heading switches the section, any other line is pushed to the current one. */
  lemma RoutedLast(lines: seq<string>, line: string, detect: string -> Option<EntityType>)
    ensures Routed(lines + [line], detect)
         == match detect(line)
            case Some(t) => Routing(t, Routed(lines, detect).buffers)
            case None => Routing(Routed(lines, detect).current, Routed(lines, detect).buffers.Push(Routed(lines, detect).current, line))
  {
    assert (lines + [line])[..|lines + [line]| - 1] == lines;
  }

  // ----- Entities -----

  const EducationSeparators: seq<string> := ["-", "\U{2013}", " at "]
  const ExperienceSeparators: seq<string> := [" at ", " @ ", " - "]
  const SkillSeparators: seq<string> := [",", "\U{2022}", "\U{2023}", "\U{25E6}", "\U{2043}", "\U{2219}"]
  const LanguageSeparators: seq<string> := [",", ";", "\U{2022}", "\U{2023}", "\U{25E6}"]

  /** `line.split(re).map(v => v.trim()).filter(Boolean)` for an alternation `re` of literal separators. */
  function Parts(line: string, separators: seq<string>, ignoreCase: bool): (parts: seq<string>)
    ensures forall p | p in parts :: p != "" && Text.IsTrimmed(p)
  {
    Text.NonEmpty(Text.TrimAll(Text.SplitOn(line, separators, ignoreCase)))
  }

  /** The count vector `computeEmbedding` starts from. */
  function EmbeddingOf(text: string): seq<nat> {
    Embedding.Counts(Embedding.Tokens(text))
  }

  /** At most one summary entity, labelled "Summary", holding the summary lines joined by " \n ". */
  function SummaryEntities(lines: seq<string>, parserVersion: string, embed: string -> seq<nat>): (r: seq<Entity>)
    ensures |r| == (if lines == [] then 0 else 1)
    ensures forall e | e in r :: e.kind == Summary && e.name == "Summary" && e.confidence == 60
                                 && e.rawText == Text.Join(lines, " \n ")
  {
    if lines == [] then []
    else
      var text := Text.Join(lines, " \n ");
      [Entity(Summary, "Summary", 60, text, None, None, parserVersion, embed(text))]
  }

  /** One education line: the part before the first "-", "\U{2013}" or " at " names the institution. */
  function EducationEntity(line: string, parserVersion: string, embed: string -> seq<nat>): Entity {
    EducationFrom(line, Parts(line, EducationSeparators, true), parserVersion, embed(line))
  }

  /** The education entity of a line split into `parts`; the parts after the first are its details. */
  function EducationFrom(line: string, parts: seq<string>, parserVersion: string, embedding: seq<nat>): (e: Entity)
    ensures e.kind == Education && e.parserVersion == parserVersion && AllowedConfidence(Education, e.confidence)
    ensures e.rawText == line && e.employer == None && e.embedding == embedding
    ensures parts != [] ==> e.name == parts[0] && e.confidence == 85
    ensures parts == [] ==> e.name == line && e.confidence == 70
    ensures (forall p | p in parts :: p != "") ==>
              e.details == Some(if |parts| <= 1 then line else Text.Join(parts[1..], " - "))
  {
    var rest := Text.Join(if parts == [] then [] else parts[1..], " - ");
    RestJoined(parts);
    Entity(Education, if parts == [] then line else parts[0], if parts == [] then 70 else 85,
           line, Some(if rest == "" then line else rest), None, parserVersion, embedding)
  }

  /** The parts after the first, joined by " - ", are empty only when there are none. */
  lemma RestJoined(parts: seq<string>)
    ensures (forall p | p in parts :: p != "") && |parts| >= 2 ==> Text.Join(parts[1..], " - ") != ""
  {
    if |parts| >= 2 {
      Text.JoinStartsWithFirst(parts[1..], " - ");
      assert parts[1] in parts;
    }
  }

  /** One experience line: the part before the first " at ", " @ " or " - " names the role. */
  function ExperienceEntity(line: string, parserVersion: string, embed: string -> seq<nat>): Entity {
    ExperienceFrom(line, Parts(line, ExperienceSeparators, true), parserVersion, embed(line))
  }

  /** The experience entity of a line split into `parts`; the parts after the first name the employer. */
  function ExperienceFrom(line: string, parts: seq<string>, parserVersion: string, embedding: seq<nat>): (e: Entity)
    ensures e.kind == Experience && e.parserVersion == parserVersion && AllowedConfidence(Experience, e.confidence)
    ensures e.rawText == line && e.details == None && e.embedding == embedding
    ensures parts != [] ==> e.name == parts[0] && e.confidence == 80
    ensures parts == [] ==> e.name == line && e.confidence == 65
    ensures (forall p | p in parts :: p != "") ==>
              e.employer == if |parts| <= 1 then None else Some(Text.Join(parts[1..], " - "))
  {
    var rest := Text.Join(if parts == [] then [] else parts[1..], " - ");
    RestJoined(parts);
    Entity(Experience, if parts == [] then line else parts[0], if parts == [] then 65 else 80,
           line, None, if rest == "" then None else Some(rest), parserVersion, embedding)
  }

  function CertificationEntity(line: string, parserVersion: string, embed: string -> seq<nat>): Entity {
    Entity(Certification, line, 70, line, None, None, parserVersion, embed(line))
  }

  /** One entity per item of a line, in order, each embedded on its own text. */
  function ItemEntities(kind: EntityType, items: seq<string>, line: string, confidence: nat, parserVersion: string, embed: string -> seq<nat>): (r: seq<Entity>)
    ensures |r| == |items|
    ensures forall i | 0 <= i < |items| ::
              r[i] == Entity(kind, items[i], confidence, line, None, None, parserVersion, embed(items[i]))
  {
    if items == [] then []
    else
      var item := items[|items| - 1];
      ItemEntities(kind, items[..|items| - 1], line, confidence, parserVersion, embed)
      + [Entity(kind, item, confidence, line, None, None, parserVersion, embed(item))]
  }

  /** The language entities of one line: one per item at 0.70, or the whole line at 0.60 when it has no item. */
  function LanguageLineEntities(line: string, parserVersion: string, embed: string -> seq<nat>): (r: seq<Entity>)
    ensures |r| >= 1
    ensures var items := Parts(line, LanguageSeparators, false);
            && (items == [] ==> r == [Entity(Language, line, 60, line, None, None, parserVersion, embed(line))])
            && (items != [] ==> |r| == |items| && forall i | 0 <= i < |items| ::
                                  r[i].kind == Language && r[i].name == items[i] && r[i].confidence == 70 && r[i].rawText == line)
  {
    LanguageItems(line, Parts(line, LanguageSeparators, false), parserVersion, embed)
  }

  /** The language entities of a line split into `items`. */
  function LanguageItems(line: string, items: seq<string>, parserVersion: string, embed: string -> seq<nat>): (r: seq<Entity>)
    ensures |r| >= 1
  {
    if items == [] then [Entity(Language, line, 60, line, None, None, parserVersion, embed(line))]
    else ItemEntities(Language, items, line, 70, parserVersion, embed)
  }

  function EducationEntities(lines: seq<string>, parserVersion: string, embed: string -> seq<nat>): (r: seq<Entity>)
    ensures |r| == |lines|
  {
    if lines == [] then []
    else EducationEntities(lines[..|lines| - 1], parserVersion, embed) + [EducationEntity(lines[|lines| - 1], parserVersion, embed)]
  }

  function ExperienceEntities(lines: seq<string>, parserVersion: string, embed: string -> seq<nat>): (r: seq<Entity>)
    ensures |r| == |lines|
  {
    if lines == [] then []
    else ExperienceEntities(lines[..|lines| - 1], parserVersion, embed) + [ExperienceEntity(lines[|lines| - 1], parserVersion, embed)]
  }

  function SkillEntities(lines: seq<string>, parserVersion: string, embed: string -> seq<nat>): seq<Entity> {
    if lines == [] then []
    else
      var line := lines[|lines| - 1];
      SkillEntities(lines[..|lines| - 1], parserVersion, embed)
      + ItemEntities(Skill, Parts(line, SkillSeparators, false), line, 75, parserVersion, embed)
  }

  function LanguageEntities(lines: seq<string>, parserVersion: string, embed: string -> seq<nat>): seq<Entity> {
    if lines == [] then []
    else LanguageEntities(lines[..|lines| - 1], parserVersion, embed) + LanguageLineEntities(lines[|lines| - 1], parserVersion, embed)
  }

  function CertificationEntities(lines: seq<string>, parserVersion: string, embed: string -> seq<nat>): (r: seq<Entity>)
    ensures |r| == |lines|
  {
    if lines == [] then []
    else CertificationEntities(lines[..|lines| - 1], parserVersion, embed) + [CertificationEntity(lines[|lines| - 1], parserVersion, embed)]
  }

  // ----- One more line -----

  lemma ItemEntitiesPrefix(kind: EntityType, items: seq<string>, i: nat, line: string, confidence: nat, parserVersion: string, embed: string -> seq<nat>)
    requires i < |items|
    ensures ItemEntities(kind, items[..i + 1], line, confidence, parserVersion, embed)
         == ItemEntities(kind, items[..i], line, confidence, parserVersion, embed)
            + [Entity(kind, items[i], confidence, line, None, None, parserVersion, embed(items[i]))]
  {
    assert items[..i + 1][..i] == items[..i];
  }

  lemma EducationEntitiesPrefix(lines: seq<string>, i: nat, parserVersion: string, embed: string -> seq<nat>)
    requires i < |lines|
    ensures EducationEntities(lines[..i + 1], parserVersion, embed)
         == EducationEntities(lines[..i], parserVersion, embed) + [EducationEntity(lines[i], parserVersion, embed)]
  {
    assert lines[..i + 1][..i] == lines[..i];
  }

  lemma ExperienceEntitiesPrefix(lines: seq<string>, i: nat, parserVersion: string, embed: string -> seq<nat>)
    requires i < |lines|
    ensures ExperienceEntities(lines[..i + 1], parserVersion, embed)
         == ExperienceEntities(lines[..i], parserVersion, embed) + [ExperienceEntity(lines[i], parserVersion, embed)]
  {
    assert lines[..i + 1][..i] == lines[..i];
  }

  lemma SkillEntitiesPrefix(lines: seq<string>, i: nat, parserVersion: string, embed: string -> seq<nat>)
    requires i < |lines|
    ensures SkillEntities(lines[..i + 1], parserVersion, embed)
         == SkillEntities(lines[..i], parserVersion, embed)
            + ItemEntities(Skill, Parts(lines[i], SkillSeparators, false), lines[i], 75, parserVersion, embed)
  {
    assert lines[..i + 1][..i] == lines[..i];
  }

  lemma LanguageEntitiesPrefix(lines: seq<string>, i: nat, parserVersion: string, embed: string -> seq<nat>)
    requires i < |lines|
    ensures LanguageEntities(lines[..i + 1], parserVersion, embed)
         == LanguageEntities(lines[..i], parserVersion, embed) + LanguageLineEntities(lines[i], parserVersion, embed)
  {
    assert lines[..i + 1][..i] == lines[..i];
  }

  lemma CertificationEntitiesPrefix(lines: seq<string>, i: nat, parserVersion: string, embed: string -> seq<nat>)
    requires i < |lines|
    ensures CertificationEntities(lines[..i + 1], parserVersion, embed)
         == CertificationEntities(lines[..i], parserVersion, embed) + [CertificationEntity(lines[i], parserVersion, embed)]
  {
    assert lines[..i + 1][..i] == lines[..i];
  }

  /** The entities of a text: every section's entities, in the order of the alias table. */
  function Extracted(text: string, parserVersion: string): seq<Entity> {
    EntitiesOf(Routed(Lines(text), DetectSection).buffers, parserVersion, EmbeddingOf)
  }

  /** The entities of routed buffers, section after section. */
  function EntitiesOf(b: Buffers, parserVersion: string, embed: string -> seq<nat>): seq<Entity> {
    SummaryEntities(b.summary, parserVersion, embed)
    + EducationEntities(b.education, parserVersion, embed)
    + ExperienceEntities(b.experience, parserVersion, embed)
    + SkillEntities(b.skill, parserVersion, embed)
    + LanguageEntities(b.language, parserVersion, embed)
    + CertificationEntities(b.certification, parserVersion, embed)
  }

  /** `extractEntities`: route the lines, then emit each section's entities in turn. */
  method ExtractEntities(text: string, parserVersion: string) returns (entities: seq<Entity>)
    ensures entities == Extracted(text, parserVersion)
  {
    var lines := Lines(text);
    var buffers := RouteLines(lines, DetectSection);
    var summary := EmitSummary(buffers.summary, parserVersion);
    var education := EmitEducation(buffers.education, parserVersion);
    var experience := EmitExperience(buffers.experience, parserVersion);
    var skills := EmitSkills(buffers.skill, parserVersion);
    var languages := EmitLanguages(buffers.language, parserVersion);
    var certifications := EmitCertifications(buffers.certification, parserVersion);
    entities := summary + education + experience + skills + languages + certifications;
  }

  method EmitSummary(lines: seq<string>, parserVersion: string) returns (entities: seq<Entity>)
    ensures entities == SummaryEntities(lines, parserVersion, EmbeddingOf)
  {
    entities := [];
    if |lines| > 0 {
      var summaryText := Text.Join(lines, " \n ");
      var embedding := Embedding.CountTokens(summaryText);
      entities := [Entity(Summary, "Summary", 60, summaryText, None, None, parserVersion, embedding)];
    }
  }

  method EmitEducation(lines: seq<string>, parserVersion: string) returns (entities: seq<Entity>)
    ensures entities == EducationEntities(lines, parserVersion, EmbeddingOf)
  {
    entities := [];
    for i := 0 to |lines|
      invariant entities == EducationEntities(lines[..i], parserVersion, EmbeddingOf)
    {
      EducationEntitiesPrefix(lines, i, parserVersion, EmbeddingOf);
      var entity := EducationLine(lines[i], parserVersion);
      entities := entities + [entity];
    }
    assert lines[..|lines|] == lines;
  }

  method EducationLine(line: string, parserVersion: string) returns (entity: Entity)
    ensures entity == EducationEntity(line, parserVersion, EmbeddingOf)
  {
    var parts := Parts(line, EducationSeparators, true);
    var embedding := Embedding.CountTokens(line);
    entity := EducationFrom(line, parts, parserVersion, embedding);
  }

  method EmitExperience(lines: seq<string>, parserVersion: string) returns (entities: seq<Entity>)
    ensures entities == ExperienceEntities(lines, parserVersion, EmbeddingOf)
  {
    entities := [];
    for i := 0 to |lines|
      invariant entities == ExperienceEntities(lines[..i], parserVersion, EmbeddingOf)
    {
      ExperienceEntitiesPrefix(lines, i, parserVersion, EmbeddingOf);
      var entity := ExperienceLine(lines[i], parserVersion);
      entities := entities + [entity];
    }
    assert lines[..|lines|] == lines;
  }

  method ExperienceLine(line: string, parserVersion: string) returns (entity: Entity)
    ensures entity == ExperienceEntity(line, parserVersion, EmbeddingOf)
  {
    var parts := Parts(line, ExperienceSeparators, true);
    var embedding := Embedding.CountTokens(line);
    entity := ExperienceFrom(line, parts, parserVersion, embedding);
  }

  /** One entity per item, in order. */
  method EmitItems(kind: EntityType, items: seq<string>, line: string, confidence: nat, parserVersion: string)
    returns (entities: seq<Entity>)
    ensures entities == ItemEntities(kind, items, line, confidence, parserVersion, EmbeddingOf)
  {
    entities := [];
    for i := 0 to |items|
      invariant entities == ItemEntities(kind, items[..i], line, confidence, parserVersion, EmbeddingOf)
    {
      ItemEntitiesPrefix(kind, items, i, line, confidence, parserVersion, EmbeddingOf);
      var embedding := Embedding.CountTokens(items[i]);
      entities := entities + [Entity(kind, items[i], confidence, line, None, None, parserVersion, embedding)];
    }
    assert items[..|items|] == items;
  }

  method EmitSkills(lines: seq<string>, parserVersion: string) returns (entities: seq<Entity>)
    ensures entities == SkillEntities(lines, parserVersion, EmbeddingOf)
  {
    entities := [];
    for i := 0 to |lines|
      invariant entities == SkillEntities(lines[..i], parserVersion, EmbeddingOf)
    {
      SkillEntitiesPrefix(lines, i, parserVersion, EmbeddingOf);
      var items := Parts(lines[i], SkillSeparators, false);
      if items == [] {
        continue;
      }
      var emitted := EmitItems(Skill, items, lines[i], 75, parserVersion);
      entities := entities + emitted;
    }
    assert lines[..|lines|] == lines;
  }

  method EmitLanguages(lines: seq<string>, parserVersion: string) returns (entities: seq<Entity>)
    ensures entities == LanguageEntities(lines, parserVersion, EmbeddingOf)
  {
    entities := [];
    for i := 0 to |lines|
      invariant entities == LanguageEntities(lines[..i], parserVersion, EmbeddingOf)
    {
      LanguageEntitiesPrefix(lines, i, parserVersion, EmbeddingOf);
      var line := lines[i];
      var items := Parts(line, LanguageSeparators, false);
      if items == [] {
        var embedding := Embedding.CountTokens(line);
        entities := entities + [Entity(Language, line, 60, line, None, None, parserVersion, embedding)];
        continue;
      }
      var emitted := EmitItems(Language, items, line, 70, parserVersion);
      entities := entities + emitted;
    }
    assert lines[..|lines|] == lines;
  }

  method EmitCertifications(lines: seq<string>, parserVersion: string) returns (entities: seq<Entity>)
    ensures entities == CertificationEntities(lines, parserVersion, EmbeddingOf)
  {
    entities := [];
    for i := 0 to |lines|
      invariant entities == CertificationEntities(lines[..i], parserVersion, EmbeddingOf)
    {
      CertificationEntitiesPrefix(lines, i, parserVersion, EmbeddingOf);
      var embedding := Embedding.CountTokens(lines[i]);
      entities := entities + [Entity(Certification, lines[i], 70, lines[i], None, None, parserVersion, embedding)];
    }
    assert lines[..|lines|] == lines;
  }

  // ----- Properties of the extracted entities -----

  /** Position of a section in the order the worker emits them. */
  function Rank(t: EntityType): nat {
    match t
    case Summary => 0
    case Education => 1
    case Experience => 2
    case Skill => 3
    case Language => 4
    case Certification => 5
  }

  /** The confidences the worker assigns to each kind of entity, in hundredths. */
  predicate AllowedConfidence(t: EntityType, c: nat) {
    match t
    case Summary => c == 60
    case Education => c == 70 || c == 85
    case Experience => c == 65 || c == 80
    case Skill => c == 75
    case Language => c == 60 || c == 70
    case Certification => c == 70
  }

  /** Every entity is of kind `t`, was produced by parser `parserVersion` and has a confidence of its kind. */
  predicate Tagged(entities: seq<Entity>, t: EntityType, parserVersion: string) {
    forall i | 0 <= i < |entities| :: entities[i].kind == t && entities[i].parserVersion == parserVersion
                                      && AllowedConfidence(t, entities[i].confidence)
  }

  lemma {:induction false} ItemEntitiesTagged(t: EntityType, items: seq<string>, line: string, confidence: nat, parserVersion: string, embed: string -> seq<nat>)
    requires AllowedConfidence(t, confidence)
    ensures Tagged(ItemEntities(t, items, line, confidence, parserVersion, embed), t, parserVersion)
    decreases |items|
  {
    if items != [] {
      ItemEntitiesTagged(t, items[..|items| - 1], line, confidence, parserVersion, embed);
    }
  }

  /** Two lists of section `t` make one. */
  lemma TaggedAppend(a: seq<Entity>, b: seq<Entity>, t: EntityType, parserVersion: string)
    requires Tagged(a, t, parserVersion) && Tagged(b, t, parserVersion)
    ensures Tagged(a + b, t, parserVersion)
  {
    forall i | 0 <= i < |a + b|
      ensures (a + b)[i].kind == t && (a + b)[i].parserVersion == parserVersion
              && AllowedConfidence(t, (a + b)[i].confidence)
    {
      if i >= |a| {
        assert (a + b)[i] == b[i - |a|];
      }
    }
  }

  lemma {:induction false} EducationTagged(lines: seq<string>, parserVersion: string, embed: string -> seq<nat>)
    ensures Tagged(EducationEntities(lines, parserVersion, embed), Education, parserVersion)
    decreases |lines|
  {
    if lines != [] {
      var init := lines[..|lines| - 1];
      var last := EducationEntity(lines[|lines| - 1], parserVersion, embed);
      EducationTagged(init, parserVersion, embed);
      TaggedAppend(EducationEntities(init, parserVersion, embed), [last], Education, parserVersion);
    }
  }

  lemma {:induction false} ExperienceTagged(lines: seq<string>, parserVersion: string, embed: string -> seq<nat>)
    ensures Tagged(ExperienceEntities(lines, parserVersion, embed), Experience, parserVersion)
    decreases |lines|
  {
    if lines != [] {
      var init := lines[..|lines| - 1];
      var last := ExperienceEntity(lines[|lines| - 1], parserVersion, embed);
      ExperienceTagged(init, parserVersion, embed);
      TaggedAppend(ExperienceEntities(init, parserVersion, embed), [last], Experience, parserVersion);
    }
  }

  lemma {:induction false} SkillTagged(lines: seq<string>, parserVersion: string, embed: string -> seq<nat>)
    ensures Tagged(SkillEntities(lines, parserVersion, embed), Skill, parserVersion)
    decreases |lines|
  {
    if lines != [] {
      var init := lines[..|lines| - 1];
      var line := lines[|lines| - 1];
      var items := Parts(line, SkillSeparators, false);
      SkillTagged(init, parserVersion, embed);
      ItemEntitiesTagged(Skill, items, line, 75, parserVersion, embed);
      TaggedAppend(SkillEntities(init, parserVersion, embed), ItemEntities(Skill, items, line, 75, parserVersion, embed),
                   Skill, parserVersion);
    }
  }

  lemma {:induction false} LanguageTagged(lines: seq<string>, parserVersion: string, embed: string -> seq<nat>)
    ensures Tagged(LanguageEntities(lines, parserVersion, embed), Language, parserVersion)
    decreases |lines|
  {
    if lines != [] {
      var init := lines[..|lines| - 1];
      var line := lines[|lines| - 1];
      LanguageTagged(init, parserVersion, embed);
      LanguageItemsTagged(line, Parts(line, LanguageSeparators, false), parserVersion, embed);
      TaggedAppend(LanguageEntities(init, parserVersion, embed), LanguageLineEntities(line, parserVersion, embed),
                   Language, parserVersion);
    }
  }

  lemma LanguageItemsTagged(line: string, items: seq<string>, parserVersion: string, embed: string -> seq<nat>)
    ensures Tagged(LanguageItems(line, items, parserVersion, embed), Language, parserVersion)
  {
    if items != [] {
      ItemEntitiesTagged(Language, items, line, 70, parserVersion, embed);
    }
  }

  lemma {:induction false} CertificationTagged(lines: seq<string>, parserVersion: string, embed: string -> seq<nat>)
    ensures Tagged(CertificationEntities(lines, parserVersion, embed), Certification, parserVersion)
    decreases |lines|
  {
    if lines != [] {
      var init := lines[..|lines| - 1];
      var last := CertificationEntity(lines[|lines| - 1], parserVersion, embed);
      CertificationTagged(init, parserVersion, embed);
      TaggedAppend(CertificationEntities(init, parserVersion, embed), [last], Certification, parserVersion);
    }
  }

  /** The kinds of a list never go back to an earlier section. */
  predicate InSectionOrder(entities: seq<Entity>) {
    forall i, j | 0 <= i < j < |entities| :: Rank(entities[i].kind) <= Rank(entities[j].kind)
  }

  /** Every entity carries the parser version and a confidence its kind allows. */
  predicate WellTagged(entities: seq<Entity>, parserVersion: string) {
    forall i | 0 <= i < |entities| :: entities[i].parserVersion == parserVersion
                                      && AllowedConfidence(entities[i].kind, entities[i].confidence)
                                     
  }

  /** No entity belongs to a section after `t`. */
  predicate UpTo(entities: seq<Entity>, t: EntityType) {
    forall i | 0 <= i < |entities| :: Rank(entities[i].kind) <= Rank(t)
  }

  lemma AppendSection(a: seq<Entity>, b: seq<Entity>, t: EntityType, parserVersion: string)
    requires InSectionOrder(a) && WellTagged(a, parserVersion) && UpTo(a, t)
    requires Tagged(b, t, parserVersion)
    ensures InSectionOrder(a + b) && WellTagged(a + b, parserVersion) && UpTo(a + b, t)
  {
  }

  /**
   * Whatever the text, the entities come section by section in the order
   * summary, education, experience, skills, languages, certifications; each
   * carries the parser version and a confidence its kind allows.
   */
  lemma ExtractedWellFormed(text: string, parserVersion: string)
    ensures InSectionOrder(Extracted(text, parserVersion))
    ensures WellTagged(Extracted(text, parserVersion), parserVersion)
  {
    EntitiesOfWellFormed(Routed(Lines(text), DetectSection).buffers, parserVersion, EmbeddingOf);
  }

  lemma EntitiesOfWellFormed(b: Buffers, parserVersion: string, embed: string -> seq<nat>)
    ensures InSectionOrder(EntitiesOf(b, parserVersion, embed))
    ensures WellTagged(EntitiesOf(b, parserVersion, embed), parserVersion)
  {
    SummaryTagged(b.summary, parserVersion, embed);
    EducationTagged(b.education, parserVersion, embed);
    ExperienceTagged(b.experience, parserVersion, embed);
    SkillTagged(b.skill, parserVersion, embed);
    LanguageTagged(b.language, parserVersion, embed);
    CertificationTagged(b.certification, parserVersion, embed);
    SectionsInOrder(SummaryEntities(b.summary, parserVersion, embed),
                    EducationEntities(b.education, parserVersion, embed),
                    ExperienceEntities(b.experience, parserVersion, embed),
                    SkillEntities(b.skill, parserVersion, embed),
                    LanguageEntities(b.language, parserVersion, embed),
                    CertificationEntities(b.certification, parserVersion, embed), parserVersion);
  }

  lemma SummaryTagged(lines: seq<string>, parserVersion: string, embed: string -> seq<nat>)
    ensures Tagged(SummaryEntities(lines, parserVersion, embed), Summary, parserVersion)
  {
  }

  /** Six sections, each of its own kind, concatenated in the order of `Rank`. */
  lemma SectionsInOrder(s0: seq<Entity>, s1: seq<Entity>, s2: seq<Entity>, s3: seq<Entity>, s4: seq<Entity>, s5: seq<Entity>,
                        parserVersion: string)
    requires Tagged(s0, Summary, parserVersion) && Tagged(s1, Education, parserVersion)
    requires Tagged(s2, Experience, parserVersion) && Tagged(s3, Skill, parserVersion)
    requires Tagged(s4, Language, parserVersion) && Tagged(s5, Certification, parserVersion)
    ensures InSectionOrder(s0 + s1 + s2 + s3 + s4 + s5) && WellTagged(s0 + s1 + s2 + s3 + s4 + s5, parserVersion)
  {
    AppendSection([], s0, Summary, parserVersion);
    assert [] + s0 == s0;
    AppendSection(s0, s1, Education, parserVersion);
    AppendSection(s0 + s1, s2, Experience, parserVersion);
    AppendSection(s0 + s1 + s2, s3, Skill, parserVersion);
    AppendSection(s0 + s1 + s2 + s3, s4, Language, parserVersion);
    AppendSection(s0 + s1 + s2 + s3 + s4, s5, Certification, parserVersion);
  }

  // ----- Lines without a separator -----

  /** A trimmed, non-empty line in which no separator matches is its own single part. */
  lemma UnsplitLine(line: string, separators: seq<string>, ignoreCase: bool)
    requires line != "" && Text.IsTrimmed(line)
    requires forall k | 0 <= k < |line| :: Text.MatchLength(line[k..], separators, ignoreCase) == 0
    ensures Parts(line, separators, ignoreCase) == [line]
  {
    Text.SplitOnPrefix(line, |line|, separators, ignoreCase);
    assert line[..|line|] == line && line[|line|..] == [];
    assert Text.SplitOn([], separators, ignoreCase) == [""];
    assert line + "" == line;
    assert Text.SplitOn(line, separators, ignoreCase) == [line];
    Text.TrimAllKeeps([line]);
    Text.NonEmptyKeeps([line]);
  }

  /** An experience line with no " at ", " @ " or " - " is a role at 0.80 with no employer. */
  lemma ExperienceWithoutSeparator(line: string, parserVersion: string, embed: string -> seq<nat>)
    requires line != "" && Text.IsTrimmed(line)
    requires forall k | 0 <= k < |line| :: Text.MatchLength(line[k..], ExperienceSeparators, true) == 0
    ensures var e := ExperienceEntity(line, parserVersion, embed);
            e.name == line && e.employer == None && e.confidence == 80
  {
    UnsplitLine(line, ExperienceSeparators, true);
  }

  /**
   * A piece of an experience line inside which no separator can start: trimmed,
   * non-empty, and no space in it followed by "a", "@" or "-".
   */
  predicate ExperiencePiece(w: string) {
    && w != "" && Text.IsTrimmed(w)
    && forall k | 0 <= k < |w| - 1 && w[k] == ' ' :: Text.Lower(w[k + 1]) != 'a' && w[k + 1] != '@' && w[k + 1] != '-'
  }

  /** Such a piece stays whole at the front of the first part. */
  lemma ExperiencePieceSplit(w: string, rest: string)
    requires ExperiencePiece(w)
    ensures var p := Text.SplitOn(rest, ExperienceSeparators, true);
            Text.SplitOn(w + rest, ExperienceSeparators, true) == [w + p[0]] + p[1..]
  {
    var s := w + rest;
    forall k | 0 <= k < |w| ensures Text.MatchLength(s[k..], ExperienceSeparators, true) == 0 {
      if w[k] == ' ' {
        assert k + 1 < |w|;
        assert s[k..][1] == w[k + 1];
        Text.NoMatchAt(s[k..], ExperienceSeparators, true, 1);
      } else {
        assert s[k..][0] == w[k];
        Text.NoMatchAtFirst(s[k..], ExperienceSeparators, true);
      }
    }
    Text.SplitOnPrefix(s, |w|, ExperienceSeparators, true);
    assert s[..|w|] == w && s[|w|..] == rest;
  }

  /** "employer - years" splits into the employer and the years. */
  lemma EmployerYearsSplit(employer: string, years: string)
    requires ExperiencePiece(employer) && ExperiencePiece(years)
    ensures Text.SplitOn(employer + (" - " + years), ExperienceSeparators, true) == [employer, years]
  {
    var seps := ExperienceSeparators;
    ExperiencePieceSplit(years, "");
    assert years + "" == years;
    var dashed := " - " + years;
    Text.MatchSkip(dashed, seps, true, 1);
    Text.MatchSkip(dashed, seps[1..], true, 1);
    Text.MatchHead(" - ", years, seps[2..], true);
    Text.SplitOnSep(" - ", years, seps, true);
    ExperiencePieceSplit(employer, dashed);
    assert employer + "" == employer;
  }

  /** " at employer - years" splits into an empty part, the employer and the years. */
  lemma AtEmployerYearsSplit(employer: string, years: string)
    requires ExperiencePiece(employer) && ExperiencePiece(years)
    ensures Text.SplitOn(" at " + (employer + (" - " + years)), ExperienceSeparators, true) == ["", employer, years]
  {
    var tail := employer + (" - " + years);
    EmployerYearsSplit(employer, years);
    Text.MatchHead(" at ", tail, ExperienceSeparators, true);
    Text.SplitOnSep(" at ", tail, ExperienceSeparators, true);
  }

  lemma RoleRestSplit(role: string, employer: string, years: string)
    requires ExperiencePiece(role) && ExperiencePiece(employer) && ExperiencePiece(years)
    ensures Text.SplitOn(role + (" at " + (employer + (" - " + years))), ExperienceSeparators, true) == [role, employer, years]
  {
    var rest := " at " + (employer + (" - " + years));
    AtEmployerYearsSplit(employer, years);
    ExperiencePieceSplit(role, rest);
    assert role + "" == role;
    assert ["", employer, years][1..] == [employer, years];
  }

  /** "role at employer - years" splits into its three pieces. */
  lemma RoleLineSplit(role: string, employer: string, years: string)
    requires ExperiencePiece(role) && ExperiencePiece(employer) && ExperiencePiece(years)
    ensures Text.SplitOn(role + " at " + employer + " - " + years, ExperienceSeparators, true) == [role, employer, years]
  {
    Text.ConcatRight(role, " at ", employer, " - ", years);
    RoleRestSplit(role, employer, years);
  }

  /**
   * An experience line "role at employer - years" is the role at 0.80 with the
   * employer and the years, joined back with " - ", as its employer.
   */
  lemma RoleAtEmployer(role: string, employer: string, years: string, parserVersion: string, embed: string -> seq<nat>)
    requires ExperiencePiece(role) && ExperiencePiece(employer) && ExperiencePiece(years)
    ensures var e := ExperienceEntity(role + " at " + employer + " - " + years, parserVersion, embed);
            e.name == role && e.employer == Some(employer + " - " + years) && e.confidence == 80
  {
    var parts := [role, employer, years];
    RoleLineSplit(role, employer, years);
    Text.TrimAllKeeps(parts);
    Text.NonEmptyKeeps(parts);
    assert parts[1..] == [employer, years];
    assert Text.Join([employer, years], " - ") == employer + " - " + years;
  }

  /** Two pieces joined by one space are a piece when the second does not start with "a", "@" or "-". */
  lemma PieceSpacePiece(a: string, b: string)
    requires ExperiencePiece(a) && ExperiencePiece(b)
    requires Text.Lower(b[0]) != 'a' && b[0] != '@' && b[0] != '-'
    ensures ExperiencePiece(a + " " + b)
  {
    var w := a + " " + b;
    forall k | 0 <= k < |w| - 1 && w[k] == ' '
      ensures Text.Lower(w[k + 1]) != 'a' && w[k + 1] != '@' && w[k + 1] != '-'
    {
      if k < |a| {
        assert w[k] == a[k] && k < |a| - 1 && w[k + 1] == a[k + 1];
      } else if k > |a| {
        assert w[k] == b[k - |a| - 1] && w[k + 1] == b[k - |a|];
      }
    }
  }

  lemma ExampleRolePiece()
    ensures ExperiencePiece("Senior Engineer")
  {
    PieceSpacePiece("Senior", "Engineer");
    assert "Senior" + " " + "Engineer" == "Senior Engineer";
  }

  lemma ExamplePieces()
    ensures ExperiencePiece("Senior Engineer") && ExperiencePiece("Acme") && ExperiencePiece("2018-2022")
  {
    ExampleRolePiece();
  }

  /** "Senior Engineer at Acme - 2018-2022" is the role "Senior Engineer" at 0.80 with the employer "Acme - 2018-2022". */
  lemma ExperienceExample(parserVersion: string, embed: string -> seq<nat>)
    ensures var e := ExperienceEntity("Senior Engineer" + " at " + "Acme" + " - " + "2018-2022", parserVersion, embed);
            e.name == "Senior Engineer" && e.employer == Some("Acme - 2018-2022") && e.confidence == 80
  {
    var e := ExperienceEntity("Senior Engineer" + " at " + "Acme" + " - " + "2018-2022", parserVersion, embed);
    assert e.name == "Senior Engineer" && e.employer == Some("Acme" + " - " + "2018-2022") && e.confidence == 80 by {
      ExamplePieces();
      RoleAtEmployer("Senior Engineer", "Acme", "2018-2022", parserVersion, embed);
    }
    assert "Acme" + " - " + "2018-2022" == "Acme - 2018-2022";
  }

  /** Prefixing spaces to such values puts no separator character in them. */
  lemma SpacedSkillsPlain(xs: seq<string>)
    requires xs != []
    requires forall x | x in xs :: Text.IsListValue(x) && forall c | c in x :: [c] !in SkillSeparators
    ensures forall p, ch | p in [xs[0]] + Text.Spaced(xs[1..]) && ch in p ::
              forall sep | sep in SkillSeparators :: sep != [] && sep[0] != ch
  {
    var sx := [xs[0]] + Text.Spaced(xs[1..]);
    forall p, ch | p in sx && ch in p ensures forall sep | sep in SkillSeparators :: sep != [] && sep[0] != ch {
      var i :| 0 <= i < |sx| && sx[i] == p;
      assert xs[i] in xs;
      if i > 0 {
        assert p == " " + xs[i];
      }
    }
  }

  /** Trimmed values free of commas and bullets, joined by ", ", come back as the parts of the line. */
  lemma SkillListParts(xs: seq<string>)
    requires xs != []
    requires forall x | x in xs :: Text.IsListValue(x) && forall c | c in x :: [c] !in SkillSeparators
    ensures Parts(Text.Join(xs, ", "), SkillSeparators, false) == xs
  {
    var sx := [xs[0]] + Text.Spaced(xs[1..]);
    Text.JoinSepSpace(xs, ',');
    assert ", " == [',', ' '];
    SpacedSkillsPlain(xs);
    Text.SplitOnJoin(sx, ',', SkillSeparators);
    Text.TrimSpaced(xs);
    Text.NonEmptyKeeps(xs);
  }

  /** A skills line listing trimmed values free of commas and bullets, joined by ", ", gives one skill per value, in order, at 0.75. */
  lemma SkillLine(xs: seq<string>, parserVersion: string, embed: string -> seq<nat>)
    requires xs != []
    requires forall x | x in xs :: Text.IsListValue(x) && forall c | c in x :: [c] !in SkillSeparators
    ensures var r := SkillEntities([Text.Join(xs, ", ")], parserVersion, embed);
            && |r| == |xs|
            && forall i | 0 <= i < |xs| :: r[i].kind == Skill && r[i].name == xs[i] && r[i].confidence == 75
  {
    var line := Text.Join(xs, ", ");
    SkillListParts(xs);
    assert [line][..0] == [];
  }

  /** "Go, Rust, Kubernetes" in the skills section gives the three skills at 0.75. */
  lemma SkillExample(parserVersion: string, embed: string -> seq<nat>)
    ensures var r := SkillEntities([Text.Join(["Go", "Rust", "Kubernetes"], ", ")], parserVersion, embed);
            && |r| == 3 && r[0].name == "Go" && r[1].name == "Rust" && r[2].name == "Kubernetes"
            && forall e | e in r :: e.kind == Skill && e.confidence == 75
  {
    SkillLine(["Go", "Rust", "Kubernetes"], parserVersion, embed);
  }

  /** An education line with no "-", "\U{2013}" or " at " is an institution at 0.85 whose details repeat the line. */
  lemma EducationWithoutSeparator(line: string, parserVersion: string, embed: string -> seq<nat>)
    requires line != "" && Text.IsTrimmed(line)
    requires forall k | 0 <= k < |line| :: Text.MatchLength(line[k..], EducationSeparators, true) == 0
    ensures var e := EducationEntity(line, parserVersion, embed);
            e.name == line && e.details == Some(line) && e.confidence == 85
  {
    UnsplitLine(line, EducationSeparators, true);
  }
}
