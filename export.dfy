/**
 * The CSV and HTML-table exports of a list of search results: the cell texts
 * (skills, languages, tags), HTML escaping, JSON string quoting of CSV fields,
 * and the line and tag structure of the two documents. Rendering an instant as
 * ISO 8601 text is a parameter `iso`.
 */
module Export {
  import opened Common
  import opened Text
  import opened CvDocs
  import Search

  // ----- Cell texts -----

  /** `(languages ?? []).join(", ")`. */
  function FormatLanguages(languages: Option<seq<string>>): (r: string)
    ensures languages.None? ==> r == ""
  {
    Join(languages.GetOr([]), ", ")
  }

  /** Languages that are trimmed, non-empty and comma-free are read back by splitting the text on commas. */
  lemma FormatLanguagesRoundTrip(languages: seq<string>)
    requires forall s | s in languages :: IsListValue(s)
    ensures CommaList(FormatLanguages(Some(languages))) == languages
  {
    CommaListJoin(languages);
  }

  /** The parts of one skill: its name, `(level)` when the level is non-empty, `N yrs` when years is a number. */
  function SkillParts(s: Skill): (parts: seq<string>)
    ensures |parts| >= 1 && parts[0] == s.name
    ensures |parts| == 1 + (if s.level.Some? && s.level.value != "" then 1 else 0) + (if s.years.Some? then 1 else 0)
    ensures s.level.Some? && s.level.value != "" ==> parts[1] == "(" + s.level.value + ")"
    ensures s.years.Some? ==> parts[|parts| - 1] == IntToString(s.years.value) + " yrs"
  {
    [s.name]
      + (if s.level.Some? && s.level.value != "" then ["(" + s.level.value + ")"] else [])
      + (if s.years.Some? then [IntToString(s.years.value) + " yrs"] else [])
  }

  /** One skill's text: its parts joined by spaces. */
  function SkillText(s: Skill): string {
    Join(SkillParts(s), " ")
  }

  function SkillTexts(skills: seq<Skill>): (r: seq<string>)
    ensures |r| == |skills| && forall i | 0 <= i < |skills| :: r[i] == SkillText(skills[i])
  {
    seq(|skills|, i requires 0 <= i < |skills| => SkillText(skills[i]))
  }

  /** `formatSkillList`: the skill texts joined by `"; "`. */
  function FormatSkillList(skills: seq<Skill>): string {
    Join(SkillTexts(skills), "; ")
  }

  lemma {:induction false} JoinFree(parts: seq<string>, sep: string, c: char)
    requires c !in sep && forall p | p in parts :: c !in p
    ensures c !in Join(parts, sep)
    decreases |parts|
  {
    if |parts| > 1 {
      assert parts[0] in parts;
      assert forall p | p in parts[1..] :: p in parts;
      JoinFree(parts[1..], sep, c);
    } else if |parts| == 1 {
      assert parts[0] in parts;
    }
  }

  lemma SkillTextFree(s: Skill, c: char)
    requires c != ' ' && c != '(' && c != ')' && c != '-' && !('0' <= c <= '9') && c !in " yrs"
    requires c !in s.name && (s.level.Some? ==> c !in s.level.value)
    ensures c !in SkillText(s)
  {
    var parts := SkillParts(s);
    forall p | p in parts ensures c !in p {
      var i := IndexOf(parts, p);
      if s.years.Some? && i == |parts| - 1 {
        assert forall d | d in IntToString(s.years.value) :: d == '-' || ('0' <= d <= '9');
      }
    }
    JoinFree(parts, " ", c);
  }

  /**
   * When no name or level holds a `;`, splitting the list on `;` gives one piece
   * per skill: the first skill's text, then each further text after one space.
   */
  lemma FormatSkillListPieces(skills: seq<Skill>)
    requires skills != []
    requires forall s | s in skills :: ';' !in s.name && (s.level.Some? ==> ';' !in s.level.value)
    ensures Split(FormatSkillList(skills), ';') == [SkillText(skills[0])] + Spaced(SkillTexts(skills)[1..])
    ensures |Split(FormatSkillList(skills), ';')| == |skills|
  {
    var texts := SkillTexts(skills);
    forall i | 0 <= i < |skills| ensures ';' !in texts[i] {
      assert skills[i] in skills;
      SkillTextFree(skills[i], ';');
    }
    JoinSepSpace(texts, ';');
    assert "; " == [';', ' '];
    var pieces := [texts[0]] + Spaced(texts[1..]);
    forall p | p in pieces ensures ';' !in p {
      var i := IndexOf(pieces, p);
      if i > 0 {
        assert p == " " + texts[i];
      }
    }
    SplitJoin(pieces, ';');
  }

  // ----- HTML escaping -----

  /** `value.replace(/c/g, rep)`: every occurrence of the character `c` replaced by `rep`. */
  function ReplaceChar(s: string, c: char, rep: string): string {
    if s == [] then [] else (if s[0] == c then rep else [s[0]]) + ReplaceChar(s[1..], c, rep)
  }

  lemma {:induction false} ReplaceCharAppend(a: string, b: string, c: char, rep: string)
    ensures ReplaceChar(a + b, c, rep) == ReplaceChar(a, c, rep) + ReplaceChar(b, c, rep)
    decreases |a|
  {
    if a != [] {
      assert (a + b)[1..] == a[1..] + b;
      ReplaceCharAppend(a[1..], b, c, rep);
    } else {
      assert a + b == b;
    }
  }

  lemma {:induction false} ReplaceCharAbsent(s: string, c: char, rep: string)
    requires c !in s
    ensures ReplaceChar(s, c, rep) == s
    decreases |s|
  {
    if s != [] {
      ReplaceCharAbsent(s[1..], c, rep);
    }
  }

  /** `escapeHtml` as written: five global replacements, the ampersand first. */
  function EscapeHtml(s: string): string {
    ReplaceChar(ReplaceChar(ReplaceChar(ReplaceChar(ReplaceChar(s, '&', "&amp;"), '<', "&lt;"), '>', "&gt;"), '"', "&quot;"), '\'', "&#39;")
  }

  /** The entity of one character. */
  function EscapeHtmlChar(c: char): string {
    if c == '&' then "&amp;" else if c == '<' then "&lt;" else if c == '>' then "&gt;"
    else if c == '"' then "&quot;" else if c == '\'' then "&#39;" else [c]
  }

  /** Every character replaced by its entity, independently of the others. */
  function EscapeHtmlEach(s: string): (r: string)
    ensures forall c | c in r :: c != '<' && c != '>' && c != '"' && c != '\''
  {
    if s == [] then [] else EscapeHtmlChar(s[0]) + EscapeHtmlEach(s[1..])
  }

  lemma EscapeHtmlAppend(a: string, b: string)
    ensures EscapeHtml(a + b) == EscapeHtml(a) + EscapeHtml(b)
  {
    var a1, b1 := ReplaceChar(a, '&', "&amp;"), ReplaceChar(b, '&', "&amp;");
    ReplaceCharAppend(a, b, '&', "&amp;");
    var a2, b2 := ReplaceChar(a1, '<', "&lt;"), ReplaceChar(b1, '<', "&lt;");
    ReplaceCharAppend(a1, b1, '<', "&lt;");
    var a3, b3 := ReplaceChar(a2, '>', "&gt;"), ReplaceChar(b2, '>', "&gt;");
    ReplaceCharAppend(a2, b2, '>', "&gt;");
    var a4, b4 := ReplaceChar(a3, '"', "&quot;"), ReplaceChar(b3, '"', "&quot;");
    ReplaceCharAppend(a3, b3, '"', "&quot;");
    ReplaceCharAppend(a4, b4, '\'', "&#39;");
  }

  lemma ReplaceCharSingle(d: char, c: char, rep: string)
    ensures ReplaceChar([d], c, rep) == if d == c then rep else [d]
  {
    assert [d][1..] == [];
  }

  /** The four later replacements leave alone a text that holds none of their characters, such as an entity. */
  lemma LaterStepsKeep(t: string)
    requires '<' !in t && '>' !in t && '"' !in t && '\'' !in t
    ensures ReplaceChar(t, '<', "&lt;") == t && ReplaceChar(t, '>', "&gt;") == t
    ensures ReplaceChar(t, '"', "&quot;") == t && ReplaceChar(t, '\'', "&#39;") == t
  {
    ReplaceCharAbsent(t, '<', "&lt;");
    ReplaceCharAbsent(t, '>', "&gt;");
    ReplaceCharAbsent(t, '"', "&quot;");
    ReplaceCharAbsent(t, '\'', "&#39;");
  }

  lemma EscapeHtmlOne(c: char)
    ensures EscapeHtml([c]) == EscapeHtmlChar(c)
  {
    var e1 := ReplaceChar([c], '&', "&amp;");
    ReplaceCharSingle(c, '&', "&amp;");
    if c == '&' {
      LaterStepsKeep(e1);
      return;
    }
    assert e1 == [c];
    ReplaceCharSingle(c, '<', "&lt;");
    var e2 := ReplaceChar(e1, '<', "&lt;");
    if c == '<' {
      LaterStepsKeep(e2);
      return;
    }
    ReplaceCharSingle(c, '>', "&gt;");
    var e3 := ReplaceChar(e2, '>', "&gt;");
    if c == '>' {
      LaterStepsKeep(e3);
      return;
    }
    ReplaceCharSingle(c, '"', "&quot;");
    var e4 := ReplaceChar(e3, '"', "&quot;");
    if c == '"' {
      LaterStepsKeep(e4);
      return;
    }
    ReplaceCharSingle(c, '\'', "&#39;");
  }

  /**
   * Because the ampersand is replaced first and no entity holds a character
   * replaced later, the chain of replacements escapes every character on its own.
   */
  lemma {:induction false} EscapeHtmlIsEach(s: string)
    ensures EscapeHtml(s) == EscapeHtmlEach(s)
    decreases |s|
  {
    if s != [] {
      assert s == [s[0]] + s[1..];
      EscapeHtmlAppend([s[0]], s[1..]);
      EscapeHtmlOne(s[0]);
      EscapeHtmlIsEach(s[1..]);
    }
  }

  /** The output holds no raw `<`, `>`, `"` or `'`. */
  lemma EscapeHtmlNoSpecials(s: string)
    ensures forall c | c in EscapeHtml(s) :: c != '<' && c != '>' && c != '"' && c != '\''
  {
    EscapeHtmlIsEach(s);
  }

  predicate IsHtmlSpecial(c: char) {
    c == '&' || c == '<' || c == '>' || c == '"' || c == '\''
  }

  /** Text without the five characters is left as it is. */
  lemma {:induction false} EscapeHtmlPlain(s: string)
    requires forall c | c in s :: !IsHtmlSpecial(c)
    ensures EscapeHtml(s) == s
    decreases |s|
  {
    EscapeHtmlIsEach(s);
    PlainEach(s);
  }

  lemma {:induction false} PlainEach(s: string)
    requires forall c | c in s :: !IsHtmlSpecial(c)
    ensures EscapeHtmlEach(s) == s
    decreases |s|
  {
    if s != [] {
      assert s[0] in s;
      PlainEach(s[1..]);
    }
  }

  function Prepend(c: char, rest: Option<string>): Option<string> {
    if rest.Some? then Some([c] + rest.value) else None
  }

  /**
   * Decoding of escaped text: the five entities stand for their characters, an
   * ampersand that starts none of them and a raw `<`, `>`, `"` or `'` are errors.
   */
  function UnescapeHtml(t: string): Option<string>
    decreases |t|
  {
    if t == [] then Some([])
    else if t[0] == '&' then
      if |t| >= 5 && t[..5] == "&amp;" then Prepend('&', UnescapeHtml(t[5..]))
      else if |t| >= 4 && t[..4] == "&lt;" then Prepend('<', UnescapeHtml(t[4..]))
      else if |t| >= 4 && t[..4] == "&gt;" then Prepend('>', UnescapeHtml(t[4..]))
      else if |t| >= 6 && t[..6] == "&quot;" then Prepend('"', UnescapeHtml(t[6..]))
      else if |t| >= 5 && t[..5] == "&#39;" then Prepend('\'', UnescapeHtml(t[5..]))
      else None
    else if IsHtmlSpecial(t[0]) then None
    else Prepend(t[0], UnescapeHtml(t[1..]))
  }

  lemma UnescapeHtmlOne(c: char, rest: string)
    ensures UnescapeHtml(EscapeHtmlChar(c) + rest) == Prepend(c, UnescapeHtml(rest))
  {
    var e := EscapeHtmlChar(c);
    var t := e + rest;
    assert t[..|e|] == e && t[|e|..] == rest;
    if c == '&' {
      assert t[0] == '&' && t[..5] == "&amp;";
    } else if c == '<' {
      assert t[0] == '&' && t[1] == 'l' && t[..4] == "&lt;";
      assert !(|t| >= 5 && t[..5] == "&amp;") by { if |t| >= 5 { assert t[..5][1] == t[1]; } }
    } else if c == '>' {
      assert t[0] == '&' && t[1] == 'g' && t[..4] == "&gt;";
      assert !(|t| >= 5 && t[..5] == "&amp;") by { if |t| >= 5 { assert t[..5][1] == t[1]; } }
      assert t[..4][1] == t[1];
    } else if c == '"' {
      assert t[0] == '&' && t[1] == 'q' && t[..6] == "&quot;";
      assert t[..5][1] == t[1] && t[..4][1] == t[1];
    } else if c == '\'' {
      assert t[0] == '&' && t[1] == '#' && t[..5] == "&#39;";
      assert t[..4][1] == t[1];
      assert !(|t| >= 6 && t[..6] == "&quot;") by { if |t| >= 6 { assert t[..6][1] == t[1]; } }
    } else {
      assert t[0] == c && t[1..] == rest;
    }
  }

  /** Escaped text decodes to the original, so every ampersand of the output starts an entity. */
  lemma {:induction false} UnescapeEscapeHtml(s: string)
    ensures UnescapeHtml(EscapeHtml(s)) == Some(s)
    decreases |s|
  {
    EscapeHtmlIsEach(s);
    UnescapeEach(s);
  }

  lemma {:induction false} UnescapeEach(s: string)
    ensures UnescapeHtml(EscapeHtmlEach(s)) == Some(s)
    decreases |s|
  {
    if s != [] {
      UnescapeEach(s[1..]);
      UnescapeHtmlOne(s[0], EscapeHtmlEach(s[1..]));
      assert [s[0]] + s[1..] == s;
    }
  }

  // ----- JSON string quoting -----

  function HexDigit(d: nat): (c: char)
    requires d < 16
    ensures '0' <= c <= '9' || 'a' <= c <= 'f'
  {
    "0123456789abcdef"[d]
  }

  function HexValue(c: char): (v: Option<nat>)
    ensures v.Some? ==> v.value < 16
  {
    if '0' <= c <= '9' then Some(c as nat - '0' as nat)
    else if 'a' <= c <= 'f' then Some(c as nat - 'a' as nat + 10)
    else if 'A' <= c <= 'F' then Some(c as nat - 'A' as nat + 10)
    else None
  }

  lemma HexValueDigit(d: nat)
    requires d < 16
    ensures HexValue(HexDigit(d)) == Some(d)
  {
  }

  /**
   * One character inside a string written by `JSON.stringify` (section 7 of
   * RFC 8259): the quote and the backslash escaped, the control characters with
   * short escapes where they exist and `\u00XX` otherwise, everything else as is.
   */
  function JsonEscapeChar(c: char): string {
    if c == '"' then "\\\""
    else if c == '\\' then "\\\\"
    else if c == '\U{8}' then "\\b"
    else if c == '\U{C}' then "\\f"
    else if c == '\n' then "\\n"
    else if c == '\r' then "\\r"
    else if c == '\t' then "\\t"
    else if c < ' ' then "\\u00" + [HexDigit(c as nat / 16), HexDigit(c as nat % 16)]
    else [c]
  }

  lemma JsonEscapeCharPrintable(c: char)
    ensures forall d | d in JsonEscapeChar(c) :: d >= ' '
  {
    if c < ' ' && c != '\U{8}' && c != '\U{C}' && c != '\n' && c != '\r' && c != '\t' {
      var hi, lo := HexDigit(c as nat / 16), HexDigit(c as nat % 16);
      assert JsonEscapeChar(c) == ['\\', 'u', '0', '0', hi, lo];
    }
  }

  function JsonEscape(s: string): (r: string)
    ensures forall c | c in r :: c >= ' '
  {
    if s == [] then []
    else
      JsonEscapeCharPrintable(s[0]);
      JsonEscapeChar(s[0]) + JsonEscape(s[1..])
  }

  /** `JSON.stringify(s)` for a string `s`; the result holds no line break or other control character. */
  function JsonString(s: string): (r: string)
    ensures forall c | c in r :: c >= ' '
  {
    "\"" + JsonEscape(s) + "\""
  }

  function SimpleEscape(e: char): Option<char> {
    if e == '"' then Some('"') else if e == '\\' then Some('\\') else if e == '/' then Some('/')
    else if e == 'b' then Some('\U{8}') else if e == 'f' then Some('\U{C}') else if e == 'n' then Some('\n')
    else if e == 'r' then Some('\r') else if e == 't' then Some('\t') else None
  }

  /** The code unit of four hexadecimal digits. */
  function Hex4(t: string): Option<nat>
    requires |t| == 4
  {
    var a, b, c, d := HexValue(t[0]), HexValue(t[1]), HexValue(t[2]), HexValue(t[3]);
    if a.Some? && b.Some? && c.Some? && d.Some? then Some(((a.value * 16 + b.value) * 16 + c.value) * 16 + d.value)
    else None
  }

  /** The characters of the body of a JSON string; a lone surrogate escape has no character here and is an error. */
  function JsonUnescape(t: string): Option<string>
    decreases |t|
  {
    if t == [] then Some([])
    else if t[0] == '\\' then
      if |t| < 2 then None
      else if SimpleEscape(t[1]).Some? then Prepend(SimpleEscape(t[1]).value, JsonUnescape(t[2..]))
      else if t[1] == 'u' && |t| >= 6 && Hex4(t[2..6]).Some? then
        var v := Hex4(t[2..6]).value;
        if 0xD800 <= v < 0xE000 then None else Prepend(v as char, JsonUnescape(t[6..]))
      else None
    else if t[0] == '"' || t[0] < ' ' then None
    else Prepend(t[0], JsonUnescape(t[1..]))
  }

  /** `JSON.parse` of a string literal. */
  function JsonParseString(q: string): Option<string> {
    if |q| >= 2 && q[0] == '"' && q[|q| - 1] == '"' then JsonUnescape(q[1..|q| - 1]) else None
  }

  /** A control character without a short escape comes back from its `\u00XX` form. */
  lemma JsonUnescapeHex(c: char, rest: string)
    requires c < ' ' && c != '\U{8}' && c != '\U{C}' && c != '\n' && c != '\r' && c != '\t'
    ensures JsonUnescape(JsonEscapeChar(c) + rest) == Prepend(c, JsonUnescape(rest))
  {
    var hi, lo := c as nat / 16, c as nat % 16;
    var t := ['\\', 'u', '0', '0', HexDigit(hi), HexDigit(lo)] + rest;
    assert JsonEscapeChar(c) + rest == t;
    HexValueDigit(hi);
    HexValueDigit(lo);
    assert t[2..6] == ['0', '0', HexDigit(hi), HexDigit(lo)];
    assert Hex4(t[2..6]) == Some(c as nat);
    assert t[6..] == rest;
    assert SimpleEscape(t[1]).None?;
  }

  lemma JsonUnescapeOne(c: char, rest: string)
    ensures JsonUnescape(JsonEscapeChar(c) + rest) == Prepend(c, JsonUnescape(rest))
  {
    if c < ' ' && c != '\U{8}' && c != '\U{C}' && c != '\n' && c != '\r' && c != '\t' {
      JsonUnescapeHex(c, rest);
    } else if c == '"' || c == '\\' || c == '\U{8}' || c == '\U{C}' || c == '\n' || c == '\r' || c == '\t' {
      var t := JsonEscapeChar(c) + rest;
      assert |JsonEscapeChar(c)| == 2 && t[2..] == rest;
    } else {
      var t := JsonEscapeChar(c) + rest;
      assert JsonEscapeChar(c) == [c] && t[1..] == rest;
    }
  }

  lemma {:induction false} JsonUnescapeEscape(s: string)
    ensures JsonUnescape(JsonEscape(s)) == Some(s)
    decreases |s|
  {
    if s != [] {
      JsonUnescapeEscape(s[1..]);
      JsonUnescapeOne(s[0], JsonEscape(s[1..]));
      assert [s[0]] + s[1..] == s;
    }
  }

  /** A quoted field parses back to the text it quotes. */
  lemma JsonStringRoundTrip(s: string)
    ensures JsonParseString(JsonString(s)) == Some(s)
  {
    var q := JsonString(s);
    assert q[1..|q| - 1] == JsonEscape(s);
    JsonUnescapeEscape(s);
  }

  // ----- Rows -----

  const Header: seq<string> := ["Consultant", "Title", "Seniority", "Location", "Languages", "Availability",
                                 "Available From", "Availability Notes", "Skills", "Tags", "Updated At"]

  /**
   * The eleven cell texts of a row, in header order; the tags are joined with
   * `tagSeparator` ("," in the CSV, ", " in the HTML table).
   */
  function RowCells(row: Search.ListItem, iso: Millis -> string, tagSeparator: string): (cells: seq<string>)
    requires row.updatedAt.Some?
    ensures |cells| == |Header|
    ensures cells[0] == row.consultant.name && cells[10] == iso(row.updatedAt.value)
  {
    [ row.consultant.name,
      row.consultant.title.GetOr(""),
      row.consultant.seniority.GetOr(""),
      row.consultant.location.GetOr(""),
      FormatLanguages(row.consultant.languages),
      StatusName(row.availability.status),
      if row.availability.availableFrom.Some? then iso(row.availability.availableFrom.value) else "",
      row.availability.notes.GetOr(""),
      FormatSkillList(row.skills),
      Join(row.tags, tagSeparator),
      iso(row.updatedAt.value) ]
  }

  predicate Dated(rows: seq<Search.ListItem>) {
    forall i | 0 <= i < |rows| :: rows[i].updatedAt.Some?
  }

  // ----- CSV -----

  /** A CSV line: every cell as a JSON string, joined by commas. */
  function CsvLine(row: Search.ListItem, iso: Millis -> string): (line: string)
    requires row.updatedAt.Some?
    ensures '\n' !in line
  {
    var cells := RowCells(row, iso, ",");
    var fields := seq(|cells|, k requires 0 <= k < |cells| => JsonString(cells[k]));
    assert forall p | p in fields :: '\n' !in p;
    JoinFree(fields, ",", '\n');
    Join(fields, ",")
  }

  function CsvLines(rows: seq<Search.ListItem>, iso: Millis -> string): (lines: seq<string>)
    requires Dated(rows)
    ensures |lines| == |rows| && forall i | 0 <= i < |rows| :: lines[i] == CsvLine(rows[i], iso)
  {
    seq(|rows|, i requires 0 <= i < |rows| && Dated(rows) => CsvLine(rows[i], iso))
  }

  /**
   * `createCsv`: the header line, then one line per row in order, joined by line
   * breaks. Splitting the text on line breaks gives exactly those `|rows| + 1` lines.
   */
  method CreateCsv(rows: seq<Search.ListItem>, iso: Millis -> string) returns (csv: string)
    requires Dated(rows)
    ensures Split(csv, '\n') == [Join(Header, ",")] + CsvLines(rows, iso)
    ensures |Split(csv, '\n')| == |rows| + 1
  {
    var header := Join(Header, ",");
    var lines := AppendCsvLines([header], rows, iso);
    csv := Join(lines, "\n");
    HeaderFree();
    SplitLines(header, CsvLines(rows, iso));
  }

  /** The loop of `createCsv`: one line pushed per row, in order, after the lines already there. */
  method AppendCsvLines(start: seq<string>, rows: seq<Search.ListItem>, iso: Millis -> string) returns (lines: seq<string>)
    requires Dated(rows)
    ensures lines == start + CsvLines(rows, iso)
  {
    lines := start;
    for i := 0 to |rows|
      invariant Dated(rows[..i])
      invariant lines == start + CsvLines(rows[..i], iso)
    {
      CsvLinesSnoc(rows, iso, i);
      lines := lines + [CsvLine(rows[i], iso)];
    }
    assert rows[..|rows|] == rows;
  }

  lemma HeaderFree()
    ensures '\n' !in Join(Header, ",")
  {
    HeaderCellsFree();
    JoinFree(Header, ",", '\n');
  }

  lemma HeaderCellsFree()
    ensures forall p | p in Header :: '\n' !in p
  {
  }

  /** A header and lines without line breaks, joined by line breaks, split back into the same lines. */
  lemma SplitLines(header: string, lines: seq<string>)
    requires '\n' !in header && forall i | 0 <= i < |lines| :: '\n' !in lines[i]
    ensures Split(Join([header] + lines, "\n"), '\n') == [header] + lines
  {
    forall p | p in [header] + lines ensures '\n' !in p {
      var k := IndexOf([header] + lines, p);
      if k > 0 {
        assert p == lines[k - 1];
      }
    }
    SplitJoin([header] + lines, '\n');
  }

  lemma CsvLinesSnoc(rows: seq<Search.ListItem>, iso: Millis -> string, i: nat)
    requires Dated(rows) && i < |rows|
    ensures Dated(rows[..i]) && Dated(rows[..i + 1])
    ensures CsvLines(rows[..i + 1], iso) == CsvLines(rows[..i], iso) + [CsvLine(rows[i], iso)]
  {
    var a, b := CsvLines(rows[..i + 1], iso), CsvLines(rows[..i], iso) + [CsvLine(rows[i], iso)];
    assert |a| == |b|;
    forall j | 0 <= j < |a| ensures a[j] == b[j] {
      assert rows[..i + 1][j] == rows[j];
    }
  }

  // ----- HTML table -----

  /** `<tag>text</tag>`. */
  function Element(tag: string, text: string): string {
    "<" + tag + ">" + text + "</" + tag + ">"
  }

  /** `<tr>` followed by one element per cell and `</tr>`. */
  function TableRow(tag: string, cells: seq<string>): string {
    "<tr>" + Concat(seq(|cells|, i requires 0 <= i < |cells| => Element(tag, cells[i]))) + "</tr>"
  }

  function EscapedCells(cells: seq<string>): (r: seq<string>)
    ensures |r| == |cells| && forall i | 0 <= i < |cells| :: r[i] == EscapeHtml(cells[i])
  {
    seq(|cells|, i requires 0 <= i < |cells| => EscapeHtml(cells[i]))
  }

  /** The cells of the body rows; the tags are joined with `", "`. */
  function TableCells(rows: seq<Search.ListItem>, iso: Millis -> string): (r: seq<seq<string>>)
    requires Dated(rows)
    ensures |r| == |rows| && forall i | 0 <= i < |rows| :: r[i] == RowCells(rows[i], iso, ", ")
  {
    seq(|rows|, i requires 0 <= i < |rows| && Dated(rows) => RowCells(rows[i], iso, ", "))
  }

  /** One `<td>` row of escaped cells per result. */
  function HtmlRows(cells: seq<seq<string>>): (r: seq<string>)
    ensures |r| == |cells|
  {
    seq(|cells|, i requires 0 <= i < |cells| => TableRow("td", EscapedCells(cells[i])))
  }

  /** The text after each `<`: `Tagged(["a>", "b"])` is `"<a><b"`. */
  function Tagged(pieces: seq<string>): string {
    if pieces == [] then "" else "<" + pieces[0] + Tagged(pieces[1..])
  }

  /**
   * The fixed start of the document, `<!DOCTYPE html><html><head><meta charset="utf-8" /></head><body><table>`,
   * as the pieces that follow each of its `<`.
   */
  const Opening: seq<string> := ["!DOCTYPE html>", "html>", "head>", "meta charset=\"utf-8\" />", "/head>", "body>", "table>"]

  /** The fixed end of the document, `</table></body></html>`. */
  const Closing: seq<string> := ["/table>", "/body>", "/html>"]

  /** `createExcelBuffer`: an HTML document holding one table, the header row first, then one row per result. */
  function CreateExcel(rows: seq<Search.ListItem>, iso: Millis -> string): string
    requires Dated(rows)
  {
    Tagged(Opening) + TableRow("th", EscapedCells(Header)) + Concat(HtmlRows(TableCells(rows, iso))) + Tagged(Closing)
  }

  lemma {:induction false} TaggedAppend(a: seq<string>, b: seq<string>)
    ensures Tagged(a + b) == Tagged(a) + Tagged(b)
    decreases |a|
  {
    if a != [] {
      assert (a + b)[1..] == a[1..] + b;
      TaggedAppend(a[1..], b);
    } else {
      assert a + b == b;
    }
  }

  lemma {:induction false} TaggedJoin(pieces: seq<string>)
    ensures Tagged(pieces) == Join([""] + pieces, "<")
    decreases |pieces|
  {
    if pieces != [] {
      TaggedJoin(pieces[1..]);
      assert ([""] + pieces)[1..] == pieces;
      assert ([""] + pieces[1..])[1..] == pieces[1..];
      if |pieces| == 1 {
        assert Join(pieces, "<") == pieces[0];
      } else {
        assert Join(pieces, "<") == pieces[0] + "<" + Join(pieces[1..], "<");
      }
    }
  }

  /** No piece holds a `<`. */
  predicate TagFree(pieces: seq<string>) {
    forall p | p in pieces :: '<' !in p
  }

  lemma TagFreeAppend(a: seq<string>, b: seq<string>)
    requires TagFree(a) && TagFree(b)
    ensures TagFree(a + b)
  {
    forall p | p in a + b ensures '<' !in p {
      var k := IndexOf(a + b, p);
      if k < |a| {
        assert p == a[k];
      } else {
        assert p == b[k - |a|];
      }
    }
  }

  /** Text whose pieces hold no `<` splits on `<` into an empty prefix and the pieces. */
  lemma SplitTagged(pieces: seq<string>)
    requires TagFree(pieces)
    ensures Split(Tagged(pieces), '<') == [""] + pieces
  {
    TaggedJoin(pieces);
    forall p | p in [""] + pieces ensures '<' !in p {
      var k := IndexOf([""] + pieces, p);
      if k > 0 {
        assert p == pieces[k - 1];
      }
    }
    SplitJoin([""] + pieces, '<');
  }

  /** The pieces of the cells of a row: `tag>cell` and `/tag>` per cell. */
  function CellPieces(tag: string, cells: seq<string>): (r: seq<string>)
    ensures |r| == 2 * |cells|
    ensures forall i | 0 <= i < |cells| :: r[2 * i] == tag + ">" + cells[i] && r[2 * i + 1] == "/" + tag + ">"
  {
    if cells == [] then [] else [tag + ">" + cells[0], "/" + tag + ">"] + CellPieces(tag, cells[1..])
  }

  /** The pieces of one table row: `tr>`, the cells, `/tr>`. */
  function RowPieces(tag: string, cells: seq<string>): seq<string> {
    ["tr>"] + CellPieces(tag, cells) + ["/tr>"]
  }

  lemma ElementTagged(tag: string, text: string)
    ensures Element(tag, text) == Tagged([tag + ">" + text, "/" + tag + ">"])
  {
    assert Tagged(["/" + tag + ">"]) == "<" + ("/" + tag + ">");
  }

  lemma {:induction false} CellsTagged(tag: string, cells: seq<string>)
    ensures Concat(seq(|cells|, i requires 0 <= i < |cells| => Element(tag, cells[i]))) == Tagged(CellPieces(tag, cells))
    decreases |cells|
  {
    var elements := seq(|cells|, i requires 0 <= i < |cells| => Element(tag, cells[i]));
    if cells != [] {
      CellsTagged(tag, cells[1..]);
      assert elements[1..] == seq(|cells[1..]|, i requires 0 <= i < |cells[1..]| => Element(tag, cells[1..][i]));
      ElementTagged(tag, cells[0]);
      TaggedAppend([tag + ">" + cells[0], "/" + tag + ">"], CellPieces(tag, cells[1..]));
    }
  }

  lemma RowTagged(tag: string, cells: seq<string>)
    ensures TableRow(tag, cells) == Tagged(RowPieces(tag, cells))
  {
    CellsTagged(tag, cells);
    TaggedAppend(["tr>"] + CellPieces(tag, cells), ["/tr>"]);
    TaggedAppend(["tr>"], CellPieces(tag, cells));
  }

  lemma {:induction false} CellPiecesFree(tag: string, cells: seq<string>)
    requires '<' !in tag && TagFree(cells)
    ensures TagFree(CellPieces(tag, cells))
    decreases |cells|
  {
    if cells != [] {
      assert cells[0] in cells;
      assert TagFree(cells[1..]) by {
        forall p | p in cells[1..] ensures '<' !in p {
          var k := IndexOf(cells[1..], p);
          assert p == cells[k + 1];
        }
      }
      CellPiecesFree(tag, cells[1..]);
      assert TagFree([tag + ">" + cells[0], "/" + tag + ">"]);
      TagFreeAppend([tag + ">" + cells[0], "/" + tag + ">"], CellPieces(tag, cells[1..]));
    }
  }

  /** Escaped cells hold no `<`, so neither do the pieces of their row. */
  lemma RowPiecesFree(tag: string, cells: seq<string>)
    requires '<' !in tag
    ensures TagFree(RowPieces(tag, EscapedCells(cells)))
  {
    var escaped := EscapedCells(cells);
    forall p | p in escaped ensures '<' !in p {
      var k := IndexOf(escaped, p);
      EscapeHtmlNoSpecials(cells[k]);
    }
    CellPiecesFree(tag, escaped);
    TagFreeAppend(["tr>"], CellPieces(tag, escaped));
    TagFreeAppend(["tr>"] + CellPieces(tag, escaped), ["/tr>"]);
  }

  /** The pieces of the body rows, row after row. */
  function BodyPieces(cells: seq<seq<string>>): seq<string>
    decreases |cells|
  {
    if cells == [] then [] else RowPieces("td", EscapedCells(cells[0])) + BodyPieces(cells[1..])
  }

  lemma {:induction false} BodyTagged(cells: seq<seq<string>>)
    ensures Concat(HtmlRows(cells)) == Tagged(BodyPieces(cells))
    decreases |cells|
  {
    if cells != [] {
      BodyTagged(cells[1..]);
      assert HtmlRows(cells)[1..] == HtmlRows(cells[1..]);
      RowTagged("td", EscapedCells(cells[0]));
      TaggedAppend(RowPieces("td", EscapedCells(cells[0])), BodyPieces(cells[1..]));
    }
  }

  lemma {:induction false} BodyFree(cells: seq<seq<string>>)
    ensures TagFree(BodyPieces(cells))
    decreases |cells|
  {
    if cells != [] {
      BodyFree(cells[1..]);
      RowPiecesFree("td", cells[0]);
      TagFreeAppend(RowPieces("td", EscapedCells(cells[0])), BodyPieces(cells[1..]));
    }
  }

  /**
   * The document as the pieces between its `<` characters: the opening tags, the
   * header row with its eleven `<th>` cells, one row of eleven escaped `<td>` cells
   * per result in order, and the closing tags.
   */
  function ExcelPieces(rows: seq<Search.ListItem>, iso: Millis -> string): seq<string>
    requires Dated(rows)
  {
    Opening + RowPieces("th", EscapedCells(Header)) + BodyPieces(TableCells(rows, iso)) + Closing
  }

  lemma OpeningFree()
    ensures TagFree(Opening)
  {
    assert forall i | 0 <= i < |Opening| :: '<' !in Opening[i];
  }

  lemma ClosingFree()
    ensures TagFree(Closing)
  {
    assert forall i | 0 <= i < |Closing| :: '<' !in Closing[i];
  }

  lemma DocumentTagged(opening: seq<string>, header: seq<string>, cells: seq<seq<string>>, closing: seq<string>)
    requires TagFree(opening) && TagFree(closing)
    ensures Tagged(opening) + TableRow("th", EscapedCells(header)) + Concat(HtmlRows(cells)) + Tagged(closing)
         == Tagged(opening + RowPieces("th", EscapedCells(header)) + BodyPieces(cells) + closing)
    ensures TagFree(opening + RowPieces("th", EscapedCells(header)) + BodyPieces(cells) + closing)
  {
    var head := RowPieces("th", EscapedCells(header));
    var body := BodyPieces(cells);
    RowTagged("th", EscapedCells(header));
    BodyTagged(cells);
    BodyFree(cells);
    TaggedAppend(opening + head + body, closing);
    TaggedAppend(opening + head, body);
    TaggedAppend(opening, head);
    RowPiecesFree("th", header);
    TagFreeAppend(opening, head);
    TagFreeAppend(opening + head, body);
    TagFreeAppend(opening + head + body, closing);
  }

  /**
   * Every cell is escaped, so no cell text holds a `<`: splitting the document on
   * `<` gives back exactly its tag structure, a header row of eleven `<th>` cells and
   * one row of eleven `<td>` cells per result, in order.
   */
  lemma ExcelStructure(rows: seq<Search.ListItem>, iso: Millis -> string)
    requires Dated(rows)
    ensures Split(CreateExcel(rows, iso), '<') == [""] + ExcelPieces(rows, iso)
  {
    OpeningFree();
    ClosingFree();
    DocumentTagged(Opening, Header, TableCells(rows, iso), Closing);
    SplitTagged(ExcelPieces(rows, iso));
  }
}
