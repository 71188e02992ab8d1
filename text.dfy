/**
 * String helpers shared by the model: the JavaScript `trim`, ASCII lower-casing,
 * `split` on a single character or on a regular expression that is an alternation
 * of literal separators, `join`, "drop the empty strings", "keep the first
 * occurrence of every value" and decimal rendering of integers.
 */
module Text {
  import opened Common

  /** The characters that `String.prototype.trim` strips and that the regex class `\s` matches. */
  predicate IsSpace(c: char) {
    || c == ' ' || c == '\t' || c == '\n' || c == '\r' || c == '\U{0B}' || c == '\U{0C}'
    || c == '\U{A0}' || c == '\U{1680}' || ('\U{2000}' <= c <= '\U{200A}')
    || c == '\U{2028}' || c == '\U{2029}' || c == '\U{202F}' || c == '\U{205F}'
    || c == '\U{3000}' || c == '\U{FEFF}'
  }

  /** No white space at either end. */
  predicate IsTrimmed(s: string) {
    s == [] || (!IsSpace(s[0]) && !IsSpace(s[|s| - 1]))
  }

  function TrimStart(s: string): (r: string)
    ensures |r| <= |s| && r == s[|s| - |r|..]
    ensures r != [] ==> !IsSpace(r[0])
    ensures forall i | 0 <= i < |s| - |r| :: IsSpace(s[i])
  {
    if s != [] && IsSpace(s[0]) then TrimStart(s[1..]) else s
  }

  function TrimEnd(s: string): (r: string)
    ensures |r| <= |s| && r == s[..|r|]
    ensures r != [] ==> !IsSpace(r[|r| - 1])
    ensures forall i | |r| <= i < |s| :: IsSpace(s[i])
  {
    if s != [] && IsSpace(s[|s| - 1]) then TrimEnd(s[..|s| - 1]) else s
  }

  /** `s.trim()`: the longest infix of `s` that neither starts nor ends with white space. */
  function Trim(s: string): (r: string)
    ensures IsTrimmed(r)
    ensures |r| <= |s|
    ensures forall c | c in r :: c in s
    ensures IsTrimmed(s) ==> r == s
    ensures |r| <= |TrimStart(s)| && r == s[|s| - |TrimStart(s)|..][..|r|]
  {
    var t := TrimStart(s);
    var r := TrimEnd(t);
    assert r != [] ==> r[0] == t[0];
    r
  }

  /** Trimming a trimmed string changes nothing. */
  lemma TrimIdempotent(s: string)
    ensures Trim(Trim(s)) == Trim(s)
  {
  }

  /** ASCII lower-casing of one character. */
  function Lower(c: char): char {
    if 'A' <= c <= 'Z' then (c as int + 32) as char else c
  }

  /** `s.toLowerCase()` restricted to ASCII letters. */
  function ToLower(s: string): (r: string)
    ensures |r| == |s|
    ensures forall i | 0 <= i < |s| :: r[i] == Lower(s[i])
  {
    seq(|s|, i requires 0 <= i < |s| => Lower(s[i]))
  }

  predicate EqualsIgnoreCase(a: string, b: string) {
    ToLower(a) == ToLower(b)
  }

  /** `s` itself, or its lower-cased form when the regular expression carries the `i` flag. */
  function Fold(s: string, ignoreCase: bool): string {
    if ignoreCase then ToLower(s) else s
  }

  /**
   * The length of the first separator of `seps` that starts `s`, or 0 when none does.
   * Trying the separators in order is how a regular expression `a|b|c` picks an
   * alternative at one position.
   */
  function MatchLength(s: string, seps: seq<string>, ignoreCase: bool): (n: nat)
    ensures n <= |s|
  {
    if seps == [] then 0
    else if 0 < |seps[0]| <= |s| && Fold(s[..|seps[0]|], ignoreCase) == seps[0] then |seps[0]|
    else MatchLength(s, seps[1..], ignoreCase)
  }

  /**
   * `s.split(re)` where `re` is an alternation of non-empty literal separators: the
   * string is scanned from the left and cut at every match; there is always at least
   * one part, and the empty string gives `[""]`.
   */
  function SplitOn(s: string, seps: seq<string>, ignoreCase: bool): (parts: seq<string>)
    ensures |parts| >= 1
    decreases |s|
  {
    if s == [] then [""]
    else
      var n := MatchLength(s, seps, ignoreCase);
      if n > 0 then [""] + SplitOn(s[n..], seps, ignoreCase)
      else
        var rest := SplitOn(s[1..], seps, ignoreCase);
        [[s[0]] + rest[0]] + rest[1..]
  }

  /** No separator can start at `s[0]` when none begins with that character. */
  lemma {:induction false} NoMatchAtFirst(s: string, seps: seq<string>, ignoreCase: bool)
    requires s != []
    requires forall sep | sep in seps :: sep != [] && sep[0] != (if ignoreCase then Lower(s[0]) else s[0])
    ensures MatchLength(s, seps, ignoreCase) == 0
    decreases |seps|
  {
    if seps != [] {
      assert seps[0] in seps;
      if 0 < |seps[0]| <= |s| {
        assert Fold(s[..|seps[0]|], ignoreCase)[0] != seps[0][0];
      }
      assert forall sep | sep in seps[1..] :: sep in seps;
      NoMatchAtFirst(s, seps[1..], ignoreCase);
    }
  }

  /** No separator matches at the start of `s` when each differs from `s` at some position `j` both reach. */
  lemma {:induction false} NoMatchAt(s: string, seps: seq<string>, ignoreCase: bool, j: nat)
    requires j < |s|
    requires forall sep | sep in seps :: j < |sep| && sep[j] != (if ignoreCase then Lower(s[j]) else s[j])
    ensures MatchLength(s, seps, ignoreCase) == 0
    decreases |seps|
  {
    if seps != [] {
      assert seps[0] in seps;
      if 0 < |seps[0]| <= |s| {
        assert Fold(s[..|seps[0]|], ignoreCase)[j] != seps[0][j];
      }
      assert forall sep | sep in seps[1..] :: sep in seps;
      NoMatchAt(s, seps[1..], ignoreCase, j);
    }
  }

  /** Where no separator matches at `s[0]`, that character starts the first part. */
  lemma SplitOnStep(s: string, seps: seq<string>, ignoreCase: bool)
    requires s != [] && MatchLength(s, seps, ignoreCase) == 0
    ensures var rest := SplitOn(s[1..], seps, ignoreCase);
            SplitOn(s, seps, ignoreCase) == [[s[0]] + rest[0]] + rest[1..]
  {
  }

  /** One more character where no separator matches joins the front of the first part. */
  lemma SplitOnPrefixStep(s: string, j: nat, seps: seq<string>, ignoreCase: bool)
    requires 0 < j <= |s| && MatchLength(s, seps, ignoreCase) == 0
    requires var rest := SplitOn(s[j..], seps, ignoreCase);
             SplitOn(s[1..], seps, ignoreCase) == [s[1..j] + rest[0]] + rest[1..]
    ensures var rest := SplitOn(s[j..], seps, ignoreCase);
            SplitOn(s, seps, ignoreCase) == [s[..j] + rest[0]] + rest[1..]
  {
    var rest := SplitOn(s[j..], seps, ignoreCase);
    SplitOnStep(s, seps, ignoreCase);
    assert [s[0]] + (s[1..j] + rest[0]) == s[..j] + rest[0] by {
      assert [s[0]] + s[1..j] == s[..j];
    }
  }

  /** Where no separator matches in `s[..j]`, the first part of `s` starts with all of `s[..j]`. */
  lemma {:induction false} SplitOnPrefix(s: string, j: nat, seps: seq<string>, ignoreCase: bool)
    requires j <= |s|
    requires forall k | 0 <= k < j :: MatchLength(s[k..], seps, ignoreCase) == 0
    ensures var rest := SplitOn(s[j..], seps, ignoreCase);
            SplitOn(s, seps, ignoreCase) == [s[..j] + rest[0]] + rest[1..]
    decreases j
  {
    if j > 0 {
      var t := s[1..];
      forall k | 0 <= k < j - 1 ensures MatchLength(t[k..], seps, ignoreCase) == 0 {
        assert t[k..] == s[k + 1..];
      }
      SplitOnPrefix(t, j - 1, seps, ignoreCase);
      assert t[j - 1..] == s[j..] && t[..j - 1] == s[1..j];
      assert s[0..] == s;
      SplitOnPrefixStep(s, j, seps, ignoreCase);
    } else {
      var rest := SplitOn(s, seps, ignoreCase);
      assert s[j..] == s && s[..j] == "";
      assert s[..j] + rest[0] == rest[0];
      assert [rest[0]] + rest[1..] == rest;
    }
  }

  /** A word none of whose characters starts a separator stays whole at the front of the first part. */
  lemma SplitOnWord(w: string, rest: string, seps: seq<string>, ignoreCase: bool)
    requires forall c | c in w :: forall sep | sep in seps :: sep != [] && sep[0] != (if ignoreCase then Lower(c) else c)
    ensures var parts := SplitOn(rest, seps, ignoreCase);
            SplitOn(w + rest, seps, ignoreCase) == [w + parts[0]] + parts[1..]
  {
    var s := w + rest;
    forall k | 0 <= k < |w| ensures MatchLength(s[k..], seps, ignoreCase) == 0 {
      assert w[k] in w;
      assert s[k..][0] == w[k];
      NoMatchAtFirst(s[k..], seps, ignoreCase);
    }
    SplitOnPrefix(s, |w|, seps, ignoreCase);
    assert s[..|w|] == w && s[|w|..] == rest;
  }

  /** The first separator is tried first, and it matches a string it starts. */
  lemma MatchHead(sep: string, rest: string, seps: seq<string>, ignoreCase: bool)
    requires seps != [] && seps[0] == sep && sep != []
    requires ignoreCase ==> forall c | c in sep :: !('A' <= c <= 'Z')
    ensures MatchLength(sep + rest, seps, ignoreCase) == |sep|
  {
    assert (sep + rest)[..|sep|] == sep;
    if ignoreCase {
      assert forall i | 0 <= i < |sep| :: sep[i] in sep;
      assert ToLower(sep) == sep;
    }
  }

  /** A first separator that differs from `s` at a position both reach is passed over. */
  lemma MatchSkip(s: string, seps: seq<string>, ignoreCase: bool, j: nat)
    requires seps != [] && j < |s| && j < |seps[0]|
    requires seps[0][j] != (if ignoreCase then Lower(s[j]) else s[j])
    ensures MatchLength(s, seps, ignoreCase) == MatchLength(s, seps[1..], ignoreCase)
  {
    if 0 < |seps[0]| <= |s| {
      assert Fold(s[..|seps[0]|], ignoreCase)[j] != seps[0][j];
    }
  }

  /** A matched separator ends the current part. */
  lemma SplitOnSep(sep: string, rest: string, seps: seq<string>, ignoreCase: bool)
    requires 0 < |sep| && MatchLength(sep + rest, seps, ignoreCase) == |sep|
    ensures SplitOn(sep + rest, seps, ignoreCase) == [""] + SplitOn(rest, seps, ignoreCase)
  {
    assert (sep + rest)[|sep|..] == rest;
  }

  /** A word followed by a separator is a part of its own. */
  lemma SplitOnWordSep(w: string, sep: string, tail: string, seps: seq<string>, ignoreCase: bool)
    requires forall c | c in w :: forall sep | sep in seps :: sep != [] && sep[0] != (if ignoreCase then Lower(c) else c)
    requires 0 < |sep| && MatchLength(sep + tail, seps, ignoreCase) == |sep|
    ensures SplitOn(w + (sep + tail), seps, ignoreCase) == [w] + SplitOn(tail, seps, ignoreCase)
  {
    SplitOnSep(sep, tail, seps, ignoreCase);
    SplitOnWord(w, sep + tail, seps, ignoreCase);
    assert w + "" == w;
  }

  /** Splitting a join on a one-character separator gives the parts back when no part holds a character that starts a separator. */
  lemma {:induction false} SplitOnJoin(parts: seq<string>, c: char, seps: seq<string>)
    requires parts != [] && seps != [] && seps[0] == [c]
    requires forall p, ch | p in parts && ch in p :: forall sep | sep in seps :: sep != [] && sep[0] != ch
    ensures SplitOn(Join(parts, [c]), seps, false) == parts
    decreases |parts|
  {
    assert parts[0] in parts;
    if |parts| == 1 {
      SplitOnWord(parts[0], "", seps, false);
      assert parts[0] + "" == parts[0];
    } else {
      var tail := Join(parts[1..], [c]);
      assert SplitOn(tail, seps, false) == parts[1..] by {
        assert forall p | p in parts[1..] :: p in parts;
        SplitOnJoin(parts[1..], c, seps);
      }
      assert SplitOn(parts[0] + ([c] + tail), seps, false) == [parts[0]] + SplitOn(tail, seps, false) by {
        MatchHead([c], tail, seps, false);
        SplitOnWordSep(parts[0], [c], tail, seps, false);
      }
      assert Join(parts, [c]) == parts[0] + ([c] + tail);
      assert [parts[0]] + parts[1..] == parts;
    }
  }

  /** `s.split(c)` for a single character `c`. */
  function Split(s: string, c: char): (parts: seq<string>)
    ensures |parts| >= 1
  {
    SplitOn(s, [[c]], false)
  }

  lemma MatchLengthSingle(s: string, c: char)
    ensures MatchLength(s, [[c]], false) == if s != [] && s[0] == c then 1 else 0
  {
    if s != [] {
      assert MatchLength(s, [[c]][1..], false) == 0;
    }
  }

  /** `parts.join(sep)`. */
  function Join(parts: seq<string>, sep: string): string
  {
    if parts == [] then ""
    else if |parts| == 1 then parts[0]
    else parts[0] + sep + Join(parts[1..], sep)
  }

  /** A join starts with its first part. */
  lemma JoinStartsWithFirst(parts: seq<string>, sep: string)
    requires parts != []
    ensures |Join(parts, sep)| >= |parts[0]| && Join(parts, sep)[..|parts[0]|] == parts[0]
  {
  }

  /** Splitting on `c` never leaves `c` inside a part. */
  lemma {:induction false} SplitPartsFree(s: string, c: char)
    ensures forall p | p in Split(s, c) :: c !in p
    decreases |s|
  {
    if s != [] {
      MatchLengthSingle(s, c);
      SplitPartsFree(s[1..], c);
    }
  }

  /** A split on `c` that is joined back with `c` gives the original string. */
  lemma {:induction false} JoinSplit(s: string, c: char)
    ensures Join(Split(s, c), [c]) == s
    decreases |s|
  {
    if s != [] {
      MatchLengthSingle(s, c);
      JoinSplit(s[1..], c);
      var rest := Split(s[1..], c);
      if s[0] == c {
        assert Split(s, c) == [""] + rest;
      } else {
        assert Split(s, c) == [[s[0]] + rest[0]] + rest[1..];
        if |rest| > 1 {
          assert rest == [rest[0]] + rest[1..];
        }
      }
    }
  }

  /** A prefix free of `c` is glued onto the first part of what follows it. */
  lemma {:induction false} SplitPrefix(p: string, t: string, c: char)
    requires c !in p
    ensures Split(p + t, c) == [p + Split(t, c)[0]] + Split(t, c)[1..]
    decreases |p|
  {
    if p != [] {
      MatchLengthSingle(p + t, c);
      assert (p + t)[1..] == p[1..] + t;
      SplitPrefix(p[1..], t, c);
      assert [p[0]] + (p[1..] + Split(t, c)[0]) == p + Split(t, c)[0];
    } else {
      assert p + t == t;
      assert p + Split(t, c)[0] == Split(t, c)[0];
      assert [Split(t, c)[0]] + Split(t, c)[1..] == Split(t, c);
    }
  }

  /** The first part of a split is the prefix before the first `c`. */
  lemma SplitFirst(p: string, t: string, c: char)
    requires c !in p && (t == [] || t[0] == c)
    ensures Split(p + t, c)[0] == p
  {
    SplitPrefix(p, t, c);
    if t != [] {
      MatchLengthSingle(t, c);
    }
  }

  /** Joining parts free of `c` with `c` and splitting again gives the parts back. */
  lemma {:induction false} SplitJoin(parts: seq<string>, c: char)
    requires parts != []
    requires forall p | p in parts :: c !in p
    ensures Split(Join(parts, [c]), c) == parts
    decreases |parts|
  {
    if |parts| == 1 {
      SplitPrefix(parts[0], "", c);
      assert parts[0] + "" == parts[0];
    } else {
      var tail := Join(parts[1..], [c]);
      assert Join(parts, [c]) == parts[0] + ([c] + tail);
      SplitPrefix(parts[0], [c] + tail, c);
      MatchLengthSingle([c] + tail, c);
      assert ([c] + tail)[1..] == tail;
      SplitJoin(parts[1..], c);
      assert Split([c] + tail, c) == [""] + parts[1..];
      assert parts[0] + "" == parts[0];
    }
  }

  /** The rest of `s` once its leading characters satisfying `inRun` are skipped. */
  function SkipRun(s: string, inRun: char -> bool): (r: string)
    ensures |r| <= |s| && r == s[|s| - |r|..]
    ensures r != [] ==> !inRun(r[0])
    ensures forall i | 0 <= i < |s| - |r| :: inRun(s[i])
  {
    if s != [] && inRun(s[0]) then SkipRun(s[1..], inRun) else s
  }

  /**
   * `s.replace(/[...]+/g, by)` where the character class is `inRun`: every maximal
   * run of characters satisfying `inRun` is replaced by `rep`, everything else is kept.
   */
  function ReplaceRuns(s: string, inRun: char -> bool, rep: string): (r: string)
    ensures s != [] && !inRun(s[0]) ==> r != [] && r[0] == s[0]
    ensures s != [] && inRun(s[0]) ==> r == rep + ReplaceRuns(SkipRun(s, inRun), inRun, rep)
    decreases |s|
  {
    if s == [] then []
    else if inRun(s[0]) then rep + ReplaceRuns(SkipRun(s, inRun), inRun, rep)
    else [s[0]] + ReplaceRuns(s[1..], inRun, rep)
  }

  /** Replacing runs brings in only the characters of `rep`, and keeps only characters outside the class. */
  lemma {:induction false} ReplaceRunsChars(s: string, inRun: char -> bool, rep: string)
    ensures forall c | c in ReplaceRuns(s, inRun, rep) :: c in rep || (c in s && !inRun(c))
    decreases |s|
  {
    if s != [] {
      if inRun(s[0]) {
        var rest := SkipRun(s, inRun);
        ReplaceRunsChars(rest, inRun, rep);
        assert forall c | c in rest :: c in s;
      } else {
        ReplaceRunsChars(s[1..], inRun, rep);
        assert forall c | c in s[1..] :: c in s;
      }
    }
  }

  /** A string without run characters is left as it is. */
  lemma {:induction false} ReplaceRunsNoRun(s: string, inRun: char -> bool, rep: string)
    requires forall c | c in s :: !inRun(c)
    ensures ReplaceRuns(s, inRun, rep) == s
    decreases |s|
  {
    if s != [] {
      assert s[0] in s;
      ReplaceRunsNoRun(s[1..], inRun, rep);
    }
  }

  /** Five strings concatenated from the left are the same string concatenated from the right. */
  lemma ConcatRight(a: string, b: string, c: string, d: string, e: string)
    ensures a + b + c + d + e == a + (b + (c + (d + e)))
  {
  }

  /** Skipping a run stops inside `a` when `a` ends outside the class. */
  lemma {:induction false} SkipRunAppend(a: string, t: string, inRun: char -> bool)
    requires a != [] && !inRun(a[|a| - 1])
    ensures SkipRun(a + t, inRun) == SkipRun(a, inRun) + t
    decreases |a|
  {
    assert (a + t)[0] == a[0];
    if inRun(a[0]) {
      assert (a + t)[1..] == a[1..] + t;
      SkipRunAppend(a[1..], t, inRun);
    }
  }

  /** Skipping a whole run lands on what follows it. */
  lemma {:induction false} SkipRunWhole(run: string, b: string, inRun: char -> bool)
    requires forall c | c in run :: inRun(c)
    requires b == [] || !inRun(b[0])
    ensures SkipRun(run + b, inRun) == b
    decreases |run|
  {
    if run == [] {
      assert run + b == b;
    } else {
      assert run[0] in run && (run + b)[0] == run[0];
      assert (run + b)[1..] == run[1..] + b;
      assert forall c | c in run[1..] :: c in run;
      SkipRunWhole(run[1..], b, inRun);
    }
  }

  /** A leading run is replaced by `rep`, and what follows it on its own. */
  lemma ReplaceRunsLeading(run: string, b: string, inRun: char -> bool, rep: string)
    requires run != [] && forall c | c in run :: inRun(c)
    requires b == [] || !inRun(b[0])
    ensures ReplaceRuns(run + b, inRun, rep) == rep + ReplaceRuns(b, inRun, rep)
  {
    assert run[0] in run && (run + b)[0] == run[0];
    SkipRunWhole(run, b, inRun);
  }

  /** Where `a` starts with a run, replacing in `a + t` starts as replacing in `a` does. */
  lemma ReplaceRunsRunFirst(a: string, t: string, tail: string, inRun: char -> bool, rep: string)
    requires a != [] && inRun(a[0]) && !inRun(a[|a| - 1])
    requires ReplaceRuns(SkipRun(a, inRun) + t, inRun, rep) == ReplaceRuns(SkipRun(a, inRun), inRun, rep) + tail
    ensures ReplaceRuns(a + t, inRun, rep) == ReplaceRuns(a, inRun, rep) + tail
  {
    AppendAssoc(rep, ReplaceRuns(SkipRun(a, inRun), inRun, rep), tail);
    assert (a + t)[0] == a[0];
    SkipRunAppend(a, t, inRun);
  }

  /** Where `a` starts outside the class, that character is kept before the rest. */
  lemma ReplaceRunsKeptFirst(a: string, t: string, tail: string, inRun: char -> bool, rep: string)
    requires a != [] && !inRun(a[0])
    requires ReplaceRuns(a[1..] + t, inRun, rep) == ReplaceRuns(a[1..], inRun, rep) + tail
    ensures ReplaceRuns(a + t, inRun, rep) == ReplaceRuns(a, inRun, rep) + tail
  {
    AppendAssoc([a[0]], ReplaceRuns(a[1..], inRun, rep), tail);
    ReplaceRunsKeptStep(a, t, inRun, rep);
  }

  lemma ReplaceRunsKeptStep(a: string, t: string, inRun: char -> bool, rep: string)
    requires a != [] && !inRun(a[0])
    ensures ReplaceRuns(a + t, inRun, rep) == [a[0]] + ReplaceRuns(a[1..] + t, inRun, rep)
    ensures ReplaceRuns(a, inRun, rep) == [a[0]] + ReplaceRuns(a[1..], inRun, rep)
  {
    assert (a + t)[0] == a[0] && (a + t)[1..] == a[1..] + t;
  }

  /** A maximal run between `a` and `b` becomes one `rep`, and each side is replaced on its own. */
  lemma {:induction false} ReplaceRunsAround(a: string, run: string, b: string, inRun: char -> bool, rep: string)
    requires run != [] && forall c | c in run :: inRun(c)
    requires a == [] || !inRun(a[|a| - 1])
    requires b == [] || !inRun(b[0])
    ensures ReplaceRuns(a + (run + b), inRun, rep) == ReplaceRuns(a, inRun, rep) + (rep + ReplaceRuns(b, inRun, rep))
    decreases |a|
  {
    var tail := rep + ReplaceRuns(b, inRun, rep);
    if a == [] {
      assert a + (run + b) == run + b;
      assert ReplaceRuns(a, inRun, rep) + tail == tail;
      ReplaceRunsLeading(run, b, inRun, rep);
    } else if inRun(a[0]) {
      var rest := SkipRun(a, inRun);
      assert rest != [] && rest[|rest| - 1] == a[|a| - 1];
      ReplaceRunsAround(rest, run, b, inRun, rep);
      ReplaceRunsRunFirst(a, run + b, tail, inRun, rep);
    } else {
      assert a[1..] == [] || a[1..][|a[1..]| - 1] == a[|a| - 1];
      ReplaceRunsAround(a[1..], run, b, inRun, rep);
      ReplaceRunsKeptFirst(a, run + b, tail, inRun, rep);
    }
  }

  /** `map(v => v.trim())` distributes over concatenation. */
  lemma TrimAllAppend(xs: seq<string>, ys: seq<string>)
    ensures TrimAll(xs + ys) == TrimAll(xs) + TrimAll(ys)
  {
  }

  /** No two neighbouring characters both satisfy `p`. */
  predicate Isolated(s: string, p: char -> bool) {
    forall i | 0 <= i < |s| - 1 :: !(p(s[i]) && p(s[i + 1]))
  }

  /**
   * When the replacement is one character of the class itself, the result holds no
   * two class characters side by side: every run became that single character.
   */
  lemma {:induction false} ReplaceRunsIsolated(s: string, inRun: char -> bool, c: char)
    requires inRun(c)
    ensures Isolated(ReplaceRuns(s, inRun, [c]), inRun)
    decreases |s|
  {
    if s != [] {
      if inRun(s[0]) {
        var rest := SkipRun(s, inRun);
        ReplaceRunsIsolated(rest, inRun, c);
      } else {
        ReplaceRunsIsolated(s[1..], inRun, c);
      }
    }
  }

  /**
   * A string whose class characters are all `c` and never neighbours is left as it
   * is by replacing every run with `c`: each run is already that single character.
   */
  lemma {:induction false} ReplaceRunsSingles(s: string, inRun: char -> bool, c: char)
    requires forall x | x in s :: x == c || !inRun(x)
    requires Isolated(s, inRun)
    ensures ReplaceRuns(s, inRun, [c]) == s
    decreases |s|
  {
    if s != [] {
      assert forall x | x in s[1..] :: x in s;
      assert Isolated(s[1..], inRun) by {
        forall i | 0 <= i < |s[1..]| - 1
          ensures !(inRun(s[1..][i]) && inRun(s[1..][i + 1]))
        {
          assert s[1..][i] == s[i + 1] && s[1..][i + 1] == s[i + 2];
        }
      }
      ReplaceRunsSingles(s[1..], inRun, c);
      if inRun(s[0]) {
        assert s[0] in s;
        assert s[1..] == [] || !inRun(s[1]);
        assert SkipRun(s, inRun) == s[1..];
      }
    }
  }

  /** Every piece of an isolated string is isolated. */
  lemma IsolatedInfix(s: string, p: char -> bool, a: nat, b: nat)
    requires a <= b <= |s|
    requires Isolated(s, p)
    ensures Isolated(s[a..b], p)
  {
    assert forall i | 0 <= i < b - a :: s[a..b][i] == s[a + i];
  }

  lemma IsolatedTrim(s: string, p: char -> bool)
    requires Isolated(s, p)
    ensures Isolated(Trim(s), p)
  {
    var k := |s| - |TrimStart(s)|;
    IsolatedInfix(s, p, k, |s|);
    IsolatedInfix(s[k..], p, 0, |Trim(s)|);
  }

  /**
   * `s.split(/[...]+/)` where the character class is `inRun`: the pieces between
   * the maximal runs, including the empty pieces before a leading run and after a
   * trailing one.
   */
  function SplitRuns(s: string, inRun: char -> bool): (parts: seq<string>)
    ensures |parts| >= 1
    ensures forall p | p in parts :: forall c | c in p :: !inRun(c)
    decreases |s|
  {
    if s == [] then [""]
    else if inRun(s[0]) then [""] + SplitRuns(SkipRun(s, inRun), inRun)
    else
      var rest := SplitRuns(s[1..], inRun);
      assert forall p | p in rest[1..] :: p in rest;
      assert rest[0] in rest;
      [[s[0]] + rest[0]] + rest[1..]
  }

  /** The characters of `s` that do not satisfy `inRun`, in order. */
  function Without(s: string, inRun: char -> bool): (r: string)
    ensures |r| <= |s|
  {
    if s == [] then [] else (if inRun(s[0]) then [] else [s[0]]) + Without(s[1..], inRun)
  }

  /** All the parts, concatenated. */
  function Concat(parts: seq<string>): string {
    if parts == [] then [] else parts[0] + Concat(parts[1..])
  }

  lemma {:induction false} WithoutSkipRun(s: string, inRun: char -> bool)
    ensures Without(SkipRun(s, inRun), inRun) == Without(s, inRun)
    decreases |s|
  {
    if s != [] && inRun(s[0]) {
      WithoutSkipRun(s[1..], inRun);
    }
  }

  lemma {:induction false} WithoutAppend(a: string, b: string, inRun: char -> bool)
    ensures Without(a + b, inRun) == Without(a, inRun) + Without(b, inRun)
    decreases |a|
  {
    if a == [] {
      assert a + b == b;
    } else {
      assert (a + b)[0] == a[0] && (a + b)[1..] == a[1..] + b;
      WithoutAppend(a[1..], b, inRun);
    }
  }

  lemma {:induction false} WithoutAll(s: string, inRun: char -> bool)
    requires forall c | c in s :: inRun(c)
    ensures Without(s, inRun) == []
    decreases |s|
  {
    if s != [] {
      assert s[0] in s;
      assert forall c | c in s[1..] :: c in s;
      WithoutAll(s[1..], inRun);
    }
  }

  /** Replacing runs by characters of the class keeps every other character, in order. */
  lemma {:induction false} WithoutReplaceRuns(s: string, inRun: char -> bool, rep: string)
    requires forall c | c in rep :: inRun(c)
    ensures Without(ReplaceRuns(s, inRun, rep), inRun) == Without(s, inRun)
    decreases |s|
  {
    if s != [] {
      if inRun(s[0]) {
        var rest := SkipRun(s, inRun);
        WithoutReplaceRuns(rest, inRun, rep);
        WithoutAppend(rep, ReplaceRuns(rest, inRun, rep), inRun);
        WithoutAll(rep, inRun);
        WithoutSkipRun(s, inRun);
      } else {
        WithoutReplaceRuns(s[1..], inRun, rep);
        WithoutAppend([s[0]], ReplaceRuns(s[1..], inRun, rep), inRun);
      }
    }
  }

  lemma WithoutTrimStart(s: string, inRun: char -> bool)
    requires forall c | IsSpace(c) :: inRun(c)
    ensures Without(TrimStart(s), inRun) == Without(s, inRun)
  {
    var t := TrimStart(s);
    var k := |s| - |t|;
    assert s == s[..k] + t;
    WithoutAppend(s[..k], t, inRun);
    assert forall c | c in s[..k] :: inRun(c) by {
      forall c | c in s[..k] ensures inRun(c) {
        var i :| 0 <= i < k && s[..k][i] == c;
        assert IsSpace(s[i]);
      }
    }
    WithoutAll(s[..k], inRun);
  }

  lemma WithoutTrimEnd(s: string, inRun: char -> bool)
    requires forall c | IsSpace(c) :: inRun(c)
    ensures Without(TrimEnd(s), inRun) == Without(s, inRun)
  {
    var r := TrimEnd(s);
    assert s == r + s[|r|..];
    WithoutAppend(r, s[|r|..], inRun);
    assert forall c | c in s[|r|..] :: inRun(c) by {
      forall c | c in s[|r|..] ensures inRun(c) {
        var i :| 0 <= i < |s| - |r| && s[|r|..][i] == c;
        assert IsSpace(s[|r| + i]);
      }
    }
    WithoutAll(s[|r|..], inRun);
  }

  /** Trimming drops only white space, so it keeps every character outside a class that holds all white space. */
  lemma WithoutTrim(s: string, inRun: char -> bool)
    requires forall c | IsSpace(c) :: inRun(c)
    ensures Without(Trim(s), inRun) == Without(s, inRun)
  {
    WithoutTrimStart(s, inRun);
    WithoutTrimEnd(TrimStart(s), inRun);
  }

  /** Collapsing runs into a class character and trimming keeps every other character, in order. */
  lemma WithoutCollapse(s: string, inRun: char -> bool, c: char)
    requires inRun(c) && forall x | IsSpace(x) :: inRun(x)
    ensures Without(Trim(ReplaceRuns(s, inRun, [c])), inRun) == Without(s, inRun)
  {
    WithoutReplaceRuns(s, inRun, [c]);
    WithoutTrim(ReplaceRuns(s, inRun, [c]), inRun);
  }

  /** Splitting on runs loses exactly the run characters: no other character is dropped or moved. */
  lemma {:induction false} SplitRunsKeepsOthers(s: string, inRun: char -> bool)
    ensures Concat(SplitRuns(s, inRun)) == Without(s, inRun)
    decreases |s|
  {
    if s != [] {
      if inRun(s[0]) {
        var rest := SkipRun(s, inRun);
        SplitRunsKeepsOthers(rest, inRun);
        WithoutSkipRun(s, inRun);
        assert Without(s, inRun) == Without(s[1..], inRun);
        WithoutSkipRun(s[1..], inRun);
        assert SkipRun(s, inRun) == SkipRun(s[1..], inRun);
      } else {
        var rest := SplitRuns(s[1..], inRun);
        SplitRunsKeepsOthers(s[1..], inRun);
        var parts := SplitRuns(s, inRun);
        assert parts[1..] == rest[1..];
        assert Concat(rest) == rest[0] + Concat(rest[1..]);
        assert Concat(parts) == ([s[0]] + rest[0]) + Concat(rest[1..]);
      }
    }
  }

  /** Every element trimmed (`values.map(v => v.trim())`). */
  function TrimAll(xs: seq<string>): (r: seq<string>)
    ensures |r| == |xs|
    ensures forall i | 0 <= i < |xs| :: r[i] == Trim(xs[i])
  {
    seq(|xs|, i requires 0 <= i < |xs| => Trim(xs[i]))
  }

  lemma TrimAllKeeps(xs: seq<string>)
    requires forall x | x in xs :: IsTrimmed(x)
    ensures TrimAll(xs) == xs
  {
    assert forall i | 0 <= i < |xs| :: xs[i] in xs;
  }

  /** `values.filter(Boolean)` on strings: the empty strings are dropped, the rest kept in order. */
  function NonEmpty(xs: seq<string>): (r: seq<string>)
    ensures forall s | s in r :: s in xs && s != ""
    ensures forall s | s in xs && s != "" :: s in r
    ensures |r| <= |xs|
  {
    if xs == [] then [] else (if xs[0] != "" then [xs[0]] else []) + NonEmpty(xs[1..])
  }

  lemma {:induction false} NonEmptyAppend(xs: seq<string>, ys: seq<string>)
    ensures NonEmpty(xs + ys) == NonEmpty(xs) + NonEmpty(ys)
    decreases |xs|
  {
    if xs != [] {
      assert (xs + ys)[1..] == xs[1..] + ys;
      NonEmptyAppend(xs[1..], ys);
    } else {
      assert xs + ys == ys;
    }
  }

  /** Dropping empty strings keeps prefixes as prefixes. */
  lemma NonEmptyPrefix(xs: seq<string>, k: nat)
    requires k <= |xs|
    ensures NonEmpty(xs[..k]) <= NonEmpty(xs)
  {
    assert xs == xs[..k] + xs[k..];
    NonEmptyAppend(xs[..k], xs[k..]);
  }

  lemma {:induction false} NonEmptyKeeps(xs: seq<string>)
    requires forall s | s in xs :: s != ""
    ensures NonEmpty(xs) == xs
    decreases |xs|
  {
    if xs != [] {
      assert forall s | s in xs[1..] :: s in xs;
      assert xs[0] in xs;
      NonEmptyKeeps(xs[1..]);
      assert [xs[0]] + xs[1..] == xs;
    }
  }

  /** The values of a comma separated list are trimmed, non-empty and free of commas. */
  predicate IsListValue(s: string) {
    s != "" && IsTrimmed(s) && ',' !in s
  }

  /** `text.split(",").map(v => v.trim()).filter(Boolean)`. */
  function CommaList(text: string): (r: seq<string>)
    ensures forall s | s in r :: IsListValue(s)
  {
    SplitPartsFree(text, ',');
    var r := NonEmpty(TrimAll(Split(text, ',')));
    assert forall s | s in r :: IsListValue(s) by {
      forall s | s in r ensures IsListValue(s) {
        var i :| 0 <= i < |Split(text, ',')| && s == Trim(Split(text, ',')[i]);
        assert Split(text, ',')[i] in Split(text, ',');
      }
    }
    r
  }

  /** Every element prefixed by one space. */
  function Spaced(xs: seq<string>): (r: seq<string>)
    ensures |r| == |xs|
    ensures forall i | 0 <= i < |xs| :: r[i] == " " + xs[i]
  {
    if xs == [] then [] else [" " + xs[0]] + Spaced(xs[1..])
  }

  lemma JoinSpaceFirst(a: string, ys: seq<string>, c: char)
    ensures Join([" " + a] + ys, [c]) == " " + Join([a] + ys, [c])
  {
    if ys != [] {
      assert ([" " + a] + ys)[1..] == ys;
      assert ([a] + ys)[1..] == ys;
    }
  }

  /** `xs.join(c + " ")` is `xs.join(c)` once every element after the first is prefixed by a space. */
  lemma {:induction false} JoinSepSpace(xs: seq<string>, c: char)
    requires xs != []
    ensures Join(xs, [c, ' ']) == Join([xs[0]] + Spaced(xs[1..]), [c])
    decreases |xs|
  {
    if |xs| > 1 {
      var t := xs[1..];
      JoinSepSpace(t, c);
      var rest := Spaced(t[1..]);
      assert Spaced(t) == [" " + t[0]] + rest;
      var l := [xs[0]] + Spaced(t);
      assert l[1..] == [" " + t[0]] + rest;
      calc {
        Join(l, [c]);
        xs[0] + [c] + Join([" " + t[0]] + rest, [c]);
        { JoinSpaceFirst(t[0], rest, c); }
        xs[0] + [c] + (" " + Join([t[0]] + rest, [c]));
        { assert Join(t, [c, ' ']) == Join([t[0]] + rest, [c]); }
        xs[0] + [c, ' '] + Join(t, [c, ' ']);
      }
    } else {
      assert [xs[0]] + Spaced(xs[1..]) == [xs[0]];
    }
  }

  /** Prefixing spaces keeps comma-free values comma-free. */
  lemma SpacedCommaFree(xs: seq<string>)
    requires xs != [] && forall s | s in xs :: IsListValue(s)
    ensures forall p | p in [xs[0]] + Spaced(xs[1..]) :: ',' !in p
  {
    var sx := [xs[0]] + Spaced(xs[1..]);
    forall p | p in sx ensures ',' !in p {
      var i :| 0 <= i < |sx| && sx[i] == p;
      assert xs[i] in xs;
      if i > 0 {
        assert p == " " + xs[1..][i - 1];
      }
    }
  }

  /** Trimming removes one space put before a trimmed, non-empty value. */
  lemma TrimLeadingSpace(x: string)
    requires x != "" && IsTrimmed(x)
    ensures Trim(" " + x) == x
  {
    assert (" " + x)[1..] == x;
    assert TrimStart(" " + x) == x;
  }

  /** Trimming undoes the prefixed spaces on trimmed values. */
  lemma TrimSpaced(xs: seq<string>)
    requires xs != [] && forall s | s in xs :: IsListValue(s)
    ensures TrimAll([xs[0]] + Spaced(xs[1..])) == xs
  {
    var sx := [xs[0]] + Spaced(xs[1..]);
    forall i | 0 <= i < |xs| ensures Trim(sx[i]) == xs[i] {
      assert xs[i] in xs;
      if i > 0 {
        assert sx[i] == " " + xs[i];
        TrimLeadingSpace(xs[i]);
      }
    }
  }

  /** A list of trimmed, non-empty, comma-free values survives `join(", ")` followed by `CommaList`. */
  lemma CommaListJoin(xs: seq<string>)
    requires forall s | s in xs :: IsListValue(s)
    ensures CommaList(Join(xs, ", ")) == xs
  {
    if xs == [] {
      assert Split("", ',') == [""];
      assert TrimAll([""]) == [""];
    } else {
      var sx := [xs[0]] + Spaced(xs[1..]);
      JoinSepSpace(xs, ',');
      assert ", " == [',', ' '];
      SpacedCommaFree(xs);
      SplitJoin(sx, ',');
      TrimSpaced(xs);
      NonEmptyKeeps(xs);
    }
  }

  /** Some element equals `v`, ignoring ASCII case. */
  predicate ContainsIgnoreCase(xs: seq<string>, v: string) {
    exists i | 0 <= i < |xs| :: EqualsIgnoreCase(xs[i], v)
  }

  /** No value occurs twice. */
  predicate NoDuplicates<T(==)>(xs: seq<T>) {
    forall i, j | 0 <= i < j < |xs| :: xs[i] != xs[j]
  }

  /**
   * `values.filter((v, i, a) => a.indexOf(v) === i)`: a value is kept exactly
   * where it occurs for the first time.
   */
  function Dedup<T(==)>(xs: seq<T>): seq<T>
    decreases |xs|
  {
    if xs == [] then []
    else
      var init := xs[..|xs| - 1];
      var last := xs[|xs| - 1];
      if last in init then Dedup(init) else Dedup(init) + [last]
  }

  /** Deduplication keeps exactly the values of the input. */
  lemma {:induction false} DedupSameValues<T>(xs: seq<T>)
    ensures forall x | x in Dedup(xs) :: x in xs
    ensures forall x | x in xs :: x in Dedup(xs)
    decreases |xs|
  {
    if xs != [] {
      var init := xs[..|xs| - 1];
      DedupSameValues(init);
      assert xs == init + [xs[|xs| - 1]];
    }
  }

  /** Deduplication leaves no value twice. */
  lemma {:induction false} DedupNoDuplicates<T>(xs: seq<T>)
    ensures NoDuplicates(Dedup(xs))
    decreases |xs|
  {
    if xs != [] {
      var init := xs[..|xs| - 1];
      DedupNoDuplicates(init);
      DedupSameValues(init);
    }
  }

  /** A list without duplicates is its own deduplication. */
  lemma {:induction false} DedupOfDistinct<T>(xs: seq<T>)
    requires NoDuplicates(xs)
    ensures Dedup(xs) == xs
    decreases |xs|
  {
    if xs != [] {
      var init := xs[..|xs| - 1];
      assert NoDuplicates(init);
      DedupOfDistinct(init);
      assert xs[|xs| - 1] !in init;
      assert init + [xs[|xs| - 1]] == xs;
    }
  }

  /** Deduplicating twice is deduplicating once. */
  lemma DedupIdempotent<T>(xs: seq<T>)
    ensures Dedup(Dedup(xs)) == Dedup(xs)
  {
    DedupNoDuplicates(xs);
    DedupOfDistinct(Dedup(xs));
  }

  /**
   * Deduplication is stable: deduplicating a prefix of the input gives a prefix of
   * the result, so values appear in the order of their first occurrence.
   */
  lemma {:induction false} DedupPrefix<T>(xs: seq<T>, k: nat)
    requires k <= |xs|
    ensures Dedup(xs[..k]) <= Dedup(xs)
    decreases |xs| - k
  {
    if k < |xs| {
      var init := xs[..|xs| - 1];
      DedupPrefix(init, k);
      assert init[..k] == xs[..k];
    } else {
      assert xs[..k] == xs;
    }
  }

  /** `value || undefined`: the empty string counts as missing. */
  function OrUndefined(s: string): (r: Option<string>)
    ensures r.None? <==> s == ""
    ensures r.Some? ==> r.value == s
  {
    if s == "" then None else Some(s)
  }

  function DigitChar(d: nat): char
    requires d < 10
  {
    "0123456789"[d]
  }

  /** The decimal rendering of a natural number, as `String(n)` produces it. */
  function NatToString(n: nat): (r: string)
    ensures |r| >= 1
    ensures forall c | c in r :: '0' <= c <= '9'
  {
    if n < 10 then [DigitChar(n)] else NatToString(n / 10) + [DigitChar(n % 10)]
  }

  /** The decimal rendering of an integer, with a leading `-` when it is negative. */
  function IntToString(i: int): string {
    if i < 0 then "-" + NatToString(-i) else NatToString(i)
  }
}
