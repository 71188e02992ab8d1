/**
 * The integer half of the parser's bag-of-words embedding: a 32-bit rolling
 * hash of every token and a 256-slot vector counting how many tokens fall into
 * each slot. The L2 normalisation that follows in the worker is not modelled.
 */
module Embedding {
  import Text

  const Dimensions: nat := 256
  const TwoTo32: nat := 0x1_0000_0000

  /** The rolling hash, one character at a time: `hash := (hash * 31 + code) >>> 0`. */
  function Hash(token: string): (h: nat)
    ensures h < TwoTo32
  {
    if token == [] then 0
    else (Hash(token[..|token| - 1]) * 31 + token[|token| - 1] as int) % TwoTo32
  }

  /** The same hash without the 32-bit truncation: the token read as a base-31 number. */
  function Polynomial(token: string): nat {
    if token == [] then 0
    else Polynomial(token[..|token| - 1]) * 31 + token[|token| - 1] as int
  }

  lemma ModStep(a: nat, c: nat)
    ensures ((a % TwoTo32) * 31 + c) % TwoTo32 == (a * 31 + c) % TwoTo32
  {
    var q := a / TwoTo32;
    assert a == q * TwoTo32 + a % TwoTo32;
  }

  /** Truncating after every step gives the truncation of the whole base-31 value. */
  lemma {:induction false} HashIsPolynomialMod(token: string)
    ensures Hash(token) == Polynomial(token) % TwoTo32
    decreases |token|
  {
    if token != [] {
      var init := token[..|token| - 1];
      HashIsPolynomialMod(init);
      ModStep(Polynomial(init), token[|token| - 1] as int);
    }
  }

  /** `hashToken`: a loop over the characters of the token. */
  method HashToken(token: string) returns (hash: nat)
    ensures hash == Hash(token)
    ensures hash < TwoTo32
  {
    hash := 0;
    for i := 0 to |token|
      invariant hash == Hash(token[..i])
    {
      assert token[..i + 1][..i] == token[..i];
      hash := (hash * 31 + token[i] as int) % TwoTo32;
    }
    assert token[..|token|] == token;
  }

  /** The characters of the class `[a-z0-9+]`. */
  predicate IsTokenChar(c: char) {
    ('a' <= c <= 'z') || ('0' <= c <= '9') || c == '+'
  }

  predicate IsSeparator(c: char) {
    !IsTokenChar(c)
  }

  /** `tokens.filter(token => token.length > 1)`. */
  function LongerThanOne(tokens: seq<string>): (r: seq<string>)
    ensures forall t | t in r :: |t| > 1 && t in tokens
  {
    if tokens == [] then []
    else (if |tokens[0]| > 1 then [tokens[0]] else []) + LongerThanOne(tokens[1..])
  }

  /**
   * The tokens of a text: lower-cased, split on runs of characters outside
   * `[a-z0-9+]`, trimmed, and kept when longer than one character.
   */
  function Tokens(text: string): (tokens: seq<string>)
    ensures forall t | t in tokens :: |t| > 1 && forall c | c in t :: IsTokenChar(c)
  {
    var parts := Text.SplitRuns(Text.ToLower(text), IsSeparator);
    var trimmed := Text.TrimAll(parts);
    assert forall i | 0 <= i < |parts| :: trimmed[i] == parts[i] by {
      forall i | 0 <= i < |parts| ensures trimmed[i] == parts[i] {
        assert parts[i] in parts;
        NoSpaceIsTrimmed(parts[i]);
      }
    }
    assert trimmed == parts;
    LongerThanOne(trimmed)
  }

  lemma NoSpaceIsTrimmed(t: string)
    requires forall c | c in t :: IsTokenChar(c)
    ensures Text.Trim(t) == t
  {
    if t != [] {
      assert t[0] in t && t[|t| - 1] in t;
    }
  }

  /** How many of `tokens` hash into `slot`. */
  function SlotCount(tokens: seq<string>, slot: nat): nat {
    if tokens == [] then 0
    else
      var last := tokens[|tokens| - 1];
      SlotCount(tokens[..|tokens| - 1], slot) + (if Hash(last) % Dimensions == slot then 1 else 0)
  }

  /** The count vector of a token list: one entry per slot. */
  function Counts(tokens: seq<string>): (v: seq<nat>)
    ensures |v| == Dimensions
  {
    seq(Dimensions, slot requires 0 <= slot < Dimensions => SlotCount(tokens, slot))
  }

  /** One more token adds one to its own slot and leaves the others alone. */
  lemma CountsStep(tokens: seq<string>)
    requires tokens != []
    ensures var init := tokens[..|tokens| - 1];
            var k := Hash(tokens[|tokens| - 1]) % Dimensions;
            Counts(tokens) == Counts(init)[k := Counts(init)[k] + 1]
  {
  }

  lemma CountsOfNothing()
    ensures Counts([]) == Zeros(Dimensions)
  {
  }

  function Sum(v: seq<nat>): nat {
    if v == [] then 0 else v[0] + Sum(v[1..])
  }

  lemma {:induction false} SumIncrement(v: seq<nat>, k: nat)
    requires k < |v|
    ensures Sum(v[k := v[k] + 1]) == Sum(v) + 1
    decreases |v|
  {
    if k > 0 {
      SumIncrement(v[1..], k - 1);
      assert v[k := v[k] + 1][1..] == v[1..][k - 1 := v[k] + 1];
    } else {
      assert v[k := v[k] + 1][1..] == v[1..];
    }
  }

  /** Each token adds exactly one to exactly one slot, so the slots add up to the number of tokens. */
  lemma {:induction false} CountsSumToTokenCount(tokens: seq<string>)
    ensures Sum(Counts(tokens)) == |tokens|
    decreases |tokens|
  {
    if tokens == [] {
      ZeroSum(Dimensions);
      CountsOfNothing();
    } else {
      var init := tokens[..|tokens| - 1];
      var k := Hash(tokens[|tokens| - 1]) % Dimensions;
      CountsSumToTokenCount(init);
      CountsStep(tokens);
      SumIncrement(Counts(init), k);
    }
  }

  function Zeros(n: nat): (v: seq<nat>)
    ensures |v| == n && forall i | 0 <= i < n :: v[i] == 0
  {
    seq(n, i => 0)
  }

  lemma {:induction false} ZeroSum(n: nat)
    ensures Sum(Zeros(n)) == 0
  {
    if n > 0 {
      assert Zeros(n)[1..] == Zeros(n - 1);
      ZeroSum(n - 1);
    }
  }

  lemma {:induction false} SumZeroMeansZeros(v: seq<nat>)
    requires Sum(v) == 0
    ensures v == Zeros(|v|)
  {
    if v != [] {
      SumZeroMeansZeros(v[1..]);
    }
  }

  /** The vector is all zeros, so that `computeEmbedding` returns it unchanged, exactly when the text has no token. */
  lemma ZeroVectorIffNoTokens(text: string)
    ensures Counts(Tokens(text)) == Zeros(Dimensions) <==> Tokens(text) == []
  {
    CountsSumToTokenCount(Tokens(text));
    if Counts(Tokens(text)) == Zeros(Dimensions) {
      ZeroSum(Dimensions);
    }
    if Tokens(text) == [] {
      SumZeroMeansZeros(Counts(Tokens(text)));
    }
  }

  /**
   * The counting part of `computeEmbedding`: a 256-slot array filled with zeros,
   * then incremented at `hashToken(token) % 256` for every token of the text.
   */
  method CountTokens(text: string) returns (vector: seq<nat>)
    ensures |vector| == Dimensions
    ensures vector == Counts(Tokens(text))
  {
    vector := CountSlots(Tokens(text));
  }

  /** The loop of `computeEmbedding` over a list of tokens. */
  method CountSlots(tokens: seq<string>) returns (vector: seq<nat>)
    ensures vector == Counts(tokens)
  {
    var slots := new nat[Dimensions](_ => 0);
    assert slots[..] == Zeros(Dimensions);
    CountsOfNothing();
    assert tokens[..0] == [];
    for k := 0 to |tokens|
      invariant slots[..] == Counts(tokens[..k])
    {
      var h := HashToken(tokens[k]);
      var slot := h % Dimensions;
      ghost var before := slots[..];
      assert tokens[..k + 1][..k] == tokens[..k];
      CountsStep(tokens[..k + 1]);
      slots[slot] := slots[slot] + 1;
      assert slots[..] == before[slot := before[slot] + 1];
    }
    assert tokens[..|tokens|] == tokens;
    vector := slots[..];
  }
}
