/**
 * Normal form of an output line: lower case, single spaces, and `#` for every
 * number-like word. Unicode tables are parameters.
 */
module LineText {
  import opened Substrings
  import opened LineAssembly
  import opened OutputHistory

  const NORMALIZED_MAX: nat := 200
  const EXHAUSTION_LINE_MAX: nat := 400

  datatype Alphabet = Alphabet(isSpace: char -> bool, isAlphanumeric: char -> bool, lower: string -> string) {
    predicate IsWord(c: char) {
      isAlphanumeric(c) || c == '_' || c == '-'
    }
  }

  predicate IsDigit(c: char) {
    '0' <= c <= '9'
  }

  function Digits(w: string): (n: nat)
    ensures n <= |w|
  {
    if w == "" then 0 else Digits(w[..|w| - 1]) + if IsDigit(w[|w| - 1]) then 1 else 0
  }

  /** At least a third digits. */
  predicate NumberLike(w: string) {
    Digits(w) > 0 && Digits(w) * 3 >= |w|
  }

  function WordForm(a: Alphabet, w: string): string {
    if NumberLike(w) then "#" else a.lower(w)
  }

  /** Normal form of a token, `word` being the word read so far. */
  function TokenForm(a: Alphabet, word: string, rest: string): (form: string)
    decreases |rest|
  {
    if rest == "" then WordForm(a, word)
    else if a.IsWord(rest[0]) then TokenForm(a, word + [rest[0]], rest[1..])
    else WordForm(a, word) + [rest[0]] + TokenForm(a, "", rest[1..])
  }

  /** Maximal runs of non-space characters, `token` being the run read so far. */
  function Tokens(a: Alphabet, token: string, rest: string): (tokens: seq<string>)
    decreases |rest|
  {
    if rest == "" then Finished(token)
    else if a.isSpace(rest[0]) then Finished(token) + Tokens(a, "", rest[1..])
    else Tokens(a, token + [rest[0]], rest[1..])
  }

  function Finished(token: string): seq<string> {
    if token == "" then [] else [token]
  }

  function Grow(a: Alphabet, out: string, token: string): string {
    (if out == "" then out else out + " ") + TokenForm(a, "", token)
  }

  /** Joins token forms until the text is long enough. */
  function Joined(a: Alphabet, out: string, tokens: seq<string>): (r: string)
    decreases |tokens|
  {
    if tokens == [] then out
    else
      var grown := Grow(a, out, tokens[0]);
      if Utf8Len(grown) >= NORMALIZED_MAX then grown else Joined(a, grown, tokens[1..])
  }

  function Normal(a: Alphabet, line: string): (n: string)
    ensures |n| <= NORMALIZED_MAX
  {
    var out := Joined(a, "", Tokens(a, "", line));
    if |out| <= NORMALIZED_MAX then out else out[..NORMALIZED_MAX]
  }

  method NormalizeToken(a: Alphabet, out: string, token: string) returns (grown: string)
    ensures grown == Grow(a, out, token)
  {
    grown := if out == "" then out else out + " ";
    var word, i := "", 0;
    while i < |token|
      invariant 0 <= i <= |token|
      invariant grown + TokenForm(a, word, token[i..]) == Grow(a, out, token)
    {
      if a.IsWord(token[i]) {
        word := word + [token[i]];
      } else {
        grown := grown + WordForm(a, word) + [token[i]];
        word := "";
      }
      i := i + 1;
    }
    grown := grown + WordForm(a, word);
  }

  method NormalizeLine(a: Alphabet, line: string) returns (n: string)
    ensures n == Normal(a, line)
  {
    var tokens, out, i := Tokens(a, "", line), "", 0;
    while i < |tokens|
      invariant 0 <= i <= |tokens|
      invariant Joined(a, out, tokens[i..]) == Joined(a, "", tokens)
    {
      out := NormalizeToken(a, out, tokens[i]);
      if Utf8Len(out) >= NORMALIZED_MAX {
        break;
      }
      i := i + 1;
    }
    n := if |out| <= NORMALIZED_MAX then out else out[..NORMALIZED_MAX];
  }

  function TrimStart(a: Alphabet, s: string): string {
    if s != "" && a.isSpace(s[0]) then TrimStart(a, s[1..]) else s
  }

  function TrimEnd(a: Alphabet, s: string): string {
    if s != "" && a.isSpace(s[|s| - 1]) then TrimEnd(a, s[..|s| - 1]) else s
  }

  function Trim(a: Alphabet, s: string): string {
    TrimEnd(a, TrimStart(a, s))
  }

  function AsciiLower(c: char): char {
    if 'A' <= c <= 'Z' then c - 'A' + 'a' else c
  }

  /** Short enough to be the agent's own error, and error-shaped when it is a JSON event. */
  predicate ExhaustionCandidate(a: Alphabet, line: string) {
    var trimmed := Trim(a, line);
    && 0 < Utf8Len(trimmed) <= EXHAUSTION_LINE_MAX
    && (trimmed[0] == '{' ==>
          var lower := seq(|trimmed|, i requires 0 <= i < |trimmed| => AsciiLower(trimmed[i]));
          || Contains(lower, "\"is_error\":true")
          || Contains(lower, "\"type\":\"error\"")
          || Contains(lower, "api_retry"))
  }

  /** The rules the detector runs with; `exhausted` is the failure classifier's verdict on a line. */
  function AgentRules(a: Alphabet, exhausted: string -> bool): Rules {
    Rules(line => Normal(a, line), line => ExhaustionCandidate(a, line) && exhausted(line), line => Trim(a, line))
  }

  // ---- Lines that differ in their numbers only look the same ----

  /** A whole word: no neighbour of it is a word character. */
  ghost predicate WholeWord(a: Alphabet, before: string, w: string, after: string) {
    && (before != "" ==> !a.IsWord(before[|before| - 1]))
    && (after != "" ==> !a.IsWord(after[0]))
    && (forall c :: c in w ==> a.IsWord(c) && !a.isSpace(c))
  }

  lemma {:induction false} WordIsCollected(a: Alphabet, word: string, w: string, after: string)
    requires forall c :: c in w ==> a.IsWord(c)
    ensures TokenForm(a, word, w + after) == TokenForm(a, word + w, after)
    decreases |w|
  {
    if w == "" {
      assert w + after == after && word + w == word;
    } else {
      assert (w + after)[1..] == w[1..] + after;
      assert word + [w[0]] + w[1..] == word + w;
      WordIsCollected(a, word + [w[0]], w[1..], after);
    }
  }

  lemma {:induction false} SameToken(a: Alphabet, word: string, before: string, w1: string, w2: string, after: string)
    requires WholeWord(a, before, w1, after) && WholeWord(a, before, w2, after)
    requires NumberLike(w1) && NumberLike(w2)
    requires before == "" ==> word == ""
    ensures TokenForm(a, word, before + w1 + after) == TokenForm(a, word, before + w2 + after)
    decreases |before|
  {
    if before == "" {
      assert before + w1 + after == w1 + after && before + w2 + after == w2 + after;
      WordIsCollected(a, "", w1, after);
      WordIsCollected(a, "", w2, after);
      assert "" + w1 == w1 && "" + w2 == w2;
    } else {
      var c, rest := before[0], before[1..];
      assert (before + w1 + after)[1..] == rest + w1 + after;
      assert (before + w2 + after)[1..] == rest + w2 + after;
      if a.IsWord(c) {
        SameToken(a, word + [c], rest, w1, w2, after);
      } else {
        SameToken(a, "", rest, w1, w2, after);
      }
    }
  }

  /** Token lists whose forms agree one by one. */
  ghost predicate SameForms(a: Alphabet, s: seq<string>, t: seq<string>) {
    |s| == |t| && forall i :: 0 <= i < |s| ==> TokenForm(a, "", s[i]) == TokenForm(a, "", t[i])
  }

  lemma {:induction false} SameJoin(a: Alphabet, out: string, s: seq<string>, t: seq<string>)
    requires SameForms(a, s, t)
    ensures Joined(a, out, s) == Joined(a, out, t)
    decreases |s|
  {
    if s != [] {
      var grown := Grow(a, out, s[0]);
      assert grown == Grow(a, out, t[0]);
      SameJoin(a, grown, s[1..], t[1..]);
    }
  }

  /** Behind the word: `x` and `y` are what the two lines have read of the token so far. */
  lemma {:induction false} SameTokensAfter(a: Alphabet, before: string, w1: string, w2: string, v: string,
                                           after: string)
    requires WholeWord(a, before, w1, v + after) && WholeWord(a, before, w2, v + after)
    requires NumberLike(w1) && NumberLike(w2)
    ensures SameForms(a, Tokens(a, before + w1 + v, after), Tokens(a, before + w2 + v, after))
    decreases |after|
  {
    var x, y := before + w1 + v, before + w2 + v;
    if after == "" || a.isSpace(after[0]) {
      assert WholeWord(a, before, w1, v) && WholeWord(a, before, w2, v) by {
        if v != "" {
          assert (v + after)[0] == v[0];
        }
      }
      SameToken(a, "", before, w1, w2, v);
      assert Finished(x) == [x] && Finished(y) == [y];
    } else {
      assert v + after == v + [after[0]] + after[1..];
      assert x + [after[0]] == before + w1 + (v + [after[0]]);
      assert y + [after[0]] == before + w2 + (v + [after[0]]);
      SameTokensAfter(a, before, w1, w2, v + [after[0]], after[1..]);
    }
  }

  lemma {:induction false} TokensOfWord(a: Alphabet, token: string, w: string, after: string)
    requires forall c :: c in w ==> !a.isSpace(c)
    ensures Tokens(a, token, w + after) == Tokens(a, token + w, after)
    decreases |w|
  {
    if w == "" {
      assert w + after == after && token + w == token;
    } else {
      assert (w + after)[1..] == w[1..] + after;
      assert token + [w[0]] + w[1..] == token + w;
      TokensOfWord(a, token + [w[0]], w[1..], after);
    }
  }

  lemma SameTokensHere(a: Alphabet, token: string, w1: string, w2: string, after: string)
    requires WholeWord(a, token, w1, after) && WholeWord(a, token, w2, after)
    requires NumberLike(w1) && NumberLike(w2)
    ensures SameForms(a, Tokens(a, token, w1 + after), Tokens(a, token, w2 + after))
  {
    TokensOfWord(a, token, w1, after);
    TokensOfWord(a, token, w2, after);
    assert "" + after == after;
    assert token + w1 + "" == token + w1 && token + w2 + "" == token + w2;
    hide SameForms, NumberLike;
    SameTokensAfter(a, token, w1, w2, "", after);
  }

  lemma {:induction false} SameTokens(a: Alphabet, token: string, before: string, w1: string, w2: string, after: string)
    requires WholeWord(a, token + before, w1, after) && WholeWord(a, token + before, w2, after)
    requires NumberLike(w1) && NumberLike(w2)
    ensures SameForms(a, Tokens(a, token, before + w1 + after), Tokens(a, token, before + w2 + after))
    decreases |before|
  {
    hide NumberLike, TokenForm;
    if before == "" {
      assert before + w1 + after == w1 + after && before + w2 + after == w2 + after;
      assert token + before == token;
      SameTokensHere(a, token, w1, w2, after);
    } else {
      var c, rest := before[0], before[1..];
      assert (before + w1 + after)[1..] == rest + w1 + after;
      assert (before + w2 + after)[1..] == rest + w2 + after;
      if a.isSpace(c) {
        assert rest != "" ==> ("" + rest)[|rest| - 1] == (token + before)[|token + before| - 1];
        SameTokens(a, "", rest, w1, w2, after);
      } else {
        assert token + [c] + rest == token + before;
        SameTokens(a, token + [c], rest, w1, w2, after);
      }
    }
  }

  /** Replacing a whole number-like word by another one never changes the normal form. */
  lemma NumbersDoNotMatter(a: Alphabet, before: string, w1: string, w2: string, after: string)
    requires WholeWord(a, before, w1, after) && WholeWord(a, before, w2, after)
    requires NumberLike(w1) && NumberLike(w2)
    ensures Normal(a, before + w1 + after) == Normal(a, before + w2 + after)
  {
    assert "" + before == before;
    SameTokens(a, "", before, w1, w2, after);
    SameJoin(a, "", Tokens(a, "", before + w1 + after), Tokens(a, "", before + w2 + after));
  }
}
