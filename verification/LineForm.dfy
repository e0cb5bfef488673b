/** What the normal form of an output line is, said of the runs and words in it. */
module LineForm {
  import opened Wrappers
  import opened Substrings
  import opened LineAssembly
  import opened OutputHistory
  import opened LineText

  // ---- Words ----

  /** Positions of the ASCII digits. */
  ghost function DigitsOf(w: string): set<nat> {
    set i: nat | i < |w| && '0' <= w[i] <= '9'
  }

  lemma {:induction false} DigitsAreCounted(w: string)
    ensures Digits(w) == |DigitsOf(w)|
  {
    if w != "" {
      var front, n := w[..|w| - 1], |w| - 1;
      DigitsAreCounted(front);
      assert DigitsOf(w) == DigitsOf(front) + if '0' <= w[n] <= '9' then {n} else {};
    }
  }

  /** Letters, digits, and two marks; nothing else is part of a word. */
  ghost predicate InWord(a: Alphabet, c: char) {
    a.isAlphanumeric(c) || c in ['_', '-']
  }

  ghost predicate AllWord(a: Alphabet, w: string) {
    forall i :: 0 <= i < |w| ==> InWord(a, w[i])
  }

  /** At least one digit, and one character in three. */
  ghost predicate IsCounter(w: string) {
    DigitsOf(w) != {} && 3 * |DigitsOf(w)| >= |w|
  }

  /** A word is blotted out exactly when it is a counter, and is in lower case otherwise. */
  lemma WordFormExactly(a: Alphabet, w: string)
    requires AllWord(a, w)
    ensures TokenForm(a, "", w) == if IsCounter(w) then "#" else a.lower(w)
  {
    WordIsCollected(a, "", w, "");
    assert w + "" == w && "" + w == w;
    DigitsAreCounted(w);
    assert DigitsOf(w) != {} <==> |DigitsOf(w)| > 0;
  }

  lemma {:induction false} MarkIsKept(a: Alphabet, word: string, x: string, c: char, y: string)
    requires !InWord(a, c)
    ensures TokenForm(a, word, x + [c] + y) == TokenForm(a, word, x) + [c] + TokenForm(a, "", y)
    decreases |x|
  {
    hide WordForm;
    if x == "" {
      assert x + [c] + y == [c] + y && ([c] + y)[1..] == y;
    } else {
      assert (x + [c] + y)[1..] == x[1..] + [c] + y;
      if InWord(a, x[0]) {
        MarkIsKept(a, word + [x[0]], x[1..], c, y);
      } else {
        MarkIsKept(a, "", x[1..], c, y);
        var f := WordForm(a, word) + [x[0]];
        ConcatAssociative(f, TokenForm(a, "", x[1..]), [c]);
        ConcatAssociative(f, TokenForm(a, "", x[1..]) + [c], TokenForm(a, "", y));
      }
    }
  }

  /** Any other character ends a word and is kept. */
  lemma MarksSeparateWords(a: Alphabet, x: string, c: char, y: string)
    requires !InWord(a, c)
    ensures TokenForm(a, "", x + [c] + y) == TokenForm(a, "", x) + [c] + TokenForm(a, "", y)
  {
    MarkIsKept(a, "", x, c, y);
  }

  // ---- Runs ----

  lemma {:induction false} SpaceEndsRun(a: Alphabet, token: string, x: string, c: char, y: string)
    requires a.isSpace(c)
    ensures Tokens(a, token, x + [c] + y) == Tokens(a, token, x) + Tokens(a, "", y)
    decreases |x|
  {
    if x == "" {
      assert x + [c] + y == [c] + y && ([c] + y)[1..] == y;
    } else {
      assert (x + [c] + y)[1..] == x[1..] + [c] + y;
      if a.isSpace(x[0]) {
        SpaceEndsRun(a, "", x[1..], c, y);
        ConcatAssociative(Finished(token), Tokens(a, "", x[1..]), Tokens(a, "", y));
      } else {
        SpaceEndsRun(a, token + [x[0]], x[1..], c, y);
      }
    }
  }

  /** A space separates tokens and is part of none. */
  lemma SpacesSeparateRuns(a: Alphabet, x: string, c: char, y: string)
    requires a.isSpace(c)
    ensures Tokens(a, "", x + [c] + y) == Tokens(a, "", x) + Tokens(a, "", y)
  {
    SpaceEndsRun(a, "", x, c, y);
  }

  /** Characters without a space among them are one token, and none when there are none. */
  lemma RunIsOneToken(a: Alphabet, x: string)
    requires forall i :: 0 <= i < |x| ==> !a.isSpace(x[i])
    ensures Tokens(a, "", x) == if x == "" then [] else [x]
  {
    TokensOfWord(a, "", x, "");
    assert x + "" == x && "" + x == x;
  }

  lemma {:induction false} NoTokenIsEmpty(a: Alphabet, token: string, rest: string)
    ensures "" !in Tokens(a, token, rest)
    decreases |rest|
  {
    if rest != "" {
      if a.isSpace(rest[0]) {
        NoTokenIsEmpty(a, "", rest[1..]);
      } else {
        NoTokenIsEmpty(a, token + [rest[0]], rest[1..]);
      }
    }
  }

  // ---- Lines ----

  function Forms(a: Alphabet, tokens: seq<string>): (forms: seq<string>)
    ensures |forms| == |tokens| && forall i :: 0 <= i < |forms| ==> forms[i] == TokenForm(a, "", tokens[i])
  {
    seq(|tokens|, i requires 0 <= i < |tokens| => TokenForm(a, "", tokens[i]))
  }

  /** Parts with single spaces between them. */
  function Spaced(parts: seq<string>): string {
    if parts == [] then ""
    else if |parts| == 1 then parts[0]
    else Spaced(parts[..|parts| - 1]) + [' '] + parts[|parts| - 1]
  }

  /** What holds of lower case in any alphabet: only the empty text has an empty one. */
  ghost predicate Lowers(a: Alphabet) {
    forall w: string :: a.lower(w) == "" <==> w == ""
  }

  lemma {:induction false} FormIsNotEmpty(a: Alphabet, word: string, rest: string)
    requires Lowers(a) && word + rest != ""
    ensures TokenForm(a, word, rest) != ""
    decreases |rest|
  {
    if rest != "" && a.IsWord(rest[0]) {
      FormIsNotEmpty(a, word + [rest[0]], rest[1..]);
    }
  }

  lemma {:induction false} SpacedIsNotEmpty(parts: seq<string>)
    requires parts != [] && "" !in parts
    ensures Spaced(parts) != ""
  {
  }

  lemma SpacedSnoc(parts: seq<string>, k: nat)
    requires k < |parts|
    ensures Spaced(parts[..k + 1]) == (if k == 0 then "" else Spaced(parts[..k]) + " ") + parts[k]
  {
    assert parts[..k + 1][..k] == parts[..k];
    assert |parts[..k + 1]| == k + 1 && parts[..k + 1][k] == parts[k];
  }

  lemma GrowSnoc(a: Alphabet, tokens: seq<string>, k: nat)
    requires Lowers(a) && "" !in tokens && k < |tokens|
    ensures
      var parts := Forms(a, tokens);
      Grow(a, Spaced(parts[..k]), tokens[k]) == Spaced(parts[..k + 1])
  {
    var parts := Forms(a, tokens);
    forall i | 0 <= i < |parts| ensures parts[i] != "" {
      FormIsNotEmpty(a, "", tokens[i]);
    }
    SpacedSnoc(parts, k);
    if k > 0 {
      SpacedIsNotEmpty(parts[..k]);
    }
  }

  /** The forms joined stop behind the first `k` of them, at which 200 bytes are reached, or at the end. */
  ghost predicate StopsBehind(parts: seq<string>, k: nat) {
    && k <= |parts|
    && (forall j :: 0 < j < k ==> Utf8Len(Spaced(parts[..j])) < 200)
    && (k < |parts| ==> k > 0 && Utf8Len(Spaced(parts[..k])) >= 200)
  }

  lemma {:induction false} JoinedStops(a: Alphabet, tokens: seq<string>, n: nat) returns (k: nat)
    requires Lowers(a) && "" !in tokens && n <= |tokens|
    requires forall j :: 0 < j <= n ==> Utf8Len(Spaced(Forms(a, tokens)[..j])) < 200
    ensures StopsBehind(Forms(a, tokens), k)
    ensures Joined(a, Spaced(Forms(a, tokens)[..n]), tokens[n..]) == Spaced(Forms(a, tokens)[..k])
    decreases |tokens| - n
  {
    hide Spaced, Utf8Len, Grow, Forms;
    var parts := Forms(a, tokens);
    if n == |tokens| {
      k := n;
    } else {
      GrowSnoc(a, tokens, n);
      assert tokens[n..][0] == tokens[n] && tokens[n..][1..] == tokens[n + 1..];
      if Utf8Len(Spaced(parts[..n + 1])) >= 200 {
        k := n + 1;
      } else {
        k := JoinedStops(a, tokens, n + 1);
      }
    }
  }

  /**
   * The normal form is the forms of the runs with single spaces between them,
   * up to the first run at which 200 bytes are reached, cut to 200 characters.
   */
  lemma NormalExactly(a: Alphabet, line: string) returns (k: nat)
    requires Lowers(a)
    ensures
      var parts := Forms(a, Tokens(a, "", line));
      && StopsBehind(parts, k)
      && var out := Spaced(parts[..k]);
         Normal(a, line) == if |out| <= 200 then out else out[..200]
  {
    var tokens := Tokens(a, "", line);
    NoTokenIsEmpty(a, "", line);
    k := JoinedStops(a, tokens, 0);
    hide Joined, Tokens, Lowers;
    assert tokens[0..] == tokens;
  }

  /** Its length is the sum of the widths, whichever side it is read from. */
  lemma {:induction false} Utf8LenOfConcat(x: string, y: string)
    ensures Utf8Len(x + y) == Utf8Len(x) + Utf8Len(y)
  {
    if x == "" {
      assert x + y == y;
    } else {
      assert (x + y)[1..] == x[1..] + y;
      Utf8LenOfConcat(x[1..], y);
    }
  }

  lemma {:induction false} SpacedGrows(parts: seq<string>, k: nat)
    requires 0 < k <= |parts|
    ensures k < |parts| ==> Utf8Len(Spaced(parts[..k])) < Utf8Len(Spaced(parts))
    decreases |parts| - k
  {
    hide Utf8Len, Spaced;
    if k < |parts| {
      SpacedSnoc(parts, k);
      Utf8LenOfConcat(Spaced(parts[..k]), " ");
      Utf8LenOfConcat(Spaced(parts[..k]) + " ", parts[k]);
      SpacedGrows(parts, k + 1);
      assert parts[..|parts|] == parts;
    }
  }

  /** Within 200 bytes, it is all of them. */
  lemma NormalWithinBound(a: Alphabet, line: string)
    requires Lowers(a) && Utf8Len(Spaced(Forms(a, Tokens(a, "", line)))) <= 200
    ensures Normal(a, line) == Spaced(Forms(a, Tokens(a, "", line)))
  {
    var parts := Forms(a, Tokens(a, "", line));
    var k := NormalExactly(a, line);
    hide Normal, Forms, Tokens, Spaced, Lowers;
    if 0 < k < |parts| {
      SpacedGrows(parts, k);
    }
    assert parts[..|parts|] == parts;
  }

  // ---- Lines that differ in words ----

  /** Lower case of one character at a time, which leaves alone what is in no word. */
  ghost predicate PerCharacter(a: Alphabet) {
    && (forall x: string, y: string :: a.lower(x + y) == a.lower(x) + a.lower(y))
    && (forall c: char :: !InWord(a, c) ==> a.lower([c]) == [c])
    && !InWord(a, ' ')
  }

  /** `t[i..j]` is a whole word of `t`. */
  ghost predicate IsWordOf(a: Alphabet, t: string, i: nat, j: nat) {
    && i < j <= |t| && AllWord(a, t[i..j])
    && (i > 0 ==> !InWord(a, t[i - 1])) && (j < |t| ==> !InWord(a, t[j]))
  }

  ghost predicate NoCounters(a: Alphabet, t: string) {
    forall i: nat, j: nat :: IsWordOf(a, t, i, j) ==> !IsCounter(t[i..j])
  }

  lemma FirstWord(a: Alphabet, t: string) returns (p: nat)
    requires NoCounters(a, t)
    ensures p <= |t| && AllWord(a, t[..p]) && !IsCounter(t[..p])
    ensures p < |t| ==> !InWord(a, t[p]) && NoCounters(a, t[p + 1..])
  {
    p := 0;
    while p < |t| && InWord(a, t[p])
      invariant p <= |t| && AllWord(a, t[..p])
    {
      p := p + 1;
    }
    hide IsCounter;
    if p > 0 {
      assert IsWordOf(a, t, 0, p) && t[0..p] == t[..p];
    } else {
      NothingIsNoCounter();
    }
    if p < |t| {
      var y := t[p + 1..];
      forall i: nat, j: nat | IsWordOf(a, y, i, j) ensures !IsCounter(y[i..j]) {
        SliceOfRest(t, p + 1, i, j);
        assert IsWordOf(a, t, p + 1 + i, p + 1 + j);
      }
    }
  }

  lemma SliceOfRest(t: string, p: nat, i: nat, j: nat)
    requires p <= |t| && i <= j <= |t[p..]|
    ensures t[p..][i..j] == t[p + i..p + j]
  {
  }

  lemma NothingIsNoCounter()
    ensures !IsCounter("")
  {
    assert DigitsOf("") == {};
  }

  /** A run without counters is kept, in lower case. */
  lemma {:induction false} RunIsLowered(a: Alphabet, t: string)
    requires PerCharacter(a) && NoCounters(a, t)
    ensures TokenForm(a, "", t) == a.lower(t)
    decreases |t|
  {
    hide IsCounter, TokenForm;
    var p := FirstWord(a, t);
    WordFormExactly(a, t[..p]);
    if p < |t| {
      MarksSeparateWords(a, t[..p], t[p], t[p + 1..]);
      RunIsLowered(a, t[p + 1..]);
      assert t == t[..p] + [t[p]] + t[p + 1..];
      assert a.lower(t[..p] + [t[p]]) == a.lower(t[..p]) + [t[p]];
    } else {
      assert t[..p] == t;
    }
  }

  lemma {:induction false} SpacedIsLowered(a: Alphabet, tokens: seq<string>)
    requires PerCharacter(a) && a.lower("") == "" && (forall i :: 0 <= i < |tokens| ==> NoCounters(a, tokens[i]))
    ensures Spaced(Forms(a, tokens)) == a.lower(Spaced(tokens))
  {
    hide NoCounters, TokenForm, IsCounter;
    if tokens != [] {
      var front, last := tokens[..|tokens| - 1], tokens[|tokens| - 1];
      SpacedIsLowered(a, front);
      RunIsLowered(a, last);
      assert Forms(a, tokens) == Forms(a, front) + [a.lower(last)];
      if front != [] {
        assert a.lower(Spaced(front) + [' ']) == a.lower(Spaced(front)) + [' '];
      }
    }
  }

  /** The runs of a line in lower case, with single spaces between them. */
  function Plain(a: Alphabet, line: string): string {
    a.lower(Spaced(Tokens(a, "", line)))
  }

  ghost predicate IsPlain(a: Alphabet, line: string) {
    && (forall i :: 0 <= i < |Tokens(a, "", line)| ==> NoCounters(a, Tokens(a, "", line)[i]))
    && Utf8Len(Plain(a, line)) <= 200
  }

  /** Within the bound, lines without counters differ in their normal form exactly when they differ in a word. */
  lemma WordsTellLinesApart(a: Alphabet, s: string, t: string)
    requires Lowers(a) && PerCharacter(a) && IsPlain(a, s) && IsPlain(a, t)
    ensures Normal(a, s) == Plain(a, s)
    ensures Normal(a, s) == Normal(a, t) <==> Plain(a, s) == Plain(a, t)
  {
    hide Normal, Tokens, NoCounters, Spaced, Utf8Len;
    SpacedIsLowered(a, Tokens(a, "", s));
    SpacedIsLowered(a, Tokens(a, "", t));
    NormalWithinBound(a, s);
    NormalWithinBound(a, t);
  }

  // ---- The examples of the documentation, in ASCII ----

  function Lowered(s: string): (r: string)
    ensures |r| == |s| && forall i :: 0 <= i < |s| ==> r[i] == AsciiLower(s[i])
  {
    seq(|s|, i requires 0 <= i < |s| => AsciiLower(s[i]))
  }

  predicate IsAlnum(c: char) { '0' <= c <= '9' || 'A' <= c <= 'Z' || 'a' <= c <= 'z' }

  const ASCII: Alphabet := Alphabet(c => c == ' ', IsAlnum, Lowered)

  lemma LoweredOfConcat(x: string, y: string)
    ensures Lowered(x + y) == Lowered(x) + Lowered(y)
  {
  }

  lemma MarksHaveNoCase(c: char)
    requires !InWord(ASCII, c)
    ensures Lowered([c]) == [c]
  {
  }

  lemma AsciiIsAnAlphabet()
    ensures Lowers(ASCII) && PerCharacter(ASCII)
  {
    forall x: string, y: string ensures Lowered(x + y) == Lowered(x) + Lowered(y) {
      LoweredOfConcat(x, y);
    }
    forall c: char | !InWord(ASCII, c) ensures Lowered([c]) == [c] {
      MarksHaveNoCase(c);
    }
  }

  ghost predicate IsNumber(s: string) {
    s != "" && forall i :: 0 <= i < |s| ==> '0' <= s[i] <= '9'
  }

  lemma {:induction false} AllAreDigits(w: string)
    requires forall i :: 0 <= i < |w| ==> '0' <= w[i] <= '9'
    ensures |DigitsOf(w)| == |w|
  {
    DigitsAreCounted(w);
    if w != "" {
      AllAreDigits(w[..|w| - 1]);
      DigitsAreCounted(w[..|w| - 1]);
    }
  }

  lemma NumberForm(w: string)
    requires IsNumber(w)
    ensures TokenForm(ASCII, "", w) == "#" && ' ' !in w
  {
    AllAreDigits(w);
    WordFormExactly(ASCII, w);
  }

  lemma NameForm(w: string)
    requires forall i :: 0 <= i < |w| ==> 'a' <= w[i] <= 'z'
    ensures TokenForm(ASCII, "", w) == w
  {
    assert DigitsOf(w) == {};
    WordFormExactly(ASCII, w);
  }

  lemma NumberedForm(d: char)
    requires '0' <= d <= '9'
    ensures TokenForm(ASCII, "", "case_" + [d]) == "case_" + [d]
  {
    var w := "case_" + [d];
    assert DigitsOf(w) == {5};
    assert !IsCounter(w) && AllWord(ASCII, w) && Lowered(w) == w;
    hide *;
    WordFormExactly(ASCII, w);
  }

  lemma ColonForm(x: string, y: string)
    ensures TokenForm(ASCII, "", x + ":" + y) == TokenForm(ASCII, "", x) + ":" + TokenForm(ASCII, "", y)
  {
    assert !InWord(ASCII, ':');
    MarksSeparateWords(ASCII, x, ':', y);
  }

  ghost predicate AreRuns(a: Alphabet, runs: seq<string>) {
    forall i :: 0 <= i < |runs| ==> runs[i] != "" && forall k :: 0 <= k < |runs[i]| ==> !a.isSpace(runs[i][k])
  }

  /** Runs with single spaces between them are read as those runs. */
  lemma {:induction false} SpacedIsRead(a: Alphabet, runs: seq<string>)
    requires AreRuns(a, runs) && a.isSpace(' ')
    ensures Tokens(a, "", Spaced(runs)) == runs
  {
    hide Tokens;
    if runs == [] {
      RunIsOneToken(a, "");
    } else {
      var front, last := runs[..|runs| - 1], runs[|runs| - 1];
      SpacedIsRead(a, front);
      RunIsOneToken(a, last);
      if front != [] {
        SpacesSeparateRuns(a, Spaced(front), ' ', last);
      }
    }
  }

  lemma {:induction false} AsciiLength(s: string)
    requires forall i :: 0 <= i < |s| ==> s[i] < '\U{80}'
    ensures Utf8Len(s) == |s|
  {
    if s != "" {
      AsciiLength(s[1..]);
    }
  }

  lemma TwoRuns(x: string, y: string)
    ensures Spaced([x, y]) == x + " " + y
  {
    assert [x, y][..1] == [x];
  }

  ghost predicate IsAsciiRun(x: string) {
    x != "" && forall i :: 0 <= i < |x| ==> x[i] != ' ' && x[i] < '\U{80}'
  }

  lemma TwoRunsAreRead(x: string, y: string)
    requires IsAsciiRun(x) && IsAsciiRun(y)
    ensures Tokens(ASCII, "", x + " " + y) == [x, y]
  {
    TwoRuns(x, y);
    hide Tokens, Spaced;
    SpacedIsRead(ASCII, [x, y]);
  }

  lemma TwoRunsForm(x: string, y: string)
    requires IsAsciiRun(x) && IsAsciiRun(y) && |x| + |y| < 200
    requires TokenForm(ASCII, "", x) == x && TokenForm(ASCII, "", y) == y
    ensures Normal(ASCII, x + " " + y) == x + " " + y
  {
    AsciiLength(x + " " + y);
    hide Normal, Tokens, TokenForm, Spaced, Utf8Len, Lowers, PerCharacter;
    AsciiIsAnAlphabet();
    TwoRuns(x, y);
    TwoRunsAreRead(x, y);
    assert Forms(ASCII, [x, y]) == [x, y];
    NormalWithinBound(ASCII, x + " " + y);
  }

  lemma NamesAreRuns(d: char)
    requires '0' <= d <= '9'
    ensures IsAsciiRun("test") && IsAsciiRun("case_" + [d]) && |"test"| == 4 && |"case_" + [d]| == 6
  {
  }

  /** Lines that differ in a number inside a name are different. */
  lemma NumberedCasesStayDistinct(d: char)
    requires '0' <= d <= '9'
    ensures Normal(ASCII, "test" + " " + ("case_" + [d])) == "test" + " " + ("case_" + [d])
  {
    NameForm("test");
    NumberedForm(d);
    NamesAreRuns(d);
    hide *;
    TwoRunsForm("test", "case_" + [d]);
  }

  lemma ClockForm(h: string, m: string, s: string)
    requires IsNumber(h) && IsNumber(m) && IsNumber(s)
    ensures TokenForm(ASCII, "", h + ":" + (m + ":" + s)) == "#" + ":" + ("#" + ":" + "#")
  {
    hide TokenForm, IsNumber;
    NumberForm(h);
    NumberForm(m);
    NumberForm(s);
    ColonForm(m, s);
    ColonForm(h, m + ":" + s);
  }

  ghost predicate IsClock(c: string) {
    exists h: string, m: string, s: string :: IsNumber(h) && IsNumber(m) && IsNumber(s) && c == h + ":" + (m + ":" + s)
  }

  lemma ClocksLookTheSame(c: string)
    requires IsClock(c)
    ensures TokenForm(ASCII, "", c) == "#" + ":" + ("#" + ":" + "#")
  {
    var h, m, s :| IsNumber(h) && IsNumber(m) && IsNumber(s) && c == h + ":" + (m + ":" + s);
    ClockForm(h, m, s);
  }

  lemma ClockIsRun(c: string)
    requires IsClock(c)
    ensures c != "" && ' ' !in c
  {
  }

  function Attempt(n: string, of: string, clock: string): seq<string> {
    ["attempt", n, "of", of, "at", clock]
  }

  lemma AttemptIsRead(n: string, of: string, clock: string)
    requires IsNumber(n) && IsNumber(of) && IsClock(clock)
    ensures Tokens(ASCII, "", Spaced(Attempt(n, of, clock))) == Attempt(n, of, clock)
  {
    ClockIsRun(clock);
    hide Tokens, Spaced, IsClock;
    SpacedIsRead(ASCII, Attempt(n, of, clock));
  }

  lemma FormsOfAttempts(n: string, of: string, clock: string, n': string, of': string, clock': string)
    requires IsNumber(n) && IsNumber(of) && IsClock(clock) && IsNumber(n') && IsNumber(of') && IsClock(clock')
    ensures SameForms(ASCII, Attempt(n, of, clock), Attempt(n', of', clock'))
  {
    hide TokenForm, IsNumber, IsClock;
    NumberForm(n);
    NumberForm(of);
    NumberForm(n');
    NumberForm(of');
    ClocksLookTheSame(clock);
    ClocksLookTheSame(clock');
  }

  lemma NormalOfRead(a: Alphabet, line: string, runs: seq<string>)
    requires Tokens(a, "", line) == runs
    ensures Normal(a, line) == var out := Joined(a, "", runs); if |out| <= 200 then out else out[..200]
  {
    hide Tokens, Joined;
  }

  /** Attempts that differ in their numbers and the time of day are the same. */
  lemma AttemptsLookTheSame(n: string, of: string, clock: string, n': string, of': string, clock': string)
    requires IsNumber(n) && IsNumber(of) && IsClock(clock) && IsNumber(n') && IsNumber(of') && IsClock(clock')
    ensures Normal(ASCII, Spaced(Attempt(n, of, clock))) == Normal(ASCII, Spaced(Attempt(n', of', clock')))
  {
    hide *;
    AttemptIsRead(n, of, clock);
    AttemptIsRead(n', of', clock');
    FormsOfAttempts(n, of, clock, n', of', clock');
    NormalOfRead(ASCII, Spaced(Attempt(n, of, clock)), Attempt(n, of, clock));
    NormalOfRead(ASCII, Spaced(Attempt(n', of', clock')), Attempt(n', of', clock'));
    SameJoin(ASCII, "", Attempt(n, of, clock), Attempt(n', of', clock'));
  }

  // ---- Lines that may be the agent's own error ----

  ghost predicate AllSpace(a: Alphabet, s: string) {
    forall i :: 0 <= i < |s| ==> a.isSpace(s[i])
  }

  /** `t` neither begins nor ends with a space. */
  ghost predicate IsTrimmed(a: Alphabet, t: string) {
    t != "" ==> !a.isSpace(t[0]) && !a.isSpace(t[|t| - 1])
  }

  lemma {:induction false} StartIsTrimmed(a: Alphabet, before: string, t: string)
    requires AllSpace(a, before) && (t != "" ==> !a.isSpace(t[0]))
    ensures TrimStart(a, before + t) == t
  {
    if before == "" {
      assert before + t == t;
    } else {
      assert (before + t)[1..] == before[1..] + t;
      StartIsTrimmed(a, before[1..], t);
    }
  }

  lemma {:induction false} EndIsTrimmed(a: Alphabet, t: string, after: string)
    requires AllSpace(a, after) && (t != "" ==> !a.isSpace(t[|t| - 1]))
    ensures TrimEnd(a, t + after) == t
  {
    if after == "" {
      assert t + after == t;
    } else {
      var n := |after| - 1;
      assert (t + after)[..|t + after| - 1] == t + after[..n];
      EndIsTrimmed(a, t, after[..n]);
    }
  }

  lemma {:induction false} AllSpaceIsTrimmed(a: Alphabet, s: string)
    requires AllSpace(a, s)
    ensures Trim(a, s) == ""
  {
    StartIsTrimmed(a, s, "");
    assert s + "" == s;
  }

  /** The spaces around a text are taken off, those inside are not. */
  lemma TrimExactly(a: Alphabet, before: string, t: string, after: string)
    requires AllSpace(a, before) && IsTrimmed(a, t) && AllSpace(a, after)
    ensures Trim(a, before + t + after) == t
  {
    if t == "" {
      AllSpaceIsTrimmed(a, before + t + after);
    } else {
      assert before + t + after == before + (t + after);
      StartIsTrimmed(a, before, t + after);
      EndIsTrimmed(a, t, after);
    }
  }

  /** `p` occurs in `t`, capital ASCII letters standing for small ones. */
  ghost predicate Mentions(t: string, p: string) {
    exists i: nat :: MentionedAt(t, p, i)
  }

  ghost predicate MentionedAt(t: string, p: string, i: nat) {
    && i + |p| <= |t|
    && forall k :: 0 <= k < |p| ==> t[i + k] == p[k] || ('A' <= t[i + k] <= 'Z' && t[i + k] as int + 32 == p[k] as int)
  }

  /** Without a capital letter in it. */
  ghost predicate IsLower(p: string) {
    forall k :: 0 <= k < |p| ==> !('A' <= p[k] <= 'Z')
  }

  lemma LowerAt(t: string, lower: string, p: string, i: nat)
    requires |lower| == |t| && (forall k :: 0 <= k < |t| ==> lower[k] == AsciiLower(t[k])) && IsLower(p)
    ensures At(lower, p, i) <==> MentionedAt(t, p, i)
  {
    if At(lower, p, i) {
      forall k | 0 <= k < |p| ensures AsciiLower(t[i + k]) == p[k] {
        assert lower[i..i + |p|][k] == p[k];
      }
    }
    if MentionedAt(t, p, i) {
      assert forall k :: 0 <= k < |p| ==> lower[i + k] == p[k];
    }
  }

  lemma ContainsMentions(t: string, lower: string, p: string)
    requires |lower| == |t| && (forall k :: 0 <= k < |t| ==> lower[k] == AsciiLower(t[k])) && IsLower(p)
    ensures Contains(lower, p) <==> Mentions(t, p)
  {
    forall i: nat ensures At(lower, p, i) <==> MentionedAt(t, p, i) {
      LowerAt(t, lower, p, i);
    }
  }

  /** A JSON event that reports an error or a retry. */
  ghost predicate IsErrorEvent(t: string) {
    Mentions(t, "\"is_error\":true") || Mentions(t, "\"type\":\"error\"") || Mentions(t, "api_retry")
  }

  lemma ErrorEventExactly(t: string, lower: string)
    requires |lower| == |t| && forall k :: 0 <= k < |t| ==> lower[k] == AsciiLower(t[k])
    ensures IsErrorEvent(t) <==> || Contains(lower, "\"is_error\":true") || Contains(lower, "\"type\":\"error\"")
                                 || Contains(lower, "api_retry")
  {
    hide Mentions, Contains;
    ContainsMentions(t, lower, "\"is_error\":true");
    ContainsMentions(t, lower, "\"type\":\"error\"");
    ContainsMentions(t, lower, "api_retry");
  }

  lemma CandidateOf(a: Alphabet, line: string, t: string)
    requires Trim(a, line) == t
    ensures ExhaustionCandidate(a, line) <==> t != "" && Utf8Len(t) <= 400 && (t[0] == '{' ==> IsErrorEvent(t))
  {
    assert Utf8Len(t) > 0 <==> t != "";
    hide Trim, Contains, Utf8Len, IsErrorEvent;
    ErrorEventExactly(t, seq(|t|, i requires 0 <= i < |t| => AsciiLower(t[i])));
  }

  /**
   * A line counts as a sighting exactly when it is an exhaustion error that is
   * not blank, takes at most 400 bytes without the spaces around it, and, should it be
   * a JSON event, is one that reports an error or a retry.
   */
  lemma SightingExactly(a: Alphabet, exhausted: string -> bool, before: string, t: string, after: string)
    requires AllSpace(a, before) && IsTrimmed(a, t) && AllSpace(a, after)
    ensures
      var line := before + t + after;
      AgentRules(a, exhausted).sighting(line)
      <==> exhausted(line) && t != "" && Utf8Len(t) <= 400 && (t[0] == '{' ==> IsErrorEvent(t))
  {
    TrimExactly(a, before, t, after);
    hide Trim, ExhaustionCandidate, IsErrorEvent, Utf8Len, AllSpace, IsTrimmed;
    CandidateOf(a, before + t + after, t);
  }

  /** The detector compares normal forms, and remembers an error without the spaces around it. */
  lemma RulesOfTheAgent(a: Alphabet, exhausted: string -> bool, before: string, t: string, after: string)
    requires AllSpace(a, before) && IsTrimmed(a, t) && AllSpace(a, after)
    ensures AgentRules(a, exhausted).trim(before + t + after) == t
    ensures AgentRules(a, exhausted).normalize(before + t + after) == Normal(a, before + t + after)
  {
    TrimExactly(a, before, t, after);
    hide Trim, Normal;
  }
}
