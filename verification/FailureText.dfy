/** What a failure text must say for each class, word by word, and what each class waits in seconds. */
module FailureText {
  import opened Wrappers
  import opened Substrings
  import opened ResetTime
  import opened FailureClass
  import PD = ParseDuration

  // ---- Usage windows ----

  /** The longest window named. */
  function WindowNamed(monthly: bool, weekly: bool, daily: bool, fiveHour: bool): Window {
    if monthly then Monthly
    else if weekly then Weekly
    else if daily then Daily
    else if fiveHour then FiveHour
    else Unknown
  }

  /** The window is the longest one that the text names. */
  lemma WindowByWords(s: string)
    ensures InferWindow(s)
         == WindowNamed(
              Says(s, "monthly") || Says(s, "per month"),
              || Says(s, "weekly") || Says(s, "7-day") || Says(s, "7 day") || Says(s, "seven day")
              || Says(s, "seven-day"),
              Says(s, "daily") || Says(s, "per day") || Says(s, "day limit"),
              Says(s, "5-hour") || Says(s, "5 hour") || Says(s, "five hour") || Says(s, "five-hour"))
  {
    hide Has, Says;
    FewSays(s, ["monthly", "per month"]);
    FewSays(s, ["weekly", "7-day", "7 day", "seven day", "seven-day"]);
    FewSays(s, ["daily", "per day", "day limit"]);
    FewSays(s, ["5-hour", "5 hour", "five hour", "five-hour"]);
  }

  // ---- Waits ----

  function Within(lo: int, x: int, hi: int): int {
    if x < lo then lo else if x > hi then hi else x
  }

  /** How many seconds each failure is waited for. */
  lemma WaitsInSeconds(f: Failure, now: int)
    ensures
      f.WaitSecs(now)
      == match f
         case RateLimited(None) => Some(1800)
         case RateLimited(Some(n)) => Some(Within(1, n, 691_200))
         case CreditExhausted => Some(21_600)
         case QuotaWindowExhausted(Some(t), _) => Some(Within(60, t - now, 691_200))
         case QuotaWindowExhausted(None, FiveHour) => Some(18_000)
         case QuotaWindowExhausted(None, Unknown) => Some(18_000)
         case QuotaWindowExhausted(None, Daily) => Some(86_400)
         case QuotaWindowExhausted(None, Weekly) => Some(604_800)
         case QuotaWindowExhausted(None, Monthly) => Some(691_200)
         case LaunchArgvError => Some(86_400)
         case AuthExpired => None
         case Other => None
  {
  }

  // ---- Status codes ----

  ghost predicate EndsInDigit(s: string) {
    s != "" && '0' <= s[|s| - 1] <= '9'
  }

  ghost predicate StartsWithDigit(s: string) {
    s != "" && '0' <= s[0] <= '9'
  }

  /** The word stands within the last fourteen bytes. */
  ghost predicate EndsNear(s: string, word: string) {
    exists i: nat :: |s| <= i + 14 && At(s, word, i)
  }

  /** Behind any spaces, colons, dashes and quotes the phrase follows. */
  ghost predicate ThenComes(s: string, phrase: string) {
    exists pad: string, rest: string ::
      s == pad + phrase + rest && forall i :: 0 <= i < |pad| ==> pad[i] in {' ', ':', '-', '"'}
  }

  /** A number that is called a status in front of it or explained behind it. */
  ghost predicate IsStatus(before: string, after: string) {
    && !EndsInDigit(before) && !StartsWithDigit(after)
    && (|| EndsNear(before, "http") || EndsNear(before, "status") || EndsNear(before, "error")
        || EndsNear(before, "code")
        || ThenComes(after, "payment") || ThenComes(after, "too many") || ThenComes(after, "overloaded"))
  }

  ghost predicate HasStatus(s: string, code: string) {
    exists before: string, after: string :: s == before + code + after && IsStatus(before, after)
  }

  lemma {:induction false} PaddingEnds(s: string, i: nat, j: nat)
    requires i <= j <= |s| && (forall k :: i <= k < j ==> IsStatusPadding(s[k])) && (j < |s| ==> !IsStatusPadding(s[j]))
    ensures PaddingEnd(s, i) == j
    decreases j - i
  {
    if i < j {
      PaddingEnds(s, i + 1, j);
    }
  }

  lemma {:induction false} PaddingIs(s: string, i: nat)
    requires i <= |s|
    ensures forall k :: i <= k < PaddingEnd(s, i) ==> IsStatusPadding(s[k])
    ensures PaddingEnd(s, i) < |s| ==> !IsStatusPadding(s[PaddingEnd(s, i)])
    decreases |s| - i
  {
    if i < |s| && IsStatusPadding(s[i]) {
      PaddingIs(s, i + 1);
    }
  }

  lemma PaddedReason(s: string, end: nat, phrase: string, pad: string, rest: string)
    requires end <= |s| && phrase != "" && !IsStatusPadding(phrase[0])
    requires s[end..] == pad + phrase + rest && forall i :: 0 <= i < |pad| ==> pad[i] in {' ', ':', '-', '"'}
    ensures At(s, phrase, PaddingEnd(s, end))
  {
    var j := end + |pad|;
    assert s[end..][|pad|..|pad| + |phrase|] == phrase && s[j..j + |phrase|] == s[end..][|pad|..|pad| + |phrase|];
    assert s[j] == phrase[0];
    forall k | end <= k < j ensures IsStatusPadding(s[k]) {
      assert s[k] == s[end..][k - end] == pad[k - end];
    }
    PaddingEnds(s, end, j);
  }

  lemma PaddingLeads(s: string, end: nat, phrase: string)
    requires end <= |s| && At(s, phrase, PaddingEnd(s, end))
    ensures ThenComes(s[end..], phrase)
  {
    PaddingIs(s, end);
    var j := PaddingEnd(s, end);
    hide PaddingEnd;
    CutBehind(s, end, j, phrase);
    var pad, rest := s[end..j], s[j + |phrase|..];
    hide At;
    assert forall i :: 0 <= i < |pad| ==> pad[i] == s[end + i];
  }

  lemma CutBehind(s: string, end: nat, j: nat, phrase: string)
    requires end <= j <= |s| && At(s, phrase, j)
    ensures s[end..] == s[end..j] + phrase + s[j + |phrase|..]
  {
    assert s[j..] == phrase + s[j + |phrase|..];
    assert s[end..] == s[end..j] + s[j..];
  }

  /** The reason behind the padding. */
  lemma ReasonFollows(s: string, end: nat, phrase: string)
    requires end <= |s| && phrase != "" && !IsStatusPadding(phrase[0])
    ensures At(s, phrase, PaddingEnd(s, end)) <==> ThenComes(s[end..], phrase)
  {
    if At(s, phrase, PaddingEnd(s, end)) {
      PaddingLeads(s, end, phrase);
    }
    hide PaddingEnd, At;
    if pad: string, rest: string :|
      s[end..] == pad + phrase + rest && forall i :: 0 <= i < |pad| ==> pad[i] in {' ', ':', '-', '"'}
    {
      PaddedReason(s, end, phrase, pad, rest);
    }
  }

  /** The bytes that the window is lengthened by are in no ASCII word. */
  lemma NothingInBetween(s: string, b: nat, k: nat, i: nat)
    requires PD.Utf8(s) && b <= i < k < |s| && forall x :: b < x <= k ==> !PD.IsBoundary(s, x)
    ensures s[i] >= '\U{80}'
  {
    assert !PD.IsBoundary(s, i + 1);
  }

  lemma InWindow(s: string, idx: nat, b: nat, word: string, i: nat)
    requires b <= idx <= |s| && i + |word| <= idx
    ensures i >= b ==> (At(s[b..idx], word, i - b) <==> At(s[..idx], word, i))
  {
    if i >= b {
      assert s[b..idx][i - b..i - b + |word|] == s[..idx][i..i + |word|];
    }
  }

  lemma NearExactly(s: string, idx: nat, word: string)
    requires PD.Utf8(s) && idx < |s| && word != "" && word[0] < '\U{80}'
    ensures Contains(s[BoundaryBefore(s, if idx < 14 then 0 else idx - 14)..idx], word) <==> EndsNear(s[..idx], word)
  {
    var k := if idx < 14 then 0 else idx - 14;
    var b := BoundaryBefore(s, k);
    hide BoundaryBefore;
    if j: nat :| At(s[b..idx], word, j) {
      var i := b + j;
      InWindow(s, idx, b, word, i);
      assert s[i] == s[..idx][i..i + |word|][0];
      if i < k {
        NothingInBetween(s, b, k, i);
        assert false;
      }
    }
    if i: nat :| |s[..idx]| <= i + 14 && At(s[..idx], word, i) {
      InWindow(s, idx, b, word, i);
    }
  }

  lemma NearWords(s: string, idx: nat)
    requires PD.Utf8(s) && idx < |s|
    ensures Has(s[BoundaryBefore(s, if idx < 14 then 0 else idx - 14)..idx], STATUS_WORDS)
            <==> || EndsNear(s[..idx], "http") || EndsNear(s[..idx], "status") || EndsNear(s[..idx], "error")
                 || EndsNear(s[..idx], "code")
  {
    hide BoundaryBefore, EndsNear;
    var tail := s[BoundaryBefore(s, if idx < 14 then 0 else idx - 14)..idx];
    NearExactly(s, idx, "http");
    NearExactly(s, idx, "status");
    NearExactly(s, idx, "error");
    NearExactly(s, idx, "code");
    FourHas(tail);
  }

  lemma FourHas(s: string)
    ensures Has(s, STATUS_WORDS)
            <==> Contains(s, "http") || Contains(s, "status") || Contains(s, "error") || Contains(s, "code")
  {
    hide Contains;
    var ps := STATUS_WORDS;
    assert ps[0] == "http" && ps[1] == "status" && ps[2] == "error" && ps[3] == "code";
  }

  lemma ReasonWords(s: string, end: nat)
    requires end <= |s|
    ensures (exists w :: w in STATUS_REASONS && At(s, w, PaddingEnd(s, end)))
            <==> || ThenComes(s[end..], "payment") || ThenComes(s[end..], "too many")
                 || ThenComes(s[end..], "overloaded")
  {
    hide ThenComes, PaddingEnd, At;
    ReasonFollows(s, end, "payment");
    ReasonFollows(s, end, "too many");
    ReasonFollows(s, end, "overloaded");
    var ws := STATUS_REASONS;
    assert ws[0] == "payment" && ws[1] == "too many" && ws[2] == "overloaded";
  }

  lemma StatusAtExactly(s: string, code: string, idx: nat)
    requires PD.Utf8(s) && code != ""
    ensures StatusAt(s, code, idx)
            <==> At(s, code, idx) && IsStatus(s[..idx], s[idx + |code|..])
  {
    if At(s, code, idx) {
      NearWords(s, idx);
      ReasonWords(s, idx + |code|);
      hide Has, PaddingEnd, BoundaryBefore, EndsNear, ThenComes, At;
    }
  }

  /** A text has a status code exactly where it stands as one. */
  lemma StatusExactly(s: string, code: string)
    requires PD.Utf8(s) && code != ""
    ensures HasStatusCode(s, code) <==> HasStatus(s, code)
  {
    hide StatusAt, IsStatus, PD.Utf8;
    if idx: nat :| idx < |s| && StatusAt(s, code, idx) {
      StatusAtExactly(s, code, idx);
      assert s == s[..idx] + code + s[idx + |code|..];
    }
    if before: string, after: string :| s == before + code + after && IsStatus(before, after) {
      var idx := |before|;
      AtExactly(s, code, idx);
      assert s[..idx] == before && s[idx + |code|..] == after;
      StatusAtExactly(s, code, idx);
    }
  }

  // ---- The classes ----

  /** The launch was rejected. */
  ghost predicate SaysRejected(p: Patterns, s: string) {
    SaysAny(s, p.argv) || (Says(s, "error: invalid value") && Says(s, "for '--"))
  }

  /** The credit is spent. */
  ghost predicate SaysSpent(p: Patterns, s: string) {
    SaysAny(s, p.credit) || HasStatus(s, "402")
  }

  /** The server is in trouble. */
  ghost predicate SaysTrouble(p: Patterns, s: string) {
    SaysAny(s, p.transient) || HasStatus(s, "529")
  }

  lemma SaidExactly(p: Patterns, s: string)
    requires PD.Utf8(s)
    ensures SaysArgv(p, s) <==> SaysRejected(p, s)
    ensures SaysCredit(p, s) <==> SaysSpent(p, s)
    ensures SaysTransient(p, s) <==> SaysTrouble(p, s)
    ensures Has(s, p.quota) <==> SaysAny(s, p.quota)
    ensures Has(s, p.authExpired) <==> SaysAny(s, p.authExpired)
    ensures Has(s, p.throttle) <==> SaysAny(s, p.throttle)
  {
    hide Has, SaysAny, Says, Contains, HasStatus, HasStatusCode, PD.Utf8;
    HasSays(s, p.argv);
    HasSays(s, p.credit);
    HasSays(s, p.transient);
    HasSays(s, p.quota);
    HasSays(s, p.authExpired);
    HasSays(s, p.throttle);
    ContainsSays(s, "error: invalid value");
    ContainsSays(s, "for '--");
    StatusExactly(s, "402");
    StatusExactly(s, "529");
  }

  ghost predicate WaitsShort(wait: Option<nat>) {
    wait.Some? && wait.value <= 120
  }

  /** When each class comes out, and which window and reset time it has, in the words of the text. */
  lemma ClassByWords(p: Patterns, t: Text, reset: Option<int>, now: int, local: Zone)
    requires IsReset(reset, t, now, local) && PD.Utf8(t.lower)
    ensures
      var f, s := Classify(p, t, reset, now), t.lower;
      var used := !SaysRejected(p, s) && (SaysSpent(p, s) || SaysAny(s, p.quota));
      && (f.LaunchArgvError? <==> SaysRejected(p, s))
      && (f.CreditExhausted? <==> used && SaysSpent(p, s) && !WaitsShort(Hint(t)))
      && (f.QuotaWindowExhausted? <==>
            used && !SaysSpent(p, s) && !WaitsShort(Hint(t)) && (reset.Some? ==> reset.value > now + 120))
      && (f.AuthExpired? <==> !SaysRejected(p, s) && !used && SaysAny(s, p.authExpired))
      && (f.Other? <==> && !SaysRejected(p, s) && !used && !SaysAny(s, p.authExpired) && !SaysAny(s, p.throttle)
                        && !SaysTrouble(p, s))
      && (f.QuotaWindowExhausted? ==> f.resetsAt == reset && f.window == InferWindow(s))
  {
    ClassifiedExactly(p, t, reset, now, local);
    SaidExactly(p, t.lower);
    WindowIsKept(p, t, reset, now);
    hide SaysArgv, SaysCredit, SaysTransient, SaysRejected, SaysSpent, SaysTrouble, SaysAny, Has, Hint, IsReset;
    hide Classify, PD.Utf8, InferWindow;
  }

  lemma WindowIsKept(p: Patterns, t: Text, reset: Option<int>, now: int)
    ensures
      var f := Classify(p, t, reset, now);
      f.QuotaWindowExhausted? ==> f.resetsAt == reset && f.window == InferWindow(t.lower)
  {
    hide SaysArgv, SaysCredit, SaysTransient, Has, Hint, InferWindow;
  }

  /** What is told to wait, and what for. */
  lemma RateLimitByWords(p: Patterns, t: Text, reset: Option<int>, now: int, local: Zone)
    requires IsReset(reset, t, now, local) && PD.Utf8(t.lower) && Classify(p, t, reset, now).RateLimited?
    ensures
      var f, s := Classify(p, t, reset, now), t.lower;
      if (SaysSpent(p, s) || SaysAny(s, p.quota)) && !WaitsShort(Hint(t)) then
        && reset.Some? && now < reset.value <= now + 120
        && f.retryAfter == Some(Within(60, reset.value - now, 120))
      else if Hint(t).Some? then f.retryAfter == Hint(t)
      else f.retryAfter == if SaysAny(s, p.throttle) then None else Some(60)
  {
    RateLimitWaits(p, t, reset, now, local);
    SaidExactly(p, t.lower);
    ResetIsPlausible(reset, t.times, now, Hint(t), local);
    hide SaysArgv, SaysCredit, SaysTransient, SaysRejected, SaysSpent, SaysTrouble, SaysAny, Has, Hint, IsReset;
    hide Classify, PD.Utf8;
  }

  // ---- The printed wait ----

  const WAIT_PHRASES: seq<string> := [
    "retry after", "retry-after", "retry_after", "retrydelay", "retry in",
    "try again in", "try again after", "resets in", "reset in", "available again in"
  ]

  /** No phrase that announces a wait stands anywhere but at `i`. */
  ghost predicate OnlyAt(s: string, phrase: string, i: nat) {
    forall n, j: nat :: 0 <= n < |WAIT_PHRASES| && At(s, WAIT_PHRASES[n], j) ==> j == i && WAIT_PHRASES[n] == phrase
  }

  lemma OneOccurrence(s: string, k: string, i: nat)
    requires k != "" && At(s, k, i) && forall j: nat :: At(s, k, j) ==> j == i
    ensures HintBehind(s, k, 0) == PD.Duration(PD.UNIT_NAMES, s[i + |k|..])
  {
    hide PD.Duration, At;
    assert FindFrom(s, k, 0) == Some(i);
    assert FindFrom(s, k, i + |k|) == None;
  }

  lemma NoOccurrence(s: string, k: string)
    requires k != "" && forall j: nat :: !At(s, k, j)
    ensures HintBehind(s, k, 0) == None
  {
    hide At;
  }

  /** The wait is what is printed behind the one phrase that announces it, and none without such a phrase. */
  lemma HintIsPrinted(t: Text, phrase: string, i: nat)
    requires phrase in WAIT_PHRASES && OnlyAt(t.lower, phrase, i)
    ensures Hint(t) == if At(t.lower, phrase, i) then PD.Duration(PD.UNIT_NAMES, t.lower[i + |phrase|..]) else None
  {
    HintOfFirstKeyword(t.lower, RETRY_HINT_KEYWORDS, 0);
    assert WAIT_PHRASES == RETRY_HINT_KEYWORDS;
    hide At, HintBehind, PD.Duration;
    forall n | 0 <= n < |WAIT_PHRASES| && !(WAIT_PHRASES[n] == phrase && At(t.lower, phrase, i))
      ensures HintBehind(t.lower, WAIT_PHRASES[n], 0) == None
    {
      NoOccurrence(t.lower, WAIT_PHRASES[n]);
    }
    if At(t.lower, phrase, i) {
      OneOccurrence(t.lower, phrase, i);
    }
  }
}
