/**
 * What an agent's failure text says about when, and whether, to try that agent
 * again. The lists of patterns are parameters; bytes are characters below 256.
 */
module FailureClass {
  import opened Wrappers
  import opened Substrings
  import opened ResetTime
  import PD = ParseDuration

  const SHORT_RATE_LIMIT_SECS: nat := 120
  const DEFAULT_RATE_LIMIT_SECS: nat := 30 * 60
  const TRANSIENT_RETRY_SECS: nat := 60
  const CREDIT_EXHAUSTED_SECS: nat := 6 * 60 * 60
  const LAUNCH_ARGV_ERROR_SECS: nat := 24 * 60 * 60

  datatype Window = FiveHour | Daily | Weekly | Monthly | Unknown {
    /** How long a used-up window is assumed to last when no reset time was printed. */
    function FallbackSecs(): (n: nat)
      ensures SHORT_RATE_LIMIT_SECS < n <= MAX_UNAVAILABLE_SECS
    {
      match this
      case FiveHour | Unknown => Clamp(5 * 60 * 60)
      case Daily => Clamp(24 * 60 * 60)
      case Weekly => Clamp(7 * 24 * 60 * 60)
      case Monthly => Clamp(30 * 24 * 60 * 60)
    }
  }

  function Clamp(secs: nat): (n: nat)
    ensures 1 <= n <= MAX_UNAVAILABLE_SECS
  {
    if secs < 1 then 1 else if secs > MAX_UNAVAILABLE_SECS then MAX_UNAVAILABLE_SECS else secs
  }

  datatype Failure =
    | RateLimited(retryAfter: Option<nat>)
    | CreditExhausted
    | QuotaWindowExhausted(resetsAt: Option<int>, window: Window)
    | AuthExpired
    | LaunchArgvError
    | Other
  {
    /** Seconds until the agent is worth trying again; none when waiting does not help. */
    function WaitSecs(now: int): (w: Option<nat>)
      ensures w.Some? ==> 1 <= w.value <= MAX_UNAVAILABLE_SECS
      ensures w.None? <==> AuthExpired? || Other?
    {
      match this
      case RateLimited(retryAfter) =>
        Some(Clamp(if retryAfter.Some? then retryAfter.value else DEFAULT_RATE_LIMIT_SECS))
      case CreditExhausted => Some(Clamp(CREDIT_EXHAUSTED_SECS))
      case QuotaWindowExhausted(resetsAt, window) =>
        Some(Clamp(if resetsAt.Some?
                   then if resetsAt.value - now > 60 then resetsAt.value - now else 60
                   else window.FallbackSecs()))
      case LaunchArgvError => Some(Clamp(LAUNCH_ARGV_ERROR_SECS))
      case AuthExpired | Other => None
    }

    /** Another agent gets the work. */
    predicate WarrantsFailover(now: int) {
      match this
      case CreditExhausted | QuotaWindowExhausted(_, _) | LaunchArgvError => true
      case RateLimited(_) => WaitSecs(now).Some? && WaitSecs(now).value > SHORT_RATE_LIMIT_SECS
      case AuthExpired | Other => false
    }
  }

  predicate IsLong(w: Option<nat>) {
    w.Some? && w.value > SHORT_RATE_LIMIT_SECS
  }

  predicate IsShort(w: Option<nat>) {
    w.Some? && w.value <= SHORT_RATE_LIMIT_SECS
  }

  // ---- What the text says ----

  /** A failure text, its lower-case form, and the dates and times found in that. */
  datatype Text = Text(raw: string, lower: string, times: Candidates)

  datatype Patterns = Patterns(
    argv: seq<string>, credit: seq<string>, quota: seq<string>,
    authExpired: seq<string>, throttle: seq<string>, transient: seq<string>)

  function InferWindow(lower: string): Window {
    if Has(lower, ["monthly", "per month"]) then Monthly
    else if Has(lower, ["weekly", "7-day", "7 day", "seven day", "seven-day"]) then Weekly
    else if Has(lower, ["daily", "per day", "day limit"]) then Daily
    else if Has(lower, ["5-hour", "5 hour", "five hour", "five-hour"]) then FiveHour
    else Unknown
  }

  /** The last place to cut a string at or before `i`. */
  function BoundaryBefore(s: string, i: nat): (b: nat)
    requires i <= |s|
    ensures b <= i && PD.IsBoundary(s, b)
    ensures forall x :: b < x <= i ==> !PD.IsBoundary(s, x)
  {
    if PD.IsBoundary(s, i) then i else BoundaryBefore(s, i - 1)
  }

  predicate IsStatusPadding(c: char) { c == ' ' || c == ':' || c == '-' || c == '"' }

  function PaddingEnd(s: string, i: nat): (j: nat)
    requires i <= |s|
    ensures i <= j <= |s|
    decreases |s| - i
  {
    if i < |s| && IsStatusPadding(s[i]) then PaddingEnd(s, i + 1) else i
  }

  predicate IsDigit(c: char) { '0' <= c <= '9' }

  const STATUS_WORDS: seq<string> := ["http", "status", "error", "code"]
  const STATUS_REASONS: seq<string> := ["payment", "too many", "overloaded"]

  /** `code` stands at `idx` as an HTTP status and not as any number in passing. */
  predicate StatusAt(lower: string, code: string, idx: nat) {
    && At(lower, code, idx)
    && (idx > 0 ==> !IsDigit(lower[idx - 1]))
    && (idx + |code| < |lower| ==> !IsDigit(lower[idx + |code|]))
    && (Has(lower[BoundaryBefore(lower, if idx < 14 then 0 else idx - 14)..idx], STATUS_WORDS)
        || exists w :: w in STATUS_REASONS && At(lower, w, PaddingEnd(lower, idx + |code|)))
  }

  predicate HasStatusCode(lower: string, code: string) {
    exists idx :: 0 <= idx < |lower| && StatusAt(lower, code, idx)
  }

  predicate SaysArgv(p: Patterns, lower: string) {
    Has(lower, p.argv) || (Contains(lower, "error: invalid value") && Contains(lower, "for '--"))
  }

  predicate SaysCredit(p: Patterns, lower: string) {
    Has(lower, p.credit) || HasStatusCode(lower, "402")
  }

  predicate SaysTransient(p: Patterns, lower: string) {
    Has(lower, p.transient) || HasStatusCode(lower, "529")
  }

  // ---- The retry hint ----

  const RETRY_HINT_KEYWORDS: seq<string> := [
    "retry after", "retry-after", "retry_after", "retrydelay", "retry in",
    "try again in", "try again after", "resets in", "reset in", "available again in"
  ]

  /** The wait printed at `at`, if a duration stands there. */
  function WaitAt(s: string, at: nat): (r: Option<nat>)
    requires at <= |s|
    ensures r.Some? ==> 1 <= r.value <= PD.U64_MAX
  {
    PD.Duration(PD.UNIT_NAMES, s[at..])
  }

  /** The first wait behind an occurrence of `keyword`, occurrences not overlapping. */
  function HintBehind(s: string, keyword: string, from: nat): (r: Option<nat>)
    requires keyword != "" && from <= |s|
    ensures r.Some? ==> 1 <= r.value <= PD.U64_MAX
    decreases |s| - from
  {
    var i := FindFrom(s, keyword, from);
    if i.None? then None
    else
      var at := i.value + |keyword|;
      if WaitAt(s, at).Some? then WaitAt(s, at) else HintBehind(s, keyword, at)
  }

  /** The first wait behind any keyword from the `k`-th on. */
  function RetryHint(s: string, keywords: seq<string>, k: nat): (r: Option<nat>)
    requires k <= |keywords| && "" !in keywords
    ensures r.Some? ==> 1 <= r.value <= PD.U64_MAX
    decreases |keywords| - k
  {
    if k == |keywords| then None
    else
      var first := HintBehind(s, keywords[k], 0);
      if first.Some? then first else RetryHint(s, keywords, k + 1)
  }

  /** A keyword was matched and a wait stands right behind it. */
  ghost predicate PrintedAt(s: string, keyword: string, i: nat, wait: Option<nat>) {
    At(s, keyword, i) && WaitAt(s, i + |keyword|) == wait
  }

  /** A match at `j` that printed no wait hides the match at `i`. */
  ghost predicate HiddenBy(s: string, keyword: string, i: nat, j: nat) {
    j <= i < j + |keyword| && PrintedAt(s, keyword, j, None)
  }

  /**
   * What is found was printed behind the keyword; and when nothing is, every
   * occurrence of the keyword printed no wait or overlaps one that did not.
   */
  lemma {:induction false} HintBehindExactly(s: string, keyword: string, from: nat)
    requires keyword != "" && from <= |s|
    ensures
      var r := HintBehind(s, keyword, from);
      && (r.Some? ==> exists i: nat :: from <= i && PrintedAt(s, keyword, i, r))
      && (r.None? ==> forall i: nat :: from <= i && At(s, keyword, i) ==> exists j: nat :: HiddenBy(s, keyword, i, j))
    decreases |s| - from
  {
    hide WaitAt;
    var first := FindFrom(s, keyword, from);
    if first.Some? {
      var at := first.value + |keyword|;
      assert PrintedAt(s, keyword, first.value, WaitAt(s, at));
      if WaitAt(s, at).None? {
        HintBehindExactly(s, keyword, at);
        if HintBehind(s, keyword, from).None? {
          forall i: nat | from <= i && At(s, keyword, i) ensures exists j: nat :: HiddenBy(s, keyword, i, j) {
            if i < at {
              assert HiddenBy(s, keyword, i, first.value);
            }
          }
        }
      }
    }
  }

  /** The hint is the one of the first keyword that has any. */
  lemma {:induction false} HintOfFirstKeyword(s: string, keywords: seq<string>, k: nat)
    requires k <= |keywords| && "" !in keywords
    ensures
      var r := RetryHint(s, keywords, k);
      if r.None? then forall n :: k <= n < |keywords| ==> HintBehind(s, keywords[n], 0).None?
      else exists n :: k <= n < |keywords| && r == HintBehind(s, keywords[n], 0)
                       && forall m :: k <= m < n ==> HintBehind(s, keywords[m], 0).None?
    decreases |keywords| - k
  {
    hide HintBehind;
    if k < |keywords| && HintBehind(s, keywords[k], 0).None? {
      HintOfFirstKeyword(s, keywords, k + 1);
      if RetryHint(s, keywords, k + 1).Some? {
        var n :| k + 1 <= n < |keywords| && RetryHint(s, keywords, k + 1) == HintBehind(s, keywords[n], 0)
                 && forall m :: k + 1 <= m < n ==> HintBehind(s, keywords[m], 0).None?;
        assert forall m :: k <= m < n ==> HintBehind(s, keywords[m], 0).None?;
      }
    }
  }

  /** Cutting a text behind an ASCII keyword never falls inside a character. */
  lemma HintCutsAtBoundaries(s: string, keyword: string, i: nat)
    requires PD.Utf8(s) && At(s, keyword, i)
    requires keyword != "" && keyword[|keyword| - 1] < '\U{80}'
    ensures PD.IsBoundary(s, i + |keyword|)
  {
    assert s[i + |keyword| - 1] == s[i..i + |keyword|][|keyword| - 1];
  }

  // ---- The classification ----

  ghost predicate IsReset(reset: Option<int>, t: Text, now: int, local: Zone) {
    IsFirstGood(reset, Ranked(t.times, now, Hint(t), local), now)
  }

  function Hint(t: Text): (h: Option<nat>)
    ensures h.Some? ==> 1 <= h.value <= PD.U64_MAX
  {
    RetryHint(t.lower, RETRY_HINT_KEYWORDS, 0)
  }

  /** The first list of patterns that matches decides. */
  function FirstMatch(p: Patterns, t: Text, reset: Option<int>): Failure {
    if SaysArgv(p, t.lower) then LaunchArgvError
    else if SaysCredit(p, t.lower) then CreditExhausted
    else if Has(t.lower, p.quota) then QuotaWindowExhausted(reset, InferWindow(t.lower))
    else if Has(t.lower, p.authExpired) then AuthExpired
    else if Has(t.lower, p.throttle) then RateLimited(Hint(t))
    else if SaysTransient(p, t.lower) then
      RateLimited(if Hint(t).Some? then Hint(t) else Some(TRANSIENT_RETRY_SECS))
    else Other
  }

  /** A "quota" that clears within the short window is throttling in practice. */
  function Demote(f: Failure, hint: Option<nat>, now: int): Failure {
    match f
    case CreditExhausted => if IsShort(hint) then RateLimited(hint) else f
    case QuotaWindowExhausted(_, _) =>
      if IsShort(hint) then RateLimited(hint)
      else if IsShort(f.WaitSecs(now)) then RateLimited(f.WaitSecs(now))
      else f
    case _ => f
  }

  /** `reset` is the reset time parsed from the text. */
  function Classify(p: Patterns, t: Text, reset: Option<int>, now: int): Failure {
    Demote(FirstMatch(p, t, reset), Hint(t), now)
  }

  /** The classification of a text at an instant, as the program computes it. */
  method ClassifyFailure(p: Patterns, t: Text, now: int, local: Zone) returns (f: Failure, ghost reset: Option<int>)
    ensures IsReset(reset, t, now, local) && f == Classify(p, t, reset, now)
  {
    var hint := Hint(t);
    var parsed := ParseResetAt(t.times, now, hint, local);
    reset := parsed;
    f := Classify(p, t, parsed, now);
  }

  /**
   * For every failure, whatever made it: moving the work is warranted exactly
   * when the wait is long, unless a usage window resets within the short wait.
   */
  lemma FailoverUnlessResetIsNear(f: Failure, now: int)
    ensures
      (f.WarrantsFailover(now) <==> IsLong(f.WaitSecs(now)))
      <==> !(f.QuotaWindowExhausted? && f.resetsAt.Some? && f.resetsAt.value <= now + SHORT_RATE_LIMIT_SECS)
  {
  }

  /** What is still a usage window after demotion was one before, and neither rule applied. */
  lemma UndemotedWindow(f: Failure, hint: Option<nat>, now: int)
    requires Demote(f, hint, now).QuotaWindowExhausted?
    ensures Demote(f, hint, now) == f && !IsShort(hint) && IsLong(f.WaitSecs(now))
  {
  }

  lemma WindowHasReset(p: Patterns, t: Text, reset: Option<int>)
    requires FirstMatch(p, t, reset).QuotaWindowExhausted?
    ensures FirstMatch(p, t, reset).resetsAt == reset
  {
    hide SaysArgv, SaysCredit, Has, SaysTransient, InferWindow, Hint;
  }

  /** A wait for a reset within eight days is exact. */
  lemma WaitIsExact(f: Failure, now: int)
    requires f.QuotaWindowExhausted? && f.resetsAt.Some? && f.resetsAt.value <= now + MAX_UNAVAILABLE_SECS
    requires IsLong(f.WaitSecs(now))
    ensures f.WaitSecs(now) == Some(f.resetsAt.value - now)
  {
  }

  /** A classified usage window is never about to reset: the second demotion rule saw to that. */
  lemma ClassifiedWindowsAreLong(p: Patterns, t: Text, reset: Option<int>, now: int, local: Zone)
    requires IsReset(reset, t, now, local)
    ensures
      var f := Classify(p, t, reset, now);
      f.QuotaWindowExhausted? ==>
        && !IsShort(Hint(t)) && f.resetsAt == reset && IsLong(f.WaitSecs(now))
        && (reset.Some? ==> f.WaitSecs(now) == Some(reset.value - now))
  {
    ResetIsPlausible(reset, t.times, now, Hint(t), local);
    hide FirstMatch, Demote, Hint, IsShort, IsLong, IsReset;
    if Classify(p, t, reset, now).QuotaWindowExhausted? {
      UndemotedWindow(FirstMatch(p, t, reset), Hint(t), now);
      WindowHasReset(p, t, reset);
      if reset.Some? { WaitIsExact(FirstMatch(p, t, reset), now); }
    }
  }

  /** For every text and instant: the work moves exactly when the wait exceeds two minutes, and every wait is sane. */
  lemma FailoverExactlyWhenLong(p: Patterns, t: Text, reset: Option<int>, now: int, local: Zone)
    requires IsReset(reset, t, now, local)
    ensures
      var f := Classify(p, t, reset, now);
      && (f.WarrantsFailover(now) <==> f.WaitSecs(now).Some? && f.WaitSecs(now).value > SHORT_RATE_LIMIT_SECS)
      && (f.WaitSecs(now).Some? ==> 1 <= f.WaitSecs(now).value <= 8 * DAY)
  {
    ClassifiedWindowsAreLong(p, t, reset, now, local);
    FailoverUnlessResetIsNear(Classify(p, t, reset, now), now);
  }

  /** Without the demotion rules the work would be moved away from an agent back within a minute. */
  lemma DemotionIsNeeded(now: int)
    ensures
      var f := QuotaWindowExhausted(Some(now + 30), FiveHour);
      && f.WarrantsFailover(now) && f.WaitSecs(now) == Some(60)
      && Demote(f, None, now) == RateLimited(Some(60)) && !RateLimited(Some(60)).WarrantsFailover(now)
  {
  }

  /** A printed wait of at most two minutes keeps the same agent, whatever else is said, but for a broken launch. */
  lemma ShortHintKeepsTheAgent(p: Patterns, t: Text, reset: Option<int>, now: int, later: int)
    requires IsShort(Hint(t)) && !SaysArgv(p, t.lower)
    ensures !Classify(p, t, reset, now).WarrantsFailover(later)
    ensures Classify(p, t, reset, now).RateLimited? ==> Classify(p, t, reset, now).WaitSecs(later) == Hint(t)
  {
    hide SaysArgv, SaysCredit, Has, SaysTransient, InferWindow, Hint;
  }

  /** The class before demotion, in terms of the text alone. */
  lemma FirstMatchExactly(p: Patterns, t: Text, reset: Option<int>)
    ensures
      var f, lower := FirstMatch(p, t, reset), t.lower;
      var exhausted := !SaysArgv(p, lower) && (SaysCredit(p, lower) || Has(lower, p.quota));
      && (f.LaunchArgvError? <==> SaysArgv(p, lower))
      && (f.CreditExhausted? <==> exhausted && SaysCredit(p, lower))
      && (f.QuotaWindowExhausted? <==> exhausted && !SaysCredit(p, lower))
      && (f.QuotaWindowExhausted? ==> f.resetsAt == reset)
      && (f.AuthExpired? <==> !SaysArgv(p, lower) && !exhausted && Has(lower, p.authExpired))
      && (f.Other? <==>
            && !SaysArgv(p, lower) && !exhausted && !Has(lower, p.authExpired)
            && !Has(lower, p.throttle) && !SaysTransient(p, lower))
  {
    hide SaysArgv, SaysCredit, Has, SaysTransient, InferWindow, Hint;
  }

  /** What demotion does to each class. */
  lemma DemotedExactly(f: Failure, hint: Option<nat>, now: int)
    requires f.QuotaWindowExhausted? && f.resetsAt.Some? ==> f.resetsAt.value <= now + MAX_UNAVAILABLE_SECS
    ensures
      var g := Demote(f, hint, now);
      && (g.LaunchArgvError? <==> f.LaunchArgvError?) && (g.AuthExpired? <==> f.AuthExpired?)
      && (g.Other? <==> f.Other?)
      && (g.CreditExhausted? <==> f.CreditExhausted? && !IsShort(hint))
      && (g.QuotaWindowExhausted? <==>
            && f.QuotaWindowExhausted? && !IsShort(hint)
            && (f.resetsAt.Some? ==> f.resetsAt.value > now + SHORT_RATE_LIMIT_SECS))
  {
  }

  /** When each class comes out, in terms of the text alone. */
  lemma ClassifiedExactly(p: Patterns, t: Text, reset: Option<int>, now: int, local: Zone)
    requires IsReset(reset, t, now, local)
    ensures
      var f, lower := Classify(p, t, reset, now), t.lower;
      var exhausted := !SaysArgv(p, lower) && (SaysCredit(p, lower) || Has(lower, p.quota));
      && (f.LaunchArgvError? <==> SaysArgv(p, lower))
      && (f.CreditExhausted? <==> exhausted && SaysCredit(p, lower) && !IsShort(Hint(t)))
      && (f.QuotaWindowExhausted? <==>
            && exhausted && !SaysCredit(p, lower) && !IsShort(Hint(t))
            && (reset.Some? ==> reset.value > now + SHORT_RATE_LIMIT_SECS))
      && (f.AuthExpired? <==> !SaysArgv(p, lower) && !exhausted && Has(lower, p.authExpired))
      && (f.Other? <==>
            && !SaysArgv(p, lower) && !exhausted && !Has(lower, p.authExpired)
            && !Has(lower, p.throttle) && !SaysTransient(p, lower))
  {
    ResetIsPlausible(reset, t.times, now, Hint(t), local);
    FirstMatchExactly(p, t, reset);
    hide SaysArgv, SaysCredit, Has, SaysTransient, Hint, FirstMatch, Demote, IsShort, IsReset;
    DemotedExactly(FirstMatch(p, t, reset), Hint(t), now);
  }

  /** What a rate limit says to wait: the printed wait if any, else what its class assumes. */
  lemma RateLimitWaits(p: Patterns, t: Text, reset: Option<int>, now: int, local: Zone)
    requires IsReset(reset, t, now, local) && Classify(p, t, reset, now).RateLimited?
    ensures
      var f, lower := Classify(p, t, reset, now), t.lower;
      var exhausted := SaysCredit(p, lower) || Has(lower, p.quota);
      if exhausted && !IsShort(Hint(t)) then
        && reset.Some? && reset.value <= now + SHORT_RATE_LIMIT_SECS
        && f.retryAfter == Some(if reset.value - now > 60 then reset.value - now else 60)
      else if Hint(t).Some? then f.retryAfter == Hint(t)
      else f.retryAfter == if Has(lower, p.throttle) then None else Some(TRANSIENT_RETRY_SECS)
  {
    ResetIsPlausible(reset, t.times, now, Hint(t), local);
    hide SaysArgv, SaysCredit, Has, SaysTransient, InferWindow, Hint;
  }

  // ---- The step's own retry ----

  const STALLED_MARKER := "stalled \U{E2}\U{80}\U{94} no worktree change and no new output"

  /** Whether a failed turn skips its step's own retries; the clock is read once to classify and once more. */
  predicate SkipsStepRetry(p: Patterns, t: Text, reset: Option<int>, now: int, later: int) {
    var f := Classify(p, t, reset, now);
    || Contains(t.raw, STALLED_MARKER)
    || Has(t.lower, p.authExpired)
    || f.AuthExpired? || f.CreditExhausted? || f.QuotaWindowExhausted? || f.LaunchArgvError?
    || (f.RateLimited? && f.WarrantsFailover(later))
  }

  /**
   * The step's retries are skipped exactly for a stalled agent, an expired
   * credential, and whenever the work is to move, at whatever clocks that is asked.
   */
  lemma SkipsExactly(p: Patterns, t: Text, reset: Option<int>, now: int, later: int, asked: int)
    ensures
      SkipsStepRetry(p, t, reset, now, later)
      <==> || Contains(t.raw, "stalled \U{E2}\U{80}\U{94} no worktree change and no new output")
           || Has(t.lower, p.authExpired)
           || Classify(p, t, reset, now).WarrantsFailover(asked)
  {
    hide SaysArgv, SaysCredit, Has, SaysTransient, InferWindow, Hint, Contains;
  }
}
