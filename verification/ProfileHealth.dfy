/** Health scores of credential profiles. Times are whole seconds; floating-point numbers are reals. */
module ProfileHealth {
  import opened Wrappers
  import opened Substrings

  const HOUR: int := 3600
  const CRITICAL: nat := 5

  datatype Status = Healthy | Warning | Critical

  datatype Health = Health(status: Status, count: nat, penalty: real, lastError: Option<int>, lastUsed: Option<int>,
                           updated: int)

  type Key = (string, string)

  function PenaltyFor(lower: string): (p: real)
    ensures p == 3.0 || p == 5.0 || p == 10.0 || p == 100.0
  {
    if Has(lower, ["429", "rate limit", "too many requests"]) then 10.0
    else if Has(lower, ["401", "403", "unauthorized"]) then 100.0
    else if Has(lower, ["timeout", "deadline exceeded", "500", "502", "503", "504"]) then 5.0
    else 3.0
  }

  /** Whole hours, a negative time being none. */
  predicate IsOlderThan1h(since: int, now: int) {
    now - since >= HOUR
  }

  function Decay(k: nat): (d: real)
    ensures 0.0 < d <= 1.0 && (k > 0 ==> d <= 0.8)
  {
    if k == 0 then 1.0 else 0.8 * Decay(k - 1)
  }

  /** Whole minutes since, none if the clock went back, in whole fives. */
  function Intervals(since: int, now: int): nat {
    if now <= since then 0 else (now - since) / 60 / 5
  }

  function DecayedPenalty(h: Option<Health>, now: int): (p: real) {
    if h.None? || h.value.lastError.None? then 0.0
    else h.value.penalty * Decay(Intervals(h.value.lastError.value, now))
  }

  function NewCount(h: Option<Health>, now: int): nat {
    if h.None? || h.value.lastError.None? || IsOlderThan1h(h.value.lastError.value, now) then 1 else h.value.count + 1
  }

  function StatusOf(count: nat): Status {
    if count >= CRITICAL then Critical else if count >= 1 then Warning else Healthy
  }

  /** The clock is read once more for the decay. */
  function Erred(h: Option<Health>, penalty: real, now: int, later: int): Health {
    var count := NewCount(h, now);
    Health(StatusOf(count), count, DecayedPenalty(h, later) + penalty, Some(now),
           if h.Some? then h.value.lastUsed else None, now)
  }

  function Touched(h: Option<Health>, now: int): Health {
    if h.Some? then h.value.(lastUsed := Some(now), updated := now)
    else Health(Healthy, 0, 0.0, None, Some(now), now)
  }

  class Profiles {
    var rows: map<Key, Health>

    constructor ()
      ensures rows == map[]
    {
      rows := map[];
    }

    function At(key: Key): Option<Health>
      reads this
    {
      if key in rows then Some(rows[key]) else None
    }

    method RecordError(key: Key, lower: string, now: int, later: int)
      modifies this
      ensures rows == old(rows)[key := Erred(old(At(key)), PenaltyFor(lower), now, later)]
    {
      var penalty := PenaltyFor(lower);
      var count := 1;
      if key in rows && rows[key].lastError.Some? && !IsOlderThan1h(rows[key].lastError.value, now) {
        count := rows[key].count + 1;
      }
      var decayed := DecayedPenalty(At(key), later);
      var status := if count >= CRITICAL then Critical else if count >= 1 then Warning else Healthy;
      var lastUsed := if key in rows then rows[key].lastUsed else None;
      rows := rows[key := Health(status, count, decayed + penalty, Some(now), lastUsed, now)];
    }

    method TouchLastUsed(key: Key, now: int)
      modifies this
      ensures rows == old(rows)[key := Touched(old(At(key)), now)]
    {
      if key in rows {
        rows := rows[key := rows[key].(lastUsed := Some(now), updated := now)];
      } else {
        rows := rows[key := Health(Healthy, 0, 0.0, None, Some(now), now)];
      }
    }
  }

  // ---- Whole histories ----

  datatype Event = Error(lower: string, at: int, later: int) | Touch(at: int)

  function After(events: seq<Event>): Option<Health> {
    if events == [] then None
    else
      var h, e := After(events[..|events| - 1]), events[|events| - 1];
      match e
      case Error(lower, at, later) => Some(Erred(h, PenaltyFor(lower), at, later))
      case Touch(at) => Some(Touched(h, at))
  }

  function Errors(events: seq<Event>): (r: seq<Event>)
    ensures forall i :: 0 <= i < |r| ==> r[i].Error?
  {
    if events == [] then []
    else
      var front := Errors(events[..|events| - 1]);
      if events[|events| - 1].Error? then front + [events[|events| - 1]] else front
  }

  /** The last `n` errors came less than an hour apart, and no more of them did. */
  ghost predicate IsLatestStreak(errors: seq<Event>, n: nat) {
    && n <= |errors| && (errors != [] ==> n > 0)
    && (forall i :: |errors| - n < i < |errors| ==> errors[i].at - errors[i - 1].at < 3600)
    && (0 < n < |errors| ==> errors[|errors| - n].at - errors[|errors| - n - 1].at >= 3600)
  }

  lemma StreakIsMaximal(errors: seq<Event>, m: nat, n: nat)
    requires IsLatestStreak(errors, m) && IsLatestStreak(errors, n)
    ensures n <= m
  {
    assert 0 < m < |errors| ==> errors[|errors| - m].at - errors[|errors| - m - 1].at >= HOUR;
  }

  /** Only one length is that of the latest streak. */
  lemma StreakIsUnique(errors: seq<Event>, m: nat, n: nat)
    requires IsLatestStreak(errors, m) && IsLatestStreak(errors, n)
    ensures m == n
  {
    StreakIsMaximal(errors, m, n);
    StreakIsMaximal(errors, n, m);
  }

  function CountOf(h: Option<Health>): nat {
    if h.Some? then h.value.count else 0
  }

  function LastErrorOf(h: Option<Health>): Option<int> {
    if h.Some? then h.value.lastError else None
  }

  lemma {:induction false} LastErrorIsKept(events: seq<Event>)
    ensures
      var errors := Errors(events);
      LastErrorOf(After(events)) == if errors == [] then None else Some(errors[|errors| - 1].at)
  {
    if events != [] {
      LastErrorIsKept(events[..|events| - 1]);
    }
  }

  lemma StreakSnoc(errors: seq<Event>, n: nat, e: Event)
    requires IsLatestStreak(errors, n) && (forall i :: 0 <= i < |errors| ==> errors[i].Error?) && e.Error?
    ensures
      var restarts := errors == [] || e.at - errors[|errors| - 1].at >= HOUR;
      IsLatestStreak(errors + [e], if restarts then 1 else n + 1)
  {
    assert forall i :: 0 <= i < |errors| ==> (errors + [e])[i] == errors[i];
  }

  /** Whatever else happened, the error count is the length of the latest streak, and critical means five or more. */
  lemma {:induction false} CountIsTheStreak(events: seq<Event>)
    ensures IsLatestStreak(Errors(events), CountOf(After(events)))
    ensures After(events).Some? ==>
              var n := CountOf(After(events));
              After(events).value.status == if n >= 5 then Critical else if n >= 1 then Warning else Healthy
  {
    if events != [] {
      var front, e := events[..|events| - 1], events[|events| - 1];
      CountIsTheStreak(front);
      LastErrorIsKept(front);
      hide PenaltyFor, DecayedPenalty, IsLatestStreak;
      ErrorsSnoc(events);
      if e.Error? {
        StreakSnoc(Errors(front), CountOf(After(front)), e);
      }
    }
  }

  lemma ErrorsSnoc(events: seq<Event>)
    requires events != []
    ensures
      var front := Errors(events[..|events| - 1]);
      Errors(events) == if events[|events| - 1].Error? then front + [events[|events| - 1]] else front
  {
  }

  lemma CriticalExactly(events: seq<Event>)
    ensures After(events).Some? && After(events).value.status.Critical?
            <==> exists n: nat :: n >= 5 && IsLatestStreak(Errors(events), n)
  {
    CountIsTheStreak(events);
    hide After, Errors;
    forall n: nat | IsLatestStreak(Errors(events), n) ensures n == CountOf(After(events)) {
      StreakIsUnique(Errors(events), n, CountOf(After(events)));
    }
  }

  // ---- The penalty ----

  /** Errors at least five minutes apart, each handled after it came. */
  ghost predicate FiveMinutesApart(errors: seq<Event>) {
    && (forall i :: 0 <= i < |errors| ==> errors[i].Error? && errors[i].at <= errors[i].later)
    && (forall i :: 0 < i < |errors| ==> errors[i].at - errors[i - 1].at >= 300)
  }

  lemma DecayShrinks(p: real, k: nat)
    requires p >= 0.0
    ensures 0.0 <= p * Decay(k) && (k > 0 ==> p * Decay(k) <= p * 0.8)
  {
    var d := Decay(k);
    if k > 0 {
      assert p * d <= p * 0.8;
    }
  }

  lemma ErredIsBounded(h: Option<Health>, penalty: real, now: int, later: int)
    requires 0.0 <= penalty <= 100.0 && (h.Some? ==> 0.0 <= h.value.penalty < 500.0)
    requires LastErrorOf(h).Some? ==> later - LastErrorOf(h).value >= 300
    ensures 0.0 <= Erred(h, penalty, now, later).penalty < 500.0
  {
    hide Decay;
    if LastErrorOf(h).Some? {
      var k := Intervals(LastErrorOf(h).value, later);
      assert k > 0;
      DecayShrinks(h.value.penalty, k);
      assert DecayedPenalty(h, later) == h.value.penalty * Decay(k);
    }
  }

  /** The penalty stays below five hundred as long as errors come at least five minutes apart. */
  lemma {:induction false} PenaltyIsBounded(events: seq<Event>)
    requires FiveMinutesApart(Errors(events))
    ensures After(events).Some? ==> 0.0 <= After(events).value.penalty < 500.0
  {
    if events != [] {
      var front, e := events[..|events| - 1], events[|events| - 1];
      ErrorsSnoc(events);
      ApartOfPrefix(Errors(events), |Errors(front)|);
      assert Errors(front) == Errors(events)[..|Errors(front)|];
      PenaltyIsBounded(front);
      LastErrorIsKept(front);
      hide Errors, Erred, PenaltyFor;
      if e.Error? {
        LastIsApart(Errors(events));
        ErredIsBounded(After(front), PenaltyFor(e.lower), e.at, e.later);
      }
    }
  }

  lemma LastIsApart(errors: seq<Event>)
    requires FiveMinutesApart(errors) && |errors| > 0
    ensures errors[|errors| - 1].Error?
    ensures |errors| > 1 ==> errors[|errors| - 2].Error? && errors[|errors| - 1].later - errors[|errors| - 2].at >= 300
  {
  }

  lemma ApartOfPrefix(errors: seq<Event>, n: nat)
    requires FiveMinutesApart(errors) && n <= |errors|
    ensures FiveMinutesApart(errors[..n])
  {
  }

  function Burst(lower: string, at: int, n: nat): (r: seq<Event>)
    ensures |r| == n
  {
    if n == 0 then [] else Burst(lower, at, n - 1) + [Error(lower, at, at)]
  }

  lemma OneMore(n: nat, p: real)
    requires n > 0
    ensures (n - 1) as real * p + p == n as real * p
  {
    var m := (n - 1) as real;
    assert n as real == m + 1.0;
  }

  lemma ErredAtOnce(h: Health, penalty: real, at: int)
    requires h.lastError == Some(at)
    ensures Erred(Some(h), penalty, at, at).penalty == h.penalty + penalty
  {
  }

  /** Faster errors know no bound: each then adds its whole penalty. */
  lemma {:induction false} BurstsAddUp(lower: string, at: int, n: nat)
    requires n > 0
    ensures After(Burst(lower, at, n)).Some?
    ensures
      var h := After(Burst(lower, at, n)).value;
      h.penalty == n as real * PenaltyFor(lower) && h.lastError == Some(at)
  {
    var events := Burst(lower, at, n);
    assert events[..n - 1] == Burst(lower, at, n - 1);
    var p := PenaltyFor(lower);
    if n > 1 {
      BurstsAddUp(lower, at, n - 1);
      ErredAtOnce(After(Burst(lower, at, n - 1)).value, p, at);
      OneMore(n, p);
    }
    hide PenaltyFor, DecayedPenalty;
  }
}
