/** What a profile's row tells of everything that happened to the profile. */
module PenaltyHistory {
  import opened Wrappers
  import opened Substrings
  import opened ProfileHealth

  /** How many points an error message costs, by what it says. */
  ghost function Points(s: string): real {
    if Says(s, "429") || Says(s, "rate limit") || Says(s, "too many requests") then 10.0
    else if Says(s, "401") || Says(s, "403") || Says(s, "unauthorized") then 100.0
    else if || Says(s, "timeout") || Says(s, "deadline exceeded") || Says(s, "500") || Says(s, "502") || Says(s, "503")
            || Says(s, "504") then 5.0
    else 3.0
  }

  lemma PointsExactly(s: string)
    ensures PenaltyFor(s) == Points(s)
  {
    hide Has, Says;
    FewSays(s, ["429", "rate limit", "too many requests"]);
    FewSays(s, ["401", "403", "unauthorized"]);
    FewSays(s, ["timeout", "deadline exceeded", "500", "502", "503", "504"]);
  }

  function Power(x: real, k: nat): real {
    if k == 0 then 1.0 else x * Power(x, k - 1)
  }

  lemma {:induction false} PowerOfSum(x: real, j: nat, k: nat)
    ensures Power(x, j + k) == Power(x, j) * Power(x, k)
  {
    if j > 0 {
      PowerOfSum(x, j - 1, k);
    }
  }

  lemma {:induction false} DecayIsPower(k: nat)
    ensures Decay(k) == Power(0.8, k)
  {
    if k > 0 {
      DecayIsPower(k - 1);
    }
  }

  /** Points after so many times five minutes. */
  function Faded(points: real, k: nat): real {
    points * Power(0.8, k)
  }

  lemma FadedTwice(points: real, j: nat, k: nat)
    ensures Faded(points, j + k) == Faded(Faded(points, j), k)
  {
    PowerOfSum(0.8, j, k);
  }

  lemma FadedSum(x: real, y: real, k: nat)
    ensures Faded(x, k) + Faded(y, k) == Faded(x + y, k)
  {
  }

  lemma DecayFades(points: real, k: nat)
    ensures points * Decay(k) == Faded(points, k)
  {
    DecayIsPower(k);
  }

  ghost predicate AllErrors(errors: seq<Event>) {
    forall i :: 0 <= i < |errors| ==> errors[i].Error?
  }

  /** The whole five minutes between an error and the handling of the next, the `j`-th. */
  function Gap(errors: seq<Event>, j: nat): nat
    requires AllErrors(errors) && 0 < j < |errors|
  {
    if errors[j].later <= errors[j - 1].at then 0 else (errors[j].later - errors[j - 1].at) / 300
  }

  /** Those between the `i`-th error and the last of the first `n`, each gap counted by itself. */
  function Age(errors: seq<Event>, i: nat, n: nat): nat
    requires AllErrors(errors) && i < n <= |errors|
  {
    if i == n - 1 then 0 else Age(errors, i, n - 1) + Gap(errors, n - 1)
  }

  /** The points of the first `m` errors, a fifth less for each five minutes up to the `n`-th. */
  ghost function Weighted(errors: seq<Event>, n: nat, m: nat): real
    requires AllErrors(errors) && m <= n <= |errors|
  {
    if m == 0 then 0.0
    else Weighted(errors, n, m - 1) + Faded(Points(errors[m - 1].lower), Age(errors, m - 1, n))
  }

  lemma {:induction false} WeightedOneOlder(errors: seq<Event>, n: nat, m: nat)
    requires AllErrors(errors) && m <= n < |errors| && n > 0
    ensures Weighted(errors, n + 1, m) == Faded(Weighted(errors, n, m), Gap(errors, n))
  {
    if m > 0 {
      hide Gap, Points, Faded;
      WeightedOneOlder(errors, n, m - 1);
      var p := Points(errors[m - 1].lower);
      FadedTwice(p, Age(errors, m - 1, n), Gap(errors, n));
      FadedSum(Weighted(errors, n, m - 1), Faded(p, Age(errors, m - 1, n)), Gap(errors, n));
    } else {
      hide Gap, Points;
    }
  }

  lemma {:induction false} WeightedOfFront(errors: seq<Event>, e: Event, n: nat, m: nat)
    requires AllErrors(errors + [e]) && AllErrors(errors) && m <= n <= |errors|
    ensures Weighted(errors + [e], n, m) == Weighted(errors, n, m)
  {
    if m > 0 {
      WeightedOfFront(errors, e, n, m - 1);
      AgeOfFront(errors, e, m - 1, n);
    }
  }

  lemma {:induction false} AgeOfFront(errors: seq<Event>, e: Event, i: nat, n: nat)
    requires AllErrors(errors + [e]) && AllErrors(errors) && i < n <= |errors|
    ensures Age(errors + [e], i, n) == Age(errors, i, n)
  {
    if i < n - 1 {
      AgeOfFront(errors, e, i, n - 1);
    }
  }

  lemma IntervalsAreGaps(since: int, now: int)
    ensures Intervals(since, now) == if now <= since then 0 else (now - since) / 300
  {
  }

  lemma WeightedLast(errors: seq<Event>, n: nat)
    requires AllErrors(errors) && n < |errors|
    ensures Weighted(errors, n + 1, n + 1) == Weighted(errors, n + 1, n) + Points(errors[n].lower)
  {
    assert Faded(Points(errors[n].lower), 0) == Points(errors[n].lower);
    hide Points, Faded;
  }

  lemma GapOfSnoc(errors: seq<Event>, e: Event)
    requires errors != [] && AllErrors(errors) && e.Error? && AllErrors(errors + [e])
    ensures Gap(errors + [e], |errors|) == Intervals(errors[|errors| - 1].at, e.later)
  {
    IntervalsAreGaps(errors[|errors| - 1].at, e.later);
    hide Intervals;
    assert (errors + [e])[|errors|] == e && (errors + [e])[|errors| - 1] == errors[|errors| - 1];
  }

  lemma NothingWeighs(errors: seq<Event>, n: nat)
    requires AllErrors(errors) && n <= |errors|
    ensures Weighted(errors, n, 0) == 0.0
  {
  }

  /** What is left of the points so far when one more error comes. */
  ghost function Left(errors: seq<Event>, e: Event): real
    requires AllErrors(errors) && e.Error?
  {
    var n := |errors|;
    if n == 0 then 0.0 else Faded(Weighted(errors, n, n), Intervals(errors[n - 1].at, e.later))
  }

  lemma WeightedKept(errors: seq<Event>, e: Event, n: nat)
    requires AllErrors(errors) && e.Error? && AllErrors(errors + [e]) && n == |errors| > 0
    ensures Weighted(errors + [e], n + 1, n) == Faded(Weighted(errors, n, n), Gap(errors + [e], n))
  {
    hide *;
    WeightedOneOlder(errors + [e], n, n);
    WeightedOfFront(errors, e, n, n);
  }

  lemma WeightedLeft(errors: seq<Event>, e: Event)
    requires AllErrors(errors) && e.Error? && AllErrors(errors + [e])
    ensures Weighted(errors + [e], |errors| + 1, |errors|) == Left(errors, e)
  {
    hide *;
    if |errors| == 0 {
      NothingWeighs(errors + [e], 1);
      NothingLeft(errors, e);
    } else {
      GapOfSnoc(errors, e);
      WeightedKept(errors, e, |errors|);
      LeftIs(errors, e);
    }
  }

  lemma NothingLeft(errors: seq<Event>, e: Event)
    requires AllErrors(errors) && e.Error? && |errors| == 0
    ensures Left(errors, e) == 0.0
  {
  }

  lemma LeftIs(errors: seq<Event>, e: Event)
    requires AllErrors(errors) && e.Error? && errors != []
    ensures Left(errors, e) == Faded(Weighted(errors, |errors|, |errors|), Intervals(errors[|errors| - 1].at, e.later))
  {
    hide Weighted, Faded, Intervals;
  }

  lemma WeightedSnoc(errors: seq<Event>, e: Event)
    requires AllErrors(errors) && e.Error? && AllErrors(errors + [e])
    ensures Weighted(errors + [e], |errors| + 1, |errors| + 1) == Left(errors, e) + Points(e.lower)
  {
    hide *;
    assert (errors + [e])[|errors|] == e;
    WeightedLast(errors + [e], |errors|);
    WeightedLeft(errors, e);
  }

  lemma AllErrorsSnoc(errors: seq<Event>, e: Event)
    requires AllErrors(errors) && e.Error?
    ensures AllErrors(errors + [e])
    ensures errors != [] ==> errors[|errors| - 1].Error?
  {
  }

  lemma ErredAdds(h: Option<Health>, penalty: real, at: int, later: int)
    ensures Erred(h, penalty, at, later).penalty == DecayedPenalty(h, later) + penalty
  {
    hide DecayedPenalty;
  }

  lemma DecayedFades(h: Option<Health>, later: int)
    ensures LastErrorOf(h).None? ==> DecayedPenalty(h, later) == 0.0
    ensures LastErrorOf(h).Some? ==>
              DecayedPenalty(h, later) == Faded(h.value.penalty, Intervals(LastErrorOf(h).value, later))
  {
    if LastErrorOf(h).Some? {
      DecayFades(h.value.penalty, Intervals(LastErrorOf(h).value, later));
    }
    hide Decay, Intervals, Faded;
  }

  lemma ErredPenalty(h: Option<Health>, errors: seq<Event>, e: Event)
    requires AllErrors(errors) && e.Error?
    requires LastErrorOf(h) == if errors == [] then None else Some(errors[|errors| - 1].at)
    requires (if h.Some? then h.value.penalty else 0.0) == Weighted(errors, |errors|, |errors|)
    ensures Erred(h, PenaltyFor(e.lower), e.at, e.later).penalty == Left(errors, e) + PenaltyFor(e.lower)
  {
    hide Decay, Intervals, Weighted, PenaltyFor, Faded, Erred, DecayedPenalty, Left;
    ErredAdds(h, PenaltyFor(e.lower), e.at, e.later);
    DecayedFades(h, e.later);
    if |errors| == 0 { NothingLeft(errors, e); } else { LeftIs(errors, e); }
  }

  lemma AfterSnoc(events: seq<Event>)
    requires events != []
    ensures
      var h, e := After(events[..|events| - 1]), events[|events| - 1];
      After(events) == if e.Error? then Some(Erred(h, PenaltyFor(e.lower), e.at, e.later)) else Some(Touched(h, e.at))
  {
  }

  /** The penalty is the points of all errors, each a fifth less for every five minutes that passed since. */
  lemma {:induction false} PenaltyIsTheSum(events: seq<Event>)
    ensures AllErrors(Errors(events))
    ensures
      var n := |Errors(events)|;
      (if After(events).Some? then After(events).value.penalty else 0.0) == Weighted(Errors(events), n, n)
  {
    hide Points, Decay, Intervals, Weighted, Errors, PenaltyFor, After, Erred, AllErrors;
    if events == [] {
      NothingYet();
    } else {
      var front, e := events[..|events| - 1], events[|events| - 1];
      PenaltyIsTheSum(front);
      LastErrorIsKept(front);
      ErrorsSnoc(events);
      AfterSnoc(events);
      if e.Error? {
        PointsExactly(e.lower);
        AllErrorsSnoc(Errors(front), e);
        WeightedSnoc(Errors(front), e);
        ErredPenalty(After(front), Errors(front), e);
      }
    }
  }

  lemma NothingYet()
    ensures Errors([]) == [] && AllErrors(Errors([])) && After([]) == None && Weighted([], 0, 0) == 0.0
  {
  }

  // ---- The rest of the row ----

  /** When the profile was last used, if it was. */
  function LastTouch(events: seq<Event>): Option<int> {
    if events == [] then None
    else if events[|events| - 1].Touch? then Some(events[|events| - 1].at)
    else LastTouch(events[..|events| - 1])
  }

  /** A row, which there is after any event, is dated with the last event, and keeps the last error and the last use. */
  lemma {:induction false} RowTellsTheLatest(events: seq<Event>)
    ensures
      var h, errors := After(events), Errors(events);
      if events == [] then h.None?
      else
        && h.Some? && h.value.updated == events[|events| - 1].at
        && h.value.lastError == (if errors == [] then None else Some(errors[|errors| - 1].at))
        && h.value.lastUsed == LastTouch(events)
  {
    if events != [] {
      RowTellsTheLatest(events[..|events| - 1]);
      LastErrorIsKept(events);
      AfterSnoc(events);
      hide After, Errors, DecayedPenalty, PenaltyFor;
    }
  }
}
