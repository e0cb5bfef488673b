/** Which reset time a text is taken to tell: clock readings, and the order of trust. */
module ResetOrder {
  import opened Wrappers
  import opened ResetTime

  // ---- Clock times ----

  /** What a clock shows at each full minute of the day is read back, with or without noon and midnight in it. */
  lemma ClockReadsBack(hour: nat, minute: nat, utc: bool)
    requires hour < 24 && minute < 60
    ensures
      var second := hour * 3600 + minute * 60;
      var half, shown := if hour < 12 then Am else Pm, if hour % 12 == 0 then 12 else hour % 12;
      && SecondOfDay(Clock(hour, Some(minute), None, utc)) == Some(second)
      && SecondOfDay(Clock(shown, Some(minute), Some(half), utc)) == Some(second)
      && (minute == 0 ==> SecondOfDay(Clock(shown, None, Some(half), utc)) == Some(second))
  {
  }

  /** A number alone is no time, nor is an hour or a minute that no clock shows. */
  lemma NoClockTime(c: Clock)
    requires || (c.minute.None? && c.meridiem.None?)
             || c.hour >= 24 || (c.minute.Some? && c.minute.value >= 60)
    ensures SecondOfDay(c).None?
  {
  }

  /** On a clock of twenty-four hours, `am` and `pm` behind an hour past noon change nothing; `0 pm` is noon. */
  lemma OddMeridiem(hour: nat, minute: nat, half: Meridiem, utc: bool)
    requires (13 <= hour < 24 || hour == 0) && minute < 60
    ensures SecondOfDay(Clock(hour, Some(minute), Some(half), utc))
         == Some((if hour == 0 && half == Pm then 12 else hour) * 3600 + minute * 60)
  {
  }

  /** In UTC the next instant with that time of day is found, within a day. */
  lemma NextInUtc(now: int, clock: nat)
    requires clock < 86_400
    ensures
      var t := NextClockOccurrence(now, clock, Fixed(0));
      t.Some? && now < t.value <= now + 86_400 && t.value % 86_400 == clock
  {
    NextClockIsLeast(now, clock, 0);
    assert TimeOfDay(Fixed(0), NextClockOccurrence(now, clock, Fixed(0)).value) == clock;
  }

  // ---- The order of trust ----

  /** Behind now, and at most eight days away. */
  predicate IsSoon(t: int, now: int) {
    now < t <= now + 691_200
  }

  predicate IsSoonIf(t: Option<int>, now: int) {
    t.Some? && IsSoon(t.value, now)
  }

  /** The instant a clock time stands for, in UTC or in the zone of the machine. */
  function ReadClock(c: Clock, now: int, local: Zone): Option<int> {
    if SecondOfDay(c).None? then None
    else if c.utc then NextClockOccurrence(now, SecondOfDay(c).value, Fixed(0))
    else NextClockOccurrence(now, SecondOfDay(c).value, local)
  }

  ghost predicate NoUnix(c: Candidates, now: int) {
    forall i :: 0 <= i < |c.unix| ==> !IsSoon(c.unix[i], now)
  }

  ghost predicate NoIso(c: Candidates, now: int) {
    forall i :: 0 <= i < |c.iso| ==> !IsSoonIf(c.iso[i], now)
  }

  ghost predicate NoHint(hint: Option<nat>, now: int) {
    hint.None? || !IsSoon(Wrap64(now + Wrap64(hint.value)), now)
  }

  lemma RankedAt(c: Candidates, now: int, hint: Option<nat>, local: Zone, i: nat)
    ensures
      var u, s, h, ts := |c.unix|, |c.iso|, if hint.None? then 0 else 1, Ranked(c, now, hint, local);
      && |ts| == u + s + h + |c.clocks|
      && (i < u ==> ts[i] == Some(c.unix[i]))
      && (u <= i < u + s ==> ts[i] == c.iso[i - u])
      && (u + s <= i < u + s + h ==> ts[i] == Some(Wrap64(now + Wrap64(hint.value))))
      && (u + s + h <= i < |ts| ==> ts[i] == ReadClock(c.clocks[i - u - s - h], now, local))
  {
    hide Wrap64, NextClockOccurrence, SecondOfDay;
    var a, b, d := UnixInstants(c.unix), HintInstant(hint, now), ClockInstants(c.clocks, now, local);
    assert |a| == |c.unix|;
    var ts := a + c.iso + b + d;
    var h := if hint.None? then 0 else 1;
    assert |b| == h;
    if |a| + |c.iso| + h <= i < |ts| {
      assert ts[i] == d[i - |a| - |c.iso| - h];
    }
  }

  /** The `i`-th candidate is the first that may be meant. */
  ghost predicate IsFirstSoon(ts: seq<Option<int>>, now: int, i: nat) {
    i < |ts| && IsSoonIf(ts[i], now) && forall j :: 0 <= j < i ==> !IsSoonIf(ts[j], now)
  }

  lemma FirstSoonIsGood(r: Option<int>, ts: seq<Option<int>>, now: int, i: nat)
    requires IsFirstGood(r, ts, now) && IsFirstSoon(ts, now, i)
    ensures r == ts[i]
  {
    FirstGoodIsUnique(r, ts[i], ts, now);
  }

  lemma RankedLength(c: Candidates, now: int, hint: Option<nat>, local: Zone)
    ensures |Ranked(c, now, hint, local)| == |c.unix| + |c.iso| + (if hint.None? then 0 else 1) + |c.clocks|
  {
    RankedAt(c, now, hint, local, 0);
  }

  /** A unix stamp is trusted most: the first that may be meant. */
  lemma UnixFirst(r: Option<int>, c: Candidates, now: int, hint: Option<nat>, local: Zone, i: nat)
    requires IsFirstGood(r, Ranked(c, now, hint, local), now)
    requires i < |c.unix| && IsSoon(c.unix[i], now) && forall j :: 0 <= j < i ==> !IsSoon(c.unix[j], now)
    ensures r == Some(c.unix[i])
  {
    hide Ranked, IsFirstGood;
    RankedLength(c, now, hint, local);
    forall j: nat | j <= i ensures Ranked(c, now, hint, local)[j] == Some(c.unix[j]) {
      RankedAt(c, now, hint, local, j);
    }
    FirstSoonIsGood(r, Ranked(c, now, hint, local), now, i);
  }

  lemma NoUnixRanked(c: Candidates, now: int, hint: Option<nat>, local: Zone, j: nat)
    requires NoUnix(c, now) && j < |c.unix|
    ensures j < |Ranked(c, now, hint, local)| && !IsSoonIf(Ranked(c, now, hint, local)[j], now)
  {
    hide Ranked;
    RankedAt(c, now, hint, local, j);
  }

  /** Then an ISO stamp. */
  lemma IsoSecond(r: Option<int>, c: Candidates, now: int, hint: Option<nat>, local: Zone, i: nat)
    requires IsFirstGood(r, Ranked(c, now, hint, local), now) && NoUnix(c, now)
    requires i < |c.iso| && IsSoonIf(c.iso[i], now) && forall j :: 0 <= j < i ==> !IsSoonIf(c.iso[j], now)
    ensures r == c.iso[i]
  {
    hide Ranked, IsFirstGood, NoUnix;
    RankedLength(c, now, hint, local);
    var ts, n := Ranked(c, now, hint, local), |c.unix| + i;
    forall j: nat | j < n ensures !IsSoonIf(ts[j], now) {
      if j < |c.unix| { NoUnixRanked(c, now, hint, local, j); } else { RankedAt(c, now, hint, local, j); }
    }
    RankedAt(c, now, hint, local, n);
    FirstSoonIsGood(r, ts, now, n);
  }

  lemma NoStampRanked(c: Candidates, now: int, hint: Option<nat>, local: Zone, j: nat)
    requires NoUnix(c, now) && NoIso(c, now) && j < |c.unix| + |c.iso|
    ensures j < |Ranked(c, now, hint, local)| && !IsSoonIf(Ranked(c, now, hint, local)[j], now)
  {
    hide Ranked;
    if j < |c.unix| { NoUnixRanked(c, now, hint, local, j); } else { RankedAt(c, now, hint, local, j); }
  }

  /** Then the wait printed, counted from now. */
  lemma HintThird(r: Option<int>, c: Candidates, now: int, wait: nat, local: Zone)
    requires IsFirstGood(r, Ranked(c, now, Some(wait), local), now) && NoUnix(c, now) && NoIso(c, now)
    requires 1 <= wait <= 691_200 && -0x8000_0000_0000_0000 <= now <= 0x7FFF_FFFF_FFFF_FFFF - 691_200
    ensures r == Some(now + wait)
  {
    hide Ranked, IsFirstGood, NoUnix, NoIso;
    var ts, n := Ranked(c, now, Some(wait), local), |c.unix| + |c.iso|;
    RankedLength(c, now, Some(wait), local);
    forall j: nat | j < n ensures !IsSoonIf(ts[j], now) { NoStampRanked(c, now, Some(wait), local, j); }
    RankedAt(c, now, Some(wait), local, n);
    FirstSoonIsGood(r, ts, now, n);
  }

  lemma OnlyClocks(c: Candidates, now: int, hint: Option<nat>, local: Zone, j: nat)
    requires NoUnix(c, now) && NoIso(c, now) && NoHint(hint, now)
    requires j < |c.unix| + |c.iso| + (if hint.None? then 0 else 1)
    ensures j < |Ranked(c, now, hint, local)| && !IsSoonIf(Ranked(c, now, hint, local)[j], now)
  {
    hide Ranked, Wrap64;
    if j < |c.unix| + |c.iso| {
      NoStampRanked(c, now, hint, local, j);
    } else {
      RankedAt(c, now, hint, local, j);
    }
  }

  /** And a clock time only if nothing else may be meant. */
  lemma ClockLast(r: Option<int>, c: Candidates, now: int, hint: Option<nat>, local: Zone, i: nat)
    requires IsFirstGood(r, Ranked(c, now, hint, local), now)
    requires NoUnix(c, now) && NoIso(c, now) && NoHint(hint, now)
    requires i < |c.clocks| && IsSoonIf(ReadClock(c.clocks[i], now, local), now)
    requires forall j :: 0 <= j < i ==> !IsSoonIf(ReadClock(c.clocks[j], now, local), now)
    ensures r == ReadClock(c.clocks[i], now, local)
  {
    hide Ranked, IsFirstGood, NoUnix, NoIso, NoHint, ReadClock;
    RankedLength(c, now, hint, local);
    var ts, m := Ranked(c, now, hint, local), |c.unix| + |c.iso| + (if hint.None? then 0 else 1);
    forall j: nat | j < m + i ensures !IsSoonIf(ts[j], now) {
      if j < m { OnlyClocks(c, now, hint, local, j); } else { RankedAt(c, now, hint, local, j); }
    }
    RankedAt(c, now, hint, local, m + i);
    FirstSoonIsGood(r, ts, now, m + i);
  }

  /** Otherwise there is no reset time. */
  lemma NothingMeant(r: Option<int>, c: Candidates, now: int, hint: Option<nat>, local: Zone)
    requires IsFirstGood(r, Ranked(c, now, hint, local), now)
    requires NoUnix(c, now) && NoIso(c, now) && NoHint(hint, now)
    requires forall j :: 0 <= j < |c.clocks| ==> !IsSoonIf(ReadClock(c.clocks[j], now, local), now)
    ensures r == None
  {
    hide Ranked, NoUnix, NoIso, NoHint, ReadClock;
    RankedLength(c, now, hint, local);
    var ts, m := Ranked(c, now, hint, local), |c.unix| + |c.iso| + (if hint.None? then 0 else 1);
    forall j: nat | j < |ts| ensures !IsSoonIf(ts[j], now) {
      if j < m { OnlyClocks(c, now, hint, local, j); } else { RankedAt(c, now, hint, local, j); }
    }
  }
}
