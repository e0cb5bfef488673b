/**
 * The instant at which an agent may be used again, as its text tells. What the
 * regular expressions find in the text is given; instants are unix seconds.
 */
module ResetTime {
  import opened Wrappers

  const DAY: int := 86400
  /** Eight days; a reset time read from a text and further off than that is taken for a misreading. */
  const MAX_UNAVAILABLE_SECS: nat := 8 * 24 * 60 * 60

  datatype Meridiem = Am | Pm

  /** A clock time in the text: no minute and no meridiem means it is only a number. */
  datatype Clock = Clock(hour: nat, minute: Option<nat>, meridiem: Option<Meridiem>, utc: bool)

  /** Every candidate found, in order: unix stamps, ISO stamps (none when they are no date), clock times. */
  datatype Candidates = Candidates(unix: seq<int>, iso: seq<Option<int>>, clocks: seq<Clock>)

  /** 64-bit two's complement. */
  function Wrap64(x: int): (w: int)
    ensures -0x8000_0000_0000_0000 <= w < 0x8000_0000_0000_0000
    ensures -0x8000_0000_0000_0000 <= x < 0x8000_0000_0000_0000 ==> w == x
  {
    (x + 0x8000_0000_0000_0000) % 0x1_0000_0000_0000_0000 - 0x8000_0000_0000_0000
  }

  predicate Plausible(t: int, now: int) {
    now < t <= now + MAX_UNAVAILABLE_SECS
  }

  function Hour24(hour: nat, meridiem: Option<Meridiem>): (h: nat)
    ensures 1 <= hour <= 12 && meridiem == Some(Am) ==> h < 12 && h % 12 == hour % 12
    ensures 1 <= hour <= 12 && meridiem == Some(Pm) ==> 12 <= h < 24 && h % 12 == hour % 12
  {
    if meridiem == Some(Pm) && hour < 12 then hour + 12
    else if meridiem == Some(Am) && hour == 12 then 0
    else hour
  }

  /** Second of the day a clock time stands for, if it is one. */
  function SecondOfDay(c: Clock): (s: Option<nat>)
    ensures s.Some? ==> s.value < DAY
  {
    if c.minute.None? && c.meridiem.None? then None
    else
      var hour := Hour24(c.hour, c.meridiem);
      var minute := if c.minute.Some? then c.minute.value else 0;
      if hour < 24 && minute < 60 then Some(hour * 3600 + minute * 60) else None
  }

  // ---- Zones ----

  /** How far local time is ahead at each instant, and the first instant, if any, that a local time stands for. */
  datatype Zone = Zone(offset: int -> int, earliest: int -> Option<int>)

  /** The calendar's reading, in seconds. */
  function Local(z: Zone, t: int): int {
    t + z.offset(t)
  }

  /** Wall-clock second of the day. */
  function TimeOfDay(z: Zone, t: int): int {
    Local(z, t) % DAY
  }

  function Date(z: Zone, t: int): int {
    Local(z, t) / DAY
  }

  ghost predicate IsZone(z: Zone) {
    && (forall t :: -DAY < z.offset(t) < DAY)
    && (forall w :: z.earliest(w).Some? ==> Local(z, z.earliest(w).value) == w)
    && (forall t :: z.earliest(Local(z, t)).Some? && z.earliest(Local(z, t)).value <= t)
  }

  /** Clocks may go back, but by less than a day. */
  ghost predicate NeverADayBack(z: Zone) {
    forall t, u :: t <= u ==> Local(z, t) < Local(z, u) + DAY
  }

  function Fixed(offset: int): Zone {
    Zone((t: int) => offset, (w: int) => Some(w - offset))
  }

  /** That time of day, so many days from today's date. */
  function OnDay(now: int, clock: nat, z: Zone, days: int): (w: int)
    ensures w == (Date(z, now) + days) * DAY + clock
    ensures clock < DAY ==> w / DAY == Date(z, now) + days && w % DAY == clock
  {
    (Date(z, now) + days) * DAY + clock
  }

  predicate IsAhead(now: int, t: Option<int>) {
    t.Some? && t.value > now
  }

  /** Today's or else tomorrow's occurrence of a time of day, whichever first lies behind `now`. */
  function NextClockOccurrence(now: int, clock: nat, z: Zone): (t: Option<int>)
    requires clock < DAY
  {
    var first, second := z.earliest(OnDay(now, clock, z, 0)), z.earliest(OnDay(now, clock, z, 1));
    if IsAhead(now, first) then first else if IsAhead(now, second) then second else None
  }

  // ---- Whether that is the next ----

  /** `t` is the first instant behind `now` with that time of day. */
  ghost predicate IsNextClock(now: int, clock: nat, z: Zone, t: Option<int>) {
    && IsAhead(now, t) && TimeOfDay(z, t.value) == clock
    && forall u :: now < u < t.value ==> TimeOfDay(z, u) != clock
  }

  ghost predicate HasBeen(now: int, z: Zone, w: int) {
    exists t :: t <= now && Local(z, t) == w
  }

  ghost predicate WillBe(now: int, z: Zone, w: int) {
    exists t :: t > now && Local(z, t) == w
  }

  /** The clocks show a local time after `now`, and have not before. */
  ghost predicate IsToCome(now: int, z: Zone, w: int) {
    WillBe(now, z, w) && !HasBeen(now, z, w)
  }

  /** The clocks going back, they show today's once more, or yesterday's. */
  ghost predicate ComesAgain(now: int, clock: nat, z: Zone) {
    || (HasBeen(now, z, OnDay(now, clock, z, 0)) && WillBe(now, z, OnDay(now, clock, z, 0)))
    || WillBe(now, z, OnDay(now, clock, z, -1))
  }

  lemma AheadIsToCome(now: int, z: Zone, w: int)
    requires IsZone(z)
    ensures IsAhead(now, z.earliest(w)) <==> IsToCome(now, z, w)
    ensures z.earliest(w).Some? ==> Local(z, z.earliest(w).value) == w
  {
  }

  lemma BeforeTheFirst(z: Zone, w: int, u: int)
    requires IsZone(z) && z.earliest(w).Some? && u < z.earliest(w).value
    ensures Local(z, u) != w
  {
  }

  lemma IsOnDay(now: int, clock: nat, z: Zone, u: int, days: int)
    requires TimeOfDay(z, u) == clock && Date(z, u) == Date(z, now) + days
    ensures Local(z, u) == OnDay(now, clock, z, days)
  {
  }

  /** Between now and that time of day on another day, it is on a day from yesterday to that. */
  lemma DaysBetween(now: int, clock: nat, z: Zone, t: int, days: int, u: int)
    requires NeverADayBack(z) && clock < DAY && Local(z, t) == OnDay(now, clock, z, days)
    requires now < u < t && TimeOfDay(z, u) == clock
    ensures exists d :: -1 <= d <= days && Local(z, u) == OnDay(now, clock, z, d)
  {
    assert Local(z, now) < Local(z, u) + DAY && Local(z, u) < Local(z, t) + DAY;
    IsOnDay(now, clock, z, u, Date(z, u) - Date(z, now));
  }

  lemma BetweenComesAgain(now: int, clock: nat, z: Zone, days: nat, u: int)
    requires IsZone(z) && NeverADayBack(z) && clock < DAY && days <= 1
    requires IsToCome(now, z, OnDay(now, clock, z, days))
    requires z.earliest(OnDay(now, clock, z, days)).Some?
    requires now < u < z.earliest(OnDay(now, clock, z, days)).value && TimeOfDay(z, u) == clock
    ensures ComesAgain(now, clock, z) || (days == 1 && IsToCome(now, z, OnDay(now, clock, z, 0)))
  {
    var w := OnDay(now, clock, z, days);
    AheadIsToCome(now, z, w);
    DaysBetween(now, clock, z, z.earliest(w).value, days, u);
    BeforeTheFirst(z, w, u);
    hide OnDay, IsZone, NeverADayBack, Local;
    var d :| -1 <= d <= days && Local(z, u) == OnDay(now, clock, z, d);
    assert WillBe(now, z, OnDay(now, clock, z, d));
  }

  /** What comes again comes before anything that is to come. */
  lemma AgainIsBefore(now: int, clock: nat, z: Zone, t: int, w: int, u: int)
    requires NeverADayBack(z) && clock < DAY && w % DAY == clock
    requires u > now && Local(z, u) == w && Local(z, t) >= w + DAY
    ensures !IsNextClock(now, clock, z, Some(t))
  {
    assert t <= u ==> Local(z, t) < Local(z, u) + DAY;
    assert TimeOfDay(z, u) == clock;
  }

  lemma AgainIsNotNext(now: int, clock: nat, z: Zone, days: nat)
    requires IsZone(z) && NeverADayBack(z) && clock < DAY && days <= 1 && ComesAgain(now, clock, z)
    requires IsToCome(now, z, OnDay(now, clock, z, days))
    ensures !IsNextClock(now, clock, z, z.earliest(OnDay(now, clock, z, days)))
  {
    AheadIsToCome(now, z, OnDay(now, clock, z, days));
    var t := z.earliest(OnDay(now, clock, z, days)).value;
    hide IsNextClock, IsZone, NeverADayBack, Local;
    var day := if WillBe(now, z, OnDay(now, clock, z, -1)) then -1 else 0;
    var u :| u > now && Local(z, u) == OnDay(now, clock, z, day);
    AgainIsBefore(now, clock, z, t, OnDay(now, clock, z, day), u);
  }

  lemma NothingIsNotNext(now: int, clock: nat, z: Zone)
    ensures !IsNextClock(now, clock, z, None)
  {
  }

  lemma ToComeIsNext(now: int, clock: nat, z: Zone, days: nat)
    requires IsZone(z) && NeverADayBack(z) && clock < DAY && days <= 1 && !ComesAgain(now, clock, z)
    requires IsToCome(now, z, OnDay(now, clock, z, days))
    requires days == 1 ==> !IsToCome(now, z, OnDay(now, clock, z, 0))
    ensures IsNextClock(now, clock, z, z.earliest(OnDay(now, clock, z, days)))
  {
    var w := OnDay(now, clock, z, days);
    AheadIsToCome(now, z, w);
    hide ComesAgain, IsToCome, IsZone, NeverADayBack;
    forall u | now < u < z.earliest(w).value ensures TimeOfDay(z, u) != clock {
      if TimeOfDay(z, u) == clock {
        BetweenComesAgain(now, clock, z, days, u);
      }
    }
  }

  /**
   * What is found is the first instant behind `now` with that time of day,
   * exactly when that is still to come today or tomorrow, and the clocks do not
   * show today's or yesterday's again before.
   */
  lemma NextClockExactly(now: int, clock: nat, z: Zone)
    requires IsZone(z) && NeverADayBack(z) && clock < DAY
    ensures IsNextClock(now, clock, z, NextClockOccurrence(now, clock, z))
            <==> && (IsToCome(now, z, OnDay(now, clock, z, 0)) || IsToCome(now, z, OnDay(now, clock, z, 1)))
                 && !ComesAgain(now, clock, z)
  {
    var today, tomorrow := OnDay(now, clock, z, 0), OnDay(now, clock, z, 1);
    AheadIsToCome(now, z, today);
    AheadIsToCome(now, z, tomorrow);
    hide IsNextClock, ComesAgain, IsZone, NeverADayBack, OnDay, IsToCome, IsAhead;
    if IsToCome(now, z, today) || IsToCome(now, z, tomorrow) {
      var days := if IsToCome(now, z, today) then 0 else 1;
      if ComesAgain(now, clock, z) {
        AgainIsNotNext(now, clock, z, days);
      } else {
        ToComeIsNext(now, clock, z, days);
      }
    } else {
      NothingIsNotNext(now, clock, z);
    }
  }

  /** A clock time is found at all exactly when it is to come, and then within four days. */
  lemma FoundIfToCome(now: int, clock: nat, z: Zone)
    requires IsZone(z) && clock < DAY
    ensures
      var t := NextClockOccurrence(now, clock, z);
      if IsToCome(now, z, OnDay(now, clock, z, 0)) || IsToCome(now, z, OnDay(now, clock, z, 1))
      then t.Some? && now < t.value < now + 4 * DAY
      else t.None?
  {
    AheadIsToCome(now, z, OnDay(now, clock, z, 0));
    AheadIsToCome(now, z, OnDay(now, clock, z, 1));
    assert z.offset(now) < DAY;
    var t := NextClockOccurrence(now, clock, z);
    assert t.Some? ==> z.offset(t.value) > -DAY;
    hide IsToCome, IsZone;
  }

  lemma FixedIsZone(offset: int)
    requires -DAY < offset < DAY
    ensures IsZone(Fixed(offset)) && NeverADayBack(Fixed(offset))
  {
  }

  /** Where clocks never change, the next occurrence is the first, and at most a day away. */
  lemma NextClockIsLeast(now: int, clock: nat, offset: int)
    requires clock < DAY && -DAY < offset < DAY
    ensures IsToCome(now, Fixed(offset), OnDay(now, clock, Fixed(offset), 0))
            || IsToCome(now, Fixed(offset), OnDay(now, clock, Fixed(offset), 1))
    ensures
      var t := NextClockOccurrence(now, clock, Fixed(offset));
      IsNextClock(now, clock, Fixed(offset), t) && t.value <= now + DAY
  {
    var z := Fixed(offset);
    FixedIsZone(offset);
    var today, tomorrow := OnDay(now, clock, z, 0), OnDay(now, clock, z, 1);
    assert Local(z, now) == now + offset;
    AheadIsToCome(now, z, today);
    AheadIsToCome(now, z, tomorrow);
    FixedNeverComesAgain(now, clock, offset);
    hide ComesAgain, IsNextClock, IsToCome, IsZone, NeverADayBack;
    NextClockExactly(now, clock, z);
  }

  lemma FixedNeverComesAgain(now: int, clock: nat, offset: int)
    requires clock < DAY
    ensures !ComesAgain(now, clock, Fixed(offset))
  {
    var z := Fixed(offset);
    assert Local(z, now) == now + offset;
    assert OnDay(now, clock, z, -1) < Local(z, now);
    assert forall t :: Local(z, t) == t + offset;
  }

  /** Clocks go back from two to one, an hour behind the epoch. */
  const FALL: Zone :=
    Zone((t: int) => if t < 3600 then 3600 else 0, (w: int) => Some(if w < 7200 then w - 3600 else w))

  /** At one, one o'clock comes again in an hour; tomorrow's is found. */
  lemma RepeatedHourIsMissed()
    ensures IsZone(FALL) && NeverADayBack(FALL)
    ensures NextClockOccurrence(0, 3600, FALL) == Some(DAY + 3600)
    ensures TimeOfDay(FALL, 3600) == 3600 && ComesAgain(0, 3600, FALL)
  {
    assert Local(FALL, 0) == 3600 && Local(FALL, 3600) == 3600;
  }

  /** Clocks go forward from one to two, on the day behind the epoch. */
  const SPRING: Zone :=
    Zone((t: int) => if t < DAY + 3600 then 0 else 3600,
         (w: int) => if w < DAY + 3600 then Some(w) else if w < DAY + 7200 then None else Some(w - 3600))

  /** At two, half past one is over for today, and tomorrow has none. */
  lemma SkippedHourIsDropped()
    ensures IsZone(SPRING) && NeverADayBack(SPRING)
    ensures NextClockOccurrence(7200, 5400, SPRING) == None
    ensures !IsToCome(7200, SPRING, OnDay(7200, 5400, SPRING, 1))
  {
    assert OnDay(7200, 5400, SPRING, 1) == DAY + 5400;
  }

  function ClockInstant(c: Clock, now: int, local: Zone): (t: Option<int>) {
    var s := SecondOfDay(c);
    if s.None? then None else NextClockOccurrence(now, s.value, if c.utc then Fixed(0) else local)
  }

  /** The instants of a candidate list that denote one, in order. */
  function UnixInstants(unix: seq<int>): (r: seq<Option<int>>) {
    seq(|unix|, i requires 0 <= i < |unix| => Some(unix[i]))
  }

  function ClockInstants(clocks: seq<Clock>, now: int, local: Zone): (r: seq<Option<int>>)
    ensures |r| == |clocks| && forall i :: 0 <= i < |r| ==> r[i] == ClockInstant(clocks[i], now, local)
  {
    seq(|clocks|, i requires 0 <= i < |clocks| => ClockInstant(clocks[i], now, local))
  }

  function HintInstant(hint: Option<nat>, now: int): (r: seq<Option<int>>) {
    if hint.None? then [] else [Some(Wrap64(now + Wrap64(hint.value)))]
  }

  /** All candidates in order of trust. */
  function Ranked(c: Candidates, now: int, hint: Option<nat>, local: Zone): (r: seq<Option<int>>) {
    UnixInstants(c.unix) + c.iso + HintInstant(hint, now) + ClockInstants(c.clocks, now, local)
  }

  predicate Good(t: Option<int>, now: int) {
    t.Some? && Plausible(t.value, now)
  }

  /** `r` is the first plausible candidate of the list. */
  ghost predicate IsFirstGood(r: Option<int>, ts: seq<Option<int>>, now: int) {
    match r
    case None => forall i :: 0 <= i < |ts| ==> !Good(ts[i], now)
    case Some(t) => exists i :: 0 <= i < |ts| && ts[i] == r && Good(r, now)
                                && forall j :: 0 <= j < i ==> !Good(ts[j], now)
  }

  lemma FirstGoodOfConcat(r: Option<int>, xs: seq<Option<int>>, ys: seq<Option<int>>, now: int)
    requires IsFirstGood(None, xs, now) && IsFirstGood(r, ys, now)
    ensures IsFirstGood(r, xs + ys, now)
  {
    if r.Some? {
      var i :| 0 <= i < |ys| && ys[i] == r && forall j :: 0 <= j < i ==> !Good(ys[j], now);
      assert (xs + ys)[|xs| + i] == r;
    }
  }

  lemma FirstGoodOfPrefix(r: Option<int>, xs: seq<Option<int>>, ys: seq<Option<int>>, now: int)
    requires r.Some? && IsFirstGood(r, xs, now)
    ensures IsFirstGood(r, xs + ys, now)
  {
    var i :| 0 <= i < |xs| && xs[i] == r && forall j :: 0 <= j < i ==> !Good(xs[j], now);
    assert (xs + ys)[i] == r;
  }

  /** A list has only one first plausible candidate. */
  lemma FirstGoodIsUnique(r: Option<int>, q: Option<int>, ts: seq<Option<int>>, now: int)
    requires IsFirstGood(r, ts, now) && IsFirstGood(q, ts, now)
    ensures r == q
  {
    if r.Some? && q.Some? {
      var i :| 0 <= i < |ts| && ts[i] == r && forall j :: 0 <= j < i ==> !Good(ts[j], now);
      var k :| 0 <= k < |ts| && ts[k] == q && forall j :: 0 <= j < k ==> !Good(ts[j], now);
      assert !(i < k) && !(k < i);
    }
  }

  method FirstGood(ts: seq<Option<int>>, now: int) returns (r: Option<int>)
    ensures IsFirstGood(r, ts, now)
  {
    for i := 0 to |ts|
      invariant forall j :: 0 <= j < i ==> !Good(ts[j], now)
    {
      if Good(ts[i], now) {
        return ts[i];
      }
    }
    r := None;
  }

  lemma NoClockIsNotGood(c: Clock, now: int, local: Zone)
    requires SecondOfDay(c).None?
    ensures !Good(ClockInstant(c, now, local), now)
  {
  }

  lemma InstantOf(c: Clock, now: int, local: Zone, second: nat)
    requires SecondOfDay(c) == Some(second)
    ensures ClockInstant(c, now, local) == NextClockOccurrence(now, second, if c.utc then Fixed(0) else local)
  {
    hide NextClockOccurrence, SecondOfDay;
  }

  /** The clock times of a text, tried in order. */
  method FirstClock(clocks: seq<Clock>, now: int, local: Zone) returns (r: Option<int>)
    ensures IsFirstGood(r, ClockInstants(clocks, now, local), now)
  {
    hide NextClockOccurrence, ClockInstant, Fixed, Local, Plausible;
    ghost var all := ClockInstants(clocks, now, local);
    for i := 0 to |clocks|
      invariant forall j :: 0 <= j < i ==> !Good(all[j], now)
    {
      var c := clocks[i];
      if c.minute.None? && c.meridiem.None? {
        NoClockIsNotGood(c, now, local);
        continue;
      }
      var hour := c.hour;
      var minute := if c.minute.Some? then c.minute.value else 0;
      if c.meridiem == Some(Pm) && hour < 12 {
        hour := hour + 12;
      } else if c.meridiem == Some(Am) && hour == 12 {
        hour := 0;
      }
      if hour >= 24 || minute >= 60 {
        NoClockIsNotGood(c, now, local);
        continue;
      }
      var next := NextClockOccurrence(now, hour * 3600 + minute * 60, if c.utc then Fixed(0) else local);
      InstantOf(c, now, local, hour * 3600 + minute * 60);
      if Good(next, now) {
        return next;
      }
    }
    r := None;
  }

  /** The reset time of a text: the most trusted plausible candidate. */
  method ParseResetAt(c: Candidates, now: int, hint: Option<nat>, local: Zone) returns (r: Option<int>)
    ensures IsFirstGood(r, Ranked(c, now, hint, local), now)
  {
    var unix, hinted := UnixInstants(c.unix), HintInstant(hint, now);
    ghost var clocks := ClockInstants(c.clocks, now, local);
    r := FirstGood(unix, now);
    if r.Some? {
      FirstGoodOfPrefix(r, unix, c.iso, now);
      FirstGoodOfPrefix(r, unix + c.iso, hinted, now);
      FirstGoodOfPrefix(r, unix + c.iso + hinted, clocks, now);
      return;
    }
    r := FirstGood(c.iso, now);
    FirstGoodOfConcat(r, unix, c.iso, now);
    if r.Some? {
      FirstGoodOfPrefix(r, unix + c.iso, hinted, now);
      FirstGoodOfPrefix(r, unix + c.iso + hinted, clocks, now);
      return;
    }
    r := FirstGood(hinted, now);
    FirstGoodOfConcat(r, unix + c.iso, hinted, now);
    if r.Some? {
      FirstGoodOfPrefix(r, unix + c.iso + hinted, clocks, now);
      return;
    }
    r := FirstClock(c.clocks, now, local);
    FirstGoodOfConcat(r, unix + c.iso + hinted, clocks, now);
  }

  /** A reset time parsed from any text lies behind now and at most eight days away. */
  lemma ResetIsPlausible(r: Option<int>, c: Candidates, now: int, hint: Option<nat>, local: Zone)
    requires IsFirstGood(r, Ranked(c, now, hint, local), now)
    ensures r.Some? ==> now < r.value <= now + MAX_UNAVAILABLE_SECS
  {
  }

  /** A text's clock time is to come today or tomorrow, in the zone it is read in. */
  ghost predicate IsToComeIn(c: Clock, now: int, local: Zone)
    requires SecondOfDay(c).Some?
  {
    var z, clock := if c.utc then Fixed(0) else local, SecondOfDay(c).value;
    IsToCome(now, z, OnDay(now, clock, z, 0)) || IsToCome(now, z, OnDay(now, clock, z, 1))
  }

  /** Each clock time is among the candidates. */
  lemma ClockIsRanked(c: Candidates, now: int, hint: Option<nat>, local: Zone, k: nat)
    requires k < |c.clocks|
    ensures
      var ts, i := Ranked(c, now, hint, local), |UnixInstants(c.unix) + c.iso + HintInstant(hint, now)| + k;
      i < |ts| && ts[i] == ClockInstant(c.clocks[k], now, local)
  {
    hide UnixInstants, HintInstant, ClockInstant;
    var front, clocks := UnixInstants(c.unix) + c.iso + HintInstant(hint, now), ClockInstants(c.clocks, now, local);
    assert (front + clocks)[|front| + k] == clocks[k];
  }

  lemma SomeIsGood(r: Option<int>, ts: seq<Option<int>>, now: int, i: nat)
    requires IsFirstGood(r, ts, now) && i < |ts| && Good(ts[i], now)
    ensures r.Some?
  {
  }

  lemma ClockIsGood(c: Clock, now: int, local: Zone)
    requires IsZone(local) && SecondOfDay(c).Some?
    ensures Good(ClockInstant(c, now, local), now) <==> IsToComeIn(c, now, local)
    ensures c.utc ==> IsToComeIn(c, now, local)
  {
    hide IsZone, IsToCome, NextClockOccurrence, SecondOfDay;
    FixedIsZone(0);
    NextClockIsLeast(now, SecondOfDay(c).value, 0);
    FoundIfToCome(now, SecondOfDay(c).value, if c.utc then Fixed(0) else local);
  }

  /**
   * A clock time that is one is dropped exactly when it is not to come today
   * or tomorrow, which in UTC cannot be; with any other, there is a reset time.
   */
  lemma ClockTimeIsDroppedExactly(r: Option<int>, c: Candidates, now: int, hint: Option<nat>, local: Zone, k: nat)
    requires IsZone(local) && IsFirstGood(r, Ranked(c, now, hint, local), now)
    requires k < |c.clocks| && SecondOfDay(c.clocks[k]).Some?
    ensures Good(ClockInstant(c.clocks[k], now, local), now) <==> IsToComeIn(c.clocks[k], now, local)
    ensures IsToComeIn(c.clocks[k], now, local) ==> r.Some?
    ensures c.clocks[k].utc ==> IsToComeIn(c.clocks[k], now, local)
  {
    hide IsZone, ClockInstant, IsToComeIn, Ranked, IsFirstGood, Good, SecondOfDay;
    ClockIsGood(c.clocks[k], now, local);
    ClockIsRanked(c, now, hint, local, k);
    if IsToComeIn(c.clocks[k], now, local) {
      var i := |UnixInstants(c.unix) + c.iso + HintInstant(hint, now)| + k;
      SomeIsGood(r, Ranked(c, now, hint, local), now, i);
    }
  }
}
