/** What printed durations come to, with every name and number written out. */
module DurationValues {
  import opened Wrappers
  import opened ParseDuration
  import opened DurationText

  // ---- Names ----

  const MILLISECONDS: seq<string> := ["ms", "millisecond", "milliseconds"]
  const SECONDS: seq<string> := ["s", "sec", "secs", "second", "seconds"]
  const MINUTES: seq<string> := ["m", "min", "mins", "minute", "minutes"]
  const HOURS: seq<string> := ["h", "hr", "hrs", "hour", "hours"]
  const DAYS: seq<string> := ["d", "day", "days"]
  const WEEKS: seq<string> := ["w", "week", "weeks"]

  /** How many seconds a name stands for. */
  function Factor(name: string): (k: Option<real>) {
    if name in MILLISECONDS then Some(0.001)
    else if name in SECONDS then Some(1.0)
    else if name in MINUTES then Some(60.0)
    else if name in HOURS then Some(3600.0)
    else if name in DAYS then Some(86400.0)
    else if name in WEEKS then Some(604800.0)
    else None
  }

  function Named(names: seq<string>, u: Unit): (t: Units)
    ensures |t| == |names| && forall i :: 0 <= i < |t| ==> t[i] == (names[i], u)
  {
    seq(|names|, i requires 0 <= i < |names| => (names[i], u))
  }

  lemma {:induction false} LookupConcat(s: Units, t: Units, name: string)
    ensures Lookup(s + t, name) == if Lookup(s, name).Some? then Lookup(s, name) else Lookup(t, name)
  {
    if s == [] {
      assert s + t == t;
    } else {
      assert (s + t)[1..] == s[1..] + t;
      LookupConcat(s[1..], t, name);
    }
  }

  lemma {:induction false} LookupNamed(names: seq<string>, u: Unit, name: string)
    ensures Lookup(Named(names, u), name) == if name in names then Some(u) else None
  {
    if names != [] {
      assert Named(names, u)[1..] == Named(names[1..], u);
      LookupNamed(names[1..], u, name);
    }
  }

  lemma ShortUnits()
    ensures UNIT_NAMES[..13]
         == Named(MILLISECONDS, Millisecond) + Named(SECONDS, Second) + Named(MINUTES, Minute)
  {
  }

  lemma LongUnits()
    ensures UNIT_NAMES[13..] == Named(HOURS, Hour) + Named(DAYS, Day) + Named(WEEKS, Week)
  {
  }

  lemma LookupThree(a: Units, b: Units, c: Units, name: string)
    ensures Lookup(a + b + c, name)
         == if Lookup(a, name).Some? then Lookup(a, name)
            else if Lookup(b, name).Some? then Lookup(b, name) else Lookup(c, name)
  {
    hide Lookup;
    LookupConcat(a + b, c, name);
    LookupConcat(a, b, name);
  }

  lemma UnitOf(name: string)
    ensures Lookup(UNIT_NAMES, name)
         == if name in MILLISECONDS then Some(Millisecond)
            else if name in SECONDS then Some(Second)
            else if name in MINUTES then Some(Minute)
            else if name in HOURS then Some(Hour)
            else if name in DAYS then Some(Day)
            else if name in WEEKS then Some(Week)
            else None
  {
    hide Lookup;
    ShortUnits();
    LongUnits();
    LookupThree(Named(MILLISECONDS, Millisecond), Named(SECONDS, Second), Named(MINUTES, Minute), name);
    LookupThree(Named(HOURS, Hour), Named(DAYS, Day), Named(WEEKS, Week), name);
    LookupConcat(UNIT_NAMES[..13], UNIT_NAMES[13..], name);
    assert UNIT_NAMES[..13] + UNIT_NAMES[13..] == UNIT_NAMES;
    LookupNamed(MILLISECONDS, Millisecond, name);
    LookupNamed(SECONDS, Second, name);
    LookupNamed(MINUTES, Minute, name);
    LookupNamed(HOURS, Hour, name);
    LookupNamed(DAYS, Day, name);
    LookupNamed(WEEKS, Week, name);
  }

  /** The program knows exactly these names, each as so many seconds. */
  lemma NamesAreWorth(name: string, count: real)
    ensures
      var u := Lookup(UNIT_NAMES, name);
      if Factor(name).None? then u.None? else u.Some? && u.value.Seconds(count) == count * Factor(name).value
  {
    hide Lookup;
    UnitOf(name);
  }

  // ---- Characters ----

  /** The characters each class has, by their codes. */
  lemma ClassesInAscii(c: char)
    ensures Digit.Has(c) <==> 48 <= c as int <= 57
    ensures Number.Has(c) <==> 48 <= c as int <= 57 || c as int == 46
    ensures Space.Has(c) <==> c as int == 32
    ensures Alpha.Has(c) <==> 65 <= c as int <= 90 || 97 <= c as int <= 122
    ensures Separator.Has(c) <==> c as int in {32, 44}
    ensures Lead.Has(c) <==> c as int in {32, 34, 39, 58, 61}
  {
  }

  /** A continuation byte is one whose leading bits are 10. */
  lemma ContinuationExactly(c: char)
    ensures IsContinuation(c) <==> c as int / 64 == 2
  {
  }

  lemma AndExactly(s: string, i: nat)
    ensures AndAt(s, i) <==> i + 4 <= |s| && s[i..i + 4] == "and "
  {
    if i + 4 <= |s| && s[i..i + 4] == "and " {
      AndCut(s, i);
    }
    if AndAt(s, i) {
      assert s[i..i + 4] == [s[i], s[i + 1], s[i + 2], s[i + 3]];
    }
  }

  // ---- Numerals ----

  ghost predicate AreDigits(s: string) {
    forall i :: 0 <= i < |s| ==> '0' <= s[i] <= '9'
  }

  /** The number that digits denote in decimal. */
  function Decimal(s: string): (n: nat)
    requires AreDigits(s)
  {
    if s == "" then 0 else 10 * Decimal(s[..|s| - 1]) + (s[|s| - 1] as int - 48)
  }

  function Power10(k: nat): (p: real)
    ensures p >= 1.0
  {
    if k == 0 then 1.0 else 10.0 * Power10(k - 1)
  }

  lemma {:induction false} WholeIsDecimal(s: string, i: nat, w: string)
    requires i + |w| <= |s| && s[i..i + |w|] == w && AreDigits(w)
    ensures WholeValue(s, i, i + |w|) == Decimal(w)
  {
    if w != "" {
      var n := |w| - 1;
      assert w[n] == s[i..i + |w|][n] == s[i + n];
      assert s[i..i + n] == s[i..i + |w|][..n] == w[..n];
      WholeIsDecimal(s, i, w[..n]);
    }
  }

  /** So many places further to the left. */
  function Scaled(x: real, k: nat): real {
    x * Power10(k)
  }

  lemma ScaledOnce(x: real, k: nat)
    ensures Scaled(x, k + 1) == 10.0 * Scaled(x, k) && Scaled(x / 10.0, k + 1) == Scaled(x, k) && Scaled(x, 0) == x
  {
    var p := Power10(k);
    assert Power10(k + 1) == 10.0 * p;
    hide Power10;
    TimesTen(x, p);
    TimesTen(x / 10.0, p);
    assert Power10(0) == 1.0 by { PowerOfNothing(); }
  }

  lemma TimesTen(d: real, p: real)
    ensures d * (10.0 * p) == 10.0 * (d * p) == (10.0 * d) * p
  {
  }

  lemma PowerOfNothing()
    ensures Power10(0) == 1.0 && Power10(1) == 10.0
  {
  }

  lemma ScaledSum(x: real, y: real, k: nat)
    ensures Scaled(x, k) + Scaled(y, k) == Scaled(x + y, k)
  {
  }

  lemma {:induction false} WholeCons(s: string, i: nat, j: nat)
    requires i < j <= |s|
    ensures WholeValue(s, i, j) as real == Scaled(DigitValue(s[i]) as real, j - i - 1) + WholeValue(s, i + 1, j) as real
    decreases j
  {
    hide DigitValue, Scaled;
    if i + 1 < j {
      WholeCons(s, i, j - 1);
      ScaledOnce(DigitValue(s[i]) as real, j - i - 2);
    } else {
      ScaledOnce(DigitValue(s[i]) as real, 0);
    }
  }

  lemma {:induction false} FractionIsWhole(s: string, i: nat, j: nat)
    requires i <= j <= |s|
    ensures Scaled(FractionValue(s, i, j), j - i) == WholeValue(s, i, j) as real
    decreases j - i
  {
    hide DigitValue, Scaled, WholeValue;
    if i < j {
      WholeCons(s, i, j);
      FractionIsWhole(s, i + 1, j);
      var d, f := DigitValue(s[i]) as real, FractionValue(s, i + 1, j);
      ScaledOnce(d + f, j - i - 1);
      ScaledSum(d, f, j - i - 1);
    } else {
      ScaledOnce(0.0, 0);
      NothingIsZero(s, i);
    }
  }

  lemma NothingIsZero(s: string, i: nat)
    requires i <= |s|
    ensures WholeValue(s, i, i) == 0
  {
  }

  lemma ScaledBack(f: real, k: nat, m: real)
    requires Scaled(f, k) == m
    ensures f == m / Power10(k)
  {
    hide Power10;
    assert f * Power10(k) / Power10(k) == f;
  }

  /** Nothing but decimal points. */
  ghost predicate ArePoints(s: string) {
    forall i :: 0 <= i < |s| ==> s[i] == '.'
  }

  lemma {:induction false} TrimsTo(s: string, i: nat, j: nat, t: nat)
    requires i <= t <= j <= |s| && ArePoints(s[t..j]) && (t > i ==> s[t - 1] != '.')
    ensures TrimDots(s, i, j) == t
    decreases j - t
  {
    if t < j {
      assert s[j - 1] == s[t..j][j - 1 - t];
      assert s[t..j - 1] == s[t..j][..j - 1 - t];
      TrimsTo(s, i, j - 1, t);
    }
  }

  /** Digits are worth their number, whatever points stand behind them; points alone are worth nothing. */
  lemma WholeNumeral(w: string, points: string)
    requires AreDigits(w) && ArePoints(points)
    ensures NumeralValue(w + points) == if w == "" then None else Some(Decimal(w) as real)
  {
    var s, t := w + points, |w|;
    assert s[t..|s|] == points && s[0..t] == w;
    TrimsTo(s, 0, |s|, t);
    SpanEndIs(s, 0, Digit, t);
    WholeIsDecimal(s, 0, w);
  }

  lemma PointedChars(s: string, w: string, f: string, rest: string)
    requires s == w + "." + f + rest
    ensures
      var d, t := |w|, |w| + 1 + |f|;
      && t <= |s| && s[d] == '.' && (forall i :: 0 <= i < d ==> s[i] == w[i])
      && (forall i :: d + 1 <= i < t ==> s[i] == f[i - d - 1]) && (t < |s| ==> rest != "" && s[t] == rest[0])
  {
  }

  lemma PointedSpans(s: string, w: string, f: string, rest: string)
    requires AreDigits(w) && AreDigits(f) && s == w + "." + f + rest && (rest != "" ==> !Digit.Has(rest[0]))
    ensures SpanEnd(s, 0, Digit) == |w| && SpanEnd(s, |w| + 1, Digit) == |w| + 1 + |f|
  {
    PointedChars(s, w, f, rest);
    hide SpanEnd;
    SpanEndIs(s, 0, Digit, |w|);
    SpanEndIs(s, |w| + 1, Digit, |w| + 1 + |f|);
  }

  lemma PointedParts(s: string, w: string, f: string, rest: string)
    requires s == w + "." + f + rest
    ensures
      var d, t := |w|, |w| + 1 + |f|;
      && t <= |s| && s[0..0 + d] == w && s[d + 1..d + 1 + |f|] == f && s[t..|s|] == rest
      && (f != "" ==> s[t - 1] == f[|f| - 1])
  {
  }

  lemma PointedValue(s: string, d: nat, t: nat)
    requires d < t <= |s| && TrimDots(s, 0, |s|) == t
    requires SpanEnd(s, 0, Digit) == d && SpanEnd(s, d + 1, Digit) == t
    ensures NumeralValue(s) == Some(WholeValue(s, 0, d) as real + FractionValue(s, d + 1, t))
  {
  }

  /** Digits behind the point count by their places. */
  lemma PointedNumeral(w: string, f: string, points: string)
    requires AreDigits(w) && AreDigits(f) && f != "" && ArePoints(points)
    ensures NumeralValue(w + "." + f + points) == Some(Decimal(w) as real + Decimal(f) as real / Power10(|f|))
  {
    hide *;
    var s, d, t := w + "." + f + points, |w|, |w| + 1 + |f|;
    NoDigitFirst(points);
    PointedSpans(s, w, f, points);
    PointedParts(s, w, f, points);
    LastIsNoPoint(f);
    TrimsTo(s, 0, |s|, t);
    WholeIsDecimal(s, 0, w);
    WholeIsDecimal(s, d + 1, f);
    FractionIsWhole(s, d + 1, t);
    ScaledBack(FractionValue(s, d + 1, t), |f|, Decimal(f) as real);
    PointedValue(s, d, t);
  }

  lemma NoDigitFirst(points: string)
    requires ArePoints(points)
    ensures points != "" ==> !Digit.Has(points[0])
  {
  }

  lemma LastIsNoPoint(f: string)
    requires AreDigits(f) && f != ""
    ensures f[|f| - 1] != '.'
  {
  }

  /** With a second point in front of a digit it is no number. */
  lemma TwoPointsAreNoNumeral(w: string, f: string, g: string, digit: char, points: string)
    requires AreDigits(w) && AreDigits(f) && AllOf(g, Number) && '0' <= digit <= '9' && ArePoints(points)
    ensures NumeralValue(w + "." + f + ("." + g + [digit] + points)) == None
  {
    var rest := "." + g + [digit] + points;
    var s, t := w + "." + f + rest, |w| + |f| + |g| + 3;
    PointedSpans(s, w, f, rest);
    assert s[t..|s|] == points && s[t - 1] == digit;
    TrimsTo(s, 0, |s|, t);
  }

  // ---- Printed counts ----

  lemma {:induction false} PrintedIsDecimal(n: nat)
    ensures AreDigits(PrintNat(n)) && Decimal(PrintNat(n)) == n && (n > 0 ==> PrintNat(n)[0] != '0')
  {
    var s := PrintNat(n);
    if n >= 10 {
      PrintedIsDecimal(n / 10);
      assert s[..|s| - 1] == PrintNat(n / 10);
    } else {
      assert s[..|s| - 1] == "";
    }
  }

  // ---- Whole seconds ----

  /** `x` seconds rounded up: at least one, and at most what fits into 64 bits. */
  ghost predicate IsWait(r: Option<nat>, x: real) {
    && r.Some? && 1 <= r.value <= 18_446_744_073_709_551_615
    && (r.value as real >= x || r.value == 18_446_744_073_709_551_615)
    && (r.value > 1 ==> r.value as real - 1.0 < x)
  }

  lemma SecondsAreWait(x: real)
    requires x >= 0.0
    ensures IsWait(Some(Seconds(x)), x)
  {
  }

  // ---- Printed durations ----

  /** Digits, with or without places, and any points behind them. */
  ghost predicate IsWorth(s: string, x: real) {
    exists w: string, f: string, points: string :: IsWorthBy(s, x, w, f, points)
  }

  ghost predicate IsWorthBy(s: string, x: real, w: string, f: string, points: string) {
    && w != "" && AreDigits(w) && AreDigits(f) && ArePoints(points)
    && if f == "" then s == w + points && x == Decimal(w) as real
       else s == w + "." + f + points && x == Decimal(w) as real + Decimal(f) as real / Power10(|f|)
  }

  lemma WorthIsValue(s: string, x: real)
    requires IsWorth(s, x)
    ensures NumeralValue(s) == Some(x) && IsNumeral(s)
  {
    var w, f, points :| IsWorthBy(s, x, w, f, points);
    assert s[0] == w[0];
    if f == "" {
      WholeNumeral(w, points);
    } else {
      PointedNumeral(w, f, points);
    }
    hide NumeralValue, Decimal, Power10;
  }

  /** Counts of known units, `xs` being what their numerals are worth. */
  ghost predicate AreWorth(cs: seq<Component>, xs: seq<real>) {
    |xs| == |cs| && forall i :: 0 <= i < |cs| ==> IsWorthOf(cs[i], xs[i])
  }

  ghost predicate IsWorthOf(c: Component, x: real) {
    && IsWorth(c.numeral, x) && Factor(c.unit).Some?
    && (forall i :: 0 <= i < |c.gap| ==> c.gap[i] in {' ', ','}) && (c.hasAnd ==> c.gap != "")
  }

  ghost function Total(cs: seq<Component>, xs: seq<real>): (t: real)
    requires AreWorth(cs, xs)
  {
    if cs == [] then 0.0 else xs[0] * Factor(cs[0].unit).value + Total(cs[1..], xs[1..])
  }

  lemma SeparatorsAre(gap: string)
    ensures (forall i :: 0 <= i < |gap| ==> gap[i] in {' ', ','}) <==> AllOf(gap, Separator)
  {
    forall i | 0 <= i < |gap| ensures Separator.Has(gap[i]) <==> gap[i] in {' ', ','} {
    }
  }

  lemma WorthHas(c: Component, x: real)
    requires IsWorthOf(c, x)
    ensures IsWorth(c.numeral, x) && Factor(c.unit).Some?
    ensures AllOf(c.gap, Separator) && (c.hasAnd ==> c.gap != "")
  {
    SeparatorsAre(c.gap);
    hide AllOf, IsWorth, Factor;
  }

  lemma WorthIsComponent(c: Component, x: real)
    requires IsWorthOf(c, x)
    ensures IsComponent(UNIT_NAMES, c) && Value(UNIT_NAMES, c) == x * Factor(c.unit).value
  {
    hide *;
    WorthHas(c, x);
    WorthIsValue(c.numeral, x);
    NamesAreWorth(c.unit, x);
    KnownUnitsAreUnits(c.unit);
    ComponentOf(c, x, Factor(c.unit).value);
  }

  lemma ComponentOf(c: Component, x: real, k: real)
    requires IsNumeral(c.numeral) && NumeralValue(c.numeral) == Some(x) && IsUnit(UNIT_NAMES, c.unit)
    requires AllOf(c.gap, Separator) && (c.hasAnd ==> c.gap != "")
    requires Lookup(UNIT_NAMES, c.unit).Some? && Lookup(UNIT_NAMES, c.unit).value.Seconds(x) == x * k
    ensures IsComponent(UNIT_NAMES, c) && Value(UNIT_NAMES, c) == x * k
  {
    hide IsNumeral, NumeralValue, IsUnit, Lookup, AllOf;
  }

  lemma {:induction false} TotalIsSum(cs: seq<Component>, xs: seq<real>)
    requires AreWorth(cs, xs)
    ensures AreComponents(UNIT_NAMES, cs) && Sum(UNIT_NAMES, cs) == Total(cs, xs) && Total(cs, xs) >= 0.0
  {
    hide IsComponent, Value, IsWorthOf;
    if cs != [] {
      WorthIsComponent(cs[0], xs[0]);
      ValueIsPositive(cs[0]);
      TotalIsSum(cs[1..], xs[1..]);
    }
  }

  lemma ValueIsPositive(c: Component)
    requires IsComponent(UNIT_NAMES, c)
    ensures Value(UNIT_NAMES, c) >= 0.0
  {
  }

  /** Any list of counts is worth the exact sum, each name by the table. */
  lemma DurationIsTheSum(lead: string, cs: seq<Component>, xs: seq<real>, rest: string)
    requires AllOf(lead, Lead) && cs != [] && AreWorth(cs, xs) && LastPlain(cs) && Ends(rest)
    ensures IsWait(Duration(UNIT_NAMES, lead + PrintAll(cs) + rest), Total(cs, xs))
  {
    hide *;
    TotalIsSum(cs, xs);
    ParseUndoesPrint(UNIT_NAMES, lead, cs, rest);
    SecondsAreWait(Total(cs, xs));
  }

  /** A count of each of the units. */
  lemma CountIsWorth(n: nat, name: string, worth: real)
    requires Factor(name).Some? && worth == n as real * Factor(name).value
    ensures IsWait(Duration(UNIT_NAMES, PrintNat(n) + name), worth)
  {
    hide *;
    var c := Component(PrintNat(n), 0, name, "", false);
    CountIsWorthOf(n, c);
    OneCount(c, n as real, worth);
    DurationIsTheSum("", [c], [n as real], "");
  }

  lemma CountIsWorthOf(n: nat, c: Component)
    requires c.numeral == PrintNat(n) && Factor(c.unit).Some? && c.gap == "" && !c.hasAnd
    ensures IsWorthOf(c, n as real)
  {
    PrintedIsDecimal(n);
    assert PrintNat(n) + "" == PrintNat(n);
    hide Decimal;
    assert IsWorthBy(PrintNat(n), n as real, PrintNat(n), "", "");
  }

  lemma OneCount(c: Component, x: real, worth: real)
    requires IsWorthOf(c, x) && worth == x * Factor(c.unit).value && c.spaces == 0 && c.gap == "" && !c.hasAnd
    ensures AllOf("", Lead) && AreWorth([c], [x]) && LastPlain([c]) && Ends("")
    ensures Total([c], [x]) == worth
    ensures "" + PrintAll([c]) + "" == c.numeral + c.unit
  {
    hide IsWorthOf;
    assert Print(c) == c.numeral + c.unit;
  }

  // ---- Where a list of counts breaks off ----

  /** Components in front of another number are read one by one. */
  lemma {:induction false} ReadFront(s: string, i: nat, cs: seq<Component>, rest: string, total: real, any: bool)
    requires AreComponents(UNIT_NAMES, cs) && i <= |s| && s[i..] == PrintAll(cs) + rest && total >= 0.0
    requires rest != "" && Digit.Has(rest[0])
    ensures
      var e := i + |PrintAll(cs)|;
      && e <= |s| && s[e..] == rest && Sum(UNIT_NAMES, cs) >= 0.0
      && Components(UNIT_NAMES, s, i, total, any)
         == Components(UNIT_NAMES, s, e, total + Sum(UNIT_NAMES, cs), any || cs != [])
    decreases |cs|
  {
    hide NextStep, Value, Print, IsComponent, Components;
    if cs == [] {
      assert "" + rest == rest;
    } else {
      var c, more := cs[0], cs[1..];
      ConcatAssociative(Print(c), PrintAll(more), rest);
      StartsWithDigit(more, rest);
      ReadMiddle(UNIT_NAMES, s, i, c, PrintAll(more) + rest, any);
      ValueIsPositive(c);
      ComponentsStep(UNIT_NAMES, s, i, total, any, NextStep(UNIT_NAMES, s, i, any));
      ReadFront(s, i + |Print(c)|, more, rest, total + Value(UNIT_NAMES, c), true);
    }
  }

  lemma StartsWithDigit(cs: seq<Component>, rest: string)
    requires AreComponents(UNIT_NAMES, cs) && rest != "" && Digit.Has(rest[0])
    ensures PrintAll(cs) + rest != "" && Digit.Has((PrintAll(cs) + rest)[0])
  {
    if cs != [] {
      FirstDigit(UNIT_NAMES, cs, rest);
    }
  }

  /** What may stand behind a name, if there is one. */
  ghost predicate EndsName(name: string, rest: string) {
    rest != "" ==> !Alpha.Has(rest[0]) && (name == "" ==> !Number.Has(rest[0]) && !Space.Has(rest[0]))
  }

  /** A numeral and a name, either of which is no good; `first` in front of any count. */
  ghost predicate IsBroken(numeral: string, spaces: nat, name: string, rest: string, first: bool) {
    && numeral != "" && Digit.Has(numeral[0]) && AllOf(numeral, Number) && AllOf(name, Alpha)
    && EndsName(name, rest)
    && (NumeralValue(numeral).None? || (Factor(name).None? && (name == "" ==> !first)))
  }

  lemma BrokenParts(t: string, numeral: string, spaces: nat, name: string, rest: string)
    requires t == numeral + Blanks(spaces) + name + rest
    ensures
      var n, u, e := |numeral|, |numeral| + spaces, |numeral| + spaces + |name|;
      && e <= |t| && t[0..n] == numeral && t[u..e] == name
      && (forall x :: 0 <= x < n ==> t[x] == numeral[x]) && (forall x :: n <= x < u ==> t[x] == ' ')
      && (forall x :: u <= x < e ==> t[x] == name[x - u]) && (e < |t| ==> rest != "" && t[e] == rest[0])
  {
  }

  lemma BrokenNumber(t: string, numeral: string, spaces: nat, name: string, rest: string)
    requires t == numeral + Blanks(spaces) + name + rest
    requires AllOf(numeral, Number) && AllOf(name, Alpha) && EndsName(name, rest)
    ensures SpanEnd(t, 0, Number) == |numeral|
  {
    BrokenParts(t, numeral, spaces, name, rest);
    SpanEndIs(t, 0, Number, |numeral|);
  }

  lemma BrokenSpace(t: string, numeral: string, spaces: nat, name: string, rest: string)
    requires t == numeral + Blanks(spaces) + name + rest
    requires AllOf(name, Alpha) && EndsName(name, rest)
    ensures SpanEnd(t, |numeral|, Space) == |numeral| + spaces
  {
    BrokenParts(t, numeral, spaces, name, rest);
    SpanEndIs(t, |numeral|, Space, |numeral| + spaces);
  }

  lemma BrokenName(t: string, numeral: string, spaces: nat, name: string, rest: string)
    requires t == numeral + Blanks(spaces) + name + rest
    requires AllOf(name, Alpha) && EndsName(name, rest)
    ensures SpanEnd(t, |numeral| + spaces, Alpha) == |numeral| + spaces + |name|
  {
    BrokenParts(t, numeral, spaces, name, rest);
    SpanEndIs(t, |numeral| + spaces, Alpha, |numeral| + spaces + |name|);
  }

  lemma ShiftParts(s: string, i: nat, t: string, n: nat, u: nat, e: nat)
    requires i <= |s| && s[i..] == t && n <= u <= e <= |t|
    requires SpanEnd(t, 0, Number) == n && SpanEnd(t, n, Space) == u && SpanEnd(t, u, Alpha) == e
    ensures SpanEnd(s, i, Number) == i + n && SpanEnd(s, i + n, Space) == i + u && SpanEnd(s, i + u, Alpha) == i + e
    ensures s[i..i + n] == t[0..n] && s[i + u..i + e] == t[u..e]
  {
    SpanShift(s, i, 0, Number);
    SpanShift(s, i, n, Space);
    SpanShift(s, i, u, Alpha);
    hide SpanEnd;
    SliceShift(s, i, 0, n);
    SliceShift(s, i, u, e);
  }

  lemma SliceShift(s: string, i: nat, a: nat, b: nat)
    requires i <= |s| && a <= b <= |s| - i
    ensures s[i + a..i + b] == s[i..][a..b]
  {
  }

  lemma StepStops(s: string, i: nat, n: nat, u: nat, e: nat, any: bool)
    requires i < n <= u <= e <= |s|
    requires SpanEnd(s, i, Number) == n && SpanEnd(s, n, Space) == u && SpanEnd(s, u, Alpha) == e
    requires NumeralValue(s[i..n]).None? || UnitAt(UNIT_NAMES, s[u..e], any).None?
    ensures NextStep(UNIT_NAMES, s, i, any).Stop? || (NextStep(UNIT_NAMES, s, i, any).Reject? && !any)
  {
    hide SpanEnd, NumeralValue, UnitAt, SeparatorsEnd;
  }

  lemma NoUnit(name: string, any: bool)
    requires Factor(name).None? && (name == "" ==> any)
    ensures UnitAt(UNIT_NAMES, name, any).None?
  {
    hide Lookup, Factor;
    NamesAreWorth(name, 0.0);
  }

  lemma BrokenHas(numeral: string, spaces: nat, name: string, rest: string, first: bool)
    requires IsBroken(numeral, spaces, name, rest, first)
    ensures numeral != "" && AllOf(numeral, Number) && AllOf(name, Alpha) && EndsName(name, rest)
    ensures NumeralValue(numeral).None? || (Factor(name).None? && (name == "" ==> !first))
  {
    hide NumeralValue, Factor;
  }

  lemma BrokenStep(s: string, i: nat, numeral: string, spaces: nat, name: string, rest: string, any: bool)
    requires i <= |s| && s[i..] == numeral + Blanks(spaces) + name + rest
    requires IsBroken(numeral, spaces, name, rest, !any)
    ensures NextStep(UNIT_NAMES, s, i, any).Stop? || (NextStep(UNIT_NAMES, s, i, any).Reject? && !any)
  {
    hide *;
    var t, n, u, e := s[i..], |numeral|, |numeral| + spaces, |numeral| + spaces + |name|;
    BrokenHas(numeral, spaces, name, rest, !any);
    BrokenParts(t, numeral, spaces, name, rest);
    BrokenNumber(t, numeral, spaces, name, rest);
    BrokenSpace(t, numeral, spaces, name, rest);
    BrokenName(t, numeral, spaces, name, rest);
    ShiftParts(s, i, t, n, u, e);
    if NumeralValue(numeral).Some? {
      NoUnit(name, any);
    }
    StepStops(s, i, i + n, i + u, i + e, any);
  }

  /** From such a count on, nothing is read; without a count in front of it, there is no duration at all. */
  lemma BrokenCountEndsIt(lead: string, cs: seq<Component>, xs: seq<real>, numeral: string, spaces: nat, name: string,
                          rest: string)
    requires AllOf(lead, Lead) && AreWorth(cs, xs) && IsBroken(numeral, spaces, name, rest, cs == [])
    ensures
      var r := Duration(UNIT_NAMES, lead + (PrintAll(cs) + (numeral + Blanks(spaces) + name + rest)));
      if cs == [] then r.None? else IsWait(r, Total(cs, xs))
  {
    hide *;
    var tail := numeral + Blanks(spaces) + name + rest;
    var s := PrintAll(cs) + tail;
    TotalIsSum(cs, xs);
    BrokenFirst(numeral, spaces, name, rest, cs == []);
    StartsWithDigit(cs, tail);
    BehindLead(UNIT_NAMES, lead, s);
    ReadFront(s, 0, cs, tail, 0.0, false);
    var e, total := 0 + |PrintAll(cs)|, 0.0 + Sum(UNIT_NAMES, cs);
    BrokenStep(s, e, numeral, spaces, name, rest, cs != []);
    ComponentsStep(UNIT_NAMES, s, e, total, cs != [], NextStep(UNIT_NAMES, s, e, cs != []));
    SecondsAreWait(total);
    if cs != [] {
      ResultOf(UNIT_NAMES, lead + s, s, total);
    } else {
      NoResult(Components(UNIT_NAMES, s, 0, 0.0, false));
    }
  }

  lemma NoResult(p: Parse)
    requires p.Rejected? || !p.any
    ensures Result(p) == None
  {
  }

  lemma BrokenFirst(numeral: string, spaces: nat, name: string, rest: string, first: bool)
    requires IsBroken(numeral, spaces, name, rest, first)
    ensures
      var tail := numeral + Blanks(spaces) + name + rest;
      tail != "" && Digit.Has(tail[0])
  {
    hide NumeralValue, Factor;
    assert (numeral + Blanks(spaces) + name + rest)[0] == numeral[0];
  }

  /** Behind the leading punctuation a number must stand. */
  lemma NoNumberNoDuration(lead: string, rest: string)
    requires AllOf(lead, Lead) && (rest != "" ==> !Lead.Has(rest[0]) && !Number.Has(rest[0]))
    ensures Duration(UNIT_NAMES, lead + rest) == None
  {
    var text := lead + rest;
    SpanEndIs(text, 0, Lead, |lead|);
    assert text[|lead|..|text|] == rest;
    SpanEndIs(rest, 0, Number, 0);
  }

  // ---- The examples of the documentation ----

  lemma IsOnlyWait(r: Option<nat>, n: nat, x: real)
    requires IsWait(r, x) && 1 <= n <= 18_446_744_073_709_551_615 && n as real - 1.0 < x <= n as real
    ensures r == Some(n)
  {
  }

  lemma DigitsAre(a: char, b: char)
    requires '0' <= a <= '9' && '0' <= b <= '9'
    ensures AreDigits([a]) && Decimal([a]) == a as int - 48
    ensures AreDigits([a, b]) && Decimal([a, b]) == 10 * (a as int - 48) + (b as int - 48)
  {
    assert [a][..0] == "" && [a, b][..1] == [a];
  }

  lemma OneDigit(a: char)
    requires '0' <= a <= '9'
    ensures IsWorth([a], (a as int - 48) as real)
  {
    DigitsAre(a, a);
    assert [a] + "" == [a];
    assert IsWorthBy([a], (a as int - 48) as real, [a], "", "");
  }

  lemma TwoDigits(a: char, b: char)
    requires '0' <= a <= '9' && '0' <= b <= '9'
    ensures IsWorth([a, b], (10 * (a as int - 48) + (b as int - 48)) as real)
  {
    DigitsAre(a, b);
    assert [a, b] + "" == [a, b];
    assert IsWorthBy([a, b], (10 * (a as int - 48) + (b as int - 48)) as real, [a, b], "", "");
  }

  lemma TextOf(cs: seq<Component>, xs: seq<real>, text: string, worth: real)
    requires cs != [] && AreWorth(cs, xs) && LastPlain(cs) && PrintAll(cs) == text && Total(cs, xs) == worth
    ensures IsWait(Duration(UNIT_NAMES, text), worth)
  {
    hide *;
    NothingEnds();
    DurationIsTheSum("", cs, xs, "");
    assert "" + PrintAll(cs) + "" == text;
  }

  lemma NothingEnds()
    ensures AllOf("", Lead) && Ends("")
  {
  }

  lemma PrintCons(c: Component, cs: seq<Component>, text: string, rest: string)
    requires Print(c) == text && PrintAll(cs) == rest
    ensures PrintAll([c] + cs) == text + rest
  {
    hide Print;
    assert ([c] + cs)[1..] == cs;
  }

  lemma TotalCons(c: Component, cs: seq<Component>, x: real, xs: seq<real>, k: real, total: real)
    requires IsWorthOf(c, x) && Factor(c.unit) == Some(k) && AreWorth(cs, xs) && Total(cs, xs) == total
    ensures AreWorth([c] + cs, [x] + xs) && Total([c] + cs, [x] + xs) == x * k + total
  {
    hide IsWorthOf, Factor;
    assert ([c] + cs)[1..] == cs && ([x] + xs)[1..] == xs;
  }

  /** One more count in front of others. */
  lemma CountCons(c: Component, cs: seq<Component>, x: real, xs: seq<real>, k: real, total: real, text: string,
                  rest: string)
    requires IsWorth(c.numeral, x) && Factor(c.unit) == Some(k) && AreWorth(cs, xs) && Total(cs, xs) == total
    requires c.gap in ["", " ", ", "] && (c.hasAnd ==> c.gap != "")
    requires Print(c) == text && PrintAll(cs) == rest && LastPlain(cs) && (cs == [] ==> c.gap == "")
    ensures AreWorth([c] + cs, [x] + xs) && Total([c] + cs, [x] + xs) == x * k + total
    ensures PrintAll([c] + cs) == text + rest && LastPlain([c] + cs)
  {
    assert IsWorthOf(c, x) by { hide IsWorth, Factor; }
    LastOfCons(c, cs);
    hide *;
    PrintCons(c, cs, text, rest);
    TotalCons(c, cs, x, xs, k, total);
  }

  lemma LastOfCons(c: Component, cs: seq<Component>)
    requires LastPlain(cs) && (cs == [] ==> c.gap == "" && !c.hasAnd)
    ensures LastPlain([c] + cs)
  {
  }

  lemma NoCounts()
    ensures AreWorth([], []) && Total([], []) == 0.0 && PrintAll([]) == "" && LastPlain([])
  {
  }

  lemma PointedWorth()
    ensures IsWorth("26.7", 26.7)
  {
    DigitsAre('2', '6');
    DigitsAre('7', '7');
    assert ['2', '6'] + "." + ['7'] + "" == "26.7";
    PowerOfNothing();
    hide Decimal, Power10;
    assert IsWorthBy("26.7", 26.7, ['2', '6'], ['7'], "");
  }

  lemma PointedExample()
    ensures Duration(UNIT_NAMES, "26.7s") == Some(27)
  {
    var c := Component("26.7", 0, "s", "", false);
    assert Print(c) == "26.7s" && "26.7s" + "" == "26.7s" && Factor("s") == Some(1.0);
    hide *;
    PointedWorth();
    NoCounts();
    CountCons(c, [], 26.7, [], 1.0, 0.0, "26.7s", "");
    TextOf([c] + [], [26.7] + [], "26.7s", 26.7);
    IsOnlyWait(Duration(UNIT_NAMES, "26.7s"), 27, 26.7);
  }

  /** A count of seconds at the end. */
  lemma EndsInSeconds(c: Component, x: real)
    requires IsWorth(c.numeral, x) && c.unit == "s" && c.spaces == 0 && c.gap == "" && !c.hasAnd
    ensures AreWorth([c] + [], [x] + []) && Total([c] + [], [x] + []) == x
    ensures PrintAll([c] + []) == c.numeral + "s" && LastPlain([c] + [])
  {
    assert Print(c) == c.numeral + "s" && c.numeral + "s" + "" == c.numeral + "s" && Factor("s") == Some(1.0);
    hide *;
    NoCounts();
    CountCons(c, [], x, [], 1.0, 0.0, c.numeral + "s", "");
  }

  lemma JoinedPrints()
    ensures Print(Component("1", 0, "m", "", false)) == "1m" && "1m" + "30s" == "1m30s"
    ensures "30" + "s" == "30s" && Factor("m") == Some(60.0)
  {
  }

  lemma JoinedExample()
    ensures Duration(UNIT_NAMES, "1m30s") == Some(90)
  {
    hide *;
    var m, s := Component("1", 0, "m", "", false), Component("30", 0, "s", "", false);
    JoinedPrints();
    OneDigit('1');
    TwoDigits('3', '0');
    EndsInSeconds(s, 30.0);
    CountCons(m, [s] + [], 1.0, [30.0] + [], 60.0, 30.0, "1m", "30s");
    TextOf([m] + ([s] + []), [1.0] + ([30.0] + []), "1m30s", 90.0);
    IsOnlyWait(Duration(UNIT_NAMES, "1m30s"), 90, 90.0);
  }

  lemma ListedPrints()
    ensures Print(Component("2", 0, "h", ", ", false)) == "2h, " && "2h, " + "5m and 3s" == "2h, 5m and 3s"
    ensures Print(Component("5", 0, "m", " ", true)) == "5m and " && "5m and " + "3s" == "5m and 3s"
    ensures "3" + "s" == "3s" && Factor("h") == Some(3600.0) && Factor("m") == Some(60.0)
  {
  }

  lemma ListedExample()
    ensures Duration(UNIT_NAMES, "2h, 5m and 3s") == Some(7503)
  {
    hide *;
    var h, m := Component("2", 0, "h", ", ", false), Component("5", 0, "m", " ", true);
    var s := Component("3", 0, "s", "", false);
    ListedPrints();
    OneDigit('2');
    OneDigit('5');
    OneDigit('3');
    EndsInSeconds(s, 3.0);
    CountCons(m, [s] + [], 5.0, [3.0] + [], 60.0, 3.0, "5m and ", "3s");
    CountCons(h, [m] + ([s] + []), 2.0, [5.0] + ([3.0] + []), 3600.0, 303.0, "2h, ", "5m and 3s");
    TextOf([h] + ([m] + ([s] + [])), [2.0] + ([5.0] + ([3.0] + [])), "2h, 5m and 3s", 7503.0);
    IsOnlyWait(Duration(UNIT_NAMES, "2h, 5m and 3s"), 7503, 7503.0);
  }

  /** "30" is half a minute. */
  lemma BareExample()
    ensures Duration(UNIT_NAMES, "30") == Some(30)
  {
    assert EndsBare("") && "" + "30" + "" == "30";
    NothingEnds();
    hide *;
    TwoDigits('3', '0');
    WorthIsValue("30", 30.0);
    BareNumberIsSeconds(UNIT_NAMES, "", "30", "");
    SecondsAreWait(30.0);
    IsOnlyWait(Duration(UNIT_NAMES, "30"), 30, 30.0);
  }
}
