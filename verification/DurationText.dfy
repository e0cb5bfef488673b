/** Durations as text, and the parser as the inverse of printing them. */
module DurationText {
  import opened Wrappers
  import opened ParseDuration

  /** One printed component: a numeral, spaces, a unit, then commas and spaces and perhaps "and ". */
  datatype Component = Component(numeral: string, spaces: nat, unit: string, gap: string, hasAnd: bool)

  ghost predicate AllOf(s: string, k: Class) {
    forall i :: 0 <= i < |s| ==> k.Has(s[i])
  }

  /** Digits and points that start with a digit and have a value. */
  ghost predicate IsNumeral(s: string) {
    s != "" && Digit.Has(s[0]) && AllOf(s, Number) && NumeralValue(s).Some?
  }

  ghost predicate IsUnit(units: Units, name: string) {
    name != "" && AllOf(name, Alpha) && Lookup(units, name).Some?
  }

  ghost predicate IsComponent(units: Units, c: Component) {
    && IsNumeral(c.numeral) && IsUnit(units, c.unit)
    && AllOf(c.gap, Separator) && (c.hasAnd ==> c.gap != "")
  }

  function Blanks(n: nat): (s: string)
    ensures |s| == n && forall i :: 0 <= i < n ==> s[i] == ' '
  {
    seq(n, _ => ' ')
  }

  function And(has: bool): string {
    if has then "and " else ""
  }

  function Print(c: Component): string {
    c.numeral + Blanks(c.spaces) + c.unit + c.gap + And(c.hasAnd)
  }

  function PrintAll(cs: seq<Component>): string {
    if cs == [] then "" else Print(cs[0]) + PrintAll(cs[1..])
  }

  function Value(units: Units, c: Component): real
    requires IsComponent(units, c)
  {
    Lookup(units, c.unit).value.Seconds(NumeralValue(c.numeral).value)
  }

  ghost predicate AreComponents(units: Units, cs: seq<Component>) {
    forall i :: 0 <= i < |cs| ==> IsComponent(units, cs[i])
  }

  /** The exact sum. */
  ghost function Sum(units: Units, cs: seq<Component>): real
    requires AreComponents(units, cs)
  {
    if cs == [] then 0.0 else Value(units, cs[0]) + Sum(units, cs[1..])
  }

  /** Text behind the last component that neither extends its unit nor continues the list. */
  ghost predicate Ends(rest: string) {
    && (rest != "" ==> !Alpha.Has(rest[0]))
    && (var j := SeparatorsEnd(rest, 0); j < |rest| ==> !Digit.Has(rest[j]))
  }

  lemma {:induction false} SpanShift(s: string, i: nat, x: nat, k: Class)
    requires i + x <= |s|
    ensures SpanEnd(s, i + x, k) == i + SpanEnd(s[i..], x, k)
    decreases |s| - i - x
  {
    if i + x < |s| && k.Has(s[i + x]) {
      SpanShift(s, i, x + 1, k);
    }
  }

  lemma SeparatorsShift(s: string, i: nat)
    requires i <= |s|
    ensures SeparatorsEnd(s, i) == i + SeparatorsEnd(s[i..], 0)
  {
    SpanShift(s, i, 0, Separator);
  }

  /** A printed component in place: where each of its parts ends. */
  ghost predicate PrintedAt(s: string, i: nat, c: Component, n: nat, u: nat, e: nat, g: nat, after: nat) {
    && i + |c.numeral| == n && n + c.spaces == u && u + |c.unit| == e && e + |c.gap| == g
    && g + (if c.hasAnd then 4 else 0) == after <= |s|
    && s[i..n] == c.numeral && s[n..u] == Blanks(c.spaces) && s[u..e] == c.unit && s[e..g] == c.gap
    && (c.hasAnd ==> AndAt(s, g))
  }

  /** What stands at `i`, and what stands behind it. */
  lemma CutAt(s: string, i: nat, a: string, rest: string)
    requires i <= |s| && s[i..] == a + rest
    ensures i + |a| <= |s| && s[i..i + |a|] == a && s[i + |a|..] == rest
  {
    assert s[i..i + |a|] == s[i..][..|a|] && s[i + |a|..] == s[i..][|a|..];
  }

  lemma AndCut(s: string, i: nat)
    requires i + 4 <= |s| && s[i..i + 4] == "and "
    ensures AndAt(s, i)
  {
    assert s[i] == s[i..i + 4][0] && s[i + 1] == s[i..i + 4][1];
    assert s[i + 2] == s[i..i + 4][2] && s[i + 3] == s[i..i + 4][3];
  }

  lemma PrintNested(c: Component, rest: string)
    ensures Print(c) + rest == c.numeral + (Blanks(c.spaces) + (c.unit + (c.gap + (And(c.hasAnd) + rest))))
  {
    var x1 := c.numeral + Blanks(c.spaces);
    var x2 := x1 + c.unit;
    ConcatAssociative(x2 + c.gap, And(c.hasAnd), rest);
    ConcatAssociative(x2, c.gap, And(c.hasAnd) + rest);
    ConcatAssociative(x1, c.unit, c.gap + (And(c.hasAnd) + rest));
    ConcatAssociative(c.numeral, Blanks(c.spaces), c.unit + (c.gap + (And(c.hasAnd) + rest)));
  }

  lemma CutTwo(s: string, i: nat, a: string, b: string, rest: string)
    requires i <= |s| && s[i..] == a + (b + rest)
    ensures i + |a| + |b| <= |s| && s[i..i + |a|] == a && s[i + |a|..i + |a| + |b|] == b
    ensures s[i + |a| + |b|..] == rest
  {
    CutAt(s, i, a, b + rest);
    CutAt(s, i + |a|, b, rest);
  }

  lemma AndAtCut(s: string, g: nat, has: bool, rest: string)
    requires g <= |s| && s[g..] == And(has) + rest
    ensures g + |And(has)| <= |s| && s[g + |And(has)|..] == rest && (has ==> AndAt(s, g))
  {
    CutAt(s, g, And(has), rest);
    hide AndAt;
    if has { AndCut(s, g); }
  }

  lemma PrintedFront(s: string, i: nat, c: Component, rest: string)
    requires i <= |s| && s[i..] == Print(c) + rest
    ensures
      var n, u := i + |c.numeral|, i + |c.numeral| + c.spaces;
      && u <= |s| && s[i..n] == c.numeral && s[n..u] == Blanks(c.spaces)
      && s[u..] == c.unit + (c.gap + (And(c.hasAnd) + rest))
  {
    hide And, Print, Blanks;
    PrintNested(c, rest);
    CutTwo(s, i, c.numeral, Blanks(c.spaces), c.unit + (c.gap + (And(c.hasAnd) + rest)));
  }

  lemma PrintedBack(s: string, u: nat, c: Component, rest: string)
    requires u <= |s| && s[u..] == c.unit + (c.gap + (And(c.hasAnd) + rest))
    ensures
      var e, g, after := u + |c.unit|, u + |c.unit| + |c.gap|, u + |c.unit| + |c.gap| + (if c.hasAnd then 4 else 0);
      && after <= |s| && s[u..e] == c.unit && s[e..g] == c.gap && s[after..] == rest && (c.hasAnd ==> AndAt(s, g))
  {
    hide And, AndAt;
    AndLength(c.hasAnd);
    CutTwo(s, u, c.unit, c.gap, And(c.hasAnd) + rest);
    AndAtCut(s, u + |c.unit| + |c.gap|, c.hasAnd, rest);
  }

  lemma Printed(s: string, i: nat, c: Component, rest: string) returns (n: nat, u: nat, e: nat, g: nat, after: nat)
    requires i <= |s| && s[i..] == Print(c) + rest
    ensures PrintedAt(s, i, c, n, u, e, g, after) && s[after..] == rest && after == i + |Print(c)|
  {
    hide AndAt, Print, And, Blanks;
    n, u := i + |c.numeral|, i + |c.numeral| + c.spaces;
    e, g := u + |c.unit|, u + |c.unit| + |c.gap|;
    after := g + (if c.hasAnd then 4 else 0);
    PrintedFront(s, i, c, rest);
    PrintedBack(s, u, c, rest);
    AndLength(c.hasAnd);
    PrintLength(c);
  }

  lemma AndLength(has: bool)
    ensures |And(has)| == (if has then 4 else 0) && (has ==> And(has) == "and ")
  {
  }

  lemma PrintLength(c: Component)
    ensures |Print(c)| == |c.numeral| + c.spaces + |c.unit| + |c.gap| + |And(c.hasAnd)|
  {
  }

  /** The scans of one component stop exactly at its parts. */
  lemma Scans(units: Units, s: string, i: nat, c: Component, n: nat, u: nat, e: nat, g: nat, after: nat)
    requires IsComponent(units, c) && PrintedAt(s, i, c, n, u, e, g, after)
    requires e < |s| ==> c.gap != "" || !Alpha.Has(s[e])
    ensures SpanEnd(s, i, Number) == n && SpanEnd(s, n, Space) == u && SpanEnd(s, u, Alpha) == e
  {
    assert forall x :: i <= x < n ==> s[x] == c.numeral[x - i];
    assert forall x :: n <= x < u ==> s[x] == Blanks(c.spaces)[x - n];
    assert forall x :: u <= x < e ==> s[x] == c.unit[x - u];
    assert c.gap != "" ==> s[e] == c.gap[0];
    SpanEndIs(s, i, Number, n);
    SpanEndIs(s, n, Space, u);
    SpanEndIs(s, u, Alpha, e);
  }

  /** A component in front of another number is read whole. */
  lemma ReadMiddle(units: Units, s: string, i: nat, c: Component, rest: string, any: bool)
    requires IsComponent(units, c) && i <= |s| && s[i..] == Print(c) + rest
    requires rest != "" && Digit.Has(rest[0])
    ensures NextStep(units, s, i, any) == Add(Value(units, c), i + |Print(c)|, true)
    ensures s[i + |Print(c)|..] == rest
  {
    var n, u, e, g, after := Printed(s, i, c, rest);
    assert s[after] == rest[0];
    hide NumeralValue, Lookup, Print;
    MiddleGap(s, i, c, n, u, e, g, after);
    Scans(units, s, i, c, n, u, e, g, after);
    StepOf(units, s, i, c, n, u, e, any);
  }

  lemma MiddleGap(s: string, i: nat, c: Component, n: nat, u: nat, e: nat, g: nat, after: nat)
    requires AllOf(c.gap, Separator) && (c.hasAnd ==> c.gap != "")
    requires PrintedAt(s, i, c, n, u, e, g, after)
    requires after < |s| && Digit.Has(s[after])
    ensures SeparatorsEnd(s, e) == after
    ensures c.gap != "" || !Alpha.Has(s[e])
  {
    assert forall x :: e <= x < g ==> s[x] == c.gap[x - e];
    SpanEndIs(s, e, Separator, g);
  }

  /** With the scans known, the step is known up to what follows. */
  lemma StepOf(units: Units, s: string, i: nat, c: Component, n: nat, u: nat, e: nat, any: bool)
    requires IsComponent(units, c) && i < n <= u < e <= |s| && s[i..n] == c.numeral && s[u..e] == c.unit
    requires SpanEnd(s, i, Number) == n && SpanEnd(s, n, Space) == u && SpanEnd(s, u, Alpha) == e
    ensures
      var more := SeparatorsEnd(s, e);
      NextStep(units, s, i, any) == Add(Value(units, c), more, more < |s| && Digit.Has(s[more]))
  {
    hide NumeralValue, Lookup, SpanEnd, SeparatorsEnd;
  }

  lemma NothingFollows(s: string, e: nat, rest: string)
    requires e <= |s| && s[e..] == rest && Ends(rest)
    ensures e < |s| ==> !Alpha.Has(s[e])
    ensures SeparatorsEnd(s, e) < |s| ==> !Digit.Has(s[SeparatorsEnd(s, e)])
  {
    SeparatorsShift(s, e);
    var j := SeparatorsEnd(s, e);
    assert j < |s| ==> s[j] == rest[j - e];
    assert e < |s| ==> s[e] == rest[0];
  }

  lemma LastScans(units: Units, s: string, i: nat, c: Component, rest: string) returns (n: nat, u: nat, e: nat)
    requires IsComponent(units, c) && c.gap == "" && !c.hasAnd
    requires i <= |s| && s[i..] == Print(c) + rest && Ends(rest)
    ensures i < n <= u < e <= |s| && s[i..n] == c.numeral && s[u..e] == c.unit && s[e..] == rest
    ensures SpanEnd(s, i, Number) == n && SpanEnd(s, n, Space) == u && SpanEnd(s, u, Alpha) == e
  {
    hide NumeralValue, Lookup, Print, Ends;
    var g, after;
    n, u, e, g, after := Printed(s, i, c, rest);
    assert e == after;
    NothingFollows(s, e, rest);
    Scans(units, s, i, c, n, u, e, g, after);
  }

  /** The last component is read, and nothing behind it. */
  lemma ReadLast(units: Units, s: string, i: nat, c: Component, rest: string, any: bool)
    requires IsComponent(units, c) && c.gap == "" && !c.hasAnd
    requires i <= |s| && s[i..] == Print(c) + rest && Ends(rest)
    ensures NextStep(units, s, i, any).Add? && NextStep(units, s, i, any).seconds == Value(units, c)
    ensures !NextStep(units, s, i, any).more
  {
    hide IsComponent, Print, Ends, Value, NextStep, SpanEnd, SeparatorsEnd;
    var n, u, e := LastScans(units, s, i, c, rest);
    StepOf(units, s, i, c, n, u, e, any);
    NothingFollows(s, e, rest);
  }

  ghost predicate LastPlain(cs: seq<Component>) {
    cs != [] ==> cs[|cs| - 1].gap == "" && !cs[|cs| - 1].hasAnd
  }

  lemma {:induction false} ReadAll(units: Units, s: string, i: nat, cs: seq<Component>, rest: string,
                                   total: real, any: bool)
    requires cs != [] && AreComponents(units, cs) && LastPlain(cs)
    requires i <= |s| && s[i..] == PrintAll(cs) + rest && Ends(rest) && total >= 0.0
    ensures Components(units, s, i, total, any) == Done(total + Sum(units, cs), true)
    decreases |cs|
  {
    hide NextStep, Value, Print, IsComponent, Ends;
    var c, more := cs[0], cs[1..];
    var step := NextStep(units, s, i, any);
    if more == [] {
      assert PrintAll(cs) == Print(c);
      ReadLast(units, s, i, c, rest, any);
    } else {
      var next := i + |Print(c)|;
      ConcatAssociative(Print(c), PrintAll(more), rest);
      FirstDigit(units, more, rest);
      ReadMiddle(units, s, i, c, PrintAll(more) + rest, any);
      assert step.seconds == Value(units, c);
      ReadAll(units, s, next, more, rest, total + step.seconds, true);
    }
    ComponentsStep(units, s, i, total, any, step);
  }

  lemma FirstDigit(units: Units, cs: seq<Component>, rest: string)
    requires cs != [] && AreComponents(units, cs)
    ensures PrintAll(cs) + rest != "" && Digit.Has((PrintAll(cs) + rest)[0])
  {
    assert Print(cs[0])[0] == cs[0].numeral[0];
    assert (PrintAll(cs) + rest)[0] == Print(cs[0])[0];
  }

  /**
   * Parsing undoes printing: any non-empty list of counts with units, however
   * spaced and joined, behind any leading punctuation, parses to the exact
   * sum in whole seconds, rounded up and at least one.
   */
  lemma ParseUndoesPrint(units: Units, lead: string, cs: seq<Component>, rest: string)
    requires AllOf(lead, Lead) && cs != [] && AreComponents(units, cs) && LastPlain(cs) && Ends(rest)
    ensures Duration(units, lead + PrintAll(cs) + rest) == Some(Seconds(Sum(units, cs)))
  {
    hide *;
    var s := PrintAll(cs) + rest;
    ConcatAssociative(lead, PrintAll(cs), rest);
    FirstDigit(units, cs, rest);
    BehindLead(units, lead, s);
    ReadAll(units, s, 0, cs, rest, 0.0, false);
    ResultOf(units, lead + s, s, 0.0 + Sum(units, cs));
  }

  /** Leading punctuation is skipped. */
  lemma BehindLead(units: Units, lead: string, s: string)
    requires AllOf(lead, Lead) && s != "" && Digit.Has(s[0])
    ensures Duration(units, lead + s) == Result(Components(units, s, 0, 0.0, false))
    ensures s[0..] == s
  {
    hide Components, Result;
    LeadEnds(lead, s);
    assert (lead + s)[|lead|..|lead + s|] == s;
  }

  lemma ResultOf(units: Units, text: string, s: string, total: real)
    requires Duration(units, text) == Result(Components(units, s, 0, 0.0, false))
    requires total >= 0.0 && Components(units, s, 0, 0.0, false) == Done(total, true)
    ensures Duration(units, text) == Some(Seconds(total))
  {
    hide Duration, Components, Seconds;
  }

  lemma LeadEnds(lead: string, s: string)
    requires AllOf(lead, Lead) && s != "" && Digit.Has(s[0])
    ensures SpanEnd(lead + s, 0, Lead) == |lead|
  {
    SpanEndIs(lead + s, 0, Lead, |lead|);
  }

  /** Text behind a bare number that leaves it without a unit and alone. */
  ghost predicate EndsBare(rest: string) {
    && (rest != "" ==> !Number.Has(rest[0]))
    && (var u := SpanEnd(rest, 0, Space);
        && (u < |rest| ==> !Alpha.Has(rest[u]))
        && var j := SeparatorsEnd(rest, u); j < |rest| ==> !Digit.Has(rest[j]))
  }

  /** A bare number is a number of seconds (the delay-seconds form, section 10.2.3 of RFC 9110). */
  lemma BareNumberIsSeconds(units: Units, lead: string, numeral: string, rest: string)
    requires AllOf(lead, Lead) && IsNumeral(numeral) && EndsBare(rest)
    ensures Duration(units, lead + numeral + rest) == Some(Seconds(NumeralValue(numeral).value))
  {
    hide *;
    var s, n := numeral + rest, |numeral|;
    ConcatAssociative(lead, numeral, rest);
    NumeralFront(numeral, rest);
    BehindLead(units, lead, s);
    BareStep(units, s, n, numeral, rest);
    var step := NextStep(units, s, 0, false);
    ComponentsStep(units, s, 0, 0.0, false, step);
    ResultOf(units, lead + s, s, 0.0 + step.seconds);
  }

  lemma NumeralFront(numeral: string, rest: string)
    requires IsNumeral(numeral)
    ensures numeral + rest != "" && Digit.Has((numeral + rest)[0])
    ensures (numeral + rest)[0..|numeral|] == numeral && (numeral + rest)[|numeral|..] == rest
    ensures |numeral| <= |numeral + rest| && NumeralValue(numeral).Some?
  {
    hide NumeralValue;
    assert (numeral + rest)[0] == numeral[0];
  }

  lemma BareScans(s: string, n: nat, numeral: string, rest: string) returns (u: nat)
    requires IsNumeral(numeral) && EndsBare(rest)
    requires n == |numeral| <= |s| && s[0..n] == numeral && s[n..] == rest
    ensures SpanEnd(s, 0, Number) == n <= u <= |s| && SpanEnd(s, n, Space) == u && SpanEnd(s, u, Alpha) == u
    ensures u == n + SpanEnd(rest, 0, Space)
  {
    hide NumeralValue;
    assert forall x :: 0 <= x < n ==> s[x] == numeral[x];
    assert n < |s| ==> s[n] == rest[0];
    SpanEndIs(s, 0, Number, n);
    SpanShift(s, n, 0, Space);
    u := SpanEnd(s, n, Space);
    assert u < |s| ==> s[u] == rest[u - n];
    SpanEndIs(s, u, Alpha, u);
  }

  lemma BareEnd(s: string, n: nat, u: nat, rest: string)
    requires EndsBare(rest) && n <= u <= |s| && s[n..] == rest && u == n + SpanEnd(rest, 0, Space)
    ensures var j := SeparatorsEnd(s, u); j < |s| ==> !Digit.Has(s[j])
  {
    hide SpanEnd, SeparatorsEnd;
    assert s[u..] == rest[u - n..];
    SeparatorsShift(s, u);
    SeparatorsShift(rest, u - n);
    var j := SeparatorsEnd(s, u);
    assert j < |s| ==> s[j] == rest[j - n];
  }

  lemma BareStep(units: Units, s: string, n: nat, numeral: string, rest: string)
    requires IsNumeral(numeral) && EndsBare(rest)
    requires n == |numeral| <= |s| && s[0..n] == numeral && s[n..] == rest
    ensures NextStep(units, s, 0, false).Add? && !NextStep(units, s, 0, false).more
    ensures NextStep(units, s, 0, false).seconds == NumeralValue(numeral).value
  {
    hide NumeralValue, SpanEnd, SeparatorsEnd, Lookup, EndsBare;
    var u := BareScans(s, n, numeral, rest);
    BareEnd(s, n, u, rest);
    assert |s[u..u]| == 0;
  }

  // ---- Numerals ----

  function PrintNat(n: nat): (s: string)
    ensures s != "" && forall i :: 0 <= i < |s| ==> Digit.Has(s[i])
  {
    var d := ['0' + (n % 10) as char];
    if n < 10 then d else PrintNat(n / 10) + d
  }

  lemma {:induction false} WholeOfPrefix(s: string, t: string, j: nat)
    requires j <= |s| <= |t| && s == t[..|s|]
    ensures WholeValue(s, 0, j) == WholeValue(t, 0, j)
  {
    if j > 0 {
      WholeOfPrefix(s, t, j - 1);
    }
  }

  lemma {:induction false} WholeOfNat(n: nat)
    ensures WholeValue(PrintNat(n), 0, |PrintNat(n)|) == n
  {
    var s := PrintNat(n);
    var d := '0' + (n % 10) as char;
    assert DigitValue(d) == n % 10;
    if n >= 10 {
      var front := PrintNat(n / 10);
      WholeOfNat(n / 10);
      assert s == front + [d];
      WholeOfPrefix(front, s, |front|);
    } else {
      assert s == [d];
    }
  }

  /** A printed count is a numeral of that value. */
  lemma PrintedCountIsNumeral(n: nat)
    ensures IsNumeral(PrintNat(n)) && NumeralValue(PrintNat(n)) == Some(n as real)
  {
    var s := PrintNat(n);
    WholeOfNat(n);
    SpanEndIs(s, 0, Digit, |s|);
  }

  // ---- The program's own unit names ----

  lemma NamesBelow8(i: nat)
    requires i < 8
    ensures UNIT_NAMES[i].0 != "" && AllOf(UNIT_NAMES[i].0, Alpha)
  {
  }

  lemma NamesBelow16(i: nat)
    requires 8 <= i < 16
    ensures UNIT_NAMES[i].0 != "" && AllOf(UNIT_NAMES[i].0, Alpha)
  {
  }

  lemma NamesBelow24(i: nat)
    requires 16 <= i < 24
    ensures UNIT_NAMES[i].0 != "" && AllOf(UNIT_NAMES[i].0, Alpha)
  {
  }

  /** Every name the program knows is a unit in the sense of the theorem. */
  lemma KnownUnitsAreUnits(name: string)
    requires Lookup(UNIT_NAMES, name).Some?
    ensures IsUnit(UNIT_NAMES, name)
  {
    var i :| 0 <= i < |UNIT_NAMES| && UNIT_NAMES[i] == (name, Lookup(UNIT_NAMES, name).value);
    if i < 8 {
      NamesBelow8(i);
    } else if i < 16 {
      NamesBelow16(i);
    } else {
      NamesBelow24(i);
    }
  }
}
