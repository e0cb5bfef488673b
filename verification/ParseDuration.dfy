/**
 * The hand-written duration parser. Text is UTF-8; a byte is a character
 * below 256, so an ASCII literal stands for its own bytes. Floating-point
 * numbers are reals.
 */
module ParseDuration {
  import opened Wrappers

  const U64_MAX: nat := 0xFFFF_FFFF_FFFF_FFFF

  /** The classes of ASCII characters the parser moves over. */
  datatype Class = Digit | Number | Space | Alpha | Separator | Lead {
    predicate Has(c: char)
      ensures Has(c) ==> c < '\U{80}'
    {
      match this
      case Digit => '0' <= c <= '9'
      case Number => '0' <= c <= '9' || c == '.'
      case Space => c == ' '
      case Alpha => 'a' <= c <= 'z' || 'A' <= c <= 'Z'
      case Separator => c == ' ' || c == ','
      case Lead => c == ' ' || c == ':' || c == '"' || c == '\'' || c == '='
    }
  }

  /** A UTF-8 continuation byte (section 3 of RFC 3629). */
  predicate IsContinuation(c: char) { '\U{80}' <= c < '\U{C0}' }

  /** What well-formed UTF-8 guarantees here: a continuation byte never follows an ASCII byte. */
  ghost predicate Utf8(s: string) {
    forall i {:trigger IsContinuation(s[i])} ::
      0 <= i < |s| && IsContinuation(s[i]) ==> i > 0 && s[i - 1] >= '\U{80}'
  }

  /** Where a string may be cut without panicking. */
  predicate IsBoundary(s: string, i: nat) {
    i == 0 || i == |s| || (i < |s| && !IsContinuation(s[i]))
  }

  /** A string slice; cutting anywhere but at boundaries is a panic. */
  function Slice(s: string, i: nat, j: nat): string
    requires i <= j <= |s| && IsBoundary(s, i) && IsBoundary(s, j)
  {
    s[i..j]
  }

  /** Where the run of class `k` that begins at `i` ends. */
  function SpanEnd(s: string, i: nat, k: Class): (j: nat)
    requires i <= |s|
    ensures i <= j <= |s|
    decreases |s| - i
  {
    if i == |s| || !k.Has(s[i]) then i else SpanEnd(s, i + 1, k)
  }

  lemma {:induction false} SpanEndIs(s: string, i: nat, k: Class, j: nat)
    requires i <= j <= |s| && (forall x :: i <= x < j ==> k.Has(s[x])) && (j < |s| ==> !k.Has(s[j]))
    ensures SpanEnd(s, i, k) == j
    decreases j - i
  {
    if i < j {
      SpanEndIs(s, i + 1, k, j);
    }
  }

  // ---- Numbers ----

  function DigitValue(c: char): (d: nat)
    ensures d < 10
  {
    if Digit.Has(c) then (c - '0') as nat else 0
  }

  /** Value of the digits `s[i..j]`. */
  function WholeValue(s: string, i: nat, j: nat): (n: nat)
    requires i <= j <= |s|
    decreases j - i
  {
    if i == j then 0 else 10 * WholeValue(s, i, j - 1) + DigitValue(s[j - 1])
  }

  /** Value of the digits `s[i..j]` behind a decimal point. */
  function FractionValue(s: string, i: nat, j: nat): (r: real)
    requires i <= j <= |s|
    ensures 0.0 <= r < 1.0
    decreases j - i
  {
    if i == j then 0.0 else (DigitValue(s[i]) as real + FractionValue(s, i + 1, j)) / 10.0
  }

  /** Where trailing decimal points of `s[..j]` begin. */
  function TrimDots(s: string, i: nat, j: nat): (t: nat)
    requires i <= j <= |s|
    ensures i <= t <= j
    decreases j - i
  {
    if i < j && s[j - 1] == '.' then TrimDots(s, i, j - 1) else j
  }

  /** Value of digits and points: at most one point inside; trailing points are dropped first. */
  function NumeralValue(s: string): (r: Option<real>)
    ensures r.Some? ==> r.value >= 0.0
  {
    var t := TrimDots(s, 0, |s|);
    var d := SpanEnd(s, 0, Digit);
    if t == 0 then None
    else if d >= t then Some(WholeValue(s, 0, t) as real)
    else if SpanEnd(s, d + 1, Digit) < t then None
    else Some(WholeValue(s, 0, d) as real + FractionValue(s, d + 1, t))
  }

  datatype Unit = Millisecond | Second | Minute | Hour | Day | Week {
    function Seconds(count: real): (r: real)
      ensures count >= 0.0 ==> r >= 0.0
    {
      match this
      case Millisecond => count * 0.001
      case Second => count
      case Minute => count * 60.0
      case Hour => count * 3600.0
      case Day => count * 86400.0
      case Week => count * 604800.0
    }
  }

  /** Which words name which unit. */
  type Units = seq<(string, Unit)>

  const UNIT_NAMES: Units := [
    ("ms", Millisecond), ("millisecond", Millisecond), ("milliseconds", Millisecond),
    ("s", Second), ("sec", Second), ("secs", Second), ("second", Second), ("seconds", Second),
    ("m", Minute), ("min", Minute), ("mins", Minute), ("minute", Minute), ("minutes", Minute),
    ("h", Hour), ("hr", Hour), ("hrs", Hour), ("hour", Hour), ("hours", Hour),
    ("d", Day), ("day", Day), ("days", Day),
    ("w", Week), ("week", Week), ("weeks", Week)
  ]

  function Lookup(table: Units, name: string): (u: Option<Unit>)
    ensures u.Some? ==> (name, u.value) in table
  {
    if table == [] then None
    else if table[0].0 == name then Some(table[0].1)
    else Lookup(table[1..], name)
  }

  // ---- The parser ----

  /** Sum of the components read, and whether there was any; or a leading number without a known unit. */
  datatype Parse = Done(total: real, any: bool) | Rejected

  /** The word "and" with a space behind it. */
  predicate AndAt(s: string, i: nat) {
    i + 4 <= |s| && s[i] == 'a' && s[i + 1] == 'n' && s[i + 2] == 'd' && s[i + 3] == ' '
  }

  /** Where the separators that begin at `i` end. */
  function SeparatorsEnd(s: string, i: nat): (j: nat)
    requires i <= |s|
    ensures i <= j <= |s|
  {
    var j := SpanEnd(s, i, Separator);
    if AndAt(s, j) then j + 4 else j
  }

  /** The unit named; only a first number may go without one. */
  function UnitAt(units: Units, name: string, any: bool): (u: Option<Unit>) {
    if |name| == 0 && !any then Some(Second) else Lookup(units, name)
  }

  /** One component: its seconds, where the text behind it and its separators begins, and whether a number follows. */
  datatype Step = Stop | Reject | Add(seconds: real, next: nat, more: bool)

  function NextStep(units: Units, s: string, i: nat, any: bool): (step: Step)
    requires i <= |s|
    ensures step.Add? ==> step.seconds >= 0.0 && i < step.next <= |s|
    ensures step.Reject? ==> !any
  {
    var n := SpanEnd(s, i, Number);
    if n == i || NumeralValue(s[i..n]).None? then Stop
    else
      var u := SpanEnd(s, n, Space);
      var e := SpanEnd(s, u, Alpha);
      var unit := UnitAt(units, s[u..e], any);
      if unit.None? then if any then Stop else Reject
      else
        var more := SeparatorsEnd(s, e);
        Add(unit.value.Seconds(NumeralValue(s[i..n]).value), more, more < |s| && Digit.Has(s[more]))
  }

  /** Reads components from position `i` on. */
  function Components(units: Units, s: string, i: nat, total: real, any: bool): (p: Parse)
    requires i <= |s| && total >= 0.0
    ensures p.Done? ==> p.total >= 0.0 && (any ==> p.any)
    decreases |s| - i
  {
    match NextStep(units, s, i, any)
    case Stop => Done(total, any)
    case Reject => Rejected
    case Add(seconds, next, more) =>
      if more then Components(units, s, next, total + seconds, true) else Done(total + seconds, true)
  }

  /** Whole seconds: rounded up, at least one, and saturating. */
  function Seconds(total: real): (n: nat)
    ensures 1 <= n <= U64_MAX
    ensures 1.0 <= total <= U64_MAX as real ==> total <= n as real < total + 1.0
  {
    var up := -(-total).Floor;
    if up < 1 then 1 else if up > U64_MAX then U64_MAX else up
  }

  function Result(p: Parse): (r: Option<nat>)
    ensures r.Some? ==> 1 <= r.value <= U64_MAX
  {
    if p.Rejected? || !p.any then None else Some(Seconds(p.total))
  }

  function Duration(units: Units, text: string): (r: Option<nat>)
    ensures r.Some? ==> 1 <= r.value <= U64_MAX
  {
    Result(Components(units, text[SpanEnd(text, 0, Lead)..|text|], 0, 0.0, false))
  }

  /** Moves over characters of class `k`, all of them ASCII, which ends at a boundary again. */
  method SkipWhile(s: string, i: nat, k: Class) returns (j: nat)
    requires i <= |s| && Utf8(s) && IsBoundary(s, i)
    ensures j == SpanEnd(s, i, k) && IsBoundary(s, j)
  {
    j := i;
    while j < |s| && k.Has(s[j])
      invariant i <= j <= |s| && IsBoundary(s, j)
      invariant SpanEnd(s, j, k) == SpanEnd(s, i, k)
    {
      j := j + 1;
    }
  }

  lemma Utf8Suffix(s: string, i: nat)
    requires i <= |s| && Utf8(s) && IsBoundary(s, i)
    ensures Utf8(s[i..])
  {
  }

  /** Position of the next component, or of whatever stops the parse. */
  method SkipSeparators(s: string, i: nat) returns (j: nat)
    requires i <= |s| && Utf8(s) && IsBoundary(s, i)
    ensures j == SeparatorsEnd(s, i) && IsBoundary(s, j)
  {
    j := SkipWhile(s, i, Separator);
    if AndAt(Slice(s, j, |s|), 0) {
      j := j + 4;
    }
  }

  /** Reads one component at `i`, cutting the text at boundaries only. */
  method ReadComponent(units: Units, s: string, i: nat, any: bool) returns (step: Step)
    requires i <= |s| && Utf8(s) && IsBoundary(s, i)
    ensures step == NextStep(units, s, i, any)
    ensures step.Add? ==> IsBoundary(s, step.next)
  {
    var n := SkipWhile(s, i, Number);
    if n == i || NumeralValue(Slice(s, i, n)).None? {
      return Stop;
    }
    var u := SkipWhile(s, n, Space);
    var e := SkipWhile(s, u, Alpha);
    var unit := UnitAt(units, Slice(s, u, e), any);
    if unit.None? {
      return if any then Stop else Reject;
    }
    var more := SkipSeparators(s, e);
    step := Add(unit.value.Seconds(NumeralValue(Slice(s, i, n)).value), more, more < |s| && Digit.Has(s[more]));
  }

  lemma ComponentsStep(units: Units, s: string, i: nat, total: real, any: bool, step: Step)
    requires i <= |s| && total >= 0.0 && step == NextStep(units, s, i, any)
    ensures step.Stop? ==> Components(units, s, i, total, any) == Done(total, any)
    ensures step.Reject? ==> Components(units, s, i, total, any) == Rejected
    ensures step.Add? ==>
              Components(units, s, i, total, any)
              == if step.more then Components(units, s, step.next, total + step.seconds, true)
                 else Done(total + step.seconds, true)
  {
    hide NextStep;
  }

  /** The parser's loop; it ends because `i` grows. */
  method ParseComponents(units: Units, s: string) returns (p: Parse)
    requires Utf8(s)
    ensures p == Components(units, s, 0, 0.0, false)
  {
    hide NextStep;
    var i, total, any := 0, 0.0, false;
    while true
      invariant 0 <= i <= |s| && total >= 0.0 && IsBoundary(s, i)
      invariant Components(units, s, i, total, any) == Components(units, s, 0, 0.0, false)
      decreases |s| - i
    {
      var step := ReadComponent(units, s, i, any);
      ComponentsStep(units, s, i, total, any, step);
      if step.Stop? {
        return Done(total, any);
      }
      if step.Reject? {
        return Rejected;
      }
      total, any := total + step.seconds, true;
      if !step.more {
        return Done(total, any);
      }
      i := step.next;
    }
  }

  /**
   * The parser as the program runs it. The calls of `Slice` on the way show
   * that no cut falls inside a character.
   */
  method ParseDuration(units: Units, text: string) returns (r: Option<nat>)
    requires Utf8(text)
    ensures r == Duration(units, text)
  {
    hide NextStep, Seconds;
    var start := SkipWhile(text, 0, Lead);
    Utf8Suffix(text, start);
    assert text[start..] == text[start..|text|];
    var p := ParseComponents(units, Slice(text, start, |text|));
    r := Result(p);
  }
}
