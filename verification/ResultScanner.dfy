/**
 * The incremental scanner for a terminal result line in the bytes a reader
 * thread collects. JSON parsing is the parameter `json`.
 */
module ResultScanner {
  import opened Wrappers

  type byte = b: int | 0 <= b < 256
  type Instant = int

  const NL: byte := 10
  const CLOSE_BRACE: byte := 125

  predicate IsAsciiSpace(b: byte) {
    b == 32 || b == 9 || b == 10 || b == 12 || b == 13
  }

  /** The last byte before trailing ASCII white space. */
  function LastVisible(s: seq<byte>): Option<byte> {
    if s == [] then None
    else if IsAsciiSpace(s[|s| - 1]) then LastVisible(s[..|s| - 1])
    else Some(s[|s| - 1])
  }

  /** A terminal event, if these bytes are one; `json` judges only text ending in a brace. */
  function Accept<V>(json: seq<byte> -> Option<V>, s: seq<byte>): (r: Option<V>)
    ensures s == [] ==> r == None
  {
    if LastVisible(s) == Some(CLOSE_BRACE) then json(s) else None
  }

  predicate IsLineStart(buf: seq<byte>, a: nat) {
    a <= |buf| && (a == 0 || buf[a - 1] == NL)
  }

  ghost predicate NoNlIn(buf: seq<byte>, a: nat, e: nat)
    requires a <= e <= |buf|
  {
    forall i :: a <= i < e ==> buf[i] != NL
  }

  /** `buf[a..e]` is a complete line with its newline. */
  ghost predicate IsLine(buf: seq<byte>, a: nat, e: nat) {
    a < e <= |buf| && IsLineStart(buf, a) && buf[e - 1] == NL && NoNlIn(buf, a, e - 1)
  }

  /** No complete line that ends by `upTo` is a terminal event. */
  ghost predicate RejectedUpTo<V>(json: seq<byte> -> Option<V>, buf: seq<byte>, upTo: nat) {
    forall a: nat, e: nat :: IsLine(buf, a, e) && e <= upTo ==> Accept(json, buf[a..e]) == None
  }

  /** First newline at or behind `from`, or the end. */
  method NextNl(buf: seq<byte>, from: nat) returns (i: nat)
    requires from <= |buf|
    ensures from <= i <= |buf| && NoNlIn(buf, from, i)
    ensures i < |buf| ==> buf[i] == NL
  {
    i := from;
    while i < |buf| && buf[i] != NL
      invariant from <= i <= |buf| && NoNlIn(buf, from, i)
    {
      i := i + 1;
    }
  }

  /** Lines are unique: one that ends behind a line start begins at or behind it. */
  lemma LineBehind(buf: seq<byte>, start: nat, a: nat, e: nat)
    requires IsLineStart(buf, start) && IsLine(buf, a, e) && e > start
    ensures a >= start
  {
  }

  /** Two complete lines that share text are the same line. */
  lemma SameLine(buf: seq<byte>, a: nat, e: nat, b: nat, f: nat)
    requires IsLine(buf, a, e) && IsLine(buf, b, f) && a <= b < e
    ensures a == b && e == f
  {
  }

  lemma LinesGrow<V>(json: seq<byte> -> Option<V>, buf: seq<byte>, more: seq<byte>, upTo: nat)
    requires RejectedUpTo(json, buf, upTo) && upTo <= |buf|
    ensures RejectedUpTo(json, buf + more, upTo)
  {
    var all := buf + more;
    forall a: nat, e: nat | IsLine(all, a, e) && e <= upTo ensures Accept(json, all[a..e]) == None {
      assert all[a..e] == buf[a..e];
      assert NoNlIn(buf, a, e - 1) by {
        forall i | a <= i < e - 1 ensures buf[i] != NL {
          assert buf[i] == all[i];
        }
      }
      assert IsLine(buf, a, e);
    }
  }

  lemma FromLineGrows(buf: seq<byte>, more: seq<byte>, a: nat, e: nat)
    requires FromLine(buf, a, e)
    ensures FromLine(buf + more, a, e) && (buf + more)[a..e] == buf[a..e]
  {
  }

  lemma OneMoreRejected<V>(json: seq<byte> -> Option<V>, buf: seq<byte>, start: nat, end: nat)
    requires RejectedUpTo(json, buf, start) && IsLine(buf, start, end)
    requires Accept(json, buf[start..end]) == None
    ensures RejectedUpTo(json, buf, end)
  {
    forall a: nat, e: nat | IsLine(buf, a, e) && e <= end ensures Accept(json, buf[a..e]) == None {
      if e > start {
        LineBehind(buf, start, a, e);
        SameLine(buf, start, end, a, e);
      }
    }
  }

  /** Text beginning at a line start: a complete line, or part of one. */
  ghost predicate FromLine(buf: seq<byte>, a: nat, e: nat) {
    && a <= e <= |buf| && IsLineStart(buf, a)
    && (IsLine(buf, a, e) || NoNlIn(buf, a, e))
  }

  /**
   * Where a scan of `buf` stands: every complete line in front of `start` is
   * rejected; either nothing is accepted so far, the unfinished line
   * included, or the event found was parsed from `buf[start..end]`.
   */
  ghost predicate Scanned<V>(json: seq<byte> -> Option<V>, buf: seq<byte>, start: nat, found: Option<V>, end: nat) {
    && IsLineStart(buf, start)
    && RejectedUpTo(json, buf, start)
    && (found.None? ==> NoNlIn(buf, start, |buf|) && Accept(json, buf[start..]) == None)
    && (found.Some? ==> FromLine(buf, start, end) && Accept(json, buf[start..end]) == found)
  }

  // ---- One read after another ----

  /** End of the line that begins at `a`: behind its newline, or the end of the bytes. */
  function LineEnd(buf: seq<byte>, a: nat): (e: nat)
    requires a <= |buf|
    ensures a <= e <= |buf|
    ensures (NoNlIn(buf, a, e) && e == |buf|) || (a < e && buf[e - 1] == NL && NoNlIn(buf, a, e - 1))
    decreases |buf| - a
  {
    if a == |buf| then a else if buf[a] == NL then a + 1 else LineEnd(buf, a + 1)
  }

  /** Where a scan of `buf` from the line that begins at `start` ends: at an accepted line, or at the unfinished one. */
  function ScanFrom<V>(json: seq<byte> -> Option<V>, buf: seq<byte>, start: nat): (r: (nat, Option<V>))
    requires start <= |buf|
    ensures start <= r.0 <= |buf|
    decreases |buf| - start
  {
    var e := LineEnd(buf, start);
    if e > start && buf[e - 1] == NL && Accept(json, buf[start..e]).None? then ScanFrom(json, buf, e)
    else (start, Accept(json, buf[start..e]))
  }

  lemma LineEndIs(buf: seq<byte>, a: nat, e: nat)
    requires a < e <= |buf| && NoNlIn(buf, a, e - 1) && buf[e - 1] == NL
    ensures LineEnd(buf, a) == e
  {
  }

  lemma LineEndIsEnd(buf: seq<byte>, a: nat)
    requires a <= |buf| && NoNlIn(buf, a, |buf|)
    ensures LineEnd(buf, a) == |buf|
  {
  }

  lemma OneLineScans<V>(json: seq<byte> -> Option<V>, buf: seq<byte>, start: nat, end: nat)
    requires start < end <= |buf| && NoNlIn(buf, start, end - 1) && buf[end - 1] == NL
    ensures
      var event := Accept(json, buf[start..end]);
      ScanFrom(json, buf, start) == if event.Some? then (start, event) else ScanFrom(json, buf, end)
  {
    LineEndIs(buf, start, end);
  }

  lemma LastLineScans<V>(json: seq<byte> -> Option<V>, buf: seq<byte>, start: nat)
    requires start <= |buf| && NoNlIn(buf, start, |buf|)
    ensures ScanFrom(json, buf, start) == (start, Accept(json, buf[start..]))
  {
    LineEndIsEnd(buf, start);
    assert buf[start..|buf|] == buf[start..];
  }

  class Scanner<V> {
    const json: seq<byte> -> Option<V>
    var buf: seq<byte>
    var lineStart: nat
    var result: Option<(Instant, V)>
    /** End of the text the recorded event was parsed from. */
    ghost var foundEnd: nat

    ghost predicate Valid()
      reads this
    {
      Scanned(json, buf, lineStart, Found(), foundEnd)
    }

    /** The recorded event without its time. */
    function Found(): Option<V>
      reads this
    {
      if result.None? then None else Some(result.value.1)
    }

    constructor (json: seq<byte> -> Option<V>)
      ensures Valid() && buf == [] && result == None && this.json == json
    {
      this.json, buf, lineStart, result := json, [], 0, None;
    }

    /** Appends what was read and scans every line it completed, then the unfinished one. */
    method Read(chunk: seq<byte>, now: Instant)
      requires Valid()
      modifies this
      ensures Valid() && buf == old(buf) + chunk
      ensures lineStart >= old(lineStart)
      ensures old(result).Some? ==> result == old(result) && lineStart == old(lineStart) && foundEnd == old(foundEnd)
      ensures old(result).None? && result.Some? ==> result.value.0 == now && foundEnd >= old(|buf|)
      ensures old(result).None? ==> (lineStart, Found()) == ScanFrom(json, buf, old(lineStart))
    {
      hide ScanFrom, LineEnd;
      LinesGrow(json, buf, chunk, lineStart);
      if result.Some? {
        FromLineGrows(buf, chunk, lineStart, foundEnd);
      }
      ghost var before := |buf|;
      buf := buf + chunk;
      if result.None? {
        ScanLines(now, before);
        if result.None? {
          LastLineScans(json, buf, lineStart);
          var event := Accept(json, buf[lineStart..]);
          if event.Some? {
            assert buf[lineStart..|buf|] == buf[lineStart..];
            result, foundEnd := Some((now, event.value)), |buf|;
          }
        }
      }
    }

    /** Tries complete lines in order until one is a terminal event. */
    method ScanLines(now: Instant, ghost before: nat)
      requires result.None? && IsLineStart(buf, lineStart) && RejectedUpTo(json, buf, lineStart)
      requires lineStart <= before <= |buf| && NoNlIn(buf, lineStart, before)
      modifies `lineStart, `result, `foundEnd
      ensures IsLineStart(buf, lineStart) && RejectedUpTo(json, buf, lineStart) && lineStart >= old(lineStart)
      ensures result.None? ==> NoNlIn(buf, lineStart, |buf|)
      ensures result.Some? ==> IsLine(buf, lineStart, foundEnd) && foundEnd > before && result.value.0 == now
      ensures result.Some? ==> Accept(json, buf[lineStart..foundEnd]) == Some(result.value.1)
      ensures ScanFrom(json, buf, old(lineStart))
              == if result.Some? then (lineStart, Found()) else ScanFrom(json, buf, lineStart)
    {
      hide ScanFrom, LineEnd;
      var nl := NextNl(buf, lineStart);
      while nl < |buf|
        invariant result.None? && IsLineStart(buf, lineStart) && RejectedUpTo(json, buf, lineStart)
        invariant old(lineStart) <= lineStart <= nl <= |buf| && NoNlIn(buf, lineStart, nl)
        invariant nl < |buf| ==> buf[nl] == NL && nl >= before
        invariant ScanFrom(json, buf, old(lineStart)) == ScanFrom(json, buf, lineStart)
        decreases |buf| - nl
      {
        var end := nl + 1;
        var event := Accept(json, buf[lineStart..end]);
        OneLineScans(json, buf, lineStart, end);
        if event.Some? {
          result, foundEnd := Some((now, event.value)), end;
          return;
        }
        OneMoreRejected(json, buf, lineStart, end);
        lineStart := end;
        nl := NextNl(buf, lineStart);
      }
    }
  }

  // ---- Against a scan of whole lines ----

  /** Tries each line from `a` on in order, the unfinished last one included. */
  function WholeScan<V>(json: seq<byte> -> Option<V>, buf: seq<byte>, a: nat): (r: Option<V>)
    requires a <= |buf|
    decreases |buf| - a
  {
    var e := LineEnd(buf, a);
    var event := Accept(json, buf[a..e]);
    if event.Some? || e == a then event else WholeScan(json, buf, e)
  }

  /** No accepted complete line is ever passed over. */
  lemma NothingSkipped<V>(json: seq<byte> -> Option<V>, buf: seq<byte>, start: nat, found: Option<V>, end: nat,
                          a: nat, e: nat)
    requires Scanned(json, buf, start, found, end)
    requires IsLine(buf, a, e) && Accept(json, buf[a..e]).Some?
    ensures found.Some? && start <= a
  {
    if e > start {
      LineBehind(buf, start, a, e);
    }
  }

  lemma {:induction false} SkipRejected<V>(json: seq<byte> -> Option<V>, buf: seq<byte>, a: nat, start: nat)
    requires a <= start && IsLineStart(buf, a) && IsLineStart(buf, start) && RejectedUpTo(json, buf, start)
    ensures WholeScan(json, buf, a) == WholeScan(json, buf, start)
    decreases start - a
  {
    if a < start {
      var e := LineEnd(buf, a);
      assert IsLine(buf, a, e) && e <= start;
      SkipRejected(json, buf, e, start);
    }
  }

  /** What a scanner has after some reads: the bytes, the line start, and the event found, if any. */
  datatype State<V> = State(buf: seq<byte>, start: nat, found: Option<V>)

  function AfterRead<V>(json: seq<byte> -> Option<V>, s: State<V>, chunk: seq<byte>): (t: State<V>)
    requires s.start <= |s.buf|
    ensures t.start <= |t.buf|
  {
    var buf := s.buf + chunk;
    if s.found.Some? then State(buf, s.start, s.found)
    else
      var (start, found) := ScanFrom(json, buf, s.start);
      State(buf, start, found)
  }

  /** After any reads, one by one. */
  function AfterReads<V>(json: seq<byte> -> Option<V>, chunks: seq<seq<byte>>): (t: State<V>)
    ensures t.start <= |t.buf|
  {
    if chunks == [] then State([], 0, None)
    else AfterRead(json, AfterReads(json, chunks[..|chunks| - 1]), chunks[|chunks| - 1])
  }

  /** A scan from a line start ends where the scanner may stand. */
  lemma {:induction false} ScanFromIsScanned<V>(json: seq<byte> -> Option<V>, buf: seq<byte>, start: nat)
    requires start <= |buf| && IsLineStart(buf, start) && RejectedUpTo(json, buf, start)
    ensures
      var (a, found) := ScanFrom(json, buf, start);
      Scanned(json, buf, a, found, LineEnd(buf, a))
    decreases |buf| - start
  {
    var e := LineEnd(buf, start);
    if e > start && buf[e - 1] == NL {
      OneLineScans(json, buf, start, e);
      if Accept(json, buf[start..e]).None? {
        OneMoreRejected(json, buf, start, e);
        ScanFromIsScanned(json, buf, e);
      }
    } else {
      LastLineScans(json, buf, start);
      assert buf[start..e] == buf[start..];
    }
  }

  /** However the reads went, the scanner stands where `Scanned` says. */
  lemma {:induction false} ReadsAreScanned<V>(json: seq<byte> -> Option<V>, chunks: seq<seq<byte>>) returns (end: nat)
    ensures
      var t := AfterReads(json, chunks);
      Scanned(json, t.buf, t.start, t.found, end)
  {
    if chunks == [] {
      end := 0;
    } else {
      var front, chunk := chunks[..|chunks| - 1], chunks[|chunks| - 1];
      end := ReadsAreScanned(json, front);
      var s := AfterReads(json, front);
      LinesGrow(json, s.buf, chunk, s.start);
      if s.found.Some? {
        FromLineGrows(s.buf, chunk, s.start, end);
      } else {
        ScanFromIsScanned(json, s.buf + chunk, s.start);
        end := LineEnd(s.buf + chunk, AfterReads(json, chunks).start);
      }
    }
  }

  /** The scan reaches any line start that only rejected lines precede. */
  lemma {:induction false} ScanReaches<V>(json: seq<byte> -> Option<V>, buf: seq<byte>, a: nat, start: nat)
    requires a <= start <= |buf| && IsLineStart(buf, a) && IsLineStart(buf, start) && RejectedUpTo(json, buf, start)
    ensures ScanFrom(json, buf, a) == ScanFrom(json, buf, start)
    decreases start - a
  {
    if a < start {
      var e := LineEnd(buf, a);
      assert IsLine(buf, a, e) && e <= start;
      OneLineScans(json, buf, a, e);
      ScanReaches(json, buf, e, start);
    }
  }

  /** An accepted beginning of a line, which no accepted line precedes. */
  ghost predicate IsEarly<V>(json: seq<byte> -> Option<V>, buf: seq<byte>, a: nat, p: nat) {
    FromLine(buf, a, p) && RejectedUpTo(json, buf, a) && Accept(json, buf[a..p]).Some?
  }

  /** It carries the event that the scan of whole lines finds. */
  ghost predicate EarlyAgrees<V>(json: seq<byte> -> Option<V>, buf: seq<byte>) {
    forall a: nat, p: nat :: IsEarly(json, buf, a, p) ==> Accept(json, buf[a..p]) == WholeScan(json, buf, 0)
  }

  /** Every way to split the bytes into reads finds what the scan of whole lines does. */
  ghost predicate SplitsAgree<V>(json: seq<byte> -> Option<V>, buf: seq<byte>) {
    forall chunks :: AfterReads(json, chunks).buf == buf ==> AfterReads(json, chunks).found == WholeScan(json, buf, 0)
  }

  lemma CutLineScans<V>(json: seq<byte> -> Option<V>, buf: seq<byte>, a: nat, p: nat)
    requires FromLine(buf, a, p) && Accept(json, buf[a..p]).Some?
    ensures ScanFrom(json, buf[..p], a) == (a, Accept(json, buf[a..p]))
  {
    var cut := buf[..p];
    assert cut[a..p] == buf[a..p];
    assert forall i :: 0 <= i < |cut| ==> cut[i] == buf[i];
    if IsLine(buf, a, p) {
      OneLineScans(json, cut, a, p);
    } else {
      LastLineScans(json, cut, a);
      assert cut[a..] == cut[a..p];
    }
  }

  lemma CutRejected<V>(json: seq<byte> -> Option<V>, buf: seq<byte>, p: nat, a: nat)
    requires a <= p <= |buf| && RejectedUpTo(json, buf, a)
    ensures RejectedUpTo(json, buf[..p], a)
  {
    var cut := buf[..p];
    forall b: nat, e: nat | IsLine(cut, b, e) && e <= a ensures Accept(json, cut[b..e]) == None {
      assert cut[b..e] == buf[b..e];
      assert forall i :: 0 <= i < |cut| ==> cut[i] == buf[i];
      assert IsLine(buf, b, e);
    }
  }

  /** A scan of no more than its own bytes finds it. */
  lemma CutScans<V>(json: seq<byte> -> Option<V>, buf: seq<byte>, a: nat, p: nat)
    requires IsEarly(json, buf, a, p)
    ensures ScanFrom(json, buf[..p], 0) == (a, Accept(json, buf[a..p]))
  {
    hide LineEnd, ScanFrom, Accept;
    CutRejected(json, buf, p, a);
    hide RejectedUpTo;
    ScanReaches(json, buf[..p], 0, a);
    CutLineScans(json, buf, a, p);
  }

  lemma TwoReads<V>(json: seq<byte> -> Option<V>, c: seq<byte>, d: seq<byte>)
    requires ScanFrom(json, c, 0).1.Some?
    ensures AfterReads(json, [c, d]) == State(c + d, ScanFrom(json, c, 0).0, ScanFrom(json, c, 0).1)
  {
    hide ScanFrom;
    var none: seq<seq<byte>> := [];
    var one, two := [c], [c, d];
    assert one[..0] == none && two[..1] == one && [] + c == c;
    assert AfterReads(json, one) == AfterRead(json, AfterReads(json, none), c);
    assert AfterReads(json, two) == AfterRead(json, AfterReads(json, one), d);
  }

  /** Cutting the bytes there makes the scanner find it. */
  lemma EarlyIsFound<V>(json: seq<byte> -> Option<V>, buf: seq<byte>, a: nat, p: nat)
    requires IsEarly(json, buf, a, p)
    ensures
      var t := AfterReads(json, [buf[..p], buf[p..]]);
      t.buf == buf && t.found == Accept(json, buf[a..p])
  {
    hide AfterReads, ScanFrom, LineEnd;
    CutScans(json, buf, a, p);
    TwoReads(json, buf[..p], buf[p..]);
    assert buf[..p] + buf[p..] == buf;
  }

  /**
   * The incremental scan finds nothing only if the whole-line scan finds nothing,
   * and what it finds, it finds at an early place.
   */
  lemma MatchesWholeScan<V>(json: seq<byte> -> Option<V>, buf: seq<byte>, start: nat, found: Option<V>, end: nat)
    requires Scanned(json, buf, start, found, end)
    ensures found.None? ==> WholeScan(json, buf, 0) == None
    ensures found.Some? ==> IsEarly(json, buf, start, end) && Accept(json, buf[start..end]) == found
    ensures found.Some? && Accept(json, buf[start..LineEnd(buf, start)]) == found ==> WholeScan(json, buf, 0) == found
  {
    SkipRejected(json, buf, 0, start);
    var e := LineEnd(buf, start);
    if found.None? {
      assert buf[start..e] == buf[start..];
      if e > start {
        assert LineEnd(buf, e) == e && buf[e..e] == [];
      }
    }
  }

  lemma AgreeingReads<V>(json: seq<byte> -> Option<V>, chunks: seq<seq<byte>>)
    requires EarlyAgrees(json, AfterReads(json, chunks).buf)
    ensures AfterReads(json, chunks).found == WholeScan(json, AfterReads(json, chunks).buf, 0)
  {
    hide AfterReads, Accept, WholeScan, Scanned, IsEarly, LineEnd;
    var end := ReadsAreScanned(json, chunks);
    var t := AfterReads(json, chunks);
    MatchesWholeScan(json, t.buf, t.start, t.found, end);
  }

  lemma AgreeingSplit<V>(json: seq<byte> -> Option<V>, buf: seq<byte>, a: nat, p: nat)
    requires SplitsAgree(json, buf) && IsEarly(json, buf, a, p)
    ensures Accept(json, buf[a..p]) == WholeScan(json, buf, 0)
  {
    hide AfterReads, Accept, WholeScan, LineEnd;
    EarlyIsFound(json, buf, a, p);
  }

  /**
   * The way the bytes are split into reads does not matter exactly when every
   * accepted beginning of a line, at or before the first accepted line, carries
   * the event that the scan of whole lines finds.
   */
  lemma SplitsDoNotMatterExactly<V>(json: seq<byte> -> Option<V>, buf: seq<byte>)
    ensures SplitsAgree(json, buf) <==> EarlyAgrees(json, buf)
  {
    hide AfterReads, Accept, WholeScan;
    if EarlyAgrees(json, buf) {
      forall chunks | AfterReads(json, chunks).buf == buf
        ensures AfterReads(json, chunks).found == WholeScan(json, buf, 0)
      {
        AgreeingReads(json, chunks);
      }
    }
    if SplitsAgree(json, buf) {
      forall a: nat, p: nat | IsEarly(json, buf, a, p)
        ensures Accept(json, buf[a..p]) == WholeScan(json, buf, 0)
      {
        AgreeingSplit(json, buf, a, p);
      }
    }
  }

  // ---- What is accepted ----

  /** ASCII white space: tab, newline, form feed, carriage return and space. */
  ghost predicate IsWhite(w: seq<byte>) {
    forall i :: 0 <= i < |w| ==> w[i] in {9, 10, 12, 13, 32}
  }

  lemma {:induction false} LastBeforeWhite(s: seq<byte>, b: byte, w: seq<byte>)
    requires IsWhite(w) && b !in {9, 10, 12, 13, 32}
    ensures LastVisible(s + [b] + w) == Some(b)
    decreases |w|
  {
    var t := s + [b] + w;
    if w == [] {
      assert t == s + [b];
    } else {
      var front := w[..|w| - 1];
      assert t[|t| - 1] == w[|w| - 1] && t[..|t| - 1] == s + [b] + front;
      LastBeforeWhite(s, b, front);
    }
  }

  lemma {:induction false} NothingVisible(w: seq<byte>)
    requires IsWhite(w)
    ensures LastVisible(w).None?
  {
    if w != [] { NothingVisible(w[..|w| - 1]); }
  }

  /** Bytes are handed to the parser exactly if the last of them that is no white space is a closing brace. */
  lemma AcceptsExactly<V>(json: seq<byte> -> Option<V>, s: seq<byte>, b: byte, w: seq<byte>)
    requires IsWhite(w) && b !in {9, 10, 12, 13, 32}
    ensures Accept(json, s + [b] + w) == if b == 125 then json(s + [b] + w) else None
    ensures Accept(json, w) == None
  {
    LastBeforeWhite(s, b, w);
    NothingVisible(w);
  }

  /** A line with its newline, read at once: it is parsed as it is, if it ends in a brace, and else passed over. */
  lemma WholeLineIsFound<V>(json: seq<byte> -> Option<V>, s: seq<byte>, b: byte, w: seq<byte>)
    requires IsWhite(w) && b !in {9, 10, 12, 13, 32} && 10 !in s && 10 !in w
    ensures
      var line := s + [b] + w + [10];
      && AfterReads(json, [line]).buf == line
      && AfterReads(json, [line]).found == (if b == 125 then json(line) else None)
      && WholeScan(json, line, 0) == if b == 125 then json(line) else None
  {
    var line := s + [b] + w + [10];
    assert line == s + [b] + (w + [10]);
    AcceptsExactly(json, s, b, w + [10]);
    assert NoNlIn(line, 0, |line| - 1);
    hide Accept;
    OneLineAtOnce(json, line);
  }

  lemma OneLineAtOnce<V>(json: seq<byte> -> Option<V>, line: seq<byte>)
    requires line != [] && NoNlIn(line, 0, |line| - 1) && line[|line| - 1] == NL
    ensures AfterReads(json, [line]).buf == line && AfterReads(json, [line]).found == Accept(json, line)
    ensures WholeScan(json, line, 0) == Accept(json, line)
  {
    var none: seq<seq<byte>> := [];
    assert [line][..0] == none && [] + line == line && line[0..|line|] == line && line[|line|..] == [];
    assert AfterReads(json, [line]) == AfterRead(json, AfterReads(json, none), line);
    LineEndIs(line, 0, |line|);
    LineEndIsEnd(line, |line|);
    OneLineScans(json, line, 0, |line|);
    LastLineScans(json, line, |line|);
    hide ScanFrom, LineEnd, AfterReads;
    assert line[|line|..|line|] == [];
  }

  /** A terminal event as the agent prints it. */
  const TYPE: string := "{\"type\":\"result\","
  const SUBTYPE: string := "\"subtype\":\"success\","
  const IS_ERROR: string := "\"is_error\":true}"
  const EVENT: string := TYPE + SUBTYPE + IS_ERROR

  /** Characters below 256 as bytes. */
  function Bytes(s: string): (r: seq<byte>)
    ensures |r| == |s|
  {
    seq(|s|, i requires 0 <= i < |s| => s[i] as int % 256)
  }

  /** As much of a parser as knows this event, and that with one brace more it is none. */
  ghost predicate KnowsEvent<V>(json: seq<byte> -> Option<V>) {
    json(Bytes(EVENT)).Some? && json(Bytes(EVENT) + [CLOSE_BRACE]).None?
  }

  predicate IsPlain(s: string) {
    forall i: nat :: i < |s| ==> s[i] != '\n' && s[i] < '\U{80}'
  }

  lemma PlainParts()
    ensures IsPlain(TYPE) && IsPlain(SUBTYPE) && IsPlain(IS_ERROR) && IS_ERROR[|IS_ERROR| - 1] == '}'
  {
  }

  lemma EventIsLine()
    ensures EVENT != "" && Bytes(EVENT)[|EVENT| - 1] == CLOSE_BRACE && NoNlIn(Bytes(EVENT), 0, |EVENT|)
  {
    PlainParts();
    PlainConcat(TYPE, SUBTYPE);
    PlainConcat(TYPE + SUBTYPE, IS_ERROR);
    PlainHasNoNl(EVENT);
    assert EVENT[|EVENT| - 1] == '}';
  }

  lemma PlainConcat(a: string, b: string)
    requires IsPlain(a) && IsPlain(b)
    ensures IsPlain(a + b)
  {
  }

  lemma PlainHasNoNl(s: string)
    requires IsPlain(s)
    ensures NoNlIn(Bytes(s), 0, |s|)
  {
    forall i | 0 <= i < |s| ensures Bytes(s)[i] != NL {
      assert s[i] != '\n';
    }
  }

  /** A parser that knows nothing else. */
  function OnlyEvent(s: seq<byte>): Option<bool> {
    if s == Bytes(EVENT) then Some(true) else None
  }

  lemma OnlyEventKnows()
    ensures KnowsEvent(OnlyEvent)
  {
    assert |Bytes(EVENT) + [CLOSE_BRACE]| == |Bytes(EVENT)| + 1;
  }

  lemma EventIsAccepted<V>(json: seq<byte> -> Option<V>)
    requires KnowsEvent(json)
    ensures Accept(json, Bytes(EVENT)).Some?
    ensures Accept(json, Bytes(EVENT) + [CLOSE_BRACE]).None?
  {
    hide Bytes;
    EventIsLine();
  }

  /** A line that is an event but for one brace too many is none; cut in front of that, it is taken for the event. */
  lemma EarlyEventIsFound<V>(json: seq<byte> -> Option<V>)
    requires KnowsEvent(json)
    ensures
      var event, line := Bytes(EVENT), Bytes(EVENT) + [CLOSE_BRACE];
      && WholeScan(json, line, 0) == None
      && AfterReads(json, [line]).found == None
      && AfterReads(json, [event, [CLOSE_BRACE]]).buf == line
      && AfterReads(json, [event, [CLOSE_BRACE]]).found == json(event)
  {
    hide Bytes, AfterReads, WholeScan, Accept, ScanFrom, LineEnd;
    var event, line := Bytes(EVENT), Bytes(EVENT) + [CLOSE_BRACE];
    EventIsLine();
    EventIsAccepted(json);
    assert line[0..|event|] == event && line[..|event|] == event && line[|event|..] == [CLOSE_BRACE];
    assert FromLine(line, 0, |event|) && RejectedUpTo(json, line, 0);
    EarlyIsFound(json, line, 0, |event|);
    EventAlone(json, event);
    OneLineAlone(json, line);
  }

  lemma EventAlone<V>(json: seq<byte> -> Option<V>, event: seq<byte>)
    requires Accept(json, event).Some?
    ensures Accept(json, event) == json(event)
  {
  }

  /** A line without its newline, read at once. */
  lemma OneLineAlone<V>(json: seq<byte> -> Option<V>, line: seq<byte>)
    requires NoNlIn(line, 0, |line|) && Accept(json, line).None?
    ensures WholeScan(json, line, 0) == None && AfterReads(json, [line]).found == None
  {
    LineEndIsEnd(line, 0);
    LineEndIsEnd(line, |line|);
    assert line[0..|line|] == line && line[0..] == line && line[|line|..|line|] == [] && [] + line == line;
    assert [line][..0] == [];
    hide ScanFrom, LineEnd;
    LastLineScans(json, line, 0);
  }
}
