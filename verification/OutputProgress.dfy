/**
 * The output side of the stall and exhaustion detector. Every bounded field
 * is tied to its meaning on the full history of lines, kept as ghost state.
 */
module OutputProgress {
  import opened Wrappers
  import opened LineAssembly
  import opened ExhaustionHits
  import opened OutputHistory

  type Instant = int

  lemma KeptSnoc(r: Rules, log: seq<Seen>, x: Seen)
    ensures Kept(r, log + [x])
         == Kept(r, log) + (if r.normalize(x.line) == "" then [] else [Norm(r.normalize(x.line), x.at)])
  {
    assert (log + [x])[..|log|] == log;
  }

  /** One more line that counts. */
  lemma MemorySnoc(k: seq<Norm>, n: Norm)
    ensures
      var novel := n.text !in Remembered(k);
      && Insertions(k + [n]) == (if novel then Insertions(k) + [n] else Insertions(k))
      && Remembered(k + [n])
         == (if !novel then Remembered(k)
             else if |Remembered(k)| < SEEN_CAP then Remembered(k) + [n.text]
             else Remembered(k)[1..] + [n.text])
  {
    assert (k + [n])[..|k|] == k;
    RememberedAfter(Insertions(k), n);
  }

  lemma RecentSnoc(k: seq<Norm>, n: Norm)
    ensures
      var recent := Texts(LastN(k, RECENT_LINES));
      Texts(LastN(k + [n], RECENT_LINES))
      == (if |recent| < RECENT_LINES then recent else recent[1..]) + [n.text]
  {
  }

  lemma SightingsSnoc(r: Rules, log: seq<Seen>, x: Seen)
    ensures Sightings(r, log + [x])
         == Sightings(r, log) + (if r.normalize(x.line) != "" && r.sighting(x.line) then [x] else [])
  {
    assert (log + [x])[..|log|] == log;
  }

  /** One more sighting. */
  lemma HitsStep(times: seq<Instant>)
    requires times != []
    ensures
      var last := |times| - 1;
      var h := Hits(times[..last]);
      Hits(times)
      == if h == [] || Since(times[last], times[h[|h| - 1]]) >= EXHAUSTION_HIT_SPACING then h + [last] else h
  {
  }

  lemma HitsSnoc(times: seq<Instant>, t: Instant)
    ensures
      var h := Hits(times);
      Hits(times + [t])
      == if h == [] || Since(t, times[h[|h| - 1]]) >= EXHAUSTION_HIT_SPACING then h + [|times|] else h
  {
    hide Since, Hits;
    var all, h := times + [t], Hits(times);
    assert all[..|times|] == times && all[|times|] == t;
    HitsStep(all);
    if h != [] {
      assert all[h[|h| - 1]] == times[h[|h| - 1]];
    }
  }

  lemma TimesSnoc(s: seq<Seen>, x: Seen)
    ensures Times(s + [x]) == Times(s) + [x.at]
  {
  }

  lemma CountedSnoc(r: Rules, log: seq<Seen>, x: Seen)
    ensures
      var s, c := Sightings(r, log), Counted(r, log);
      Counted(r, log + [x])
      == if r.normalize(x.line) != "" && r.sighting(x.line)
            && (c == [] || Since(x.at, s[c[|c| - 1]].at) >= EXHAUSTION_HIT_SPACING)
         then c + [|s|] else c
  {
    hide Sightings, Times, Hits;
    var s := Sightings(r, log);
    SightingsSnoc(r, log, x);
    if r.normalize(x.line) != "" && r.sighting(x.line) {
      TimesSnoc(s, x);
      HitsSnoc(Times(s), x.at);
    } else {
      assert s + [] == s;
    }
  }

  /** Position behind the last newline, 0 when there is none. */
  method BehindLastNewline(buf: string) returns (end: nat)
    ensures end <= |buf| && NEWLINE !in buf[end..]
    ensures end > 0 ==> buf[end - 1] == NEWLINE
    ensures end == 0 ==> NEWLINE !in buf
  {
    end := |buf|;
    while end > 0 && buf[end - 1] != NEWLINE
      invariant end <= |buf|
      invariant forall k :: end <= k < |buf| ==> buf[k] != NEWLINE
    {
      end := end - 1;
    }
  }

  /** The counted sighting that came last, if any. */
  function LastCounted(r: Rules, log: seq<Seen>): (s: Option<Seen>)
    ensures s.Some? <==> Counted(r, log) != []
  {
    var c := Counted(r, log);
    if c == [] then None else Some(Sightings(r, log)[c[|c| - 1]])
  }

  lemma LastCountedSnoc(r: Rules, log: seq<Seen>, x: Seen)
    ensures
      var last := LastCounted(r, log);
      var counts := r.normalize(x.line) != "" && r.sighting(x.line)
                    && (last.None? || Since(x.at, last.value.at) >= EXHAUSTION_HIT_SPACING);
      && LastCounted(r, log + [x]) == (if counts then Some(x) else last)
      && |Counted(r, log + [x])| == |Counted(r, log)| + if counts then 1 else 0
  {
    SightingsSnoc(r, log, x);
    CountedSnoc(r, log, x);
  }

  /** The bounded memory as a value: recent lines, the set of seen ones and its age order, last novelty. */
  datatype Memory = Memory(recent: seq<string>, seen: set<string>, order: seq<string>, novelAt: Instant)

  /** A memory with one more line. */
  function MemoryNext(m: Memory, text: string, at: Instant): Memory {
    var grown := m.recent + [text];
    var recent := if |grown| > RECENT_LINES then grown[1..] else grown;
    if text in m.seen then m.(recent := recent)
    else
      var order := m.order + [text];
      if |order| > SEEN_CAP then Memory(recent, m.seen + {text} - {order[0]}, order[1..], at)
      else Memory(recent, m.seen + {text}, order, at)
  }

  /** What the memory should be, read off the full history. */
  function MemoryOf(k: seq<Norm>, start: Instant): Memory {
    Memory(Texts(LastN(k, RECENT_LINES)), Elements(Remembered(k)), Remembered(k), LastNovelAt(k, start))
  }

  /** The set of lines remembered, after one more that counts. */
  lemma SeenSnoc(k: seq<Norm>, n: Norm)
    ensures
      var order, seen := Remembered(k), Elements(Remembered(k));
      Elements(Remembered(k + [n]))
      == if n.text in seen then seen
         else if |order| < SEEN_CAP then seen + {n.text}
         else seen + {n.text} - {(order + [n.text])[0]}
  {
    var order := Remembered(k);
    MemorySnoc(k, n);
    RememberedOnce(k);
    hide Remembered, Insertions;
    if n.text !in order {
      EvictOldest(order, n.text);
    }
  }

  /** And the order they came in. */
  lemma OrderSnoc(k: seq<Norm>, n: Norm)
    ensures
      var order, grown := Remembered(k), Remembered(k) + [n.text];
      Remembered(k + [n])
      == if n.text in Elements(order) then order else if |grown| > SEEN_CAP then grown[1..] else grown
  {
    MemorySnoc(k, n);
    hide Remembered, Insertions;
    var order := Remembered(k);
    if |order| == SEEN_CAP { assert (order + [n.text])[1..] == order[1..] + [n.text]; }
  }

  lemma RecentGrown(k: seq<Norm>, n: Norm)
    ensures
      var grown := Texts(LastN(k, RECENT_LINES)) + [n.text];
      Texts(LastN(k + [n], RECENT_LINES)) == if |grown| > RECENT_LINES then grown[1..] else grown
  {
    RecentSnoc(k, n);
    hide Texts, LastN;
    var recent := Texts(LastN(k, RECENT_LINES));
    if |recent| > 0 { assert (recent + [n.text])[1..] == recent[1..] + [n.text]; }
  }

  lemma MemoryOfSnoc(k: seq<Norm>, start: Instant, n: Norm)
    ensures MemoryOf(k + [n], start) == MemoryNext(MemoryOf(k, start), n.text, n.at)
  {
    SeenSnoc(k, n);
    OrderSnoc(k, n);
    RecentGrown(k, n);
    NoveltySnoc(k, start, n);
    hide Remembered, LastNovelAt, LastN, Insertions, Texts;
  }

  lemma NoveltySnoc(k: seq<Norm>, start: Instant, n: Norm)
    ensures LastNovelAt(k + [n], start) == if n.text in Remembered(k) then LastNovelAt(k, start) else n.at
  {
    MemorySnoc(k, n);
  }

  lemma EvictOldest(order: seq<string>, text: string)
    requires NoDuplicates(order) && text !in order && |order| <= SEEN_CAP
    ensures Elements(order + [text]) == Elements(order) + {text}
    ensures |order| == SEEN_CAP ==>
              && (order + [text])[1..] == order[1..] + [text]
              && Elements(order[1..] + [text]) == Elements(order) + {text} - {(order + [text])[0]}
  {
    ElementsOfLonger(order, text);
    NoDuplicatesSnoc(order, text);
    if |order| == SEEN_CAP {
      ElementsOfRest(order + [text]);
      assert (order + [text])[1..] == order[1..] + [text];
    }
  }

  /** The exhaustion fields as a value. */
  datatype Exhaustion = Exhaustion(line: Option<string>, hits: nat, last: Option<Instant>)

  function ExhaustionNext(r: Rules, e: Exhaustion, line: string, at: Instant): Exhaustion {
    if r.sighting(line) && (e.last.None? || Since(at, e.last.value) >= EXHAUSTION_HIT_SPACING)
    then Exhaustion(Some(r.trim(line)), e.hits + 1, Some(at))
    else e
  }

  /** What they should be, read off the full history. */
  function ExhaustionOf(r: Rules, log: seq<Seen>): (e: Exhaustion)
    ensures e.hits == |Counted(r, log)| && (e.line.Some? <==> e.hits > 0)
  {
    var last := LastCounted(r, log);
    if last.None? then Exhaustion(None, 0, None)
    else Exhaustion(Some(r.trim(last.value.line)), |Counted(r, log)|, Some(last.value.at))
  }

  lemma MemoryViewSnoc(r: Rules, log: seq<Seen>, start: Instant, x: Seen)
    ensures
      var n, m := r.normalize(x.line), MemoryOf(Kept(r, log), start);
      MemoryOf(Kept(r, log + [x]), start) == if n == "" then m else MemoryNext(m, n, x.at)
  {
    KeptSnoc(r, log, x);
    hide Kept, MemoryOf, MemoryNext;
    var n := r.normalize(x.line);
    if n == "" {
      assert Kept(r, log) + [] == Kept(r, log);
    } else {
      MemoryOfSnoc(Kept(r, log), start, Norm(n, x.at));
    }
  }

  lemma ExhaustionViewSnoc(r: Rules, log: seq<Seen>, x: Seen)
    ensures
      var n, e := r.normalize(x.line), ExhaustionOf(r, log);
      ExhaustionOf(r, log + [x]) == if n == "" then e else ExhaustionNext(r, e, x.line, x.at)
  {
    LastCountedSnoc(r, log, x);
    hide LastCounted, Counted;
  }

  /** Both views after one more line. */
  lemma ViewsSnoc(r: Rules, log: seq<Seen>, start: Instant, x: Seen)
    ensures
      var n := r.normalize(x.line);
      var m := MemoryOf(Kept(r, log), start);
      var e := ExhaustionOf(r, log);
      && MemoryOf(Kept(r, log + [x]), start) == (if n == "" then m else MemoryNext(m, n, x.at))
      && ExhaustionOf(r, log + [x]) == if n == "" then e else ExhaustionNext(r, e, x.line, x.at)
  {
    hide *;
    MemoryViewSnoc(r, log, start, x);
    ExhaustionViewSnoc(r, log, x);
  }

  class OutputProgress {
    const rules: Rules
    ghost const start: Instant

    var partial: seq<string>
    var recent: seq<string>
    var seen: set<string>
    var seenOrder: seq<string>
    var lastNovelAt: Instant
    var exhaustionLine: Option<string>
    var exhaustionHits: nat
    var lastExhaustionHit: Option<Instant>
    ghost var log: seq<Seen>

    ghost predicate Valid()
      reads this
    {
      && |partial| == 2
      && MemoryView() == MemoryOf(Kept(rules, log), start)
      && ExhaustionView() == ExhaustionOf(rules, log)
    }

    function MemoryView(): Memory
      reads this
    {
      Memory(recent, seen, seenOrder, lastNovelAt)
    }

    function ExhaustionView(): Exhaustion
      reads this
    {
      Exhaustion(exhaustionLine, exhaustionHits, lastExhaustionHit)
    }

    ghost function Assembled(): (a: Assembly)
      reads this
    {
      Assembly(partial, log)
    }

    constructor (rules: Rules, now: Instant)
      ensures Valid() && Assembled() == EMPTY
      ensures this.rules == rules && start == now
    {
      this.rules, start := rules, now;
      partial, recent, seen, seenOrder := ["", ""], [], {}, [];
      lastNovelAt, exhaustionLine, exhaustionHits, lastExhaustionHit := now, None, 0, None;
      log := [];
    }

    /** Takes in what one read of a stream brought. */
    method Feed(stream: nat, chunk: string, now: Instant)
      requires Valid()
      modifies this
      ensures Valid()
      ensures Assembled() == FeedOne(old(Assembled()), Chunk(stream, chunk, now))
    {
      hide MemoryOf, ExhaustionOf, Lines, Tail, Utf8Len, Kept;
      var s := Slot(stream);
      var buf := partial[s] + chunk;
      var end := BehindLastNewline(buf);
      if end == 0 {
        NoNewline(buf);
        partial := partial[s := buf];
        if Utf8Len(buf) > RUNAWAY_BYTES {
          partial := partial[s := ""];
          Line(buf, now, s);
          TagOne(buf, s, now);
        }
      } else {
        LinesUpToLastNewline(buf, end - 1);
        assert buf[end - 1] == NEWLINE;
        partial := partial[s := buf[end..]];
        FeedLines(Lines(buf[..end]), now, s);
      }
    }

    method FeedLines(lines: seq<string>, now: Instant, ghost s: nat)
      requires Valid()
      modifies this
      ensures Valid() && partial == old(partial)
      ensures log == old(log) + Tag(lines, s, now)
    {
      hide MemoryOf, ExhaustionOf, Kept;
      var i := 0;
      while i < |lines|
        invariant 0 <= i <= |lines|
        invariant Valid() && partial == old(partial)
        invariant log == old(log) + Tag(lines[..i], s, now)
      {
        Line(lines[i], now, s);
        TagSnoc(lines, i, s, now);
        i := i + 1;
      }
      assert lines[..i] == lines;
    }

    method Line(line: string, now: Instant, ghost stream: nat)
      requires Valid()
      modifies this
      ensures Valid() && partial == old(partial)
      ensures log == old(log) + [Seen(stream, line, now)]
    {
      hide Kept, MemoryOf, ExhaustionOf, MemoryNext, ExhaustionNext, LastCounted, Counted;
      ghost var x := Seen(stream, line, now);
      ViewsSnoc(rules, log, start, x);
      var normalized := rules.normalize(line);
      if normalized != "" {
        Remember(normalized, now);
        NoteSighting(line, now);
      }
      log := log + [x];
    }

    /** The first-in-first-out set and the recency window: beyond capacity, the oldest entry goes. */
    method Remember(normalized: string, now: Instant)
      modifies `recent, `seen, `seenOrder, `lastNovelAt
      ensures MemoryView() == MemoryNext(old(MemoryView()), normalized, now)
    {
      if normalized !in seen {
        seen := seen + {normalized};
        lastNovelAt := now;
        seenOrder := seenOrder + [normalized];
        if |seenOrder| > SEEN_CAP {
          seen := seen - {seenOrder[0]};
          seenOrder := seenOrder[1..];
        }
      }
      recent := recent + [normalized];
      if |recent| > RECENT_LINES {
        recent := recent[1..];
      }
    }

    method NoteSighting(line: string, now: Instant)
      modifies `exhaustionHits, `lastExhaustionHit, `exhaustionLine
      ensures ExhaustionView() == ExhaustionNext(rules, old(ExhaustionView()), line, now)
    {
      if rules.sighting(line)
         && (lastExhaustionHit.None? || Since(now, lastExhaustionHit.value) >= EXHAUSTION_HIT_SPACING)
      {
        exhaustionHits := exhaustionHits + 1;
        lastExhaustionHit := Some(now);
        exhaustionLine := Some(rules.trim(line));
      }
    }

    /** Few different lines fill the window of the last. */
    predicate IsRepetitive()
      requires Valid()
      reads this
      ensures IsRepetitive() <==> Repetitive(Kept(rules, log))
    {
      |recent| >= RECENT_LINES && |Elements(recent)| <= MAX_DISTINCT_IN_LOOP
    }

    /** The line to report, as soon as the sightings are enough. */
    function Exhausted(): (line: Option<string>)
      requires Valid()
      reads this
      ensures Chronological(log) ==> (line.Some? <==> ThreeSpaced(Times(Sightings(rules, log))))
      ensures line.Some? ==> exists s :: s in Sightings(rules, log) && line.value == rules.trim(s.line)
    {
      ghost var _ := if Chronological(log) then (ExhaustedExactly(rules, log); 0) else 0;
      if exhaustionHits >= EXHAUSTION_HITS then
        assert LastCounted(rules, log).value in Sightings(rules, log);
        exhaustionLine
      else None
    }

    predicate ExhaustionFirstSeen()
      requires Valid()
      reads this
      ensures ExhaustionFirstSeen() <==> Sightings(rules, log) != []
    {
      FirstSightingCounts(rules, log);
      exhaustionHits >= 1
    }
  }

  /** The very first sighting is always counted. */
  lemma FirstSightingCounts(r: Rules, log: seq<Seen>)
    ensures Counted(r, log) != [] <==> Sightings(r, log) != []
  {
    SomeHit(Times(Sightings(r, log)));
  }

  lemma {:induction false} SomeHit(times: seq<Instant>)
    ensures Hits(times) != [] <==> times != []
  {
    if times != [] {
      SomeHit(times[..|times| - 1]);
    }
  }
}
