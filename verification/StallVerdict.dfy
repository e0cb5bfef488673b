/** The worktree side of the detector and the stall verdict over both histories. */
module StallVerdict {
  import opened Wrappers
  import opened LineAssembly
  import opened ExhaustionHits
  import opened OutputHistory

  type Instant = int

  /** A fingerprint taken by the periodic probe; none when the directory is not a worktree. */
  datatype Print = Print(at: Instant, value: Option<int>)

  /** When the fingerprint last differed from the one before; the time of the first one otherwise. */
  function ChangedAt(prints: seq<Print>): (at: Instant)
    requires prints != []
  {
    var last := |prints| - 1;
    if last == 0 then prints[0].at
    else if prints[last].value != prints[last - 1].value then prints[last].at
    else ChangedAt(prints[..last])
  }

  ghost predicate PrintsInOrder(prints: seq<Print>) {
    forall i, j :: 0 <= i < j < |prints| ==> prints[i].at <= prints[j].at
  }

  /** Position `i` of the poll history shows a change of the worktree. */
  predicate Changes(prints: seq<Print>, i: nat) {
    0 < i < |prints| && prints[i].value != prints[i - 1].value
  }

  lemma ChangedAtStep(prints: seq<Print>)
    requires prints != []
    ensures
      var last := |prints| - 1;
      ChangedAt(prints)
      == if last == 0 || Changes(prints, last) then prints[last].at else ChangedAt(prints[..last])
  {
  }

  lemma FrontChanges(prints: seq<Print>, i: nat)
    requires i + 1 < |prints|
    ensures Changes(prints[..|prints| - 1], i) <==> Changes(prints, i)
    ensures prints[..|prints| - 1][i] == prints[i]
  {
  }

  /** The time of the last change is no earlier than any. */
  lemma {:induction false} NoChangeIsLater(prints: seq<Print>, i: nat)
    requires prints != [] && PrintsInOrder(prints) && (Changes(prints, i) || i == 0)
    ensures prints[i].at <= ChangedAt(prints)
  {
    ChangedAtStep(prints);
    hide ChangedAt;
    var last := |prints| - 1;
    if i < last && !Changes(prints, last) {
      FrontChanges(prints, i);
      NoChangeIsLater(prints[..last], i);
    }
  }

  lemma {:induction false} SomeChangeThen(prints: seq<Print>)
    requires prints != []
    ensures ChangedAt(prints) == prints[0].at
            || exists i: nat :: Changes(prints, i) && prints[i].at == ChangedAt(prints)
  {
    ChangedAtStep(prints);
    hide ChangedAt;
    var last := |prints| - 1;
    if last > 0 && !Changes(prints, last) {
      var front := prints[..last];
      SomeChangeThen(front);
      if ChangedAt(front) != front[0].at {
        var i: nat :| Changes(front, i) && front[i].at == ChangedAt(front);
        FrontChanges(prints, i);
      }
    }
  }

  lemma ChangedAtIsLatest(prints: seq<Print>)
    requires prints != [] && PrintsInOrder(prints)
    ensures prints[0].at <= ChangedAt(prints)
    ensures forall i: nat :: Changes(prints, i) ==> prints[i].at <= ChangedAt(prints)
    ensures ChangedAt(prints) == prints[0].at
            || exists i: nat :: Changes(prints, i) && prints[i].at == ChangedAt(prints)
  {
    NoChangeIsLater(prints, 0);
    forall i: nat | Changes(prints, i) ensures prints[i].at <= ChangedAt(prints) { NoChangeIsLater(prints, i); }
    SomeChangeThen(prints);
  }

  /** The periodic worktree probe. Fingerprints come from the environment. */
  class WorktreeProgress {
    var lastFingerprint: Option<int>
    var lastCheck: Instant
    var lastChange: Instant
    /** What the worktree looked like when exhaustion was sighted first. */
    var exhaustionBaseline: Option<Option<int>>
    ghost var prints: seq<Print>

    ghost predicate Valid()
      reads this
    {
      && prints != []
      && lastFingerprint == prints[|prints| - 1].value
      && lastCheck == prints[|prints| - 1].at
      && lastChange == ChangedAt(prints)
    }

    constructor (fingerprint: Option<int>, now: Instant)
      ensures Valid() && prints == [Print(now, fingerprint)] && exhaustionBaseline == None
    {
      lastFingerprint, lastCheck, lastChange, exhaustionBaseline := fingerprint, now, now, None;
      prints := [Print(now, fingerprint)];
    }

    /** Takes a new fingerprint once `every` has passed since the last one. */
    method Poll(fingerprint: Option<int>, now: Instant, every: int)
      requires Valid()
      modifies this
      ensures Valid() && exhaustionBaseline == old(exhaustionBaseline)
      ensures prints == if Since(now, old(lastCheck)) < every then old(prints)
                        else old(prints) + [Print(now, fingerprint)]
    {
      if Since(now, lastCheck) < every {
        return;
      }
      lastCheck := now;
      if fingerprint != lastFingerprint {
        lastFingerprint := fingerprint;
        lastChange := now;
      }
      assert (prints + [Print(now, fingerprint)])[..|prints|] == prints;
      prints := prints + [Print(now, fingerprint)];
    }

    /** The first call after a sighting fixes the baseline; later calls change nothing. */
    method NoteExhaustionSeen(fingerprint: Option<int>)
      requires Valid()
      modifies this
      ensures Valid() && prints == old(prints)
      ensures lastFingerprint == old(lastFingerprint) && lastCheck == old(lastCheck) && lastChange == old(lastChange)
      ensures exhaustionBaseline
           == if old(exhaustionBaseline).Some? then old(exhaustionBaseline) else Some(fingerprint)
    {
      if exhaustionBaseline.None? {
        exhaustionBaseline := Some(fingerprint);
      }
    }
  }

  predicate UnchangedSinceExhaustion(baseline: Option<Option<int>>, fingerprint: Option<int>) {
    baseline.Some? && baseline.value == fingerprint
  }

  /** The verdict as the program computes it. */
  predicate IsStalled(now: Instant, lastWorktreeChange: Instant, lastNovelOutput: Instant,
                      repetitive: bool, window: int) {
    && window != 0
    && repetitive
    && Since(now, if lastWorktreeChange < lastNovelOutput then lastNovelOutput else lastWorktreeChange) >= window
  }

  /** The last twelve lines are three at most. */
  ghost predicate Loops(k: seq<Norm>) {
    |k| >= 12 && exists a: string, b: string, c: string :: AreAmong(k, {a, b, c})
  }

  ghost predicate AreAmong(k: seq<Norm>, few: set<string>)
    requires |k| >= 12
  {
    forall i :: |k| - 12 <= i < |k| ==> k[i].text in few
  }

  lemma ThreeAtMost(s: set<string>) returns (a: string, b: string, c: string)
    requires s != {} && |s| <= 3
    ensures s <= {a, b, c}
  {
    a :| a in s;
    var s2 := s - {a};
    b :| b in s && (s2 != {} ==> b in s2);
    var s3 := s2 - {b};
    c :| c in s && (s3 != {} ==> c in s3);
    assert s3 != {} ==> |s| == |s3 - {c}| + 3;
  }

  lemma LooksAre(k: seq<Norm>, i: nat)
    requires |k| >= 12 && |k| - 12 <= i < |k|
    ensures k[i].text in Elements(Texts(LastN(k, 12)))
  {
    assert Texts(LastN(k, 12))[i - (|k| - 12)] == k[i].text;
  }

  lemma LookOf(k: seq<Norm>, t: string) returns (i: nat)
    requires |k| >= 12 && t in Elements(Texts(LastN(k, 12)))
    ensures |k| - 12 <= i < |k| && k[i].text == t
  {
    var j :| 0 <= j < 12 && Texts(LastN(k, 12))[j] == t;
    i := |k| - 12 + j;
  }

  lemma AmongExactly(k: seq<Norm>, few: set<string>)
    requires |k| >= 12
    ensures AreAmong(k, few) <==> Elements(Texts(LastN(k, 12))) <= few
  {
    hide Elements, Texts, LastN;
    if AreAmong(k, few) {
      forall t | t in Elements(Texts(LastN(k, 12))) ensures t in few { var i := LookOf(k, t); }
    }
    forall i | |k| - 12 <= i < |k| ensures k[i].text in Elements(Texts(LastN(k, 12))) { LooksAre(k, i); }
  }

  /** The detector's test for a loop. */
  lemma LoopsExactly(k: seq<Norm>)
    ensures Repetitive(k) <==> Loops(k)
  {
    if |k| >= 12 {
      var last := Elements(Texts(LastN(k, 12)));
      LooksAre(k, |k| - 1);
      hide Elements, Texts, LastN, AreAmong;
      if |last| <= 3 {
        var a, b, c := ThreeAtMost(last);
        AmongExactly(k, {a, b, c});
      } else {
        forall a: string, b: string, c: string ensures !AreAmong(k, {a, b, c}) {
          AmongExactly(k, {a, b, c});
          SmallerSet(last, {a, b, c});
        }
      }
    }
  }

  lemma SmallerSet(s: set<string>, t: set<string>)
    ensures s <= t ==> |s| <= |t|
  {
    if s <= t {
      assert t == s + (t - s);
    }
  }

  lemma LoopsAreLong(k: seq<Norm>)
    requires Loops(k)
    ensures k != []
  {
  }

  /** Nothing new since `window`: no first occurrence of a line, no start or change of the worktree history. */
  ghost predicate Quiet(k: seq<Norm>, prints: seq<Print>, now: Instant, window: int) {
    && (forall i :: 0 <= i < |k| && (forall j :: 0 <= j < i ==> k[j].text != k[i].text)
                    ==> now - k[i].at >= window)
    && (prints != [] ==> now - prints[0].at >= window)
    && (forall i: nat :: Changes(prints, i) ==> now - prints[i].at >= window)
  }

  /** A stall verdict means a full window of looping output without anything new. */
  lemma StallMeansNoProgress(r: Rules, log: seq<Seen>, start: Instant, prints: seq<Print>, now: Instant, window: int)
    requires Chronological(log) && prints != [] && PrintsInOrder(prints) && window >= 0
    requires IsStalled(now, ChangedAt(prints), LastNovelAt(Kept(r, log), start), Repetitive(Kept(r, log)), window)
    ensures window > 0 && Loops(Kept(r, log))
    ensures Quiet(Kept(r, log), prints, now, window)
  {
    var k := Kept(r, log);
    LoopsExactly(k);
    KeptInOrder(r, log);
    ChangedAtIsLatest(prints);
    hide Kept, Repetitive, Loops, LastNovelAt;
    forall i | 0 <= i < |k| && (forall j :: 0 <= j < i ==> k[j].text != k[i].text)
      ensures now - k[i].at >= window
    {
      NovelAfterEveryFirst(k, start, i);
    }
  }

  /** As long as the memory has not overflowed, the verdict is exactly that. */
  lemma StallExactly(r: Rules, log: seq<Seen>, start: Instant, prints: seq<Print>, now: Instant, window: int)
    requires Chronological(log) && prints != [] && PrintsInOrder(prints) && window >= 0
    requires |Elements(Texts(Kept(r, log)))| <= 1024
    ensures IsStalled(now, ChangedAt(prints), LastNovelAt(Kept(r, log), start), Repetitive(Kept(r, log)), window)
       <==> window > 0 && Loops(Kept(r, log)) && Quiet(Kept(r, log), prints, now, window)
  {
    var k := Kept(r, log);
    LoopsExactly(k);
    hide Repetitive, Loops;
    if window > 0 && Repetitive(k) && Quiet(k, prints, now, window) {
      ChangedAtIsLatest(prints);
      assert |k| > 0 by { LoopsAreLong(k); }
      var i := LatestFirst(k, start);
      assert now - k[i].at >= window;
    } else if IsStalled(now, ChangedAt(prints), LastNovelAt(k, start), Repetitive(k), window) {
      StallMeansNoProgress(r, log, start, prints, now, window);
    }
  }

  /** Within the capacity the novelty time is that of a true first occurrence. */
  lemma LatestFirst(k: seq<Norm>, start: Instant) returns (i: nat)
    requires k != [] && |Elements(Texts(k))| <= 1024
    ensures i < |k| && k[i].at == LastNovelAt(k, start)
    ensures forall j :: 0 <= j < i ==> k[j].text != k[i].text
  {
    NoveltyTimeIsExact(k, start);
    i := LastFirstOccurrence(k);
  }

  lemma TextsNonempty(k: seq<Norm>, text: string)
    requires text in Texts(k)
    ensures k != []
  {
  }

  lemma NotAmong(k: seq<Norm>, text: string)
    requires text !in Texts(k)
    ensures forall j :: 0 <= j < |k| ==> k[j].text != text
  {
    forall j | 0 <= j < |k| ensures k[j].text != text {
      assert Texts(k)[j] == k[j].text;
    }
  }

  lemma {:induction false} LastFirstOccurrence(k: seq<Norm>) returns (i: nat)
    requires k != []
    ensures i < |k| && FirstOccurrences(k) != []
    ensures FirstOccurrences(k)[|FirstOccurrences(k)| - 1] == k[i]
    ensures forall j :: 0 <= j < i ==> k[j].text != k[i].text
  {
    hide FirstOccurrences, Texts;
    FirstOccurrencesStep(k);
    var n := |k| - 1;
    var front := k[..n];
    if k[n].text in Texts(front) {
      TextsNonempty(front, k[n].text);
      i := LastFirstOccurrence(front);
    } else {
      i := n;
      NotAmong(front, k[n].text);
    }
  }
}
