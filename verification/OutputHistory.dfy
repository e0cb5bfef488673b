/**
 * What the detector's bounded memory should mean, stated on the full history
 * of output lines, and what the bounded definitions say about that history.
 */
module OutputHistory {
  import opened Wrappers
  import opened LineAssembly
  import opened ExhaustionHits

  type Instant = int

  const RECENT_LINES: nat := 12
  const MAX_DISTINCT_IN_LOOP: nat := 3
  const SEEN_CAP: nat := 1024

  /** Text processing the memory is independent of: normal form of a line, and
      whether a line is an exhaustion error of the agent's own. */
  datatype Rules = Rules(normalize: string -> string, sighting: string -> bool, trim: string -> string)

  /** A line that counts: its normal form is not empty. */
  datatype Norm = Norm(text: string, at: Instant)

  function Kept(r: Rules, log: seq<Seen>): (k: seq<Norm>)
    ensures forall i :: 0 <= i < |k| ==> k[i].text != ""
  {
    if log == [] then []
    else
      var last := log[|log| - 1];
      var n := r.normalize(last.line);
      Kept(r, log[..|log| - 1]) + (if n == "" then [] else [Norm(n, last.at)])
  }

  function Texts(k: seq<Norm>): (t: seq<string>)
    ensures |t| == |k| && forall i :: 0 <= i < |t| ==> t[i] == k[i].text
  {
    seq(|k|, i requires 0 <= i < |k| => k[i].text)
  }

  /** `text` is among the last `SEEN_CAP` of `ins`. */
  predicate Held(ins: seq<Norm>, text: string) {
    exists i :: 0 <= i < |ins| && |ins| - SEEN_CAP <= i && ins[i].text == text
  }

  /** The lines the first-in-first-out memory takes in: those not among the last `SEEN_CAP` it took in. */
  function Insertions(k: seq<Norm>): (ins: seq<Norm>)
    ensures |ins| <= |k|
  {
    if k == [] then []
    else
      var ins := Insertions(k[..|k| - 1]);
      var last := k[|k| - 1];
      if Held(ins, last.text) then ins else ins + [last]
  }

  /** The memory's contents, oldest first. */
  function Remembered(k: seq<Norm>): (m: seq<string>)
    ensures |m| <= SEEN_CAP
  {
    Texts(LastN(Insertions(k), SEEN_CAP))
  }

  /** When the memory last took a line in; `start` before the first. */
  function LastNovelAt(k: seq<Norm>, start: Instant): (at: Instant) {
    var ins := Insertions(k);
    if ins == [] then start else ins[|ins| - 1].at
  }

  /** The true first occurrences in the full history. */
  function FirstOccurrences(k: seq<Norm>): (f: seq<Norm>)
    ensures forall x :: x in Texts(f) <==> x in Texts(k)
    ensures NoDuplicates(Texts(f))
  {
    if k == [] then []
    else
      var front, last := k[..|k| - 1], k[|k| - 1];
      var f := FirstOccurrences(front);
      assert Texts(k) == Texts(front) + [last.text];
      if last.text in Texts(front) then f
      else
        assert Texts(f + [last]) == Texts(f) + [last.text];
        f + [last]
  }

  lemma FirstOccurrencesStep(k: seq<Norm>)
    requires k != []
    ensures
      var front, last := k[..|k| - 1], k[|k| - 1];
      FirstOccurrences(k)
      == if last.text in Texts(front) then FirstOccurrences(front) else FirstOccurrences(front) + [last]
  {
  }

  function Sightings(r: Rules, log: seq<Seen>): (s: seq<Seen>)
  {
    if log == [] then []
    else
      var last := log[|log| - 1];
      Sightings(r, log[..|log| - 1])
      + (if r.normalize(last.line) != "" && r.sighting(last.line) then [last] else [])
  }

  function Times(s: seq<Seen>): (t: seq<Instant>)
    ensures |t| == |s| && forall i :: 0 <= i < |t| ==> t[i] == s[i].at
  {
    seq(|s|, i requires 0 <= i < |s| => s[i].at)
  }

  /** The sightings that were counted. */
  function Counted(r: Rules, log: seq<Seen>): (c: seq<nat>)
    ensures forall i :: 0 <= i < |c| ==> c[i] < |Sightings(r, log)|
  {
    Hits(Times(Sightings(r, log)))
  }

  predicate Repetitive(k: seq<Norm>) {
    |k| >= RECENT_LINES && |Elements(Texts(LastN(k, RECENT_LINES)))| <= MAX_DISTINCT_IN_LOOP
  }

  ghost predicate Chronological(log: seq<Seen>) {
    forall i, j :: 0 <= i < j < |log| ==> log[i].at <= log[j].at
  }

  ghost predicate InOrder(k: seq<Norm>) {
    forall i, j :: 0 <= i < j < |k| ==> k[i].at <= k[j].at
  }

  lemma HeldAmongLast(ins: seq<Norm>, text: string)
    requires Held(ins, text)
    ensures text in Texts(LastN(ins, SEEN_CAP))
  {
    var m := LastN(ins, SEEN_CAP);
    var i :| 0 <= i < |ins| && |ins| - SEEN_CAP <= i && ins[i].text == text;
    assert m[i - (|ins| - |m|)] == ins[i];
    assert Texts(m)[i - (|ins| - |m|)] == text;
  }

  lemma AmongLastHeld(ins: seq<Norm>, text: string)
    requires text in Texts(LastN(ins, SEEN_CAP))
    ensures Held(ins, text)
  {
    var m := LastN(ins, SEEN_CAP);
    var p :| 0 <= p < |m| && Texts(m)[p] == text;
    assert ins[p + (|ins| - |m|)] == m[p];
  }

  lemma HeldIsRemembered(k: seq<Norm>, text: string)
    ensures Held(Insertions(k), text) <==> text in Remembered(k)
  {
    hide Held, Insertions, Texts, LastN;
    if Held(Insertions(k), text) { HeldAmongLast(Insertions(k), text); }
    if text in Remembered(k) { AmongLastHeld(Insertions(k), text); }
  }

  lemma InsertionsStep(k: seq<Norm>)
    requires k != []
    ensures
      var front, last := k[..|k| - 1], k[|k| - 1];
      Insertions(k) == if last.text in Remembered(front) then Insertions(front) else Insertions(front) + [last]
  {
    HeldIsRemembered(k[..|k| - 1], k[|k| - 1].text);
  }

  // ---- The bounded memory against the full history ----

  /** The memory never holds a line twice, nor more than 1024. */
  lemma {:induction false} RememberedOnce(k: seq<Norm>)
    ensures NoDuplicates(Remembered(k)) && |Remembered(k)| <= 1024
  {
    if k != [] {
      var front, last := k[..|k| - 1], k[|k| - 1];
      RememberedOnce(front);
      InsertionsStep(k);
      hide Insertions;
      if last.text !in Remembered(front) {
        RememberedAfter(Insertions(front), last);
      }
    }
  }

  lemma RememberedAfter(ins: seq<Norm>, last: Norm)
    ensures
      var before := Texts(LastN(ins, SEEN_CAP));
      Texts(LastN(ins + [last], SEEN_CAP))
      == (if |before| < SEEN_CAP then before else before[1..]) + [last.text]
  {
  }

  lemma FirstOccurrenceCount(k: seq<Norm>)
    ensures |FirstOccurrences(k)| == |Elements(Texts(k))|
  {
    var f := Texts(FirstOccurrences(k));
    NoDuplicatesCount(f);
    assert Elements(f) == Elements(Texts(k));
  }

  lemma TextsOfFront(k: seq<Norm>)
    requires k != []
    ensures Texts(k) == Texts(k[..|k| - 1]) + [k[|k| - 1].text]
    ensures |Elements(Texts(k[..|k| - 1]))| <= |Elements(Texts(k))|
  {
    var front := Texts(k[..|k| - 1]);
    assert Texts(k) == front + [k[|k| - 1].text];
    ElementsOfLonger(front, k[|k| - 1].text);
  }

  /** While at most 1024 different lines have appeared, the memory takes in exactly the first occurrences. */
  lemma {:induction false} SmallHistoriesAreExact(k: seq<Norm>)
    requires |Elements(Texts(k))| <= 1024
    ensures Insertions(k) == FirstOccurrences(k)
  {
    if k != [] {
      var front := k[..|k| - 1];
      TextsOfFront(k);
      SmallHistoriesAreExact(front);
      FirstOccurrenceCount(front);
      assert LastN(Insertions(front), SEEN_CAP) == FirstOccurrences(front);
    }
  }

  lemma RememberedWasSeen(k: seq<Norm>, text: string)
    requires text in Remembered(k)
    ensures exists j :: 0 <= j < |k| && k[j].text == text
  {
    var m := LastN(Insertions(k), SEEN_CAP);
    var p :| 0 <= p < |m| && Texts(m)[p] == text;
    InsertedWereSeen(k);
    assert m[p] in Insertions(k);
  }

  /** No line's first occurrence is ever missed, however long the history. */
  lemma {:induction false} NovelAfterEveryFirst(k: seq<Norm>, start: Instant, i: nat)
    requires InOrder(k) && i < |k|
    requires forall j :: 0 <= j < i ==> k[j].text != k[i].text
    ensures k[i].at <= LastNovelAt(k, start) && Insertions(k) != []
  {
    var front, last := k[..|k| - 1], k[|k| - 1];
    if i < |k| - 1 {
      NovelAfterEveryFirst(front, start, i);
      var ins := Insertions(front);
      if last.text !in Remembered(front) {
        InsertedWereSeen(front);
        assert ins[|ins| - 1] in front;
      }
    } else if last.text in Remembered(front) {
      RememberedWasSeen(front, last.text);
      assert false;
    }
  }

  lemma {:induction false} InsertedWereSeen(k: seq<Norm>)
    ensures forall n :: n in Insertions(k) ==> n in k
  {
    if k != [] {
      InsertedWereSeen(k[..|k| - 1]);
    }
  }

  /** The exact reading of the novelty time within the capacity. */
  lemma NoveltyTimeIsExact(k: seq<Norm>, start: Instant)
    requires |Elements(Texts(k))| <= 1024
    ensures LastNovelAt(k, start)
         == (var f := FirstOccurrences(k); if f == [] then start else f[|f| - 1].at)
  {
    SmallHistoriesAreExact(k);
  }

  ghost predicate IsKept(r: Rules, n: Norm, x: Seen) {
    n.text != "" && r.normalize(x.line) == n.text && x.at == n.at
  }

  /** `sel` are the positions of the kept lines: in order, and all whose normal form is not empty. */
  ghost predicate AreKeptAt(r: Rules, log: seq<Seen>, kept: seq<Norm>, sel: seq<nat>) {
    && |sel| == |kept|
    && (forall k :: 0 <= k < |sel| ==> sel[k] < |log| && IsKept(r, kept[k], log[sel[k]]))
    && (forall j, k :: 0 <= j < k < |sel| ==> sel[j] < sel[k])
    && (forall i: nat :: i < |log| && r.normalize(log[i].line) != "" ==> i in sel)
  }

  lemma KeptAtSnoc(r: Rules, log: seq<Seen>, x: Seen, kept: seq<Norm>, sel: seq<nat>) returns (more: seq<nat>)
    requires AreKeptAt(r, log, kept, sel)
    ensures
      var n := r.normalize(x.line);
      AreKeptAt(r, log + [x], kept + (if n == "" then [] else [Norm(n, x.at)]), more)
  {
    if r.normalize(x.line) == "" {
      more := sel;
      assert kept + [] == kept;
    } else {
      more := sel + [|log|];
    }
  }

  /** Exactly the lines whose normal form is not empty are kept, in that form. */
  lemma {:induction false} KeptExactly(r: Rules, log: seq<Seen>) returns (sel: seq<nat>)
    ensures AreKeptAt(r, log, Kept(r, log), sel)
  {
    if log == [] {
      sel := [];
    } else {
      sel := KeptExactly(r, log[..|log| - 1]);
      assert log == log[..|log| - 1] + [log[|log| - 1]];
      hide AreKeptAt;
      sel := KeptAtSnoc(r, log[..|log| - 1], log[|log| - 1], Kept(r, log[..|log| - 1]), sel);
    }
  }

  lemma {:induction false} KeptInOrder(r: Rules, log: seq<Seen>)
    requires Chronological(log)
    ensures InOrder(Kept(r, log))
    ensures forall i :: 0 <= i < |Kept(r, log)| ==> exists j :: 0 <= j < |log| && log[j].at == Kept(r, log)[i].at
  {
    if log != [] {
      var front := log[..|log| - 1];
      KeptInOrder(r, front);
      var k := Kept(r, front);
      forall i | 0 <= i < |k| ensures k[i].at <= log[|log| - 1].at {
        var j :| 0 <= j < |front| && front[j].at == k[i].at;
        assert log[j] == front[j];
      }
      forall i | 0 <= i < |Kept(r, log)|
        ensures exists j :: 0 <= j < |log| && log[j].at == Kept(r, log)[i].at
      {
        if i < |k| {
          var j :| 0 <= j < |front| && front[j].at == k[i].at;
          assert log[j] == front[j];
        } else {
          assert log[|log| - 1].at == Kept(r, log)[i].at;
        }
      }
    }
  }

  // ---- Exhaustion ----

  lemma {:induction false} SightingsInOrder(r: Rules, log: seq<Seen>)
    requires Chronological(log)
    ensures Nondecreasing(Times(Sightings(r, log)))
    ensures forall s :: s in Sightings(r, log) <==> s in log && r.normalize(s.line) != "" && r.sighting(s.line)
  {
    if log != [] {
      SightingsInOrder(r, log[..|log| - 1]);
    }
  }

  /** The count is the largest possible, and reaches the threshold exactly
      when three sightings lie at least the spacing apart. */
  lemma ExhaustedExactly(r: Rules, log: seq<Seen>)
    requires Chronological(log)
    ensures LargestSpaced(Times(Sightings(r, log)), |Counted(r, log)|)
    ensures |Counted(r, log)| >= 3 <==> ThreeSpaced(Times(Sightings(r, log)))
  {
    var t := Times(Sightings(r, log));
    SightingsInOrder(r, log);
    GreedyIsOptimal(t);
    ThreeHitsExactly(t);
  }
}
