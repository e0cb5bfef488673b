/**
 * The greedy count of spaced exhaustion sightings. Times are nanoseconds on
 * the process's monotonic clock.
 */
module ExhaustionHits {

  type Instant = int

  const SECOND: int := 1_000_000_000
  const EXHAUSTION_HITS: nat := 3
  const EXHAUSTION_HIT_SPACING: int := 15 * SECOND

  /** Elapsed time, zero when `earlier` is in fact later. */
  function Since(later: Instant, earlier: Instant): (d: int)
    ensures d >= 0
  {
    if later < earlier then 0 else later - earlier
  }

  ghost predicate Nondecreasing(times: seq<Instant>) {
    forall i, j :: 0 <= i < j < |times| ==> times[i] <= times[j]
  }

  /** The sightings the detector counts: each one far enough after the last counted one. */
  function Hits(times: seq<Instant>): (h: seq<nat>)
    ensures forall k :: 0 <= k < |h| ==> h[k] < |times|
  {
    if times == [] then []
    else
      var last := |times| - 1;
      var h := Hits(times[..last]);
      if h == [] || Since(times[last], times[h[|h| - 1]]) >= EXHAUSTION_HIT_SPACING
      then h + [last]
      else h
  }

  /** `sel` picks sightings in order, any two of them at least the spacing apart. */
  ghost predicate Spaced(times: seq<Instant>, sel: seq<nat>) {
    && (forall k :: 0 <= k < |sel| ==> sel[k] < |times|)
    && (forall j, k :: 0 <= j < k < |sel| ==>
          sel[j] < sel[k] && times[sel[k]] - times[sel[j]] >= EXHAUSTION_HIT_SPACING)
  }

  /** The counted sightings are themselves a spaced selection. */
  lemma {:induction false} HitsAreSpaced(times: seq<Instant>)
    requires Nondecreasing(times)
    ensures Spaced(times, Hits(times))
  {
    if times != [] {
      var last := |times| - 1;
      var front := times[..last];
      HitsAreSpaced(front);
      var h := Hits(front);
      assert forall k :: 0 <= k < |h| ==> times[h[k]] == front[h[k]];
    }
  }

  /** Dropping the last sighting, unless the selection uses it, leaves a selection. */
  lemma SpacedFront(times: seq<Instant>, sel: seq<nat>)
    requires times != [] && Spaced(times, sel)
    requires sel == [] || sel[|sel| - 1] < |times| - 1
    ensures Spaced(times[..|times| - 1], sel)
  {
    forall k | 0 <= k < |sel| ensures sel[k] < |times| - 1 {
      if k < |sel| - 1 {
        assert sel[k] < sel[|sel| - 1];
      }
    }
  }

  /** The last pick of a selection, and what the picks before it are. */
  lemma SpacedLast(times: seq<Instant>, sel: seq<nat>)
    requires Spaced(times, sel) && sel != []
    ensures
      var n := |sel| - 1;
      && sel[n] < |times|
      && Spaced(times, sel[..n])
      && (n > 0 ==> sel[n - 1] < sel[n] && times[sel[n]] - times[sel[n - 1]] >= EXHAUSTION_HIT_SPACING)
  {
  }

  /** One more sighting leaves the counted ones alone, and counts when far enough behind the last. */
  lemma HitsGrow(times: seq<Instant>)
    requires times != []
    ensures
      var last := |times| - 1;
      var h, all := Hits(times[..last]), Hits(times);
      && (forall k :: 0 <= k < |h| ==> k < |all| && all[k] == h[k])
      && ((h == [] || times[last] - times[h[|h| - 1]] >= EXHAUSTION_HIT_SPACING)
          ==> |all| == |h| + 1 && all[|h|] == last)
  {
  }

  /** Greedy stays ahead: its k-th sighting comes no later than any selection's k-th. */
  lemma {:induction false} GreedyStaysAhead(times: seq<Instant>, sel: seq<nat>)
    requires Nondecreasing(times) && Spaced(times, sel) && sel != []
    ensures |Hits(times)| >= |sel| && sel[|sel| - 1] < |times|
    ensures times[Hits(times)[|sel| - 1]] <= times[sel[|sel| - 1]]
  {
    hide Spaced, Hits;
    SpacedLast(times, sel);
    HitsGrow(times);
    var last, n := |times| - 1, |sel|;
    var front := times[..last];
    if sel[n - 1] < last {
      SpacedFront(times, sel);
      GreedyStaysAhead(front, sel);
    } else if n > 1 {
      SpacedFront(times, sel[..n - 1]);
      GreedyStaysAhead(front, sel[..n - 1]);
    }
  }

  /** The count is the size of the largest spaced selection. */
  ghost predicate LargestSpaced(times: seq<Instant>, n: nat) {
    && (exists sel :: Spaced(times, sel) && |sel| == n)
    && (forall sel :: Spaced(times, sel) ==> |sel| <= n)
  }

  lemma GreedyIsOptimal(times: seq<Instant>)
    requires Nondecreasing(times)
    ensures LargestSpaced(times, |Hits(times)|)
  {
    HitsAreSpaced(times);
    forall sel | Spaced(times, sel) ensures |sel| <= |Hits(times)| {
      if sel != [] {
        GreedyStaysAhead(times, sel);
      }
    }
  }

  /** Three sightings, any two of them at least fifteen seconds apart. */
  ghost predicate ThreeSpaced(times: seq<Instant>) {
    exists i, j, k :: 0 <= i < j < k < |times|
                      && times[j] - times[i] >= 15_000_000_000
                      && times[k] - times[j] >= 15_000_000_000
  }

  lemma SpacedTriple(times: seq<Instant>, i: nat, j: nat, k: nat)
    requires Nondecreasing(times) && i < j < k < |times|
    requires times[j] - times[i] >= EXHAUSTION_HIT_SPACING
    requires times[k] - times[j] >= EXHAUSTION_HIT_SPACING
    ensures |Hits(times)| >= EXHAUSTION_HITS
  {
    var sel := [i, j, k];
    assert Spaced(times, sel);
    GreedyStaysAhead(times, sel);
  }

  /** Three counted hits exist exactly when three spaced sightings do. */
  lemma ThreeHitsExactly(times: seq<Instant>)
    requires Nondecreasing(times)
    ensures |Hits(times)| >= 3 <==> ThreeSpaced(times)
  {
    if ThreeSpaced(times) {
      var i, j, k :| 0 <= i < j < k < |times|
                     && times[j] - times[i] >= EXHAUSTION_HIT_SPACING
                     && times[k] - times[j] >= EXHAUSTION_HIT_SPACING;
      SpacedTriple(times, i, j, k);
    }
    if |Hits(times)| >= EXHAUSTION_HITS {
      HitsAreSpaced(times);
      var h := Hits(times);
      assert h[0] < h[1] < h[2];
    }
  }
}
