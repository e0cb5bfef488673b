/** Occurrences of one text inside another. */
module Substrings {
  import opened Wrappers

  predicate At(s: string, p: string, i: nat) {
    i + |p| <= |s| && s[i..i + |p|] == p
  }

  /** An occurrence cuts the text in three. */
  lemma AtExactly(s: string, p: string, i: nat)
    ensures At(s, p, i) <==> exists x: string, y: string :: s == x + p + y && |x| == i
  {
    if At(s, p, i) {
      assert s == s[..i] + p + s[i + |p|..];
    }
  }

  ghost predicate Occurs(s: string, p: string) {
    exists i: nat :: At(s, p, i)
  }

  /** The first occurrence at or behind `from`. */
  function FindFrom(s: string, p: string, from: nat): (r: Option<nat>)
    requires from <= |s|
    ensures r.Some? ==> from <= r.value && r.value + |p| <= |s| && At(s, p, r.value)
    ensures r.Some? ==> forall j :: from <= j < r.value ==> !At(s, p, j)
    ensures r.None? ==> forall j :: from <= j ==> !At(s, p, j)
    decreases |s| - from
  {
    if At(s, p, from) then Some(from)
    else if from == |s| then None
    else FindFrom(s, p, from + 1)
  }

  /** The first occurrence. */
  function Find(s: string, p: string): (r: Option<nat>)
    ensures r.Some? ==> r.value + |p| <= |s| && At(s, p, r.value)
    ensures r.Some? ==> forall j :: 0 <= j < r.value ==> !At(s, p, j)
    ensures r.None? ==> forall j :: 0 <= j ==> !At(s, p, j)
    ensures r.Some? <==> Occurs(s, p)
  {
    FindFrom(s, p, 0)
  }

  lemma AtOne(s: string, mark: char, i: nat)
    ensures At(s, [mark], i) <==> i < |s| && s[i] == mark
  {
    if i < |s| {
      assert s[i..i + 1] == [s[i]];
    }
  }

  /** A character is found where it first stands, which cuts the text in two. */
  lemma FirstAt(before: string, mark: char, after: string)
    requires mark !in before
    ensures
      var s := before + [mark] + after;
      Find(s, [mark]) == Some(|before|) && s[..|before|] == before && s[|before| + 1..] == after
  {
    var s := before + [mark] + after;
    assert s[|before|] == mark && forall j :: 0 <= j < |before| ==> s[j] == before[j];
    forall j: nat ensures At(s, [mark], j) <==> j < |s| && s[j] == mark { AtOne(s, mark, j); }
  }

  lemma NoneAt(s: string, mark: char)
    requires mark !in s
    ensures Find(s, [mark]).None?
  {
    forall j: nat ensures At(s, [mark], j) <==> j < |s| && s[j] == mark { AtOne(s, mark, j); }
  }

  predicate Contains(s: string, p: string)
    ensures Contains(s, p) <==> Occurs(s, p)
  {
    Find(s, p).Some?
  }

  /** One of the patterns occurs. */
  predicate Has(s: string, patterns: seq<string>) {
    exists i :: 0 <= i < |patterns| && Contains(s, patterns[i])
  }

  /** The phrase is part of the text. */
  ghost predicate Says(s: string, p: string) {
    exists x: string, y: string :: s == x + p + y
  }

  ghost predicate SaysAny(s: string, ps: seq<string>) {
    exists i :: 0 <= i < |ps| && Says(s, ps[i])
  }

  lemma ContainsSays(s: string, p: string)
    ensures Contains(s, p) <==> Says(s, p)
  {
    if Contains(s, p) {
      var i: nat :| At(s, p, i);
      AtExactly(s, p, i);
    }
    if x: string, y: string :| s == x + p + y {
      AtExactly(s, p, |x|);
    }
  }

  lemma HasSays(s: string, ps: seq<string>)
    ensures Has(s, ps) <==> SaysAny(s, ps)
  {
    forall i | 0 <= i < |ps| ensures Contains(s, ps[i]) <==> Says(s, ps[i]) {
      ContainsSays(s, ps[i]);
    }
  }

  lemma FewSays(s: string, ps: seq<string>)
    requires |ps| <= 6
    ensures Has(s, ps)
            <==> || (|ps| > 0 && Says(s, ps[0])) || (|ps| > 1 && Says(s, ps[1])) || (|ps| > 2 && Says(s, ps[2]))
                 || (|ps| > 3 && Says(s, ps[3])) || (|ps| > 4 && Says(s, ps[4])) || (|ps| > 5 && Says(s, ps[5]))
  {
    HasSays(s, ps);
    hide Has, Says;
  }
}
