/** Marker-delimited blocks kept up to date inside a file the user owns. */
module ManagedBlock {
  import opened Wrappers
  import opened Substrings

  datatype Block = Block(start: string, end: string, text: string) {
    function Full(): string {
      start + "\n" + text + "\n" + end
    }

    /** Markers are single lines, and the end marker is found in neither the start marker nor the text. */
    ghost predicate Proper() {
      '\n' !in start && '\n' !in end && !Occurs(start, end) && !Occurs(text, end)
    }
  }

  /** From the first start marker to the end of the first end marker behind it. */
  function Region(c: string, m: Block): (r: Option<(nat, nat)>)
    ensures r.Some? ==> r.value.0 + |m.end| <= r.value.1 <= |c|
  {
    var s := Find(c, m.start);
    if s.None? then None
    else
      var e := FindFrom(c, m.end, s.value);
      if e.None? then None else Some((s.value, e.value + |m.end|))
  }

  /** A start marker without an end marker: a block cut off by hand. */
  predicate Dangling(c: string, m: Block) {
    Find(c, m.start).Some? && Region(c, m).None?
  }

  predicate Current(c: string, m: Block) {
    Region(c, m).Some? && c[Region(c, m).value.0..Region(c, m).value.1] == m.Full()
  }

  function Separator(c: string): string {
    if c == "" || c[|c| - 1] == '\n' then "" else "\n"
  }

  /** What the text becomes; the flag says if that is another text. */
  function Upsert(c: string, m: Block): (string, bool) {
    var s := Find(c, m.start);
    if s.Some? then
      var rel := FindFrom(c, m.end, s.value);
      if rel.None? then (c, false)
      else
        var e := rel.value + |m.end|;
        if c[s.value..e] == m.Full() then (c, false)
        else (c[..s.value] + m.Full() + c[e..], true)
    else (c + Separator(c) + m.Full() + "\n", true)
  }

  // ---- Occurrences in concatenations ----

  lemma AtPrefix(a: string, b: string, p: string, i: nat)
    requires i + |p| <= |a|
    ensures At(a + b, p, i) <==> At(a, p, i)
  {
    assert (a + b)[i..i + |p|] == a[i..i + |p|];
  }

  lemma AtSuffix(a: string, b: string, p: string, i: nat)
    requires |a| <= i
    ensures At(a + b, p, i) <==> At(b, p, i - |a|)
  {
    if i + |p| <= |a + b| {
      assert (a + b)[i..i + |p|] == b[i - |a|..i - |a| + |p|];
    }
  }

  /** What has no newline lies on one side of it. */
  lemma NewlineSplits(a: string, b: string, p: string, i: nat)
    requires At(a + "\n" + b, p, i)
    ensures '\n' in p || i + |p| <= |a| || |a| < i
  {
    if i <= |a| < i + |p| {
      assert p[|a| - i] == (a + "\n" + b)[i..i + |p|][|a| - i];
    }
  }

  lemma FindFromIs(s: string, p: string, from: nat, r: nat)
    requires from <= r && from <= |s| && At(s, p, r) && forall j: nat :: from <= j < r ==> !At(s, p, j)
    ensures FindFrom(s, p, from) == Some(r)
  {
    hide At, FindFrom;
  }

  /** With no occurrence beginning in front of `w`, the first is the first in `w`. */
  lemma FindBehind(x: string, w: string, p: string)
    requires forall j: nat :: j < |x| ==> !At(x + w, p, j)
    ensures
      var f := Find(w, p);
      Find(x + w, p) == if f.None? then None else Some(|x| + f.value)
  {
    var f, g := Find(w, p), Find(x + w, p);
    hide At, Find, FindFrom;
    if f.Some? { AtSuffix(x, w, p, |x| + f.value); }
    if g.Some? { AtSuffix(x, w, p, g.value); }
  }

  lemma FindFromBehind(x: string, w: string, p: string, i: nat)
    requires i <= |w|
    ensures
      var f := FindFrom(w, p, i);
      FindFrom(x + w, p, |x| + i) == if f.None? then None else Some(|x| + f.value)
  {
    hide At, FindFrom;
    var f, g := FindFrom(w, p, i), FindFrom(x + w, p, |x| + i);
    if f.Some? { AtSuffix(x, w, p, |x| + f.value); }
    if g.Some? { AtSuffix(x, w, p, g.value); }
  }

  // ---- Regions in concatenations ----

  lemma FindFromOfPrefix(a: string, b: string, p: string, from: nat, r: nat)
    requires from <= r && r + |p| <= |a|
    ensures FindFrom(a, p, from) == Some(r) <==> FindFrom(a + b, p, from) == Some(r)
  {
    AtPrefix(a, b, p, r);
    forall j: nat | from <= j < r ensures At(a + b, p, j) <==> At(a, p, j) { AtPrefix(a, b, p, j); }
    hide At, FindFrom;
    if At(a, p, r) && forall j: nat :: from <= j < r ==> !At(a, p, j) {
      FindFromIs(a, p, from, r);
      FindFromIs(a + b, p, from, r);
    }
  }

  lemma FindOfPrefix(a: string, b: string, p: string, r: nat)
    requires r + |p| <= |a|
    ensures Find(a, p) == Some(r) <==> Find(a + b, p) == Some(r)
  {
    FindFromOfPrefix(a, b, p, 0, r);
  }

  /** A region is where it is whatever follows it. */
  lemma RegionOfPrefix(a: string, b: string, m: Block, s: nat, e: nat)
    requires s + |m.end| <= e <= |a| && s + |m.start| <= |a|
    ensures Region(a, m) == Some((s, e)) <==> Region(a + b, m) == Some((s, e))
    ensures a[s..e] == (a + b)[s..e]
  {
    hide At, Find, FindFrom;
    FindOfPrefix(a, b, m.start, s);
    FindFromOfPrefix(a, b, m.end, s, e - |m.end|);
  }

  function Shifted(r: Option<(nat, nat)>, n: nat): Option<(nat, nat)> {
    if r.None? then None else Some((n + r.value.0, n + r.value.1))
  }

  /** Text in which the block does not begin can be cut away. */
  lemma RegionBehind(x: string, w: string, m: Block)
    requires forall j: nat :: j < |x| ==> !At(x + w, m.start, j)
    ensures Region(x + w, m) == Shifted(Region(w, m), |x|)
    ensures Current(x + w, m) <==> Current(w, m)
  {
    hide At, FindFrom;
    FindBehind(x, w, m.start);
    hide Find;
    var s := Find(w, m.start);
    if s.Some? {
      FindFromBehind(x, w, m.end, s.value);
      var e := FindFrom(w, m.end, s.value);
      if e.Some? {
        assert (x + w)[|x| + s.value..|x| + e.value + |m.end|] == w[s.value..e.value + |m.end|];
      }
    }
  }

  /** The cuts of a full block's text at its two newlines. */
  lemma FullCuts(m: Block, z: string)
    ensures m.Full() + z == m.start + "\n" + (m.text + "\n" + m.end + z)
    ensures m.Full() + z == m.start + "\n" + m.text + "\n" + (m.end + z)
    ensures m.Full() + z == m.start + "\n" + m.text + "\n" + m.end + z
  {
  }

  /** A single line found in a full block is found in its start marker, its text, or from the end marker on. */
  lemma WhereInFull(m: Block, z: string, p: string, j: nat)
    requires '\n' !in p && At(m.Full() + z, p, j)
    ensures Occurs(m.start, p) || Occurs(m.text, p) || |m.start| + |m.text| + 2 <= j
  {
    FullCuts(m, z);
    var behind, head := m.text + "\n" + m.end + z, m.start + "\n" + m.text;
    hide At;
    NewlineSplits(m.start, behind, p, j);
    NewlineSplits(head, m.end + z, p, j);
    if j + |p| <= |m.start| {
      ConcatAssociative(m.start, "\n", behind);
      AtPrefix(m.start, "\n" + behind, p, j);
      assert At(m.start, p, j);
    } else if j + |p| <= |head| {
      ConcatAssociative(head, "\n", m.end + z);
      AtPrefix(head, "\n" + (m.end + z), p, j);
      AtSuffix(m.start + "\n", m.text, p, j);
      assert At(m.text, p, j - |m.start| - 1);
    }
  }

  lemma EndInFull(m: Block, z: string)
    ensures At(m.Full() + z, m.start, 0) && At(m.Full() + z, m.end, |m.start| + |m.text| + 2)
    ensures |m.start| + |m.text| + 2 + |m.end| == |m.Full()| && (m.Full() + z)[0..|m.Full()|] == m.Full()
  {
    FullCuts(m, z);
  }

  lemma NoEarlierEnd(m: Block, z: string, j: nat)
    requires m.Proper() && j < |m.start| + |m.text| + 2
    ensures !At(m.Full() + z, m.end, j)
  {
    hide At;
    if At(m.Full() + z, m.end, j) { WhereInFull(m, z, m.end, j); }
  }

  /** A full block in front is current. */
  lemma FullIsCurrent(m: Block, z: string)
    requires m.Proper()
    ensures Region(m.Full() + z, m) == Some((0, |m.Full()|)) && Current(m.Full() + z, m)
  {
    var w, q := m.Full() + z, |m.start| + |m.text| + 2;
    EndInFull(m, z);
    forall j: nat | j < q ensures !At(w, m.end, j) { NoEarlierEnd(m, z, j); }
    hide At, FindFrom, Block.Full;
    FindFromIs(w, m.start, 0, 0);
    FindFromIs(w, m.end, 0, q);
  }

  // ---- One block ----

  /** What stands in front of the region in `c` and what behind; a new block goes to the end. */
  function Front(c: string, m: Block): string
    requires !Dangling(c, m)
  {
    if Region(c, m).None? then c + Separator(c) else c[..Region(c, m).value.0]
  }

  function Behind(c: string, m: Block): string
    requires !Dangling(c, m)
  {
    if Region(c, m).None? then "\n" else c[Region(c, m).value.1..]
  }

  /** Unless a marker dangles, the full block stands between what was around it, whether or not it was current. */
  lemma UpsertSplices(c: string, m: Block)
    requires !Dangling(c, m)
    ensures Upsert(c, m).0 == Front(c, m) + m.Full() + Behind(c, m)
  {
    hide At, FindFrom, Find;
    if Current(c, m) {
      var s, e := Region(c, m).value.0, Region(c, m).value.1;
      assert c == c[..s] + c[s..e] + c[e..];
    }
  }

  lemma StartOfFull(x: string, m: Block, z: string)
    ensures x + (m.Full() + z) == x + m.start + ("\n" + (m.text + "\n" + m.end + z))
  {
    FullCuts(m, z);
    assert m.Full() + z == m.start + ("\n" + (m.text + "\n" + m.end + z));
  }

  /** The block begins nowhere in front of where it stood. */
  lemma ReplacedFrontIsFree(c: string, m: Block, s: nat, z: string, j: nat)
    requires Find(c, m.start) == Some(s) && j < s
    ensures !At(c[..s] + (m.Full() + z), m.start, j)
  {
    var a, b, d := c[..s] + m.start, "\n" + (m.text + "\n" + m.end + z), c[s + |m.start|..];
    assert c == a + d;
    assert !At(c, m.start, j);
    hide At, Find, FindFrom, Block.Full;
    StartOfFull(c[..s], m, z);
    AtPrefix(a, b, m.start, j);
    AtPrefix(a, d, m.start, j);
  }

  /** Nor in a file that did not have it, whatever line follows. */
  lemma AppendedFrontIsFree(c: string, p: string, z: string, j: nat)
    requires Find(c, p).None? && '\n' !in p && j < |c + Separator(c)|
    ensures !At(c + Separator(c) + z, p, j)
  {
    var front := (c + Separator(c))[..|c + Separator(c)| - 1];
    var rest := c[|front|..];
    assert c == front + rest && c + Separator(c) == front + "\n";
    if At(front + "\n" + z, p, j) {
      NewlineSplits(front, z, p, j);
      ConcatAssociative(front, "\n", z);
      AtPrefix(front, "\n" + z, p, j);
      AtPrefix(front, rest, p, j);
    }
  }

  lemma FrontIsFree(c: string, m: Block, text: string)
    requires '\n' !in m.start && !Dangling(c, m)
    ensures
      var n := Block(m.start, m.end, text);
      forall j: nat :: j < |Front(c, m)| ==> !At(Front(c, m) + (n.Full() + Behind(c, m)), m.start, j)
  {
    var n := Block(m.start, m.end, text);
    hide At, FindFrom;
    forall j: nat | j < |Front(c, m)| ensures !At(Front(c, m) + (n.Full() + Behind(c, m)), m.start, j) {
      if Region(c, m).None? {
        AppendedFrontIsFree(c, m.start, n.Full() + "\n", j);
      } else {
        ReplacedFrontIsFree(c, n, Region(c, m).value.0, Behind(c, m), j);
      }
    }
  }

  /** Where the block is afterwards. */
  lemma RegionAfterUpsert(c: string, m: Block)
    requires m.Proper() && !Dangling(c, m)
    ensures Region(Upsert(c, m).0, m) == Some((|Front(c, m)|, |Front(c, m) + m.Full()|))
    ensures Current(Upsert(c, m).0, m)
  {
    hide At, FindFrom, Upsert, Front, Behind, Region, Current, Dangling;
    UpsertSplices(c, m);
    FrontIsFree(c, m, m.text);
    ConcatAssociative(Front(c, m), m.Full(), Behind(c, m));
    FullIsCurrent(m, Behind(c, m));
    RegionBehind(Front(c, m), m.Full() + Behind(c, m), m);
  }

  /** The block is current afterwards exactly when no start marker dangles, which nothing touches. */
  lemma CurrentUnlessDangling(c: string, m: Block)
    requires m.Proper()
    ensures Current(Upsert(c, m).0, m) <==> !Dangling(c, m)
    ensures Dangling(c, m) ==> Upsert(c, m) == (c, false)
  {
    hide At, FindFrom, Find;
    if !Dangling(c, m) { RegionAfterUpsert(c, m); }
  }

  /** Outside the region nothing changes. */
  lemma OutsideIsUntouched(c: string, m: Block)
    requires m.Proper() && !Dangling(c, m)
    ensures
      var d := Upsert(c, m).0;
      && Region(d, m).Some?
      && d[..Region(d, m).value.0] == Front(c, m)
      && d[Region(d, m).value.1..] == Behind(c, m)
  {
    hide At, FindFrom, Upsert, Front, Behind, Region, Current, Dangling;
    UpsertSplices(c, m);
    RegionAfterUpsert(c, m);
  }

  /** The flag says truly whether the content changed, which it does unless the block was current or dangling. */
  lemma ChangedExactly(c: string, m: Block)
    ensures Upsert(c, m).1 <==> Upsert(c, m).0 != c
    ensures Upsert(c, m).1 <==> !Current(c, m) && !Dangling(c, m)
  {
    hide At, FindFrom, Find;
    if Region(c, m).Some? && !Current(c, m) {
      var s, e, d := Region(c, m).value.0, Region(c, m).value.1, Upsert(c, m).0;
      assert d[s..s + |m.Full()|] == m.Full();
    }
  }

  /** A later text replaces an earlier one as if that had never been; so writing a block twice is writing it once. */
  lemma LastWriteWins(c: string, m: Block, text: string)
    requires m.Proper() && Block(m.start, m.end, text).Proper()
    ensures
      var n := Block(m.start, m.end, text);
      Upsert(Upsert(c, m).0, n).0 == Upsert(c, n).0
  {
    var n, d := Block(m.start, m.end, text), Upsert(c, m).0;
    hide At, FindFrom, Find, Upsert;
    if Dangling(c, m) {
      CurrentUnlessDangling(c, m);
      CurrentUnlessDangling(c, n);
    } else {
      OutsideIsUntouched(c, m);
      UpsertSplices(d, n);
      UpsertSplices(c, n);
    }
  }

  // ---- Two blocks in one file ----

  /** `p` put at `d` over `q` agrees with it as far as both go. */
  ghost predicate Fits(p: string, q: string, d: nat) {
    forall k: nat :: k < |p| && d + k < |q| ==> p[k] == q[d + k]
  }

  /** `p` cannot begin inside `q`. */
  ghost predicate NotInside(p: string, q: string) {
    forall d: nat :: d < |q| ==> !Fits(p, q, d)
  }

  /** A line that is no part of a block: found in its text, or beginning in its markers, nowhere. */
  ghost predicate Foreign(p: string, n: Block) {
    && p != "" && '\n' !in p
    && NotInside(p, n.start) && NotInside(p, n.end) && !Occurs(n.text, p)
  }

  ghost predicate Separate(m: Block, n: Block) {
    Foreign(m.start, n) && Foreign(m.end, n) && Foreign(n.start, m) && Foreign(n.end, m)
  }

  predicate Disjoint(c: string, m: Block, n: Block) {
    var r, q := Region(c, m), Region(c, n);
    r.None? || q.None? || r.value.1 <= q.value.0 || q.value.1 <= r.value.0
  }

  lemma AtFits(x: string, q: string, z: string, p: string, d: nat)
    requires d < |q| && At(x + q + z, p, |x| + d)
    ensures Fits(p, q, d)
  {
    var t := x + q + z;
    forall k: nat | k < |p| && d + k < |q| ensures p[k] == q[d + k] {
      assert p[k] == t[|x| + d..|x| + d + |p|][k] == t[|x| + d + k];
    }
  }

  lemma NotInsideNotOccurs(p: string, q: string)
    requires NotInside(p, q) && p != ""
    ensures !Occurs(q, p)
  {
    if Occurs(q, p) {
      var i: nat :| At(q, p, i);
      assert [] + q + [] == q;
      AtFits([], q, [], p, i);
    }
  }

  /** Starting in a marker is starting inside it. */
  lemma NotAtInside(x: string, q: string, z: string, p: string, j: nat)
    requires NotInside(p, q) && |x| <= j < |x + q|
    ensures !At(x + q + z, p, j)
  {
    var d: nat := j - |x|;
    if At(x + q + z, p, |x| + d) { AtFits(x, q, z, p, d); }
  }

  /** A foreign line begins nowhere in a full block. */
  lemma NowhereInFull(p: string, n: Block, z: string, j: nat)
    requires Foreign(p, n) && j < |n.Full()|
    ensures !At(n.Full() + z, p, j)
  {
    NotInsideNotOccurs(p, n.start);
    hide At, NotInside, Occurs;
    if At(n.Full() + z, p, j) {
      WhereInFull(n, z, p, j);
      FullCuts(n, z);
      NotAtInside(n.start + "\n" + n.text + "\n", n.end, z, p, j);
    }
  }

  /** Replacing what follows a start marker makes no line begin in front of it. */
  lemma NotInFrontOfFull(d: string, p: string, n: Block, s: nat, z: string, j: nat)
    requires '\n' !in p && At(d, n.start, s) && j < s && !At(d, p, j)
    ensures !At(d[..s] + (n.Full() + z), p, j)
  {
    var a, b, t := d[..s] + n.start, n.text + "\n" + n.end + z, d[s + |n.start|..];
    assert d == a + t;
    assert d[..s] + (n.Full() + z) == a + "\n" + b;
    hide At;
    if At(a + "\n" + b, p, j) {
      NewlineSplits(a, b, p, j);
      ConcatAssociative(a, "\n", b);
      AtPrefix(a, "\n" + b, p, j);
      AtPrefix(a, t, p, j);
    }
  }

  /** An upsert makes no foreign line appear anywhere. */
  lemma NoForeignLineAppears(w: string, p: string, n: Block, j: nat)
    requires Foreign(p, n) && !Dangling(w, n) && !Occurs(w, p)
    ensures !At(Upsert(w, n).0, p, j)
  {
    var front, behind := Front(w, n), Behind(w, n);
    UpsertSplices(w, n);
    ConcatAssociative(front, n.Full(), behind);
    hide At, Foreign, Find, FindFrom, Upsert, Dangling;
    if j < |front| {
      if Region(w, n).None? {
        AppendedFrontIsFree(w, p, n.Full() + behind, j);
      } else {
        NotInFrontOfFull(w, p, n, Region(w, n).value.0, behind, j);
      }
    } else if j < |front + n.Full()| {
      AtSuffix(front, n.Full() + behind, p, j);
      NowhereInFull(p, n, behind, j - |front|);
    } else {
      AtSuffix(front + n.Full(), behind, p, j);
      NotBehind(w, p, n, j - |front + n.Full()|);
    }
  }

  lemma NewlineOnly(p: string, j: nat)
    requires p != "" && At("\n", p, j)
    ensures '\n' in p
  {
    assert p[0] == "\n"[j..j + |p|][0];
  }

  lemma OccursBehind(w: string, e: nat, p: string, j: nat)
    requires e <= |w| && At(w[e..], p, j)
    ensures Occurs(w, p)
  {
    assert w == w[..e] + w[e..];
    AtSuffix(w[..e], w[e..], p, e + j);
  }

  lemma NotBehind(w: string, p: string, n: Block, j: nat)
    requires Foreign(p, n) && !Dangling(w, n) && !Occurs(w, p)
    ensures !At(Behind(w, n), p, j)
  {
    hide Dangling, At, Occurs;
    if At(Behind(w, n), p, j) {
      if Region(w, n).None? {
        NewlineOnly(p, j);
      } else {
        OccursBehind(w, Region(w, n).value.1, p, j);
      }
    }
  }

  /** With no block `m` begun in front of block `n`, replacing `n` leaves of `m` what stands behind `n`. */
  lemma CurrentBehindFull(d: string, m: Block, n: Block, s: nat, z: string)
    requires Foreign(m.start, n) && At(d, n.start, s)
    requires forall j: nat :: j < s ==> !At(d, m.start, j)
    ensures Current(d[..s] + n.Full() + z, m) <==> Current(z, m)
  {
    var x := d[..s] + n.Full();
    ConcatAssociative(d[..s], n.Full(), z);
    hide At, Foreign;
    assert '\n' !in m.start by { ForeignIsLine(m.start, n); }
    forall j: nat | j < |x| ensures !At(x + z, m.start, j) {
      if j < s {
        NotInFrontOfFull(d, m.start, n, s, z, j);
      } else {
        AtSuffix(d[..s], n.Full() + z, m.start, j);
        NowhereInFull(m.start, n, z, j - s);
      }
    }
    RegionBehind(x, z, m);
  }

  lemma ForeignIsLine(p: string, n: Block)
    requires Foreign(p, n)
    ensures '\n' !in p && p != ""
  {
  }

  /** Block `n` does not begin inside a current block `m`. */
  lemma StartsOutside(d: string, m: Block, n: Block, s: nat)
    requires Foreign(n.start, m) && Current(d, m) && At(d, n.start, s)
    ensures s < Region(d, m).value.0 || Region(d, m).value.1 <= s
  {
    hide At, Foreign, Region;
    var r := Region(d, m).value;
    var z := d[r.1..];
    assert d == d[..r.0] + (m.Full() + z) by { assert d == d[..r.0] + d[r.0..r.1] + z; }
    if r.0 <= s < r.1 {
      var j: nat := s - r.0;
      NowhereInFull(n.start, m, z, j);
      AtSuffix(d[..r.0], m.Full() + z, n.start, s);
    }
  }

  /** What follows a current block does not matter. */
  lemma CurrentOfPrefix(a: string, b: string, d: string, m: Block)
    requires Current(a + b, m) && Region(a + b, m).value.1 <= |a|
    ensures Current(a + d, m) && Region(a + d, m) == Region(a + b, m)
  {
    hide At, Find, FindFrom, Region;
    var r := Region(a + b, m).value;
    assert |m.Full()| == |(a + b)[r.0..r.1]| == r.1 - r.0;
    RegionOfPrefix(a, b, m, r.0, r.1);
    RegionOfPrefix(a, d, m, r.0, r.1);
  }

  /** A block that comes first, or alone, stays current. */
  lemma FirstStaysCurrent(d: string, m: Block, n: Block)
    requires Current(d, m) && !Dangling(d, n)
    requires Region(d, n).None? || Region(d, m).value.1 <= Region(d, n).value.0
    ensures Current(Upsert(d, n).0, m)
  {
    hide At, Find, FindFrom, Upsert, Region;
    UpsertSplices(d, n);
    if Region(d, n).None? {
      assert Upsert(d, n).0 == d + (Separator(d) + n.Full() + "\n") && d == d + "";
      CurrentOfPrefix(d, "", Separator(d) + n.Full() + "\n", m);
    } else {
      var a := d[..Region(d, n).value.0];
      assert d == a + d[|a|..];
      ConcatAssociative(a, n.Full(), Behind(d, n));
      CurrentOfPrefix(a, d[|a|..], n.Full() + Behind(d, n), m);
    }
  }

  /** The second block's upsert spares the first exactly when it lies outside, or is there once more behind. */
  lemma FirstAfterSecond(d: string, m: Block, n: Block)
    requires Foreign(m.start, n) && Foreign(n.start, m) && Current(d, m) && !Dangling(d, n)
    ensures Current(Upsert(d, n).0, m) <==> Disjoint(d, m, n) || Current(Behind(d, n), m)
  {
    hide At, Find, FindFrom, Upsert, Foreign;
    if Region(d, n).None? {
      FirstStaysCurrent(d, m, n);
    } else {
      var r, q := Region(d, m).value, Region(d, n).value;
      StartsOutside(d, m, n, q.0);
      if r.1 <= q.0 {
        FirstStaysCurrent(d, m, n);
      } else {
        UpsertSplices(d, n);
        CurrentBehindFull(d, m, n, q.0, Behind(d, n));
        if q.1 <= r.0 {
          assert d == d[..q.1] + d[q.1..];
          RegionBehind(d[..q.1], d[q.1..], m);
        }
      }
    }
  }

  /** Text in which the block does not begin stays in front of whatever its upsert makes of the rest. */
  lemma UpsertBehind(x: string, w: string, n: Block)
    requires w != "" && forall j: nat :: j < |x| ==> !At(x + w, n.start, j)
    requires !Dangling(x + w, n)
    ensures !Dangling(w, n) && Upsert(x + w, n).0 == x + Upsert(w, n).0
  {
    hide At, Find, FindFrom, Upsert, Region;
    RegionBehind(x, w, n);
    FindBehind(x, w, n.start);
    UpsertSplices(x + w, n);
    UpsertSplices(w, n);
    assert Front(x + w, n) == x + Front(w, n);
    assert Behind(x + w, n) == Behind(w, n);
    ConcatAssociative(x, Front(w, n), n.Full());
    ConcatAssociative(x, Front(w, n) + n.Full(), Behind(w, n));
  }

  /** The block's upsert keeps the first line of a text, if it does not begin in it. */
  lemma UpsertKeepsFirst(w: string, p: string, n: Block)
    requires At(w, p, 0) && !Dangling(w, n) && NotInside(n.start, p)
    ensures At(Upsert(w, n).0, p, 0)
  {
    hide Find, FindFrom, Upsert;
    UpsertSplices(w, n);
    if Region(w, n).Some? {
      assert w == [] + p + w[|p|..];
      var s := Region(w, n).value.0;
      if s < |p| { NotAtInside([], p, w[|p|..], n.start, s); }
    }
  }

  /** A dangling block does not become current by what is done to the other. */
  lemma DanglingStaysSo(c: string, m: Block, n: Block)
    requires Separate(m, n) && Dangling(c, m) && !Dangling(c, n)
    ensures !Current(Upsert(c, n).0, m)
  {
    var s := Find(c, m.start).value;
    hide At, Find, FindFrom, Upsert, Foreign;
    if Region(c, n).Some? && Region(c, n).value.0 < s {
      DanglingBehind(c, m, n);
    } else {
      DanglingInFront(c, m, n);
    }
  }

  lemma DanglingBehind(c: string, m: Block, n: Block)
    requires Separate(m, n) && Dangling(c, m) && Region(c, n).Some?
    requires Region(c, n).value.0 < Find(c, m.start).value
    ensures !Current(Upsert(c, n).0, m)
  {
    hide At, Find, FindFrom, Upsert, Foreign;
    var s, r := Find(c, m.start).value, Region(c, n).value;
    var z := Behind(c, n);
    UpsertSplices(c, n);
    CurrentBehindFull(c, m, n, r.0, z);
    if Region(z, m).Some? {
      var i, e := Find(z, m.start).value, Region(z, m).value.1 - |m.end|;
      assert c == c[..r.1] + z;
      AtSuffix(c[..r.1], z, m.start, r.1 + i);
      AtSuffix(c[..r.1], z, m.end, r.1 + e);
    }
  }

  lemma DanglingInFront(c: string, m: Block, n: Block)
    requires Separate(m, n) && Dangling(c, m) && !Dangling(c, n)
    requires Region(c, n).None? || Find(c, m.start).value <= Region(c, n).value.0
    ensures !Current(Upsert(c, n).0, m)
  {
    var s := Find(c, m.start).value;
    var x, w := c[..s], c[s..];
    assert c == x + w;
    assert At(w, m.start, 0) by { AtSuffix(x, w, m.start, s); }
    hide At, Find, FindFrom, Upsert;
    UpsertBehind(x, w, n);
    FindFromBehind(x, w, m.end, 0);
    var e := Upsert(w, n).0;
    forall j: nat ensures !At(e, m.end, j) { NoForeignLineAppears(w, m.end, n, j); }
    FindFromBehind(x, e, m.end, 0);
    UpsertKeepsFirst(w, m.start, n);
    StartsWhereItDid(x, w, e, m.start);
  }

  lemma StartsWhereItDid(x: string, w: string, e: string, p: string)
    requires Find(x + w, p) == Some(|x|) && At(w, p, 0) && At(e, p, 0)
    ensures Find(x + e, p) == Some(|x|)
  {
    var y := x + p;
    assert x + w == y + w[|p|..];
    assert x + e == y + e[|p|..];
    FindOfPrefix(y, w[|p|..], p, |x|);
    FindOfPrefix(y, e[|p|..], p, |x|);
  }

  // ---- Installing both ----

  /** With the first in place, it is the second that decides. */
  lemma BothCurrentOnceFirstIs(c: string, m: Block, n: Block)
    requires m.Proper() && n.Proper() && Separate(m, n)
    ensures
      var d := Upsert(c, m).0;
      var e := Upsert(d, n).0;
      (Current(e, m) && Current(e, n))
      <==> !Dangling(c, m) && !Dangling(d, n) && (Disjoint(d, m, n) || Current(Behind(d, n), m))
  {
    var d := Upsert(c, m).0;
    hide At, Find, FindFrom, Upsert, Disjoint, Foreign, Dangling, Current;
    CurrentUnlessDangling(c, m);
    CurrentUnlessDangling(d, n);
    if !Dangling(d, n) {
      if Dangling(c, m) {
        DanglingStaysSo(c, m, n);
      } else {
        FirstAfterSecond(d, m, n);
      }
    }
  }

  /** What cannot begin inside `q` keeps `q` from reaching across its beginning. */
  lemma NotAcross(a: string, p: string, b: string, q: string, j: nat)
    requires NotInside(p, q) && j < |a| && At(a + (p + b), q, j)
    ensures j + |q| <= |a|
  {
    var t := a + (p + b);
    if j + |q| > |a| {
      var d := |a| - j;
      forall k: nat | k < |p| && d + k < |q| ensures p[k] == q[d + k] {
        assert t[j..j + |q|][d + k] == t[|a| + k];
      }
      assert Fits(p, q, d);
    }
  }

  /** Around a full block, a foreign line is found in front of it or behind it. */
  lemma AroundFull(a: string, m: Block, z: string, q: string, j: nat)
    requires NotInside(m.start, q) && Foreign(q, m) && At(a + m.Full() + z, q, j)
    ensures j + |q| <= |a| || |a + m.Full()| <= j
  {
    ConcatAssociative(a, m.Full(), z);
    FullCuts(m, z);
    var b := "\n" + m.text + "\n" + m.end + z;
    assert m.Full() + z == m.start + b;
    hide At, NotInside, Occurs;
    if j < |a| {
      NotAcross(a, m.start, b, q, j);
    } else if j < |a + m.Full()| {
      var i: nat := j - |a|;
      NowhereInFull(q, m, z, i);
      AtSuffix(a, m.Full() + z, q, j);
    }
  }

  lemma NotUpToBehind(a: string, m: Block, z: string, q: string, from: nat, j: nat)
    requires from <= |a| && NotInside(m.start, q) && Foreign(q, m) && FindFrom(a, q, from).None?
    requires from <= j < |a + m.Full()|
    ensures !At(a + m.Full() + z, q, j)
  {
    hide At, Foreign, NotInside, FindFrom;
    if At(a + m.Full() + z, q, j) {
      AroundFull(a, m, z, q, j);
      ConcatAssociative(a, m.Full(), z);
      AtPrefix(a, m.Full() + z, q, j);
    }
  }

  /** The first occurrence from some place on, by a name of its own. */
  function First(s: string, p: string, from: nat): Option<nat> {
    if from <= |s| then FindFrom(s, p, from) else None
  }

  lemma RegionByFirst(c: string, m: Block)
    ensures Find(c, m.start) == First(c, m.start, 0)
    ensures
      var s := First(c, m.start, 0);
      if s.None? then Region(c, m).None? && !Dangling(c, m)
      else
        var e := First(c, m.end, s.value);
        && (Dangling(c, m) <==> e.None?)
        && Region(c, m) == if e.None? then None else Some((s.value, e.value + |m.end|))
  {
  }

  /** So the first one from some place in front is there. */
  lemma FirstInFront(a: string, m: Block, z: string, q: string, from: nat)
    requires First(a, q, from).Some?
    ensures First(a + m.Full() + z, q, from) == First(a, q, from)
  {
    ConcatAssociative(a, m.Full(), z);
    FindFromOfPrefix(a, m.Full() + z, q, from, FindFrom(a, q, from).value);
  }

  lemma FirstBehind(x: string, z: string, q: string)
    ensures First(x + z, q, |x|) == if First(z, q, 0).Some? then Some(|x| + First(z, q, 0).value) else None
  {
    hide At, FindFrom;
    FindFromBehind(x, z, q, 0);
  }

  lemma FirstFromLater(t: string, q: string, from: nat, later: nat)
    requires from <= later <= |t| && forall j: nat :: from <= j < later ==> !At(t, q, j)
    ensures First(t, q, from) == First(t, q, later)
  {
    hide At, FindFrom;
    FromLater(t, q, from, later);
  }

  /** Or else the first behind. */
  lemma FirstPastFull(a: string, m: Block, z: string, q: string, from: nat)
    requires NotInside(m.start, q) && Foreign(q, m) && from <= |a| && First(a, q, from).None?
    ensures
      First(a + m.Full() + z, q, from)
      == if First(z, q, 0).Some? then Some(|a + m.Full()| + First(z, q, 0).value) else None
  {
    var x := a + m.Full();
    forall j: nat | from <= j < |x| ensures !At(x + z, q, j) { NotUpToBehind(a, m, z, q, from, j); }
    hide At, Foreign, NotInside, First;
    FirstBehind(x, z, q);
    FirstFromLater(x + z, q, from, |x|);
  }

  lemma FromLater(t: string, q: string, from: nat, later: nat)
    requires from <= later <= |t| && forall j: nat :: from <= j < later ==> !At(t, q, j)
    ensures FindFrom(t, q, from) == FindFrom(t, q, later)
  {
    hide At, FindFrom;
    var f := FindFrom(t, q, later);
    if f.Some? { FindFromIs(t, q, from, f.value); }
    else { NoneFromEarlier(t, q, from, later); }
  }

  lemma NoneFromEarlier(t: string, q: string, from: nat, later: nat)
    requires from <= later <= |t| && FindFrom(t, q, later).None? && forall j: nat :: from <= j < later ==> !At(t, q, j)
    ensures FindFrom(t, q, from).None?
  {
    hide At, FindFrom;
  }

  function From(s: string, i: nat): string {
    if i <= |s| then s[i..] else ""
  }

  /**
   * Around the first block's place, the second block ends in front where it begins
   * in front, or the first is there again behind it.
   */
  predicate Fit(front: string, behind: string, m: Block, n: Block) {
    if First(front, n.start, 0).Some? then
      || !Dangling(front, n)
      || (First(behind, n.end, 0).Some? && Current(From(behind, First(behind, n.end, 0).value + |n.end|), m))
    else !Dangling(behind, n)
  }

  /** The second block's upsert spares the first. */
  predicate Spared(d: string, m: Block, n: Block) {
    !Dangling(d, n) && (Disjoint(d, m, n) || Current(Behind(d, n), m))
  }

  /** The second block begins in front: it ends there, or behind, or not at all. */
  lemma SecondInFront(front: string, m: Block, behind: string, n: Block)
    requires Separate(m, n) && First(front, n.start, 0).Some?
    ensures
      var d, s := front + m.Full() + behind, First(front, n.start, 0).value;
      && First(d, n.start, 0) == First(front, n.start, 0)
      && First(d, n.end, s) == if First(front, n.end, s).Some? then First(front, n.end, s)
                               else if First(behind, n.end, 0).Some? then
                                 Some(|front + m.Full()| + First(behind, n.end, 0).value)
                               else None
  {
    var s := First(front, n.start, 0).value;
    StartIsForeign(m, n);
    FirstIsWithin(front, n.start, 0);
    hide First, Foreign, NotInside;
    FirstInFront(front, m, behind, n.start, 0);
    if First(front, n.end, s).Some? {
      FirstInFront(front, m, behind, n.end, s);
    } else {
      FirstPastFull(front, m, behind, n.end, s);
    }
  }

  lemma FirstIsWithin(s: string, p: string, from: nat)
    ensures First(s, p, from).Some? ==> First(s, p, from).value <= |s|
  {
  }

  /** It does not: then it is where it is behind, if anywhere. */
  lemma SecondBehind(front: string, m: Block, behind: string, n: Block)
    requires Separate(m, n) && First(front, n.start, 0).None?
    ensures
      var d, x := front + m.Full() + behind, front + m.Full();
      Region(d, n) == Shifted(Region(behind, n), |x|) && (Dangling(d, n) <==> Dangling(behind, n))
  {
    var x := front + m.Full();
    StartIsForeign(m, n);
    forall j: nat | j < |x| ensures !At(x + behind, n.start, j) { NotUpToBehind(front, m, behind, n.start, 0, j); }
    hide At, Foreign, FindFrom, NotInside, Find;
    RegionBehind(x, behind, n);
    FindBehind(x, behind, n.start);
  }

  lemma StartIsForeign(m: Block, n: Block)
    requires Separate(m, n)
    ensures NotInside(m.start, n.start) && NotInside(m.start, n.end) && Foreign(n.start, m) && Foreign(n.end, m)
  {
  }

  lemma FirstEndsWithin(s: string, p: string, from: nat)
    ensures First(s, p, from).Some? ==> First(s, p, from).value + |p| <= |s|
  {
  }

  lemma EndsInFront(front: string, m: Block, behind: string, n: Block, d: string, s: nat)
    requires Separate(m, n) && d == front + m.Full() + behind && First(front, n.start, 0) == Some(s)
    requires Region(d, m) == Some((|front|, |front + m.Full()|)) && First(front, n.end, s).Some?
    ensures Fit(front, behind, m, n) && Spared(d, m, n)
  {
    hide Separate, First, Region, Dangling;
    RegionByFirst(front, n);
    RegionByFirst(d, n);
    SecondInFront(front, m, behind, n);
    FirstEndsWithin(front, n.end, s);
  }

  lemma EndsBehind(front: string, m: Block, behind: string, n: Block, d: string, s: nat, e: nat)
    requires Separate(m, n) && d == front + m.Full() + behind && First(front, n.start, 0) == Some(s)
    requires First(front, n.end, s).None? && First(behind, n.end, 0) == Some(e)
    ensures Dangling(front, n) && !Dangling(d, n)
    ensures Region(d, n) == Some((s, |front + m.Full()| + e + |n.end|)) && s <= |front| && e + |n.end| <= |behind|
  {
    hide Separate, First, Region, Dangling;
    RegionByFirst(front, n);
    RegionByFirst(d, n);
    SecondInFront(front, m, behind, n);
    FirstEndsWithin(front, n.start, 0);
    FirstEndsWithin(behind, n.end, 0);
  }

  /** The second block then encloses the first. */
  lemma EnclosesFirst(t: string, m: Block, n: Block, r: nat, b: nat, s: nat, e: nat)
    requires Region(t, m) == Some((r, b)) && Region(t, n) == Some((s, e)) && s <= r < b <= e && !Dangling(t, n)
    ensures e <= |t| && (Spared(t, m, n) <==> Current(t[e..], m))
  {
    hide Region, Current, Dangling;
  }

  lemma EndsNowhere(front: string, m: Block, behind: string, n: Block, s: nat)
    requires Separate(m, n) && First(front, n.start, 0) == Some(s)
    requires First(front, n.end, s).None? && First(behind, n.end, 0).None?
    ensures !Fit(front, behind, m, n) && !Spared(front + m.Full() + behind, m, n)
  {
    hide Separate, First, Region, Dangling;
    RegionByFirst(front, n);
    RegionByFirst(front + m.Full() + behind, n);
    SecondInFront(front, m, behind, n);
  }

  /** Where the second block begins in front of the first and ends behind it. */
  lemma FitsAround(front: string, m: Block, behind: string, n: Block, s: nat, e: nat)
    requires Separate(m, n) && First(front, n.start, 0) == Some(s)
    requires First(front, n.end, s).None? && First(behind, n.end, 0) == Some(e)
    requires Region(front + m.Full() + behind, m) == Some((|front|, |front + m.Full()|))
    ensures Fit(front, behind, m, n) <==> Spared(front + m.Full() + behind, m, n)
  {
    hide Separate, First, Region, Dangling, Current, Spared;
    var x := front + m.Full();
    EndsBehind(front, m, behind, n, x + behind, s, e);
    EnclosesFirst(x + behind, m, n, |front|, |x|, s, |x| + (e + |n.end|));
    BehindOfBehind(x, behind, e + |n.end|);
  }

  lemma BehindOfBehind(x: string, z: string, i: nat)
    requires i <= |z|
    ensures (x + z)[|x| + i..] == z[i..]
  {
  }

  /** Where the second block does not begin in front of the first. */
  lemma FitsBehind(front: string, m: Block, behind: string, n: Block, d: string)
    requires Separate(m, n) && d == front + m.Full() + behind && First(front, n.start, 0).None?
    requires Region(d, m) == Some((|front|, |front + m.Full()|))
    ensures Fit(front, behind, m, n) <==> Spared(d, m, n)
  {
    hide Separate, First, Region, Dangling, Current, Behind;
    SecondBehind(front, m, behind, n);
  }

  lemma FitsExactly(c: string, m: Block, n: Block)
    requires m.Proper() && Separate(m, n) && !Dangling(c, m)
    ensures Fit(Front(c, m), Behind(c, m), m, n) <==> Spared(Upsert(c, m).0, m, n)
  {
    hide Separate, Upsert, First, Front, Behind, Region, Dangling, Fit, Spared;
    var d, front, behind := Upsert(c, m).0, Front(c, m), Behind(c, m);
    UpsertSplices(c, m);
    RegionAfterUpsert(c, m);
    var s := First(front, n.start, 0);
    if s.None? {
      FitsBehind(front, m, behind, n, d);
    } else if First(front, n.end, s.value).Some? {
      EndsInFront(front, m, behind, n, d, s.value);
    } else if First(behind, n.end, 0).Some? {
      FitsAround(front, m, behind, n, s.value, First(behind, n.end, 0).value);
    } else {
      EndsNowhere(front, m, behind, n, s.value);
    }
  }

  /**
   * Installing both blocks leaves both current exactly when the first does not
   * dangle and the second is where it does the first no harm.
   */
  lemma BothCurrentExactly(c: string, m: Block, n: Block)
    requires m.Proper() && n.Proper() && Separate(m, n)
    ensures
      var e := Upsert(Upsert(c, m).0, n).0;
      (Current(e, m) && Current(e, n)) <==> !Dangling(c, m) && Fit(Front(c, m), Behind(c, m), m, n)
  {
    hide At, Find, FindFrom, Upsert, Disjoint, Foreign, Dangling, Current, Fit;
    BothCurrentOnceFirstIs(c, m, n);
    if !Dangling(c, m) { FitsExactly(c, m, n); }
  }

  lemma InFirstLine(q: string, p: string, z: string, j: nat)
    requires '\n' !in p && j <= |q| && At(q + "\n" + z, p, j)
    ensures Occurs(q, p)
  {
    NewlineSplits(q, z, p, j);
    ConcatAssociative(q, "\n", z);
    AtPrefix(q, "\n" + z, p, j);
    assert At(q, p, j);
  }

  lemma NestedIsCurrent(m: Block, n: Block)
    requires m.Proper() && Foreign(m.start, n)
    ensures Current(n.start + "\n" + m.Full() + "\n" + n.end, m)
  {
    var x, w := n.start + "\n", m.Full() + ("\n" + n.end);
    assert x + w == n.start + "\n" + m.Full() + "\n" + n.end;
    NotInsideNotOccurs(m.start, n.start);
    hide At, NotInside, Occurs;
    forall j: nat | j < |x| ensures !At(x + w, m.start, j) {
      if At(x + w, m.start, j) { InFirstLine(n.start, m.start, w, j); }
    }
    FullIsCurrent(m, "\n" + n.end);
    RegionBehind(x, w, m);
  }

  lemma FullHasNoForeign(p: string, m: Block, n: Block)
    requires p == m.start && Foreign(p, n)
    ensures !Current(n.Full(), m)
  {
    hide At, Foreign;
    forall j: nat | j < |n.Full()| ensures !At(n.Full() + "", p, j) { NowhereInFull(p, n, "", j); }
    assert p != "" by { ForeignIsLine(p, n); }
    assert n.Full() + "" == n.Full();
  }

  /** The region depends on the markers alone. */
  lemma SameMarkers(c: string, m: Block, n: Block)
    requires m.start == n.start && m.end == n.end
    ensures Region(c, m) == Region(c, n)
    ensures Dangling(c, m) == Dangling(c, n)
  {
    hide FindFrom, Find;
  }

  lemma WholeFileIsReplaced(m: Block, n: Block)
    requires m.Proper() && n.Proper() && m.start == n.start && m.end == n.end
    ensures !Dangling(m.Full(), n) && Upsert(m.Full(), n).0 == n.Full()
  {
    var c := m.Full();
    hide At, Find, FindFrom, Upsert, Region, Dangling;
    assert c + "" == c;
    FullIsCurrent(m, "");
    SomeIsNotDangling(c, m);
    SameMarkers(c, m, n);
    UpsertSplices(c, n);
  }

  lemma SomeIsNotDangling(c: string, m: Block)
    requires Region(c, m).Some?
    ensures !Dangling(c, m)
  {
  }

  /** A file in which the first block stands inside the second loses it: this is why overlaps are excepted above. */
  lemma NestedIsLost(m: Block, n: Block)
    requires m.Proper() && n.Proper() && Separate(m, n) && !Occurs(m.Full(), n.end)
    ensures
      var c := Block(n.start, n.end, m.Full()).Full();
      && Current(c, m) && !Dangling(c, n)
      && Upsert(Upsert(c, m).0, n).0 == n.Full() && !Current(n.Full(), m)
  {
    var big := Block(n.start, n.end, m.Full());
    var c := big.Full();
    hide At, Foreign, Find, FindFrom, NotInside, Region, Current, Dangling;
    NestedIsCurrent(m, n);
    FullHasNoForeign(m.start, m, n);
    ChangedExactly(c, m);
    WholeFileIsReplaced(big, n);
  }
}
