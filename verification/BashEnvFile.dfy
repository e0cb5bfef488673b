/**
 * The user's `~/.bashenv`, in which two blocks are installed: what becomes of the
 * file, and of what the user wrote in it.
 */
module BashEnvFile {
  import opened Wrappers
  import opened Substrings
  import opened ManagedBlock

  // ---- The file ----

  const SHIMS_START := "# >>> agentflare shims >>>"
  const SHIMS_END := "# <<< agentflare shims <<<"
  const GUARD_START := "# >>> agentflare guard >>>"
  const GUARD_END := "# <<< agentflare guard <<<"

  /** A line as agentflare marks them, its '#' only in front, telling the way it points and whom it belongs to. */
  predicate Marks(q: string, points: char, whose: char) {
    && |q| == 26 && q[0] == '#' && q[2] == points && q[18] == whose
    && forall i: nat :: 0 < i < 26 ==> q[i] != '#' && q[i] != '\n'
  }

  lemma ShimsStart() ensures Marks(SHIMS_START, '>', 'h') {}

  lemma ShimsEnd() ensures Marks(SHIMS_END, '<', 'h') {}

  lemma GuardStart() ensures Marks(GUARD_START, '>', 'u') {}

  lemma GuardEnd() ensures Marks(GUARD_END, '<', 'u') {}

  lemma MarksNotInside(p: string, q: string, a: char, b: char, c: char, d: char)
    requires Marks(p, a, b) && Marks(q, c, d) && (a != c || b != d)
    ensures NotInside(p, q) && !Occurs(q, p)
  {
    var k := if a != c then 2 else 18;
    forall d: nat | d < |q| ensures !Fits(p, q, d) {
      assert if d == 0 then p[k] != q[d + k] else p[0] != q[d + 0];
    }
    NotInsideNotOccurs(p, q);
  }

  /** Blocks so marked are separate, if no marker is found in their texts. */
  lemma MarkedBlocksAreSeparate(m: Block, n: Block)
    requires Marks(m.start, '>', 'h') && Marks(m.end, '<', 'h') && Marks(n.start, '>', 'u') && Marks(n.end, '<', 'u')
    requires !Occurs(m.text, m.end) && !Occurs(n.text, n.end)
    requires !Occurs(n.text, m.start) && !Occurs(n.text, m.end) && !Occurs(m.text, n.start) && !Occurs(m.text, n.end)
    ensures m.Proper() && n.Proper() && Separate(m, n)
  {
    hide NotInside, Occurs;
    MarksNotInside(m.start, n.start, '>', 'h', '>', 'u');
    MarksNotInside(m.start, n.end, '>', 'h', '<', 'u');
    MarksNotInside(m.end, n.start, '<', 'h', '>', 'u');
    MarksNotInside(m.end, n.end, '<', 'h', '<', 'u');
    MarksNotInside(n.start, m.start, '>', 'u', '>', 'h');
    MarksNotInside(n.start, m.end, '>', 'u', '<', 'h');
    MarksNotInside(n.end, m.start, '<', 'u', '>', 'h');
    MarksNotInside(n.end, m.end, '<', 'u', '<', 'h');
    MarksNotInside(m.end, m.start, '<', 'h', '>', 'h');
    MarksNotInside(n.end, n.start, '<', 'u', '>', 'u');
  }

  /** The two blocks agentflare installs are. */
  lemma InstalledBlocksAreSeparate(m: Block, n: Block)
    requires m.start == SHIMS_START && m.end == SHIMS_END && n.start == GUARD_START && n.end == GUARD_END
    requires !Occurs(m.text, m.end) && !Occurs(n.text, n.end)
    requires !Occurs(n.text, m.start) && !Occurs(n.text, m.end) && !Occurs(m.text, n.start) && !Occurs(m.text, n.end)
    ensures m.Proper() && n.Proper() && Separate(m, n)
  {
    hide Marks, Occurs, Foreign;
    ShimsStart();
    ShimsEnd();
    GuardStart();
    GuardEnd();
    MarkedBlocksAreSeparate(m, n);
  }

  /** What stands on disk: nothing, bytes that are no UTF-8, or text. */
  datatype File = Missing | NotText(bytes: string) | Text(content: string) {
    /** A file that is missing, is no text, or cannot be read for whatever reason reads as empty. */
    function Read(readable: bool): string {
      if Text? && readable then content else ""
    }

    function Raw(): string {
      match this
      case Missing => ""
      case NotText(bytes) => bytes
      case Text(content) => content
    }
  }

  function Installed(c: string, m: Block, n: Block): string {
    Upsert(Upsert(c, m).0, n).0
  }

  function Max(x: nat, y: nat): nat {
    if x < y then y else x
  }

  // ---- What the user wrote ----

  predicate IsOutside(c: string, m: Block, i: nat) {
    var r := Region(c, m);
    r.None? || i < r.value.0 || r.value.1 <= i
  }

  /** A character of the user's: outside both regions of the file as it is found. */
  predicate IsUsers(c: string, m: Block, n: Block, i: nat) {
    i < |c| && IsOutside(c, m, i) && IsOutside(c, n, i)
  }

  lemma AppendedAt(c: string, m: Block, i: nat)
    requires i < |c| && (Region(c, m).None? || Current(c, m))
    ensures i < |Upsert(c, m).0| && Upsert(c, m).0[i] == c[i]
  {
    hide At, FindFrom, Find;
  }

  lemma ReplacedAt(c: string, m: Block, i: nat)
    requires i < |c| && Region(c, m).Some? && !Current(c, m)
    ensures
      var (a, b) := Region(c, m).value;
      var d, j := Upsert(c, m).0, i - b + a + |m.Full()|;
      && (i < a ==> i < |d| && d[i] == c[i])
      && (b <= i ==> 0 <= j < |d| && d[j] == c[i])
  {
    hide At, FindFrom, Find, Upsert, Block.Full;
    UpsertSplices(c, m);
    var (a, b) := Region(c, m).value;
    var x, f, y := c[..a], m.Full(), c[b..];
    if b <= i {
      assert (x + f + y)[|x + f| + (i - b)] == y[i - b];
    } else if i < a {
      assert (x + f + y)[i] == x[i];
    }
  }

  /** Where an upsert leaves a character, unless it replaces it. */
  function Goes(c: string, m: Block, i: nat): (j: Option<nat>)
    requires i < |c|
    ensures j.Some? ==> j.value < |Upsert(c, m).0| && Upsert(c, m).0[j.value] == c[i]
    ensures j.None? ==> !IsOutside(c, m, i)
  {
    if Region(c, m).None? || Current(c, m) then AppendedAt(c, m, i); Some(i)
    else
      ReplacedAt(c, m, i);
      var (a, b) := Region(c, m).value;
      if i < a then Some(i) else if i < b then None else Some(i - b + a + |m.Full()|)
  }

  /** Where installing both leaves it. */
  function Place(c: string, m: Block, n: Block, i: nat): (j: Option<nat>)
    requires i < |c|
    ensures j.Some? ==> j.value < |Installed(c, m, n)| && Installed(c, m, n)[j.value] == c[i]
  {
    var j := Goes(c, m, i);
    if j.None? then None else Goes(Upsert(c, m).0, n, j.value)
  }

  lemma GoesInOrder(c: string, m: Block, i: nat, k: nat)
    requires m.end != "" && i < k < |c| && Goes(c, m, i).Some? && Goes(c, m, k).Some?
    ensures Goes(c, m, i).value < Goes(c, m, k).value
    ensures k == i + 1 ==> Goes(c, m, k).value == Goes(c, m, i).value + 1
  {
  }

  /**
   * The stretch of the user's text that is lost. The first block's region holds a
   * marker of the second, which goes with it; the second block then ends at a later
   * end marker, or is taken to be a later one, which is replaced unless it is as it should be.
   */
  function Swallowed(c: string, m: Block, n: Block): Option<(nat, nat)> {
    if Region(c, m).None? || Region(c, n).None? then None
    else
      var (a, b) := Region(c, m).value;
      var (s, t) := Region(c, n).value;
      if s < a then
        var end := First(c, n.end, b);
        if a <= t - |n.end| < b && end.Some? then Some((Max(b, t), end.value + |n.end|)) else None
      else if s < b then
        var again := First(c, n.start, b);
        if again.None? || again.value <= t - |n.end| then None
        else
          var end := First(c, n.end, again.value);
          if end.None? || c[again.value..end.value + |n.end|] == n.Full() then None
          else Some((Max(again.value, t), end.value + |n.end|))
      else None
  }

  predicate IsSwallowed(c: string, m: Block, n: Block, i: nat) {
    var r := Swallowed(c, m, n);
    r.Some? && r.value.0 <= i < r.value.1
  }

  lemma SwallowedIsUsers(c: string, m: Block, n: Block)
    requires n.end != "" && Swallowed(c, m, n).Some?
    ensures
      var (x, y) := Swallowed(c, m, n).value;
      x < y <= |c| && forall i: nat :: x <= i < y ==> IsUsers(c, m, n, i)
  {
    hide At, FindFrom, Find;
  }

  // ---- The second block after the first upsert ----

  lemma SameFinds(c: string, d: string, q: string, from: nat)
    requires from <= |c| <= |d| && forall j: nat :: At(c, q, j) <==> At(d, q, j)
    ensures FindFrom(c, q, from) == FindFrom(d, q, from)
  {
    hide At, FindFrom;
    var f := FindFrom(c, q, from);
    if f.Some? { FindFromIs(d, q, from, f.value); }
  }

  lemma AppendedAddsNone(c: string, p: string, z: string, j: nat)
    requires '\n' !in p && p != "" && j < |c + Separator(c)|
    ensures At(c + Separator(c) + z, p, j) <==> At(c, p, j)
  {
    var front := (c + Separator(c))[..|c + Separator(c)| - 1];
    var rest := c[|front|..];
    assert c == front + rest && c + Separator(c) == front + "\n";
    assert rest == "" || rest == "\n";
    ConcatAssociative(front, "\n", z);
    if At(front + "\n" + z, p, j) {
      NewlineSplits(front, z, p, j);
      AtPrefix(front, "\n" + z, p, j);
      AtPrefix(front, rest, p, j);
    }
    if At(c, p, j) {
      LineInFront(front, rest, p, j);
      AtPrefix(front, "\n" + z, p, j);
      AtPrefix(front, rest, p, j);
    }
  }

  lemma LineInFront(a: string, rest: string, p: string, j: nat)
    requires (rest == "" || rest == "\n") && '\n' !in p && p != "" && At(a + rest, p, j)
    ensures j + |p| <= |a|
  {
    assert p[|p| - 1] == (a + rest)[j..j + |p|][|p| - 1];
  }

  lemma NotInLineEnd(x: string, p: string, m: Block, j: nat)
    requires Foreign(p, m) && j >= |x|
    ensures !At(x + "\n", p, j)
  {
    ForeignIsLine(p, m);
    AtSuffix(x, "\n", p, j);
    hide At, Foreign;
    if At("\n", p, j - |x|) { NewlineOnly(p, j - |x|); }
  }

  lemma NotFromBlockOn(front: string, m: Block, p: string, j: nat)
    requires Foreign(p, m) && j >= |front|
    ensures !At(front + (m.Full() + "\n"), p, j)
  {
    hide At, Foreign, Block.Full;
    AtSuffix(front, m.Full() + "\n", p, j);
    if j < |front| + |m.Full()| {
      NowhereInFull(p, m, "\n", j - |front|);
    } else {
      NotInLineEnd(m.Full(), p, m, j - |front|);
    }
  }

  /** A block added at the end adds no foreign line. */
  lemma AppendedHasTheSame(c: string, m: Block, p: string, j: nat)
    requires Foreign(p, m)
    ensures At(c + Separator(c) + m.Full() + "\n", p, j) <==> At(c, p, j)
  {
    var front := c + Separator(c);
    ForeignIsLine(p, m);
    ConcatAssociative(front, m.Full(), "\n");
    AtIsWithin(c, p, j);
    hide At, Foreign, Block.Full;
    if j < |front| {
      AppendedAddsNone(c, p, m.Full() + "\n", j);
    } else {
      NotFromBlockOn(front, m, p, j);
    }
  }

  lemma AtIsWithin(c: string, p: string, j: nat)
    requires p != ""
    ensures At(c, p, j) ==> j < |c|
  {
  }

  lemma AppendedFirst(c: string, m: Block, q: string, from: nat)
    requires Foreign(q, m) && Find(c, m.start).None? && from <= |c|
    ensures First(c, q, from) == First(Upsert(c, m).0, q, from)
  {
    hide At, FindFrom, Foreign, Block.Full;
    var d := c + Separator(c) + m.Full() + "\n";
    assert Upsert(c, m).0 == d;
    hide Upsert;
    forall j: nat ensures At(c, q, j) <==> At(d, q, j) { AppendedHasTheSame(c, m, q, j); }
    SameFinds(c, d, q, from);
  }

  lemma AppendedRegion(c: string, m: Block, n: Block)
    requires Separate(m, n) && Find(c, m.start).None?
    ensures Region(Upsert(c, m).0, n) == Region(c, n)
  {
    hide Upsert, Separate, Foreign, NotInside, First, Region, Dangling, Find, FindFrom, At, Block.Full;
    StartIsForeign(m, n);
    AppendedFirst(c, m, n.start, 0);
    var s := First(c, n.start, 0);
    if s.Some? {
      FirstIsWithin(c, n.start, 0);
      AppendedFirst(c, m, n.end, s.value);
    }
    RegionByFirst(c, n);
    RegionByFirst(Upsert(c, m).0, n);
  }

  /** In front of the first block's region, a marker of the second is found in the whole file as in what is in front. */
  lemma FirstCutInFront(c: string, m: Block, a: nat, q: string, from: nat)
    requires a <= |c| && At(c, m.start, a) && NotInside(m.start, q) && q != "" && from <= a
    ensures First(c[..a], q, from).Some? <==> First(c, q, from).Some? && First(c, q, from).value < a
    ensures First(c[..a], q, from).Some? ==> First(c[..a], q, from) == First(c, q, from)
  {
    var x, w := c[..a], c[a..];
    assert c == x + w;
    hide At, FindFrom, NotInside;
    FirstEndsWithin(x, q, from);
    if First(x, q, from).Some? {
      FindFromOfPrefix(x, w, q, from, First(x, q, from).value);
    }
    var f := First(c, q, from);
    if f.Some? && f.value < a {
      AtIs(c, q, from);
      StartsAt(c, m, a, q, f.value);
      FindFromOfPrefix(x, w, q, from, f.value);
    }
  }

  lemma AtIs(c: string, q: string, from: nat)
    ensures First(c, q, from).Some? ==> At(c, q, First(c, q, from).value) && from <= First(c, q, from).value
  {
  }

  lemma StartsAt(c: string, m: Block, a: nat, q: string, j: nat)
    requires a <= |c| && At(c, m.start, a) && NotInside(m.start, q) && At(c, q, j) && j < a
    ensures j + |q| <= a
  {
    var rest := c[a + |m.start|..];
    assert c == c[..a] + (m.start + rest);
    hide At, NotInside;
    NotAcross(c[..a], m.start, rest, q, j);
  }

  lemma FirstCutBehind(c: string, q: string, b: nat)
    requires b <= |c|
    ensures First(c, q, b) == if First(c[b..], q, 0).Some? then Some(b + First(c[b..], q, 0).value) else None
  {
    assert c == c[..b] + c[b..];
    FirstBehind(c[..b], c[b..], q);
  }

  /** The stretch of the file that the second upsert takes for its block, where the first one's was `[a, b)`. */
  function Seen(c: string, n: Block, a: nat, b: nat): (r: Option<(nat, nat)>)
    requires a <= b
    ensures r.Some? ==> r.value.0 <= r.value.1 <= |c| && (r.value.0 < a || b <= r.value.0)
    ensures r.Some? && |n.end| > 0 ==> r.value.0 < r.value.1
  {
    var s := First(c, n.start, 0);
    if s.Some? && s.value < a then
      var e := First(c, n.end, s.value);
      if e.Some? && e.value < a then Some((s.value, e.value + |n.end|))
      else
        var later := First(c, n.end, b);
        if later.None? then None else Some((s.value, later.value + |n.end|))
    else
      var again := First(c, n.start, b);
      if again.None? then None
      else
        var e := First(c, n.end, again.value);
        if e.None? then None else Some((again.value, e.value + |n.end|))
  }

  /** Where a position outside `[a, b)` is when that has become `w` characters. */
  function Shift(p: nat, a: nat, b: nat, w: nat): nat
    requires a <= b
  {
    if p < b then p else p - b + a + w
  }

  function ShiftBoth(r: Option<(nat, nat)>, a: nat, b: nat, w: nat): Option<(nat, nat)>
    requires a <= b
  {
    if r.None? then None else Some((Shift(r.value.0, a, b, w), Shift(r.value.1, a, b, w)))
  }

  /** The file in three parts, the middle one a region. */
  lemma Cut(c: string, m: Block)
    requires Region(c, m).Some? && m.end != ""
    ensures
      var (a, b) := Region(c, m).value;
      && a < b <= |c| && At(c, m.start, a) && Find(c, m.start) == Some(a)
      && Front(c, m) == c[..a] && Behind(c, m) == c[b..] && |c[..a] + m.Full()| == a + |m.Full()|
      && Upsert(c, m).0 == c[..a] + m.Full() + c[b..]
  {
    hide At, FindFrom, Upsert;
    UpsertSplices(c, m);
  }

  lemma SeenInFront(c: string, m: Block, n: Block, s: nat)
    requires Separate(m, n) && Region(c, m).Some? && First(c, n.start, 0) == Some(s) && s < Region(c, m).value.0
    ensures
      var (a, b) := Region(c, m).value;
      a <= b && Region(Upsert(c, m).0, n) == ShiftBoth(Seen(c, n, a, b), a, b, |m.Full()|)
  {
    hide First, Region, Upsert, Separate, Foreign, NotInside, At, Find, FindFrom, Front, Behind, Dangling, Block.Full;
    MarkersAreLines(m, n);
    StartIsForeign(m, n);
    Cut(c, m);
    var (a, b) := Region(c, m).value;
    var front := c[..a];
    FirstCutInFront(c, m, a, n.start, 0);
    FirstCutInFront(c, m, a, n.end, s);
    FirstCutBehind(c, n.end, b);
    FirstEndsWithin(front, n.end, s);
    SecondInFront(front, m, c[b..], n);
    RegionByFirst(Upsert(c, m).0, n);
  }

  lemma MarkersAreLines(m: Block, n: Block)
    requires Separate(m, n)
    ensures m.start != "" && m.end != "" && n.start != "" && n.end != ""
  {
  }

  lemma SeenBehind(c: string, m: Block, n: Block)
    requires Separate(m, n) && Region(c, m).Some?
    requires First(c, n.start, 0).None? || First(c, n.start, 0).value >= Region(c, m).value.0
    ensures
      var (a, b) := Region(c, m).value;
      a <= b && Region(Upsert(c, m).0, n) == ShiftBoth(Seen(c, n, a, b), a, b, |m.Full()|)
  {
    hide First, Region, Upsert, Separate, Foreign, NotInside, At, Find, FindFrom, Front, Behind, Dangling, Block.Full;
    MarkersAreLines(m, n);
    StartIsForeign(m, n);
    Cut(c, m);
    var (a, b) := Region(c, m).value;
    FirstCutInFront(c, m, a, n.start, 0);
    SecondBehind(c[..a], m, c[b..], n);
    SeenFromBehind(c, n, a, b);
  }

  lemma SeenFromBehind(c: string, n: Block, a: nat, b: nat)
    requires a <= b <= |c| && (First(c, n.start, 0).None? || First(c, n.start, 0).value >= a)
    ensures Seen(c, n, a, b) == Shifted(Region(c[b..], n), b)
    ensures Region(c[b..], n).Some? ==> Region(c[b..], n).value.0 <= Region(c[b..], n).value.1
  {
    hide First, Region, At, Find, FindFrom, Dangling;
    var behind := c[b..];
    FirstCutBehind(c, n.start, b);
    RegionByFirst(behind, n);
    var s := First(behind, n.start, 0);
    if s.Some? {
      FirstIsWithin(behind, n.start, 0);
      FirstFromBehind(c, n.end, b, s.value);
      AtIs(behind, n.end, s.value);
    }
  }

  lemma FirstFromBehind(c: string, q: string, b: nat, i: nat)
    requires b <= |c| && i <= |c[b..]|
    ensures
      var f := First(c[b..], q, i);
      First(c, q, b + i) == if f.None? then None else Some(b + f.value)
  {
    hide At, FindFrom;
    var x, w := c[..b], c[b..];
    assert c == x + w && |x| == b;
    FindFromBehind(x, w, q, i);
  }

  lemma SeenIsRegion(c: string, m: Block, n: Block)
    requires Separate(m, n) && Region(c, m).Some?
    ensures
      var (a, b) := Region(c, m).value;
      a < b <= |c| && Region(Upsert(c, m).0, n) == ShiftBoth(Seen(c, n, a, b), a, b, |m.Full()|)
  {
    MarkersAreLines(m, n);
    Cut(c, m);
    hide First, Region, Upsert, Separate, At;
    var s := First(c, n.start, 0);
    if s.Some? && s.value < Region(c, m).value.0 {
      SeenInFront(c, m, n, s.value);
    } else {
      SeenBehind(c, m, n);
    }
  }

  /** What the second upsert takes is as it should be. */
  predicate SeenCurrent(c: string, n: Block, a: nat, b: nat)
    requires a <= b
  {
    var r := Seen(c, n, a, b);
    r.Some? && (r.value.1 <= a || b <= r.value.0) && c[r.value.0..r.value.1] == n.Full()
  }

  /** The shifted stretch, where it does not reach across. */
  lemma SameStretch(c: string, x: string, a: nat, b: nat, s: nat, e: nat)
    requires a < b <= |c| && s <= e <= |c| && (e <= a || b <= s)
    ensures
      var d, w := c[..a] + x + c[b..], |x|;
      Shift(s, a, b, w) <= Shift(e, a, b, w) <= |d| && d[Shift(s, a, b, w)..Shift(e, a, b, w)] == c[s..e]
  {
    var front, behind := c[..a] + x, c[b..];
    if e <= a {
      SliceOfFirst(c[..a], x, s, e);
      SliceOfFirst(front, behind, s, e);
      assert c[..a] + c[a..] == c;
      SliceOfFirst(c[..a], c[a..], s, e);
    } else {
      SliceOfSecond(front, behind, s - b, e - b);
      assert c[..b] + behind == c;
      SliceOfSecond(c[..b], behind, s - b, e - b);
    }
  }

  lemma SliceOfFirst(x: string, y: string, s: nat, e: nat)
    requires s <= e <= |x|
    ensures (x + y)[s..e] == x[s..e]
  {
  }

  lemma SliceOfSecond(x: string, y: string, s: nat, e: nat)
    requires s <= e <= |y|
    ensures (x + y)[|x| + s..|x| + e] == y[s..e]
  {
  }

  lemma SliceOfSlice(d: string, s: nat, e: nat, x: nat, y: nat)
    requires s <= x <= y <= e <= |d|
    ensures d[s..e][x - s..y - s] == d[x..y]
  {
    forall k: nat | k < y - x ensures d[s..e][x - s..y - s][k] == d[x..y][k] {
      assert d[s..e][x - s..y - s][k] == d[s..e][x - s + k] == d[x + k];
    }
  }

  lemma Across(a: string, m: Block, z: string, n: Block, s: nat, e: nat)
    requires Foreign(m.start, n) && s <= |a| && |a + m.Full()| <= e <= |a + m.Full() + z|
    ensures (a + m.Full() + z)[s..e] != n.Full()
  {
    var d, j := a + m.Full() + z, |a| - s;
    ForeignIsLine(m.start, n);
    StartOfFull(a, m, z);
    ConcatAssociative(a, m.Full(), z);
    assert d[|a|..|a| + |m.start|] == m.start by { assert d == a + m.start + d[|a| + |m.start|..]; }
    SliceOfSlice(d, s, e, |a|, |a| + |m.start|);
    assert At(d[s..e], m.start, j);
    NotInFull(m.start, n);
    hide At, Foreign, Block.Full;
    IsThere(d[s..e], m.start, j);
  }

  lemma CurrentIsSeen(c: string, m: Block, n: Block)
    requires Separate(m, n) && Region(c, m).Some?
    ensures
      var (a, b) := Region(c, m).value;
      a < b && (Current(Upsert(c, m).0, n) <==> SeenCurrent(c, n, a, b))
  {
    MarkersAreLines(m, n);
    Cut(c, m);
    SeenIsRegion(c, m, n);
    var (a, b) := Region(c, m).value;
    var r := Seen(c, n, a, b);
    hide First, Region, Upsert, At, Seen;
    if r.Some? {
      if r.value.1 <= a || b <= r.value.0 {
        SameStretch(c, m.Full(), a, b, r.value.0, r.value.1);
      } else {
        EndsPast(c, m, n);
        Across(c[..a], m, c[b..], n, r.value.0, Shift(r.value.1, a, b, |m.Full()|));
      }
    }
  }

  /** What is seen ends in front of the first block's region, or behind it. */
  lemma EndsPast(c: string, m: Block, n: Block)
    requires Separate(m, n) && Region(c, m).Some?
    ensures
      var (a, b) := Region(c, m).value;
      a < b && var r := Seen(c, n, a, b);
      r.Some? ==> r.value.1 <= a || b <= r.value.1
  {
    MarkersAreLines(m, n);
    StartIsForeign(m, n);
    Cut(c, m);
    var (a, b) := Region(c, m).value;
    var s := First(c, n.start, 0);
    if s.Some? && s.value < a {
      FirstCutInFront(c, m, a, n.end, s.value);
      FirstEndsWithin(c[..a], n.end, s.value);
    }
    hide Region, Upsert, At, FindFrom, Separate, Foreign, NotInside;
  }

  lemma GoesByShift(c: string, m: Block, i: nat, a: nat, b: nat)
    requires Region(c, m) == Some((a, b)) && a <= b && i < |c| && IsOutside(c, m, i)
    ensures Goes(c, m, i) == Some(Shift(i, a, b, |m.Full()|))
  {
    hide Region, Upsert, Block.Full;
    if Current(c, m) { assert |m.Full()| == |c[a..b]|; }
  }

  lemma GoesNowhere(d: string, n: Block, j: nat)
    requires j < |d|
    ensures Goes(d, n, j).None? <==> !IsOutside(d, n, j) && !Current(d, n)
  {
    hide Region, Current, Upsert, Block.Full;
  }

  lemma ShiftKeepsOrder(i: nat, x: nat, y: nat, a: nat, b: nat, w: nat)
    requires a < b && (i < a || b <= i) && (x < a || b <= x) && (y <= a || b <= y)
    ensures Shift(x, a, b, w) <= Shift(i, a, b, w) < Shift(y, a, b, w) <==> x <= i < y
  {
  }

  /** What is not the first block's is lost exactly where the second upsert replaces it. */
  lemma PlaceBySeen(c: string, m: Block, n: Block, i: nat)
    requires Separate(m, n) && Region(c, m).Some? && i < |c| && IsOutside(c, m, i)
    ensures
      var (a, b) := Region(c, m).value;
      a < b && var r := Seen(c, n, a, b);
      Place(c, m, n, i).None? <==> r.Some? && r.value.0 <= i < r.value.1 && !SeenCurrent(c, n, a, b)
  {
    hide First, Region, Upsert, At, Seen, SeenCurrent, Current, Separate, Goes, Shift, Block.Full, Find, FindFrom;
    MarkersAreLines(m, n);
    SeenIsRegion(c, m, n);
    CurrentIsSeen(c, m, n);
    EndsPast(c, m, n);
    var (a, b) := Region(c, m).value;
    GoesByShift(c, m, i, a, b);
    GoesNowhere(Upsert(c, m).0, n, Goes(c, m, i).value);
    var r := Seen(c, n, a, b);
    if r.Some? { ShiftKeepsOrder(i, r.value.0, r.value.1, a, b, |m.Full()|); }
  }

  lemma FirstFromOn(c: string, q: string, from: nat, later: nat)
    requires from <= later
    ensures
      var f, g := First(c, q, from), First(c, q, later);
      && (g.Some? ==> f.Some? && f.value <= g.value && later <= g.value)
      && (f.Some? ==> from <= f.value && (later <= f.value ==> g == f))
  {
    hide At, FindFrom;
    if First(c, q, from).Some? && later <= First(c, q, from).value {
      FindFromIs(c, q, later, First(c, q, from).value);
    }
  }

  /** The positions alone: of what is the user's, the second upsert takes exactly what is swallowed. */
  lemma SeenIsSwallowed(c: string, m: Block, n: Block, i: nat)
    requires Separate(m, n) && Region(c, m).Some? && IsUsers(c, m, n, i)
    ensures
      var (a, b) := Region(c, m).value;
      a < b && var r := Seen(c, n, a, b);
      IsSwallowed(c, m, n, i) <==> r.Some? && r.value.0 <= i < r.value.1 && !SeenCurrent(c, n, a, b)
  {
    hide First, Region, Upsert, At, Separate, Find, FindFrom, Front, Behind, Dangling;
    MarkersAreLines(m, n);
    Cut(c, m);
    RegionByFirst(c, n);
    var (a, b) := Region(c, m).value;
    var s := First(c, n.start, 0);
    FirstFromOn(c, n.start, 0, b);
    if s.Some? && s.value < a {
      FirstFromOn(c, n.end, s.value, b);
    } else if s.Some? {
      var again := First(c, n.start, b);
      if again.Some? { FirstFromOn(c, n.end, s.value, again.value); }
    }
  }

  /** Every character of the user's stays, but for those swallowed. */
  lemma UsersCharacterStays(c: string, m: Block, n: Block, i: nat)
    requires Separate(m, n) && IsUsers(c, m, n, i)
    ensures Place(c, m, n, i).Some? <==> !IsSwallowed(c, m, n, i)
  {
    hide First, Seen, SeenCurrent, Separate, At, FindFrom;
    if Region(c, m).Some? {
      PlaceBySeen(c, m, n, i);
      SeenIsSwallowed(c, m, n, i);
    } else if Find(c, m.start).None? {
      AppendedRegion(c, m, n);
    }
  }

  lemma NothingInNothing(p: string)
    requires p != ""
    ensures Find("", p).None? && !Occurs("", p)
  {
  }

  /** A line foreign to a block is not in a file of that block alone. */
  lemma NotInBlockAlone(m: Block, p: string)
    requires Foreign(p, m)
    ensures !Occurs(m.Full() + "\n", p)
  {
    ForeignIsLine(p, m);
    hide At, Foreign, NotInside;
    if Occurs(m.Full() + "\n", p) {
      var j: nat :| At(m.Full() + "\n", p, j);
      if j < |m.Full()| {
        NowhereInFull(p, m, "\n", j);
      } else {
        AtSuffix(m.Full(), "\n", p, j);
        NewlineOnly(p, j - |m.Full()|);
      }
    }
  }

  /** From nothing, installing makes the two blocks and nothing else. */
  lemma InstalledFromNothing(m: Block, n: Block)
    requires Separate(m, n)
    ensures
      && Upsert("", m) == (m.Full() + "\n", true)
      && Installed("", m, n) == m.Full() + "\n" + n.Full() + "\n"
  {
    ForeignIsLine(m.start, n);
    NothingInNothing(m.start);
    NotInBlockAlone(m, n.start);
    hide At, Foreign, FindFrom;
    var d := m.Full() + "\n";
    assert "" + "" + m.Full() + "\n" == d;
    assert d + "" == d;
  }

  lemma NoLineFromNothing(m: Block, n: Block, p: string)
    requires Separate(m, n) && Foreign(p, m) && Foreign(p, n)
    ensures !Occurs(Installed("", m, n), p)
  {
    var d := m.Full() + "\n";
    InstalledFromNothing(m, n);
    NotInBlockAlone(m, p);
    NotInBlockAlone(n, p);
    hide At, Foreign;
    if Occurs(Installed("", m, n), p) {
      var j: nat :| At(Installed("", m, n), p, j);
      InTwo(m.Full(), n.Full() + "\n", p, j, m);
    }
  }

  /** A line found across a newline is found on one side. */
  lemma InTwo(a: string, b: string, p: string, j: nat, m: Block)
    requires Foreign(p, m) && At(a + "\n" + b, p, j)
    ensures Occurs(a + "\n", p) || Occurs(b, p)
  {
    ForeignIsLine(p, m);
    NewlineSplits(a, b, p, j);
    if |a| < j {
      AtSuffix(a + "\n", b, p, j);
      assert At(b, p, j - |a| - 1);
    } else {
      AtPrefix(a + "\n", b, p, j);
      assert At(a + "\n", p, j);
    }
  }

  /** A file that cannot be read as text is overwritten as a whole, whatever it was. */
  lemma UnreadIsOverwritten(f: File, readable: bool, m: Block, n: Block)
    requires Separate(m, n) && !(f.Text? && readable)
    ensures Installed(f.Read(readable), m, n) == m.Full() + "\n" + n.Full() + "\n"
  {
    hide Separate, Installed, Upsert;
    InstalledFromNothing(m, n);
  }

  /** All of the user's text, each character at its place, in order and together as it was. */
  ghost predicate KeepsUsers(c: string, e: string, m: Block, n: Block) {
    && (forall i: nat :: IsUsers(c, m, n, i) ==> IsAtPlace(c, e, m, n, i))
    && (forall i: nat, k: nat :: IsUsers(c, m, n, i) && IsUsers(c, m, n, k) && i < k ==> AreInOrder(c, m, n, i, k))
  }

  predicate IsAtPlace(c: string, e: string, m: Block, n: Block, i: nat)
    requires i < |c|
  {
    var j := Place(c, m, n, i);
    j.Some? && j.value < |e| && e[j.value] == c[i]
  }

  predicate AreInOrder(c: string, m: Block, n: Block, i: nat, k: nat)
    requires i < |c| && k < |c|
  {
    var x, y := Place(c, m, n, i), Place(c, m, n, k);
    x.Some? && y.Some? && x.value < y.value && (k == i + 1 ==> y.value == x.value + 1)
  }

  lemma PlacesInOrder(c: string, m: Block, n: Block, i: nat, k: nat)
    requires m.end != "" && n.end != "" && i < k < |c| && Place(c, m, n, i).Some? && Place(c, m, n, k).Some?
    ensures AreInOrder(c, m, n, i, k)
  {
    hide Goes;
    GoesInOrder(c, m, i, k);
    GoesInOrder(Upsert(c, m).0, n, Goes(c, m, i).value, Goes(c, m, k).value);
  }

  /** A file that is missing, or is read as text, keeps all of the user's text exactly when none is swallowed. */
  lemma ReadIsPatchedExactly(f: File, readable: bool, m: Block, n: Block)
    requires Separate(m, n) && (f.Missing? || (f.Text? && readable))
    ensures KeepsUsers(f.Raw(), Installed(f.Read(readable), m, n), m, n) <==> Swallowed(f.Raw(), m, n).None?
  {
    var c, e := f.Raw(), Installed(f.Read(readable), m, n);
    MarkersAreLines(m, n);
    hide Separate, Swallowed, Place, Installed, AreInOrder, IsUsers;
    if Swallowed(c, m, n).None? {
      forall i: nat | IsUsers(c, m, n, i) ensures i < |c| && IsAtPlace(c, e, m, n, i) {
        UsersAreWithin(c, m, n, i);
        UsersCharacterStays(c, m, n, i);
      }
      forall i: nat, k: nat | IsUsers(c, m, n, i) && IsUsers(c, m, n, k) && i < k
        ensures i < |c| && k < |c| && AreInOrder(c, m, n, i, k)
      {
        UsersAreWithin(c, m, n, k);
        PlacesInOrder(c, m, n, i, k);
      }
    } else {
      SwallowedIsUsers(c, m, n);
      var i := Swallowed(c, m, n).value.0;
      UsersCharacterStays(c, m, n, i);
      assert IsUsers(c, m, n, i) && !IsAtPlace(c, e, m, n, i);
    }
  }

  lemma UsersAreWithin(c: string, m: Block, n: Block, i: nat)
    requires IsUsers(c, m, n, i)
    ensures i < |c|
  {
  }

  /** A character is kept if the file is read as text, and installing leaves it a place. */
  predicate IsKept(f: File, readable: bool, m: Block, n: Block, i: nat)
    requires i < |f.Raw()|
  {
    f.Text? && readable && Place(f.Raw(), m, n, i).Some?
  }

  ghost predicate HasUsers(c: string, m: Block, n: Block) {
    exists i: nat :: IsUsers(c, m, n, i)
  }

  /**
   * All of the user's text is kept exactly when the file is read as text, and no
   * marker of the second block stands in the region of the first so that a later
   * part of the file is taken for the rest of the second, or for all of it.
   */
  lemma UserTextSurvivesExactly(f: File, readable: bool, m: Block, n: Block)
    requires Separate(m, n) && HasUsers(f.Raw(), m, n)
    ensures (forall i: nat :: IsUsers(f.Raw(), m, n, i) ==> IsKept(f, readable, m, n, i))
            <==> f.Text? && readable && Swallowed(f.Raw(), m, n).None?
  {
    var c := f.Raw();
    MarkersAreLines(m, n);
    hide Separate, Swallowed, Place, IsUsers;
    if f.Text? && readable {
      if Swallowed(c, m, n).None? {
        forall i: nat | IsUsers(c, m, n, i) ensures i < |c| && IsKept(f, readable, m, n, i) {
          UsersAreWithin(c, m, n, i);
          UsersCharacterStays(c, m, n, i);
        }
      } else {
        SwallowedIsUsers(c, m, n);
        var i := Swallowed(c, m, n).value.0;
        UsersCharacterStays(c, m, n, i);
        assert IsUsers(c, m, n, i) && !IsKept(f, readable, m, n, i);
      }
    } else {
      var i: nat :| IsUsers(c, m, n, i);
      UsersAreWithin(c, m, n, i);
      assert !IsKept(f, readable, m, n, i);
    }
  }

  // ---- A line of the user's ----

  /** A foreign line comes from where it was. */
  lemma ComesFrom(w: string, n: Block, p: string, j: nat) returns (i: nat)
    requires Foreign(p, n) && n.end != "" && At(Upsert(w, n).0, p, j)
    ensures i < |w| && At(w, p, i) && Goes(w, n, i) == Some(j)
  {
    ForeignIsLine(p, n);
    i := j;
    hide At, Foreign, Find, FindFrom, Upsert, Block.Full;
    if Region(w, n).Some? && !Current(w, n) {
      i := ComesFromAround(w, n, p, j);
    } else {
      ComesFromSame(w, n, p, j);
    }
  }

  lemma ComesFromSame(w: string, n: Block, p: string, j: nat)
    requires Foreign(p, n) && At(Upsert(w, n).0, p, j) && (Region(w, n).None? || Current(w, n))
    ensures j < |w| && At(w, p, j) && Goes(w, n, j) == Some(j)
  {
    ForeignIsLine(p, n);
    hide At, Foreign, FindFrom, Block.Full;
    if Find(w, n.start).None? { AppendedHasTheSame(w, n, p, j); }
    AtIsWithin(w, p, j);
  }

  lemma ComesFromAround(w: string, n: Block, p: string, j: nat) returns (i: nat)
    requires Foreign(p, n) && n.end != "" && At(Upsert(w, n).0, p, j) && Region(w, n).Some? && !Current(w, n)
    ensures i < |w| && At(w, p, i) && Goes(w, n, i) == Some(j)
  {
    ForeignIsLine(p, n);
    hide At, Foreign, Find, FindFrom, Upsert, Block.Full, Region, Current;
    Cut(w, n);
    var (a, b) := Region(w, n).value;
    i := CutComesFrom(w, n, a, b, p, j);
    AtIsWithin(w, p, i);
  }

  lemma CutComesFrom(w: string, n: Block, a: nat, b: nat, p: string, j: nat) returns (i: nat)
    requires Foreign(p, n) && a <= b <= |w| && At(w, n.start, a) && At(w[..a] + n.Full() + w[b..], p, j)
    ensures At(w, p, i) && (if i < a then j == i else b <= i && j == i - b + a + |n.Full()|)
  {
    ForeignIsLine(p, n);
    ConcatAssociative(w[..a], n.Full(), w[b..]);
    hide At, Foreign;
    if j < a {
      i := j;
      if !At(w, p, j) { NotInFrontOfFull(w, p, n, a, w[b..], j); }
    } else {
      AtSuffix(w[..a], n.Full() + w[b..], p, j);
      if j < a + |n.Full()| { NowhereInFull(p, n, w[b..], j - a); }
      AtSuffix(w[..a] + n.Full(), w[b..], p, j);
      i := j - |w[..a] + n.Full()| + b;
      assert w == w[..b] + w[b..];
      AtSuffix(w[..b], w[b..], p, i);
    }
  }

  lemma SameAsAt(c: string, d: string, p: string, i: nat, j: nat)
    requires At(c, p, i) && j + |p| <= |d| && forall k: nat :: i <= k < i + |p| ==> c[k] == d[j + k - i]
    ensures At(d, p, j)
  {
    forall x: nat | x < |p| ensures p[x] == d[j..j + |p|][x] {
      assert p[x] == c[i..i + |p|][x] == c[i + x];
    }
    assert d[j..j + |p|] == p;
  }

  ghost predicate AllStay(c: string, m: Block, i: nat, len: nat) {
    i + len <= |c| && forall k: nat :: i <= k < i + len ==> Goes(c, m, k).Some?
  }

  ghost predicate AllPlaced(c: string, m: Block, n: Block, i: nat, len: nat) {
    i + len <= |c| && forall k: nat :: i <= k < i + len ==> Place(c, m, n, k).Some?
  }

  ghost predicate Moves(c: string, m: Block, i: nat, j: nat, len: nat) {
    i + len <= |c| && forall k: nat :: i <= k < i + len ==> Goes(c, m, k) == Some(j + (k - i))
  }

  /** What stays, stays together. */
  lemma StayTogether(c: string, m: Block, i: nat, len: nat)
    requires m.end != "" && len > 0 && AllStay(c, m, i, len)
    ensures Moves(c, m, i, Goes(c, m, i).value, len) && Goes(c, m, i).value + len <= |Upsert(c, m).0|
  {
    hide Upsert, Goes;
    var j := Goes(c, m, i).value;
    forall k: nat | i <= k < i + len ensures Goes(c, m, k) == Some(j + (k - i)) {
      GoesEvenly(c, m, i, k);
    }
    assert Goes(c, m, i + len - 1) == Some(j + (len - 1));
  }

  lemma MovedAt(c: string, m: Block, p: string, i: nat, j: nat)
    requires At(c, p, i) && Moves(c, m, i, j, |p|) && j + |p| <= |Upsert(c, m).0|
    ensures At(Upsert(c, m).0, p, j)
  {
    hide Upsert, Goes, At;
    var d := Upsert(c, m).0;
    forall k: nat | i <= k < i + |p| ensures c[k] == d[j + k - i] {
      assert Goes(c, m, k) == Some(j + (k - i));
    }
    SameAsAt(c, d, p, i, j);
  }

  lemma GoesEvenly(c: string, m: Block, i: nat, k: nat)
    requires m.end != "" && i <= k < |c| && forall x: nat :: i <= x <= k ==> Goes(c, m, x).Some?
    ensures Goes(c, m, k) == Some(Goes(c, m, i).value + (k - i))
    decreases k - i
  {
    hide Goes;
    if i < k {
      GoesEvenly(c, m, i, k - 1);
      GoesInOrder(c, m, k - 1, k);
    }
  }

  lemma PlacedGoes(c: string, m: Block, n: Block, k: nat)
    requires k < |c| && Place(c, m, n, k).Some?
    ensures
      var j := Goes(c, m, k);
      j.Some? && j.value < |Upsert(c, m).0| && Goes(Upsert(c, m).0, n, j.value) == Place(c, m, n, k)
  {
    hide Goes, Upsert;
  }

  lemma PlacedStay(c: string, m: Block, n: Block, i: nat, len: nat)
    requires AllPlaced(c, m, n, i, len)
    ensures AllStay(c, m, i, len)
  {
    hide Goes, Upsert, Place;
    forall k: nat | i <= k < i + len ensures Goes(c, m, k).Some? { PlacedGoes(c, m, n, k); }
  }

  /** What the first upsert moves together, the second leaves its places too. */
  lemma PlacedOn(c: string, m: Block, n: Block, i: nat, j: nat, len: nat)
    requires AllPlaced(c, m, n, i, len) && Moves(c, m, i, j, len) && j + len <= |Upsert(c, m).0|
    ensures AllStay(Upsert(c, m).0, n, j, len)
  {
    hide Goes, Upsert, Place;
    forall k: nat | j <= k < j + len ensures Goes(Upsert(c, m).0, n, k).Some? {
      var x: nat := i + (k - j);
      assert Goes(c, m, x) == Some(j + (x - i));
      PlacedGoes(c, m, n, x);
    }
  }

  lemma PlacedTogether(c: string, m: Block, n: Block, p: string, i: nat)
    requires m.end != "" && n.end != "" && p != "" && At(c, p, i) && AllPlaced(c, m, n, i, |p|)
    ensures Occurs(Installed(c, m, n), p)
  {
    hide Goes, Upsert, At, Occurs, Place, AllPlaced, AllStay, Moves;
    PlacedStay(c, m, n, i, |p|);
    var d, j := TogetherIsThere(c, m, p, i);
    PlacedOn(c, m, n, i, j, |p|);
    var e, k := TogetherIsThere(d, n, p, j);
    IsThere(e, p, k);
  }

  lemma TogetherIsThere(c: string, m: Block, p: string, i: nat) returns (d: string, j: nat)
    requires m.end != "" && p != "" && At(c, p, i) && AllStay(c, m, i, |p|)
    ensures d == Upsert(c, m).0 && At(d, p, j) && Moves(c, m, i, j, |p|) && j + |p| <= |d|
  {
    StaysWithin(c, m, i, |p|);
    hide Goes, Upsert, At, AllStay, Moves;
    StayTogether(c, m, i, |p|);
    d, j := Upsert(c, m).0, Goes(c, m, i).value;
    MovedAt(c, m, p, i, j);
  }

  lemma StaysWithin(c: string, m: Block, i: nat, len: nat)
    requires len > 0 && AllStay(c, m, i, len)
    ensures i < |c| && Goes(c, m, i).Some?
  {
    hide Goes;
  }

  lemma AtEndsWithin(d: string, p: string, j: nat)
    requires At(d, p, j)
    ensures j + |p| <= |d|
  {
  }

  lemma IsThere(e: string, p: string, j: nat)
    requires At(e, p, j)
    ensures Occurs(e, p)
  {
  }

  lemma BeginsInside(c: string, p: string, q: string, i: nat, x: nat)
    requires At(c, p, i) && At(c, q, x) && i <= x < i + |p|
    ensures Fits(q, p, x - i)
  {
    forall y: nat | y < |q| && x - i + y < |p| ensures q[y] == p[x - i + y] {
      assert q[y] == c[x..x + |q|][y] == c[x + y];
      assert p[x - i + y] == c[i..i + |p|][x - i + y];
    }
  }

  lemma BeginsBehind(c: string, p: string, q: string, i: nat, x: nat)
    requires NotInside(q, p) && At(c, p, i) && At(c, q, x) && i <= x
    ensures i + |p| <= x
  {
    hide At;
    if x < i + |p| {
      BeginsInside(c, p, q, i, x);
    }
  }

  /** A line that begins in front of what is swallowed ends in front of it. */
  lemma SwallowedWhole(c: string, m: Block, n: Block, p: string, i: nat, k: nat)
    requires Separate(m, n) && NotInside(n.start, p) && At(c, p, i)
    requires forall x: nat :: i <= x < i + |p| ==> IsUsers(c, m, n, x)
    requires i <= k < i + |p| && IsSwallowed(c, m, n, k)
    ensures IsSwallowed(c, m, n, i)
  {
    MarkersAreLines(m, n);
    SwallowedBegins(c, m, n);
    hide Swallowed, IsUsers, Separate, At, Fits;
    var x := Swallowed(c, m, n).value.0;
    if i < x {
      assert IsUsers(c, m, n, x - 1);
      BeginsBehind(c, p, n.start, i, x);
    }
  }

  lemma SwallowedBegins(c: string, m: Block, n: Block)
    requires m.end != "" && n.end != "" && Swallowed(c, m, n).Some?
    ensures
      var x := Swallowed(c, m, n).value.0;
      x > 0 && (!IsUsers(c, m, n, x - 1) || At(c, n.start, x))
  {
    hide At, Find, FindFrom;
  }

  /** A line of the user's that stands in the file once is there afterwards exactly unless it is swallowed. */
  lemma LineStaysExactly(c: string, m: Block, n: Block, p: string, i: nat)
    requires Separate(m, n) && Foreign(p, m) && Foreign(p, n) && NotInside(n.start, p)
    requires At(c, p, i) && forall j: nat :: At(c, p, j) ==> j == i
    requires forall k: nat :: i <= k < i + |p| ==> IsUsers(c, m, n, k)
    ensures Occurs(Installed(c, m, n), p) <==> !IsSwallowed(c, m, n, i)
  {
    MarkersAreLines(m, n);
    ForeignIsLine(p, m);
    AtIsWithin(c, p, i);
    hide Separate, Foreign, At, Goes, Upsert, IsSwallowed, NotInside;
    UsersCharacterStays(c, m, n, i);
    if Occurs(Installed(c, m, n), p) {
      var j: nat :| At(Installed(c, m, n), p, j);
      var k := ComesFrom(Upsert(c, m).0, n, p, j);
      var l := ComesFrom(c, m, p, k);
    }
    if !IsSwallowed(c, m, n, i) {
      AtEndsWithin(c, p, i);
      forall k: nat | i <= k < i + |p| ensures Place(c, m, n, k).Some? {
        UsersCharacterStays(c, m, n, k);
        if IsSwallowed(c, m, n, k) { SwallowedWhole(c, m, n, p, i, k); }
      }
      PlacedTogether(c, m, n, p, i);
    }
  }

  /** Such a line of any file survives exactly if the file is read as text, and the line is not swallowed. */
  lemma UserLineSurvivesExactly(f: File, readable: bool, m: Block, n: Block, p: string, i: nat)
    requires Separate(m, n) && Foreign(p, m) && Foreign(p, n) && NotInside(n.start, p)
    requires At(f.Raw(), p, i) && forall j: nat :: At(f.Raw(), p, j) ==> j == i
    requires forall k: nat :: i <= k < i + |p| ==> IsUsers(f.Raw(), m, n, k)
    ensures Occurs(Installed(f.Read(readable), m, n), p)
            <==> f.Text? && readable && !IsSwallowed(f.Raw(), m, n, i)
  {
    ForeignIsLine(p, m);
    AtIsWithin(f.Raw(), p, i);
    hide Separate, Foreign, At, Installed, IsSwallowed, NotInside, IsUsers, Occurs;
    if f.Text? && readable {
      LineStaysExactly(f.Raw(), m, n, p, i);
    } else {
      NoLineFromNothing(m, n, p);
    }
  }

  lemma WholeIsAt(p: string)
    ensures At(p, p, 0)
  {
  }

  lemma OnOneSide(a: string, b: string, q: string, j: nat)
    requires '\n' !in q && At(a + "\n" + b, q, j)
    ensures Occurs(a, q) || Occurs(b, q)
  {
    NewlineSplits(a, b, q, j);
    if |a| < j {
      AtSuffix(a + "\n", b, q, j);
      assert At(b, q, j - |a| - 1);
    } else {
      ConcatAssociative(a, "\n", b);
      AtPrefix(a, "\n" + b, q, j);
      assert At(a, q, j);
    }
  }

  lemma NotBesideBlock(p: string, m: Block, q: string)
    requires Foreign(q, m) && !Occurs(p, q) && !Occurs(m.Full() + "\n", q)
    ensures !Occurs(p + "\n" + (m.Full() + "\n"), q)
  {
    hide At, Foreign;
    ForeignIsLine(q, m);
    if Occurs(p + "\n" + (m.Full() + "\n"), q) {
      var j: nat :| At(p + "\n" + (m.Full() + "\n"), q, j);
      OnOneSide(p, m.Full() + "\n", q, j);
    }
  }

  /** At one input: a file of one line and no block, that is not text, loses the line, which it would keep as text. */
  lemma LineOfNoTextIsLost(m: Block, n: Block, p: string)
    requires Separate(m, n) && Foreign(p, m) && Foreign(p, n) && !Occurs(p, m.start) && !Occurs(p, n.start)
    ensures !Occurs(Installed(NotText(p).Read(true), m, n), p) && Occurs(Installed(Text(p).Read(true), m, n), p)
  {
    ForeignIsLine(p, m);
    MarkersAreLines(m, n);
    NoLineFromNothing(m, n, p);
    assert Region(p, m).None? && Region(p, n).None?;
    hide At, Separate, Foreign, FindFrom, Region, Installed, Occurs;
    forall k: nat | 0 <= k < 0 + |p| ensures k < |p| && Place(p, m, n, k).Some? {
      UsersCharacterStays(p, m, n, k);
    }
    WholeIsAt(p);
    PlacedTogether(p, m, n, p, 0);
  }

  // ---- Two files that lose a line ----

  lemma NotInFull(p: string, m: Block)
    requires Foreign(p, m)
    ensures !Occurs(m.Full(), p)
  {
    hide Foreign, At;
    assert m.Full() + "" == m.Full();
    forall j: nat ensures !At(m.Full(), p, j) {
      if j < |m.Full()| { NowhereInFull(p, m, "", j); }
      else { ForeignIsLine(p, m); AtIsWithin(m.Full(), p, j); }
    }
  }

  lemma NotInEither(a: string, b: string, q: string)
    requires '\n' !in q && !Occurs(a, q) && !Occurs(b, q)
    ensures !Occurs(a + "\n" + b, q)
  {
    hide At;
    if Occurs(a + "\n" + b, q) {
      var j: nat :| At(a + "\n" + b, q, j);
      OnOneSide(a, b, q, j);
    }
  }

  /** Behind a line that it is not in, a block in full is found. */
  lemma RegionBehindLine(line: string, b: Block, z: string, m: Block)
    requires b.Proper() && b.start == m.start && b.end == m.end && !Occurs(line, m.start)
    ensures
      var x := line + "\n";
      Region(x + (b.Full() + z), m) == Some((|x|, |x| + |b.Full()|))
  {
    var x, w := line + "\n", b.Full() + z;
    hide At, FindFrom, Find, Region, Current, Block.Full;
    forall j: nat | j < |x| ensures !At(x + w, m.start, j) {
      if At(x + w, m.start, j) { InFirstLine(line, m.start, w, j); }
    }
    FullIsCurrent(b, z);
    SameMarkers(w, b, m);
    RegionBehind(x, w, m);
  }

  function Crossing(m: Block, n: Block, p: string): string {
    n.start + "\n" + (Block(m.start, m.end, n.end).Full() + ("\n" + p + ("\n" + n.end)))
  }

  lemma CrossingFirst(m: Block, n: Block, p: string)
    requires m.Proper() && Separate(m, n)
    ensures
      var a := |n.start| + 1;
      Region(Crossing(m, n, p), m) == Some((a, a + |Block(m.start, m.end, n.end).Full()|))
  {
    var inner := Block(m.start, m.end, n.end);
    NotInsideNotOccurs(m.start, n.start);
    NotInsideNotOccurs(m.end, n.end);
    hide At, Find, FindFrom, Region, Occurs, NotInside, Block.Full;
    RegionBehindLine(n.start, inner, "\n" + p + ("\n" + n.end), m);
  }

  lemma CrossingIsFull(m: Block, n: Block, p: string)
    ensures
      var outer := Block(n.start, n.end, m.start);
      && Crossing(m, n, p) == outer.Full() + ("\n" + m.end + ("\n" + p + ("\n" + n.end)))
      && |outer.Full()| <= |n.start| + 1 + |Block(m.start, m.end, n.end).Full()|
  {
    FullCuts(Block(m.start, m.end, n.end), "\n" + p + ("\n" + n.end));
  }

  lemma CrossingSecond(m: Block, n: Block, p: string)
    requires n.Proper() && Separate(m, n)
    ensures
      var r := Region(Crossing(m, n, p), n);
      r.Some? && r.value.1 <= |n.start| + 1 + |Block(m.start, m.end, n.end).Full()|
  {
    var outer := Block(n.start, n.end, m.start);
    NotInsideNotOccurs(n.end, m.start);
    hide At, Find, FindFrom, Region, Current, Occurs, NotInside, Block.Full;
    CrossingIsFull(m, n, p);
    FullIsCurrent(outer, "\n" + m.end + ("\n" + p + ("\n" + n.end)));
    SameMarkers(Crossing(m, n, p), outer, n);
  }

  /** What is behind a stretch of a text of four parts. */
  lemma FourParts(a: string, b: string, p: string, z: string)
    ensures
      var c := a + (b + ("\n" + p + z));
      && c[..|a|] == a && c[|a| + |b|..] == "\n" + p + z && At(c, p, |a| + |b| + 1)
  {
    assert a + (b + ("\n" + p + z)) == a + b + "\n" + p + z;
  }

  lemma FullIs(m: Block)
    ensures m.Full() == m.start + "\n" + m.text + "\n" + m.end
  {
  }

  lemma CrossingWhole(m: Block, n: Block, p: string)
    ensures n.start + "\n" + m.Full() + ("\n" + p + ("\n" + n.end)) == Block(n.start, n.end, m.Full() + "\n" + p).Full()
  {
    hide Block.Full;
    var x := m.Full();
    assert n.start + "\n" + x + ("\n" + p + ("\n" + n.end)) == n.start + "\n" + (x + "\n" + p) + "\n" + n.end;
    FullIs(Block(n.start, n.end, x + "\n" + p));
  }

  lemma CrossingSpliced(m: Block, n: Block, p: string)
    requires m.Proper() && Separate(m, n)
    ensures Upsert(Crossing(m, n, p), m).0 == Block(n.start, n.end, m.Full() + "\n" + p).Full()
    ensures At(Crossing(m, n, p), p, |n.start| + |Block(m.start, m.end, n.end).Full()| + 2)
  {
    hide At, Find, FindFrom, Region, Separate, Upsert, Block.Full, Dangling;
    CrossingFirst(m, n, p);
    FourParts(n.start + "\n", Block(m.start, m.end, n.end).Full(), p, "\n" + n.end);
    SomeIsNotDangling(Crossing(m, n, p), m);
    UpsertSplices(Crossing(m, n, p), m);
    CrossingWhole(m, n, p);
  }

  /** The line lies behind both regions. */
  lemma CrossingIsUsers(m: Block, n: Block, p: string, k: nat)
    requires m.Proper() && n.Proper() && Separate(m, n)
    requires 0 <= k - (|n.start| + |Block(m.start, m.end, n.end).Full()| + 2) < |p|
    ensures IsUsers(Crossing(m, n, p), m, n, k)
  {
    hide At, Find, FindFrom, Region, Separate, Block.Full;
    CrossingFirst(m, n, p);
    CrossingSecond(m, n, p);
    assert |n.start| + |Block(m.start, m.end, n.end).Full()| + 2 + |p| <= |Crossing(m, n, p)|;
  }

  /**
   * The first block stands in the second and holds its end marker; the user's line
   * behind both is lost, for the second block then ends at the later end marker.
   */
  lemma CrossedIsLost(m: Block, n: Block, p: string)
    requires m.Proper() && n.Proper() && Separate(m, n) && !Occurs(m.Full(), n.end)
    requires Foreign(p, n) && !Occurs(p, n.end)
    ensures
      var c, i := Crossing(m, n, p), |n.start| + |Block(m.start, m.end, n.end).Full()| + 2;
      && At(c, p, i) && (forall k: nat :: i <= k < i + |p| ==> IsUsers(c, m, n, k))
      && Installed(Text(c).Read(true), m, n) == n.Full() && !Occurs(n.Full(), p)
  {
    MarkersAreLines(m, n);
    ForeignIsLine(n.end, m);
    hide Find, FindFrom, Region, Occurs, Foreign, Separate, Upsert, At, Dangling, Block.Full, Crossing, IsUsers;
    CrossingSpliced(m, n, p);
    var i := |n.start| + |Block(m.start, m.end, n.end).Full()| + 2;
    forall k: nat | i <= k < i + |p| ensures IsUsers(Crossing(m, n, p), m, n, k) { CrossingIsUsers(m, n, p, k); }
    NotInFull(p, n);
    NotInEither(m.Full(), p, n.end);
    WholeFileIsReplaced(Block(n.start, n.end, m.Full() + "\n" + p), n);
  }

  function Repeated(m: Block, n: Block, p: string): string {
    Block(m.start, m.end, Block(n.start, n.end, "").Full()).Full() + "\n" + Block(n.start, n.end, p).Full()
  }

  lemma RepeatedIs(m: Block, n: Block, p: string)
    ensures
      var inner, z := Block(n.start, n.end, ""), "\n" + Block(n.start, n.end, p).Full();
      && Repeated(m, n, p) == Block(m.start, m.end, inner.Full()).Full() + z
      && Repeated(m, n, p) == m.start + "\n" + (inner.Full() + ("\n" + m.end + z))
      && |m.start| + 1 + |inner.Full()| <= |Block(m.start, m.end, inner.Full()).Full()|
  {
    var inner, z := Block(n.start, n.end, ""), "\n" + Block(n.start, n.end, p).Full();
    var outer := Block(m.start, m.end, inner.Full());
    FullIs(outer);
    hide Block.Full;
    ConcatAssociative(outer.Full(), "\n", Block(n.start, n.end, p).Full());
    assert m.start + "\n" + inner.Full() + "\n" + m.end + z == m.start + "\n" + (inner.Full() + ("\n" + m.end + z));
  }

  lemma RepeatedFirst(m: Block, n: Block, p: string)
    requires m.Proper() && Separate(m, n)
    ensures Region(Repeated(m, n, p), m) == Some((0, |Block(m.start, m.end, Block(n.start, n.end, "").Full()).Full()|))
  {
    var inner := Block(n.start, n.end, "");
    assert Foreign(m.end, inner);
    NotInFull(m.end, inner);
    hide At, Find, FindFrom, Region, Occurs, NotInside, Block.Full, Repeated, Current;
    var outer, z := Block(m.start, m.end, inner.Full()), "\n" + Block(n.start, n.end, p).Full();
    RepeatedIs(m, n, p);
    FullIsCurrent(outer, z);
    SameMarkers(outer.Full() + z, outer, m);
  }

  lemma RepeatedInner(m: Block, n: Block, p: string)
    requires n.Proper() && Separate(m, n)
    ensures
      var r := Region(Repeated(m, n, p), n);
      r.Some? && r.value.1 <= |Block(m.start, m.end, Block(n.start, n.end, "").Full()).Full()|
  {
    NotInsideNotOccurs(n.start, m.start);
    NothingInNothing(n.end);
    hide At, Find, FindFrom, Region, Occurs, NotInside, Block.Full, Repeated, Current;
    var inner := Block(n.start, n.end, "");
    var z := "\n" + Block(n.start, n.end, p).Full();
    RepeatedIs(m, n, p);
    RegionBehindLine(m.start, inner, "\n" + m.end + z, n);
  }

  lemma RepeatedSpliced(m: Block, n: Block, p: string)
    requires m.Proper() && Separate(m, n)
    ensures Upsert(Repeated(m, n, p), m).0 == m.Full() + "\n" + Block(n.start, n.end, p).Full()
  {
    hide At, Find, FindFrom, Region, Separate, Upsert, Block.Full, Dangling, Repeated;
    var c, b := Repeated(m, n, p), |Block(m.start, m.end, Block(n.start, n.end, "").Full()).Full()|;
    RepeatedFirst(m, n, p);
    RepeatedIs(m, n, p);
    SomeIsNotDangling(c, m);
    UpsertSplices(c, m);
    assert c[..0] == "" && c[b..] == "\n" + Block(n.start, n.end, p).Full();
    assert "" + m.Full() == m.Full();
    ConcatAssociative(m.Full(), "\n", Block(n.start, n.end, p).Full());
  }

  lemma TextInFull(a: string, n: Block, p: string)
    ensures
      var c, i := a + ("\n" + Block(n.start, n.end, p).Full()), |a| + |n.start| + 2;
      At(c, p, i) && i + |p| <= |c|
  {
    assert a + ("\n" + Block(n.start, n.end, p).Full()) == a + "\n" + n.start + "\n" + p + "\n" + n.end;
  }

  /** The line stands behind both regions. */
  lemma RepeatedIsUsers(m: Block, n: Block, p: string, k: nat)
    requires m.Proper() && n.Proper() && Separate(m, n)
    requires |Block(m.start, m.end, Block(n.start, n.end, "").Full()).Full()| <= k < |Repeated(m, n, p)|
    ensures IsUsers(Repeated(m, n, p), m, n, k)
  {
    hide At, Find, FindFrom, Region, Separate, Block.Full, Repeated;
    RepeatedFirst(m, n, p);
    RepeatedInner(m, n, p);
  }

  lemma RepeatedLine(m: Block, n: Block, p: string)
    requires m.Proper() && n.Proper() && Separate(m, n)
    ensures
      var c := Repeated(m, n, p);
      var i := |Block(m.start, m.end, Block(n.start, n.end, "").Full()).Full()| + |n.start| + 2;
      At(c, p, i) && forall k: nat :: i <= k < i + |p| ==> IsUsers(c, m, n, k)
  {
    hide Separate, At, Block.Full, Repeated, IsUsers;
    RepeatedIs(m, n, p);
    var b := |Block(m.start, m.end, Block(n.start, n.end, "").Full()).Full()|;
    TextInFull(Block(m.start, m.end, Block(n.start, n.end, "").Full()).Full(), n, p);
    var i := b + |n.start| + 2;
    forall k: nat | i <= k < i + |p| ensures IsUsers(Repeated(m, n, p), m, n, k) { RepeatedIsUsers(m, n, p, k); }
  }

  /** The first block holds a second in full; a later second, of the user's, is taken for it and replaced. */
  lemma RepeatedIsLost(m: Block, n: Block, p: string)
    requires m.Proper() && n.Proper() && Separate(m, n) && Foreign(p, m) && Foreign(p, n) && !Occurs(p, n.end)
    ensures
      var c := Repeated(m, n, p);
      var i := |Block(m.start, m.end, Block(n.start, n.end, "").Full()).Full()| + |n.start| + 2;
      && At(c, p, i) && (forall k: nat :: i <= k < i + |p| ==> IsUsers(c, m, n, k))
      && Installed(Text(c).Read(true), m, n) == m.Full() + "\n" + n.Full()
      && !Occurs(m.Full() + "\n" + n.Full(), p)
  {
    var later := Block(n.start, n.end, p);
    MarkersAreLines(m, n);
    ForeignIsLine(p, m);
    ForeignIsLine(n.start, m);
    hide Occurs, Foreign, Separate, Upsert, At, Dangling, Block.Full, Repeated, IsUsers;
    RepeatedLine(m, n, p);
    RepeatedSpliced(m, n, p);
    NotInFull(p, m);
    NotInFull(p, n);
    NotInEither(m.Full(), n.Full(), p);
    NotInFull(n.start, m);
    WholeFileIsReplaced(later, n);
    RepeatedSecond(m, n, later);
  }

  lemma RepeatedSecond(m: Block, n: Block, later: Block)
    requires later.Proper() && later.start == n.start && later.end == n.end && !Occurs(m.Full(), n.start)
    requires Upsert(later.Full(), n).0 == n.Full() && n.start != ""
    ensures Upsert(m.Full() + "\n" + later.Full(), n).0 == m.Full() + "\n" + n.Full()
  {
    var x, w := m.Full() + "\n", later.Full();
    assert w + "" == w;
    hide At, Find, FindFrom, Region, Occurs, Upsert;
    RegionBehindLine(m.Full(), later, "", n);
    SomeIsNotDangling(x + w, n);
    forall j: nat | j < |x| ensures !At(x + w, n.start, j) {
      if At(x + w, n.start, j) { InFirstLine(m.Full(), n.start, w, j); }
    }
    UpsertBehind(x, w, n);
  }

  class BashEnv {
    var file: File

    /** `readable` and `writes`: whether reading and writing succeed; `torn`: what a failed write leaves of the file. */
    method EnsureInstalled(shims: Block, guard: Block, readable: bool, writes: bool, torn: File) returns (ok: bool)
      modifies this
      ensures
        var c := old(file).Read(readable);
        var (d, shimsChanged) := Upsert(c, shims);
        var (e, guardChanged) := Upsert(d, guard);
        && ok == (writes || !(shimsChanged || guardChanged))
        && file == (if !(shimsChanged || guardChanged) then old(file) else if writes then Text(e) else torn)
      ensures ok && Separate(shims, guard) ==> file == Text(Installed(old(file).Read(readable), shims, guard))
      ensures
        var c := old(file).Read(readable);
        ok && shims.Proper() && guard.Proper() && Separate(shims, guard) ==>
          ((Current(file.Raw(), shims) && Current(file.Raw(), guard))
           <==> !Dangling(c, shims) && Fit(Front(c, shims), Behind(c, shims), shims, guard))
      ensures ok && Separate(shims, guard) && !(old(file).Text? && readable) ==>
                file == Text(shims.Full() + "\n" + guard.Full() + "\n")
      ensures ok && Separate(shims, guard) && (old(file).Missing? || (old(file).Text? && readable)) ==>
                (KeepsUsers(old(file).Raw(), file.Raw(), shims, guard)
                 <==> Swallowed(old(file).Raw(), shims, guard).None?)
    {
      hide At, Find, FindFrom, Upsert, Current, Dangling, Separate, Fit, KeepsUsers, Swallowed;
      var existing := file.Read(readable);
      ghost var before := file;
      var (content, shimsChanged) := Upsert(existing, shims);
      ghost var d := content;
      ChangedExactly(existing, shims);
      var (both, guardChanged) := Upsert(content, guard);
      ChangedExactly(d, guard);
      if Separate(shims, guard) {
        InstalledFromNothing(shims, guard);
        if shims.Proper() && guard.Proper() {
          BothCurrentExactly(existing, shims, guard);
        }
        if before.Missing? || (before.Text? && readable) {
          ReadIsPatchedExactly(before, readable, shims, guard);
        }
      }
      ok := true;
      if shimsChanged || guardChanged {
        if !writes {
          file := torn;
          return false;
        }
        file := Text(both);
      }
    }
  }
}
