/** What installing a block makes of a text, written out line by line. */
module BlockText {
  import opened Wrappers
  import opened Substrings
  import opened ManagedBlock

  /** The block as it stands in a file. */
  function Written(m: Block): string {
    m.start + [10 as char] + m.text + [10 as char] + m.end
  }

  /** Appended to a text that does not have it, a block begins and ends a line. */
  lemma AppendedExactly(c: string, m: Block)
    requires !Says(c, m.start)
    ensures Upsert(c, m).1
    ensures Upsert(c, m).0
         == c + (if c == "" || c[|c| - 1] as int == 10 then "" else [10 as char]) + Written(m) + [10 as char]
  {
    ContainsSays(c, m.start);
    hide Says;
  }

  /** The first start marker of the text stands behind `x`, and the first end marker from there on behind `was`. */
  ghost predicate StandsBetween(x: string, was: string, y: string, m: Block) {
    && (forall j: nat :: j < |x| ==> !At(x + (m.start + was + m.end + y), m.start, j))
    && (forall j: nat :: j < |m.start + was| ==> !At(m.start + was + m.end + y, m.end, j))
  }

  lemma MarkersAt(was: string, y: string, m: Block)
    ensures At(m.start + was + m.end + y, m.start, 0) && At(m.start + was + m.end + y, m.end, |m.start + was|)
  {
    var w := m.start + was + m.end + y;
    assert w == "" + m.start + (was + m.end + y) && w == (m.start + was) + m.end + y;
    AtExactly(w, m.start, 0);
    AtExactly(w, m.end, |m.start + was|);
  }

  lemma RegionIs(x: string, was: string, y: string, m: Block)
    requires StandsBetween(x, was, y, m)
    ensures
      var c, s := x + (m.start + was + m.end + y), |x|;
      && Find(c, m.start) == Some(s) && FindFrom(c, m.end, s) == Some(s + |m.start + was|)
      && c[..s] == x && c[s..s + |m.start + was + m.end|] == m.start + was + m.end
      && c[s + |m.start + was + m.end|..] == y
  {
    var w := m.start + was + m.end + y;
    MarkersAt(was, y, m);
    hide At;
    FindBehind(x, w, m.start);
    FindFromIs(w, m.start, 0, 0);
    FindFromBehind(x, w, m.end, 0);
    FindFromIs(w, m.end, 0, |m.start + was|);
    hide FindFrom;
  }

  lemma WrittenIsFull(m: Block)
    ensures Written(m) == m.Full()
  {
  }

  /** What stood between the markers is replaced, and nothing else. */
  lemma ReplacedExactly(x: string, was: string, y: string, m: Block)
    requires StandsBetween(x, was, y, m)
    ensures
      var r := Upsert(x + (m.start + was + m.end + y), m);
      && r.0 == x + Written(m) + y
      && (r.1 <==> m.start + was + m.end != Written(m))
  {
    RegionIs(x, was, y, m);
    WrittenIsFull(m);
    hide StandsBetween, Find, FindFrom, Written, Block.Full;
    assert x + (m.start + was + m.end + y) == x + (m.start + was + m.end) + y;
  }

  /** With no end marker behind the first start marker, nothing is changed. */
  lemma CutOffExactly(x: string, y: string, m: Block)
    requires forall j: nat :: j < |x| ==> !At(x + (m.start + y), m.start, j)
    requires !Says(m.start + y, m.end)
    ensures Upsert(x + (m.start + y), m) == (x + (m.start + y), false)
  {
    var w := m.start + y;
    assert w == "" + m.start + y;
    AtExactly(w, m.start, 0);
    ContainsSays(w, m.end);
    hide At;
    FindBehind(x, w, m.start);
    FindFromIs(w, m.start, 0, 0);
    FindFromBehind(x, w, m.end, 0);
    hide Says;
  }
}
