/**
 * Reassembly of lines from two chunked streams. Text is a sequence of
 * characters; lengths the program measures in bytes are UTF-8 lengths.
 */
module LineAssembly {
  import opened Wrappers

  type Instant = int

  const NEWLINE: char := '\n'
  /** A newline-free buffer longer than this is handed on as a line. */
  const RUNAWAY_BYTES: nat := 64 * 1024

  /** Bytes of one character in UTF-8 (section 3 of RFC 3629). */
  function Utf8Width(c: char): (w: nat)
    ensures 1 <= w <= 4
  {
    if c < '\U{80}' then 1 else if c < '\U{800}' then 2 else if c < '\U{10000}' then 3 else 4
  }

  function Utf8Len(s: string): (n: nat)
    ensures |s| <= n <= 4 * |s|
  {
    if s == "" then 0 else Utf8Width(s[0]) + Utf8Len(s[1..])
  }

  /** How many characters fit into `w` bytes of UTF-8. */
  ghost function Utf8Capacity(w: nat): nat {
    match w
    case 0 => 0
    case 1 => 128
    case 2 => 32 * 64
    case 3 => 16 * 64 * 64
    case _ => 8 * 64 * 64 * 64
  }

  /** A character takes as few bytes as it fits into. */
  lemma Utf8WidthIsLeast(c: char)
    ensures Utf8Capacity(Utf8Width(c) - 1) <= c as int < Utf8Capacity(Utf8Width(c))
  {
    assert c as int < 0x11_0000;
  }

  function StripCr(line: string): (r: string)
    ensures r <= line
  {
    if line != "" && line[|line| - 1] == '\r' then line[..|line| - 1] else line
  }

  /** Position of the first newline; the length of the text when there is none. */
  function FirstNewline(text: string): (i: nat)
    ensures i <= |text|
    ensures forall k :: 0 <= k < i ==> text[k] != NEWLINE
    ensures i < |text| ==> text[i] == NEWLINE
  {
    if text == "" || text[0] == NEWLINE then 0 else 1 + FirstNewline(text[1..])
  }

  /** The newline-terminated lines of `text`, without their line ends. */
  function Lines(text: string): (lines: seq<string>)
    decreases |text|
  {
    var i := FirstNewline(text);
    if i == |text| then [] else [StripCr(text[..i])] + Lines(text[i + 1..])
  }

  /** What follows the last newline of `text`. */
  function Tail(text: string): (tail: string)
    decreases |text|
  {
    var i := FirstNewline(text);
    if i == |text| then text else Tail(text[i + 1..])
  }

  lemma {:induction false} TailOfTerminated(text: string)
    requires text != "" && text[|text| - 1] == NEWLINE
    ensures Tail(text) == ""
    decreases |text|
  {
    var i := FirstNewline(text);
    if i < |text| - 1 {
      TailOfTerminated(text[i + 1..]);
    }
  }

  lemma FirstNewlineIs(text: string, i: nat)
    requires i < |text| && text[i] == NEWLINE
    requires forall k :: 0 <= k < i ==> text[k] != NEWLINE
    ensures FirstNewline(text) == i
  {
  }

  lemma NoNewline(text: string)
    requires NEWLINE !in text
    ensures FirstNewline(text) == |text| && Lines(text) == [] && Tail(text) == text
  {
  }

  lemma FirstLine(line: string, rest: string)
    requires NEWLINE !in line
    ensures Lines(line + [NEWLINE] + rest) == [StripCr(line)] + Lines(rest)
    ensures Tail(line + [NEWLINE] + rest) == Tail(rest)
  {
    var text := line + [NEWLINE] + rest;
    FirstNewlineIs(text, |line|);
    assert text[..|line|] == line && text[|line| + 1..] == rest;
  }

  lemma FeedEnds(line: string, rest: string)
    requires NEWLINE !in line && (line == "" || line[|line| - 1] as int != 13)
    ensures Lines(line + [10 as char] + rest) == [line] + Lines(rest)
  {
    FirstLine(line, rest);
  }

  lemma ReturnIsDropped(line: string, rest: string)
    requires NEWLINE !in line
    ensures Lines(line + [13 as char] + [10 as char] + rest) == [line] + Lines(rest)
  {
    var ended := line + [13 as char];
    assert ended[..|line|] == line;
    FirstLine(ended, rest);
  }

  /** A line ends with a line feed, in front of which one carriage return is dropped; without one, it has not ended. */
  lemma LineEnds(line: string, rest: string)
    requires forall i :: 0 <= i < |line| ==> line[i] as int != 10
    ensures Lines(line + [13 as char] + [10 as char] + rest) == [line] + Lines(rest)
    ensures line == "" || line[|line| - 1] as int != 13 ==> Lines(line + [10 as char] + rest) == [line] + Lines(rest)
    ensures Lines(line) == []
  {
    hide Lines;
    NoNewline(line);
    ReturnIsDropped(line, rest);
    if line == "" || line[|line| - 1] as int != 13 {
      FeedEnds(line, rest);
    }
  }

  lemma CutFirstLine(text: string) returns (line: string, rest: string)
    requires NEWLINE in text
    ensures NEWLINE !in line && text == line + [NEWLINE] + rest
  {
    var i := FirstNewline(text);
    line, rest := text[..i], text[i + 1..];
  }

  /** Text splits at any point: the unfinished line is carried over, nothing else is. */
  lemma {:induction false} LinesOfConcat(a: string, b: string)
    ensures Lines(a + b) == Lines(a) + Lines(Tail(a) + b)
    ensures Tail(a + b) == Tail(Tail(a) + b)
    decreases |a|
  {
    if NEWLINE in a {
      var line, rest := CutFirstLine(a);
      LinesOfConcat(rest, b);
      FirstLine(line, rest);
      FirstLine(line, rest + b);
      ConcatAssociative(line + [NEWLINE], rest, b);
      ConcatAssociative([StripCr(line)], Lines(rest), Lines(Tail(rest) + b));
    } else {
      NoNewline(a);
    }
  }

  /** A buffer that ends just behind a newline holds complete lines only. */
  lemma LinesUpToLastNewline(text: string, n: nat)
    requires n < |text| && text[n] == NEWLINE && NEWLINE !in text[n + 1..]
    ensures Lines(text[..n + 1]) == Lines(text) && Tail(text) == text[n + 1..]
  {
    hide Lines, Tail, FirstNewline;
    var complete, rest := text[..n + 1], text[n + 1..];
    assert text == complete + rest;
    TailOfTerminated(complete);
    LinesOfConcat(complete, rest);
    assert "" + rest == rest;
    NoNewline(rest);
  }

  /** A line as the detector sees it. */
  datatype Seen = Seen(stream: nat, line: string, at: Instant)

  /** Text that one read brought; stream 0 is standard output, any other number standard error. */
  datatype Chunk = Chunk(stream: nat, text: string, at: Instant)

  function Slot(stream: nat): (s: nat)
    ensures s < 2
  {
    if stream < 1 then stream else 1
  }

  /** Unfinished text of each stream, and every line handed to the detector so far. */
  datatype Assembly = Assembly(partial: seq<string>, log: seq<Seen>) {
    ghost predicate Valid() {
      |partial| == 2
    }
  }

  function Tag(lines: seq<string>, stream: nat, at: Instant): (r: seq<Seen>)
    ensures |r| == |lines|
    ensures forall i :: 0 <= i < |r| ==> r[i] == Seen(stream, lines[i], at)
  {
    seq(|lines|, i requires 0 <= i < |lines| => Seen(stream, lines[i], at))
  }

  lemma TagSnoc(lines: seq<string>, i: nat, stream: nat, at: Instant)
    requires i < |lines|
    ensures Tag(lines[..i + 1], stream, at) == Tag(lines[..i], stream, at) + [Seen(stream, lines[i], at)]
  {
  }

  lemma TagOne(line: string, stream: nat, at: Instant)
    ensures Tag([line], stream, at) == [Seen(stream, line, at)]
  {
  }

  /** A buffer is cut off although its line has not ended. */
  predicate Runaway(buf: string) {
    NEWLINE !in buf && Utf8Len(buf) > RUNAWAY_BYTES
  }

  /** The lines a buffer yields when it has just grown... */
  function Yield(buf: string): (lines: seq<string>) {
    if Runaway(buf) then [buf] else Lines(buf)
  }

  /** ...and what stays unfinished. */
  function Rest(buf: string): (rest: string) {
    if Runaway(buf) then "" else Tail(buf)
  }

  function FeedOne(a: Assembly, c: Chunk): (r: Assembly)
    requires a.Valid()
    ensures r.Valid()
  {
    var s := Slot(c.stream);
    var buf := a.partial[s] + c.text;
    Assembly(a.partial[s := Rest(buf)], a.log + Tag(Yield(buf), s, c.at))
  }

  /** Output and errors are kept apart, and every line is dated with its chunk; what is not output is errors. */
  lemma StreamsAreApart(a: Assembly, c: Chunk)
    requires a.Valid()
    ensures
      var s, r := if c.stream == 0 then 0 else 1, FeedOne(a, c);
      && r.partial[1 - s] == a.partial[1 - s] && a.log <= r.log
      && (forall i :: |a.log| <= i < |r.log| ==> r.log[i].stream == s && r.log[i].at == c.at)
  {
    hide Rest, Yield;
  }

  const EMPTY: Assembly := Assembly(["", ""], [])

  function FeedAll(chunks: seq<Chunk>): (r: Assembly)
    ensures r.Valid()
  {
    if chunks == [] then EMPTY
    else FeedOne(FeedAll(chunks[..|chunks| - 1]), chunks[|chunks| - 1])
  }

  /** Growing a buffer by `y` at once, against handing on what is complete before `y` arrives. */
  ghost predicate SameCut(buf: string, y: string) {
    && Yield(buf + y) == Yield(buf) + Yield(Rest(buf) + y)
    && Rest(buf + y) == Rest(Rest(buf) + y)
  }

  lemma CutBehindNewline(buf: string, y: string)
    requires NEWLINE in buf
    ensures SameCut(buf, y) <==> !Runaway(Tail(buf) + y)
  {
    hide Lines, Tail, Utf8Len;
    assert NEWLINE in buf + y;
    LinesOfConcat(buf, y);
    if Runaway(Tail(buf) + y) {
      NoNewline(Tail(buf) + y);
      assert |Yield(buf) + Yield(Rest(buf) + y)| == |Lines(buf)| + 1;
    }
  }

  lemma CutBeforeNewline(buf: string, y: string)
    requires NEWLINE !in buf
    ensures SameCut(buf, y) <==> (Runaway(buf) ==> y == "")
  {
    hide Lines, Tail, Utf8Len;
    NoNewline(buf);
    if !Runaway(buf) {
      assert Yield(buf) + Yield(buf + y) == Yield(buf + y);
    } else {
      assert "" + y == y;
      Utf8LenConcat(buf, y);
      if NEWLINE in y {
        assert NEWLINE in buf + y;
        FirstLinePrefix(buf, y);
      } else {
        NoNewline(y);
        assert Runaway(buf + y);
        if y == "" {
          assert buf + y == buf && [buf] + [] == [buf];
        } else if Runaway(y) {
          assert |Yield(buf) + Yield(y)| == 2;
        } else {
          assert Rest(y) == y;
        }
      }
    }
  }

  lemma SameLogSameLines(log: seq<Seen>, one: seq<string>, two: seq<string>, s: nat, at: Instant)
    ensures log + Tag(one, s, at) == log + Tag(two, s, at) <==> one == two
  {
    if log + Tag(one, s, at) == log + Tag(two, s, at) {
      assert |one| == |two|;
      forall i | 0 <= i < |one| ensures one[i] == two[i] {
        assert (log + Tag(one, s, at))[|log| + i] == Seen(s, one[i], at);
        assert (log + Tag(two, s, at))[|log| + i] == Seen(s, two[i], at);
      }
    }
  }

  /**
   * Cutting one chunk in two at one instant changes nothing -- exactly when
   * no unfinished text between the two overflows: neither the first part on
   * its own (unless nothing follows) nor the tail the first part leaves
   * behind its last newline.
   */
  lemma SplitChunkExactly(a: Assembly, stream: nat, x: string, y: string, at: Instant)
    requires a.Valid()
    ensures
      var buf := a.partial[Slot(stream)] + x;
      FeedOne(FeedOne(a, Chunk(stream, x, at)), Chunk(stream, y, at)) == FeedOne(a, Chunk(stream, x + y, at))
      <==> if NEWLINE in buf then !Runaway(Tail(buf) + y) else Runaway(buf) ==> y == ""
  {
    var s := Slot(stream);
    var buf := a.partial[s] + x;
    assert a.partial[s] + (x + y) == buf + y;
    var once, twice := Yield(buf + y), Yield(buf) + Yield(Rest(buf) + y);
    assert Tag(twice, s, at) == Tag(Yield(buf), s, at) + Tag(Yield(Rest(buf) + y), s, at);
    assert a.log + Tag(twice, s, at) == a.log + Tag(Yield(buf), s, at) + Tag(Yield(Rest(buf) + y), s, at);
    SameLogSameLines(a.log, once, twice, s, at);
    var p := a.partial;
    assert p[s := Rest(buf)][s := Rest(Rest(buf) + y)] == p[s := Rest(Rest(buf) + y)];
    assert p[s := Rest(Rest(buf) + y)][s] == Rest(Rest(buf) + y) && p[s := Rest(buf + y)][s] == Rest(buf + y);
    if NEWLINE in buf {
      CutBehindNewline(buf, y);
    } else {
      CutBeforeNewline(buf, y);
    }
  }

  lemma {:induction false} Utf8LenConcat(a: string, b: string)
    ensures Utf8Len(a + b) == Utf8Len(a) + Utf8Len(b)
  {
    if a == "" {
      assert a + b == b;
    } else {
      assert (a + b)[1..] == a[1..] + b;
      Utf8LenConcat(a[1..], b);
    }
  }

  /** That many times the letter a. */
  function As(n: nat): (s: string)
    ensures |s| == n && Utf8Len(s) == n && NEWLINE !in s
  {
    if n == 0 then "" else ['a'] + As(n - 1)
  }

  lemma FeedRunaway(text: string)
    requires Runaway(text)
    ensures FeedOne(EMPTY, Chunk(0, text, 0)) == Assembly(["", ""], [Seen(0, text, 0)])
  {
    hide Runaway;
    assert EMPTY.partial[0] + text == text;
    TagOne(text, 0, 0);
    assert ["", ""][0 := ""] == ["", ""];
  }

  lemma FeedShort(text: string, log: seq<Seen>)
    requires NEWLINE !in text && !Runaway(text)
    ensures FeedOne(Assembly(["", ""], log), Chunk(0, text, 0)) == Assembly([text, ""], log)
  {
    hide Runaway;
    NoNewline(text);
    assert ["", ""][0] + text == text && ["", ""][0 := text] == [text, ""];
    assert log + Tag([], 0, 0) == log;
  }

  /** One letter less is no line yet. */
  lemma NoOverflowYet()
    ensures FeedOne(EMPTY, Chunk(0, As(65_536), 0)) == Assembly([As(65_536), ""], [])
  {
    hide As;
    FeedShort(As(65_536), []);
  }

  /**
   * 65,537 letters and one more, no line end among them: read in two chunks,
   * the letters are a line and the last is kept; read in one, all are the line.
   */
  lemma OverflowShowsTheSplit()
    ensures
      var x, y := As(65_537), "b";
      && FeedOne(FeedOne(EMPTY, Chunk(0, x, 0)), Chunk(0, y, 0)) == Assembly([y, ""], [Seen(0, x, 0)])
      && FeedOne(EMPTY, Chunk(0, x + y, 0)) == Assembly(["", ""], [Seen(0, x + y, 0)])
  {
    hide As;
    var x, y := As(65_537), "b";
    Utf8LenConcat(x, y);
    FeedRunaway(x);
    FeedRunaway(x + y);
    assert Utf8Len(y) == 1;
    hide FeedOne;
    FeedShort(y, [Seen(0, x, 0)]);
  }

  /** Text in front of the first newline does not change the number of lines. */
  lemma FirstLinePrefix(a: string, b: string)
    requires NEWLINE !in a && NEWLINE in b
    ensures |Lines(a + b)| == |Lines(b)|
  {
    var line, rest := CutFirstLine(b);
    FirstLine(line, rest);
    FirstLine(a + line, rest);
    ConcatAssociative(a + line, [NEWLINE], rest);
    ConcatAssociative(line, [NEWLINE], rest);
    ConcatAssociative(a, line, [NEWLINE] + rest);
  }

  /** All text fed to slot `s`, in order. */
  function TextOf(chunks: seq<Chunk>, s: nat): (text: string)
  {
    if chunks == [] then ""
    else
      var c := chunks[|chunks| - 1];
      TextOf(chunks[..|chunks| - 1], s) + (if Slot(c.stream) == s then c.text else "")
  }

  /** The lines of slot `s` in a log. */
  function LinesFrom(log: seq<Seen>, s: nat): (lines: seq<string>)
  {
    if log == [] then []
    else LinesFrom(log[..|log| - 1], s) + (if log[|log| - 1].stream == s then [log[|log| - 1].line] else [])
  }

  lemma LinesFromNone(s: nat)
    ensures LinesFrom([], s) == []
  {
  }

  lemma LinesFromSnoc(log: seq<Seen>, x: Seen, s: nat)
    ensures LinesFrom(log + [x], s) == LinesFrom(log, s) + if x.stream == s then [x.line] else []
  {
    assert (log + [x])[..|log|] == log;
  }

  lemma LinesFromNothing(log: seq<Seen>, stream: nat, at: Instant, s: nat)
    ensures LinesFrom(log + Tag([], stream, at), s) == LinesFrom(log, s)
  {
    hide LinesFrom;
    assert log + Tag([], stream, at) == log;
  }

  lemma {:induction false} LinesFromTagged(log: seq<Seen>, lines: seq<string>, stream: nat, at: Instant, s: nat)
    ensures LinesFrom(log + Tag(lines, stream, at), s)
         == LinesFrom(log, s) + (if stream == s then lines else [])
    decreases |lines|
  {
    hide LinesFrom, Tag;
    if lines == [] {
      LinesFromNothing(log, stream, at, s);
    } else {
      var n := |lines| - 1;
      var front := log + Tag(lines[..n], stream, at);
      LinesFromTagged(log, lines[..n], stream, at, s);
      TagSnoc(lines, n, stream, at);
      assert lines[..n + 1] == lines;
      ConcatAssociative(log, Tag(lines[..n], stream, at), [Seen(stream, lines[n], at)]);
      LinesFromSnoc(front, Seen(stream, lines[n], at), s);
      ConcatAssociative(LinesFrom(log, s), lines[..n], [lines[n]]);
    }
  }

  /** No unterminated stretch of the text ever exceeds the bound. */
  ghost predicate Bounded(text: string) {
    forall i :: 0 <= i <= |text| ==> Utf8Len(Tail(text[..i])) <= RUNAWAY_BYTES
  }

  lemma NotRunaway(text: string, buf: string)
    requires Bounded(text) && Tail(text) == Tail(buf)
    ensures !Runaway(buf)
  {
    assert text[..|text|] == text;
    if NEWLINE !in buf {
      NoNewline(buf);
    }
  }

  lemma FeedAllStep(chunks: seq<Chunk>)
    requires chunks != []
    ensures FeedAll(chunks) == FeedOne(FeedAll(chunks[..|chunks| - 1]), chunks[|chunks| - 1])
  {
  }

  lemma TextOfStep(chunks: seq<Chunk>, s: nat)
    requires chunks != []
    ensures
      var c := chunks[|chunks| - 1];
      TextOf(chunks, s) == TextOf(chunks[..|chunks| - 1], s) + if Slot(c.stream) == s then c.text else ""
  {
  }

  /** One chunk more: only its own stream's lines and tail move on. */
  lemma OneChunk(a: Assembly, c: Chunk, s: nat, before: string)
    requires a.Valid() && s < 2
    requires LinesFrom(a.log, s) == Lines(before) && a.partial[s] == Tail(before)
    requires Slot(c.stream) == s ==> !Runaway(Tail(before) + c.text)
    ensures
      var after := before + if Slot(c.stream) == s then c.text else "";
      LinesFrom(FeedOne(a, c).log, s) == Lines(after) && FeedOne(a, c).partial[s] == Tail(after)
  {
    assert before + "" == before;
    hide Lines, Tail, Utf8Len, LinesFrom;
    var t := Slot(c.stream);
    LinesFromTagged(a.log, Yield(a.partial[t] + c.text), t, c.at, s);
    LinesOfConcat(before, c.text);
  }

  lemma BoundedFront(x: string, y: string)
    requires Bounded(x + y)
    ensures Bounded(x)
  {
    forall i | 0 <= i <= |x| ensures Utf8Len(Tail(x[..i])) <= RUNAWAY_BYTES {
      assert x[..i] == (x + y)[..i];
    }
  }

  /**
   * However two streams are cut into chunks and interleaved, each stream's
   * lines and unfinished tail are those of its own concatenated text.
   */
  lemma {:induction false} ChunkingDoesNotMatter(chunks: seq<Chunk>, s: nat)
    requires s < 2 && Bounded(TextOf(chunks, s))
    ensures LinesFrom(FeedAll(chunks).log, s) == Lines(TextOf(chunks, s))
    ensures FeedAll(chunks).partial[s] == Tail(TextOf(chunks, s))
  {
    if chunks == [] {
      NoNewline("");
      LinesFromNone(s);
    } else {
      hide FeedOne, Lines, Tail, Bounded, LinesFrom, FeedAll, TextOf;
      var front, c := chunks[..|chunks| - 1], chunks[|chunks| - 1];
      var before := TextOf(front, s);
      var text := if Slot(c.stream) == s then c.text else "";
      assert TextOf(chunks, s) == before + text by { TextOfStep(chunks, s); }
      assert FeedAll(chunks) == FeedOne(FeedAll(front), c) by { FeedAllStep(chunks); }
      BoundedFront(before, text);
      ChunkingDoesNotMatter(front, s);
      LinesOfConcat(before, text);
      NotRunaway(before + text, Tail(before) + text);
      OneChunk(FeedAll(front), c, s, before);
    }
  }

  /** Two readings of the same bounded streams, however chunked or timed, agree on every stream. */
  lemma SameTextSameLines(one: seq<Chunk>, two: seq<Chunk>, s: nat)
    requires s < 2 && TextOf(one, s) == TextOf(two, s) && Bounded(TextOf(one, s))
    ensures LinesFrom(FeedAll(one).log, s) == LinesFrom(FeedAll(two).log, s)
    ensures FeedAll(one).partial[s] == FeedAll(two).partial[s]
  {
    ChunkingDoesNotMatter(one, s);
    ChunkingDoesNotMatter(two, s);
  }

  // ---- When chunking matters ----

  /** What a stream comes to: its lines, and what is unfinished. */
  datatype Reading = Reading(lines: seq<string>, rest: string)

  function ReadingOf(chunks: seq<Chunk>, s: nat): Reading
    requires s < 2
  {
    Reading(LinesFrom(FeedAll(chunks).log, s), FeedAll(chunks).partial[s])
  }

  /** However the text of a stream is cut into chunks, and whatever comes between them, it reads the same. */
  ghost predicate ReadsAlike(text: string, s: nat)
    requires s < 2
  {
    forall one, two :: TextOf(one, s) == text && TextOf(two, s) == text ==> ReadingOf(one, s) == ReadingOf(two, s)
  }

  /** No unfinished text is too long -- but for that of a text of one line, which may be by what comes last. */
  ghost predicate IsAlike(text: string) {
    && (forall i: nat :: i < |text| ==> !IsOver(text[..i]))
    && (NEWLINE in text ==> !IsOver(text))
  }

  predicate IsOver(text: string) {
    Utf8Len(Tail(text)) > RUNAWAY_BYTES
  }

  lemma FeedAllSnoc(chunks: seq<Chunk>, c: Chunk, s: nat)
    ensures FeedAll(chunks + [c]) == FeedOne(FeedAll(chunks), c)
    ensures TextOf(chunks + [c], s) == TextOf(chunks, s) + if Slot(c.stream) == s then c.text else ""
  {
    assert (chunks + [c])[..|chunks|] == chunks;
  }

  lemma ReadingSnoc(chunks: seq<Chunk>, c: Chunk, s: nat)
    requires s < 2
    ensures
      var r := ReadingOf(chunks, s);
      ReadingOf(chunks + [c], s) == if Slot(c.stream) != s then r
                                    else Reading(r.lines + Yield(r.rest + c.text), Rest(r.rest + c.text))
  {
    hide FeedOne, FeedAll, LinesFrom, Yield, Rest;
    FeedAllSnoc(chunks, c, s);
    FeedOneReads(FeedAll(chunks), c, s);
  }

  lemma FeedOneReads(a: Assembly, c: Chunk, s: nat)
    requires a.Valid() && s < 2
    ensures
      var buf, b := a.partial[s] + c.text, FeedOne(a, c);
      && LinesFrom(b.log, s) == LinesFrom(a.log, s) + (if Slot(c.stream) == s then Yield(buf) else [])
      && b.partial[s] == if Slot(c.stream) == s then Rest(buf) else a.partial[s]
  {
    hide LinesFrom, Yield, Rest;
    var t := Slot(c.stream);
    LinesFromTagged(a.log, Yield(a.partial[t] + c.text), t, c.at, s);
  }

  lemma AlikeIsBounded(text: string)
    requires IsAlike(text) && !IsOver(text)
    ensures Bounded(text)
  {
    assert text[..|text|] == text;
    forall i | 0 <= i <= |text| ensures Utf8Len(Tail(text[..i])) <= RUNAWAY_BYTES {
      if i < |text| { assert !IsOver(text[..i]); }
    }
  }

  lemma FrontIsBounded(text: string, n: nat)
    requires n < |text| && forall i: nat :: i < |text| ==> !IsOver(text[..i])
    ensures Bounded(text[..n])
  {
    forall i | 0 <= i <= n ensures Utf8Len(Tail(text[..n][..i])) <= RUNAWAY_BYTES {
      assert text[..n][..i] == text[..i];
      assert !IsOver(text[..i]);
    }
  }

  lemma BoundedReading(chunks: seq<Chunk>, s: nat)
    requires s < 2 && Bounded(TextOf(chunks, s))
    ensures ReadingOf(chunks, s) == Reading(Lines(TextOf(chunks, s)), Tail(TextOf(chunks, s)))
  {
    ChunkingDoesNotMatter(chunks, s);
  }

  /** A text of one line that is too long only with its end is that line, whenever its end comes. */
  lemma {:induction false} OverIsOneLine(chunks: seq<Chunk>, s: nat, text: string)
    requires s < 2 && TextOf(chunks, s) == text && NEWLINE !in text && IsOver(text)
    requires forall i: nat :: i < |text| ==> !IsOver(text[..i])
    ensures ReadingOf(chunks, s) == Reading([text], "")
  {
    hide Lines, FeedAll, TextOf, Bounded, ReadingOf, IsOver;
    NoNewline(text);
    OverIsRunaway(text);
    if chunks == [] {
      TextOfNone(s);
      assert false;
    }
    var front, c := chunks[..|chunks| - 1], chunks[|chunks| - 1];
    assert chunks == front + [c];
    ReadingSnoc(front, c, s);
    FeedAllSnoc(front, c, s);
    var before := TextOf(front, s);
    if before == text {
      OverIsOneLine(front, s, text);
      NothingMore(c, s, text);
    } else {
      OverAtLast(before, c, s, text);
      BoundedReading(front, s);
      NoNewline(before);
    }
  }

  lemma TextOfNone(s: nat)
    ensures TextOf([], s) == "" && !IsOver("")
  {
    NoNewline("");
  }

  lemma OverIsRunaway(text: string)
    requires NEWLINE !in text && IsOver(text)
    ensures Runaway(text) && Yield(text) == [text] && Rest(text) == ""
  {
    NoNewline(text);
  }

  lemma NothingMore(c: Chunk, s: nat, text: string)
    requires text + (if Slot(c.stream) == s then c.text else "") == text
    ensures Slot(c.stream) == s ==> c.text == "" && Yield("" + c.text) == [] && Rest("" + c.text) == ""
  {
    assert |text + (if Slot(c.stream) == s then c.text else "")| == |text|;
    NoNewline("");
    assert "" + "" == "";
  }

  lemma OverAtLast(before: string, c: Chunk, s: nat, text: string)
    requires text == before + (if Slot(c.stream) == s then c.text else "") && before != text && NEWLINE !in text
    requires forall i: nat :: i < |text| ==> !IsOver(text[..i])
    ensures Slot(c.stream) == s && Bounded(before) && NEWLINE !in before && text == before + c.text
  {
    hide IsOver, Bounded;
    assert before + "" == before;
    assert text[..|before|] == before;
    FrontIsBounded(text, |before|);
  }

  /** One chunk more of the stream. */
  lemma ReadOn(a: seq<Chunk>, s: nat, w: string) returns (b: seq<Chunk>)
    requires s < 2
    ensures TextOf(b, s) == TextOf(a, s) + w
    ensures
      var r := ReadingOf(a, s);
      ReadingOf(b, s) == Reading(r.lines + Yield(r.rest + w), Rest(r.rest + w))
  {
    hide ReadingOf, Yield, Rest, FeedAll, TextOf;
    b := a + [Chunk(s, w, 0)];
    ReadingSnoc(a, Chunk(s, w, 0), s);
    FeedAllSnoc(a, Chunk(s, w, 0), s);
  }

  /** Two ways to cut the same text behind `a`, of which nothing is unfinished. */
  lemma TwoWays(a: seq<Chunk>, s: nat, w: string, y: string, text: string)
    requires s < 2 && !SameCut(w, y) && ReadingOf(a, s).rest == "" && TextOf(a, s) + w + y == text
    ensures !ReadsAlike(text, s)
  {
    hide ReadingOf, Yield, Rest, FeedAll, TextOf, SameCut;
    var one := ReadOn(a, s, w + y);
    var half := ReadOn(a, s, w);
    var two := ReadOn(half, s, y);
    assert "" + w == w && "" + (w + y) == w + y;
    ConcatAssociative(TextOf(a, s), w, y);
    NotSameCut(ReadingOf(a, s).lines, w, y);
    assert ReadingOf(one, s) != ReadingOf(two, s);
  }

  /** A text cut in two behind `x`, where the line that is unfinished there, too long, goes on. */
  lemma OverInTheMiddle(x: string, y: string, s: nat)
    requires s < 2 && y != "" && IsOver(x)
    ensures !ReadsAlike(x + y, s)
  {
    hide Yield, Rest, Tail, FeedAll, TextOf, Utf8Len, SameCut, ReadingOf, ReadsAlike, Lines;
    var begun, w := SplitTail(x);
    CutBeforeNewline(w, y);
    OneReading(begun, s);
    TwoWays([Chunk(s, begun, 0)], s, w, y, x + y);
  }

  lemma NotSameCut(lines: seq<string>, w: string, y: string)
    requires !SameCut(w, y)
    ensures Reading(lines + Yield(w + y), Rest(w + y))
         != Reading(lines + Yield(w) + Yield(Rest(w) + y), Rest(Rest(w) + y))
  {
    hide Yield, Rest;
    ConcatAssociative(lines, Yield(w), Yield(Rest(w) + y));
    var m, n := Yield(w + y), Yield(w) + Yield(Rest(w) + y);
    if lines + m == lines + n {
      assert m == (lines + m)[|lines|..] == (lines + n)[|lines|..] == n;
    }
  }

  /** The unfinished line, and the complete ones in front of it, which leave nothing unfinished. */
  lemma {:induction false} SplitTail(x: string) returns (begun: string, w: string)
    ensures x == begun + w && w == Tail(x) && NEWLINE !in w
    ensures Tail(begun) == "" && Rest(begun) == "" && (NEWLINE in x ==> NEWLINE in begun)
    decreases |x|
  {
    hide Tail, Lines, Utf8Len, FirstNewline;
    begun, w := "", x;
    if NEWLINE in x {
      var line, rest := CutFirstLine(x);
      begun, w := SplitTail(rest);
      FirstLine(line, rest);
      FirstLine(line, begun);
      ConcatAssociative(line + [NEWLINE], begun, w);
      begun := line + [NEWLINE] + begun;
    } else {
      NoNewline(x);
      NoNewline(begun);
    }
  }

  lemma OneReading(x: string, s: nat)
    requires s < 2
    ensures
      var one := [Chunk(s, x, 0)];
      TextOf(one, s) == x && ReadingOf(one, s) == Reading(Yield(x), Rest(x))
  {
    var none: seq<Chunk> := [];
    assert none + [Chunk(s, x, 0)] == [Chunk(s, x, 0)] && "" + x == x;
    TextOfNone(s);
    LinesFromNone(s);
    hide Yield, Rest;
    assert [] + Yield(x) == Yield(x);
    ReadingSnoc(none, Chunk(s, x, 0), s);
    FeedAllSnoc(none, Chunk(s, x, 0), s);
  }

  /** A last line that becomes too long behind other lines. */
  lemma OverAtTheEnd(x: string, s: nat)
    requires s < 2 && NEWLINE in x && IsOver(x)
    ensures !ReadsAlike(x, s)
  {
    hide Yield, Rest, Tail, FeedAll, TextOf, Utf8Len, SameCut, ReadingOf, ReadsAlike, Lines;
    var begun, w := SplitTail(x);
    assert "" + w == w && "" + begun == begun;
    CutBehindNewline(begun, w);
    TextOfNone(s);
    NothingRead(s);
    TwoWays([], s, begun, w, x);
  }

  lemma NothingRead(s: nat)
    requires s < 2
    ensures ReadingOf([], s).rest == ""
  {
  }

  /** How a text is cut matters exactly if it has an unfinished line that is too long, other than by its very end. */
  lemma ReadsAlikeExactly(text: string, s: nat)
    requires s < 2
    ensures ReadsAlike(text, s) <==> IsAlike(text)
  {
    hide ReadingOf, IsOver, Bounded, FeedAll, TextOf;
    if IsAlike(text) {
      forall one, two | TextOf(one, s) == text && TextOf(two, s) == text
        ensures ReadingOf(one, s) == ReadingOf(two, s)
      {
        if IsOver(text) {
          OverIsOneLine(one, s, text);
          OverIsOneLine(two, s, text);
        } else {
          AlikeIsBounded(text);
          BoundedReading(one, s);
          BoundedReading(two, s);
        }
      }
    } else if exists i: nat :: i < |text| && IsOver(text[..i]) {
      var i: nat :| i < |text| && IsOver(text[..i]);
      assert text == text[..i] + text[i..];
      OverInTheMiddle(text[..i], text[i..], s);
    } else {
      OverAtTheEnd(text, s);
    }
  }
}
