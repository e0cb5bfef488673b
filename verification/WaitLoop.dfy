/**
 * The wait loop around a captured child process: exit, hard cap, idle
 * timeout, stall and exhaustion kill, cancellation and completed-result
 * cleanup race each other. Everything an iteration reads from the world --
 * the child, the clock, the reader threads, the job table -- is one `Glance`.
 */
module WaitLoop {
  import opened Wrappers
  import opened ExhaustionHits
  import opened LineAssembly
  import opened OutputHistory
  import opened StallVerdict

  type Instant = int

  const MILLISECOND: int := 1_000_000

  /** A non-blocking look at the child. */
  datatype Probe = Running | Exited(ok: bool) | ProbeFailed

  /** Reaping the killed child. */
  datatype Reap = Reaped(ok: bool) | ReapFailed

  datatype Config = Config(
    start: Instant, hardCap: int, idleTimeout: int, hasJob: bool,
    window: int, checkEvery: int, exhaustionKill: bool)

  /** One iteration's readings; the clock readings are in the order they are taken. */
  datatype Glance = Glance(
    probe: Probe, bytes: nat,
    tActivity: Instant, tCap: Instant, completedAt: Option<Instant>, tDone: Instant, tIdle: Instant,
    tProgress: Instant, tProgressSet: Instant, tNow: Instant, tCheck: Instant,
    repetitive: bool, lastNovel: Instant, exhaustionSeen: bool, exhaustedLine: Option<string>,
    firstPrint: Option<int>, pollPrint: Option<int>, notePrint: Option<int>, nowPrint: Option<int>,
    tCancel: Instant, tCancelSet: Instant, jobCancelled: bool,
    secondProbe: Probe, reap: Reap)

  /** The worktree probe: the fingerprints it has taken, and the one of the first exhaustion sighting. */
  datatype Worktree = Worktree(prints: seq<Print>, baseline: Option<Option<int>>)

  /** What the loop carries from one iteration to the next. */
  datatype Loop = Loop(
    lastBytes: nat, lastActivityAt: Instant, lastCancelPoll: Instant, lastProgressPoll: Instant,
    worktree: Option<Worktree>)

  datatype Outcome = Outcome(
    exitOk: bool, timedOut: bool, idleKilled: bool, cancelled: bool, stalled: bool,
    exhausted: Option<string>, completedCleanup: bool)
  {
    predicate Success() {
      (exitOk || completedCleanup) && !timedOut && !cancelled && !(stalled || exhausted.Some?)
    }
  }

  const PLAIN: Outcome := Outcome(false, false, false, false, false, None, false)

  datatype Verdict = Continue(s: Loop) | Stop(o: Outcome) | IoError

  function Killed(reap: Reap, o: Outcome): Verdict {
    if reap.ReapFailed? then IoError else Stop(o.(exitOk := reap.ok))
  }

  function NoteActivity(s: Loop, g: Glance): Loop {
    if g.bytes == s.lastBytes then s else s.(lastBytes := g.bytes, lastActivityAt := g.tActivity)
  }

  function PolledPrints(c: Config, prints: seq<Print>, g: Glance): (r: seq<Print>)
    requires prints != []
    ensures r != []
  {
    if c.window != 0 && Since(g.tCheck, c.start) >= c.checkEvery
       && Since(g.tNow, prints[|prints| - 1].at) >= c.checkEvery
    then prints + [Print(g.tNow, g.pollPrint)]
    else prints
  }

  /** The worktree after this iteration's probe; created on the first one. */
  function Probed(c: Config, w: Option<Worktree>, g: Glance): (r: Worktree)
    requires w.Some? ==> w.value.prints != []
    ensures r.prints != []
  {
    var w := if w.Some? then w.value else Worktree([Print(c.start, g.firstPrint)], None);
    var baseline := if c.exhaustionKill && g.exhaustionSeen && w.baseline.None?
                    then Some(g.notePrint) else w.baseline;
    Worktree(PolledPrints(c, w.prints, g), baseline)
  }

  predicate ExhaustionKill(c: Config, w: Worktree, g: Glance) {
    g.exhaustedLine.Some? && c.exhaustionKill && UnchangedSinceExhaustion(w.baseline, g.nowPrint)
  }

  predicate StallKill(c: Config, w: Worktree, g: Glance)
    requires w.prints != []
  {
    IsStalled(g.tNow, ChangedAt(w.prints), g.lastNovel, g.repetitive, c.window)
  }

  predicate ProgressDue(s: Loop, g: Glance) {
    g.completedAt.None? && Since(g.tProgress, s.lastProgressPoll) >= SECOND
  }

  predicate Ready(g: Glance) {
    g.completedAt.Some? && Since(g.tDone, g.completedAt.value) >= SECOND
  }

  /** Cancellation, then the cleanup of a finished run. */
  function Finish(c: Config, s: Loop, g: Glance): Verdict {
    var due := c.hasJob && (Since(g.tCancel, s.lastCancelPoll) >= SECOND || Ready(g));
    if due && g.jobCancelled then Killed(g.reap, PLAIN.(cancelled := true))
    else if !Ready(g) then Continue(if due then s.(lastCancelPoll := g.tCancelSet) else s)
    else if g.secondProbe.ProbeFailed? then IoError
    else if g.secondProbe.Exited? then Stop(PLAIN.(exitOk := g.secondProbe.ok))
    else Killed(g.reap, PLAIN.(completedCleanup := true))
  }

  ghost predicate Started(s: Loop) {
    s.worktree.Some? ==> s.worktree.value.prints != []
  }

  /** One pass through the loop body. */
  function Iterate(c: Config, s0: Loop, g: Glance): (v: Verdict)
    requires Started(s0)
    ensures v.Continue? ==> Started(v.s)
  {
    if g.probe.ProbeFailed? then IoError
    else if g.probe.Exited? then Stop(PLAIN.(exitOk := g.probe.ok))
    else
      var s := NoteActivity(s0, g);
      if Since(g.tCap, c.start) >= c.hardCap then Killed(g.reap, PLAIN.(timedOut := true))
      else if g.completedAt.None? && Since(g.tIdle, s.lastActivityAt) >= c.idleTimeout
      then Killed(g.reap, PLAIN.(timedOut := true, idleKilled := true))
      else if !ProgressDue(s, g) then Finish(c, s, g)
      else
        var w := Probed(c, s.worktree, g);
        if ExhaustionKill(c, w, g) then Killed(g.reap, PLAIN.(exhausted := g.exhaustedLine))
        else if StallKill(c, w, g) then Killed(g.reap, PLAIN.(stalled := true))
        else Finish(c, s.(lastProgressPoll := g.tProgressSet, worktree := Some(w)), g)
  }

  /** The loop over the glances taken so far. */
  function Run(c: Config, s: Loop, gs: seq<Glance>): (v: Verdict)
    requires Started(s)
    ensures v.Continue? ==> Started(v.s)
  {
    if gs == [] then Continue(s)
    else
      var v := Run(c, s, gs[..|gs| - 1]);
      if v.Continue? then Iterate(c, v.s, gs[|gs| - 1]) else v
  }

  function Fresh(tActivity: Instant, tCancel: Instant, tProgress: Instant): (s: Loop)
    ensures Started(s)
  {
    Loop(0, tActivity, tCancel, tProgress, None)
  }

  /** What a caller sees of a run. */
  datatype Ended = Waiting | Ended(o: Outcome) | Failed

  function Seen(v: Verdict): Ended {
    match v
    case Continue(_) => Waiting
    case Stop(o) => Ended(o)
    case IoError => Failed
  }

  function Reaped(reap: Reap, o: Outcome): Ended {
    Seen(Killed(reap, o))
  }

  lemma {:induction false} RunIsOver(c: Config, s: Loop, gs: seq<Glance>, k: nat)
    requires Started(s) && k <= |gs| && !Run(c, s, gs[..k]).Continue?
    ensures Run(c, s, gs) == Run(c, s, gs[..k])
  {
    if k == |gs| {
      assert gs[..k] == gs;
    } else {
      assert gs[..|gs| - 1][..k] == gs[..k];
      RunIsOver(c, s, gs[..|gs| - 1], k);
    }
  }

  lemma RunStep(c: Config, s: Loop, gs: seq<Glance>, i: nat)
    requires Started(s) && i < |gs| && Run(c, s, gs[..i]).Continue?
    ensures Run(c, s, gs[..i + 1]) == Iterate(c, Run(c, s, gs[..i]).s, gs[i])
  {
    assert gs[..i + 1][..i] == gs[..i];
  }

  /** The worktree probe object as a value. */
  ghost function ValueOf(w: WorktreeProgress?): (r: Option<Worktree>)
    reads w
  {
    if w == null then None else Some(Worktree(w.prints, w.exhaustionBaseline))
  }

  /** The periodic part of an iteration that looks at the worktree. */
  method ProbeWorktree(c: Config, w0: WorktreeProgress?, g: Glance) returns (w: WorktreeProgress)
    requires w0 != null ==> w0.Valid()
    modifies w0
    ensures w.Valid() && (w == w0 || fresh(w))
    ensures ValueOf(w) == Some(Probed(c, old(ValueOf(w0)), g))
  {
    if w0 == null {
      w := new WorktreeProgress(g.firstPrint, c.start);
    } else {
      w := w0;
    }
    if c.window != 0 && Since(g.tCheck, c.start) >= c.checkEvery {
      w.Poll(g.pollPrint, g.tNow, c.checkEvery);
    }
    if c.exhaustionKill && g.exhaustionSeen {
      w.NoteExhaustionSeen(g.notePrint);
    }
  }

  /** Cancellation and cleanup, from a state `s` in which cancellation was last polled at `lastCancelPoll`. */
  method FinishIteration(c: Config, lastCancelPoll: Instant, g: Glance, ghost s: Loop)
    returns (end: Ended, cancelPoll: Instant)
    requires s.lastCancelPoll == lastCancelPoll
    ensures end == Seen(Finish(c, s, g))
    ensures end == Waiting ==> Finish(c, s, g) == Continue(s.(lastCancelPoll := cancelPoll))
  {
    end, cancelPoll := Waiting, lastCancelPoll;
    var ready := g.completedAt.Some? && Since(g.tDone, g.completedAt.value) >= SECOND;
    if c.hasJob && (Since(g.tCancel, lastCancelPoll) >= SECOND || ready) {
      cancelPoll := g.tCancelSet;
      if g.jobCancelled {
        end := Reaped(g.reap, PLAIN.(cancelled := true));
        return;
      }
    }
    if ready {
      end := if g.secondProbe.ProbeFailed? then Failed
             else if g.secondProbe.Exited? then Ended(PLAIN.(exitOk := g.secondProbe.ok))
             else Reaped(g.reap, PLAIN.(completedCleanup := true));
    }
  }

  /** The loop itself, over as much of the world as has been seen. */
  method WaitForChild(c: Config, tActivity: Instant, tCancel: Instant, tProgress: Instant, gs: seq<Glance>)
    returns (end: Ended)
    ensures end == Seen(Run(c, Fresh(tActivity, tCancel, tProgress), gs))
    ensures
      match Run(c, Fresh(tActivity, tCancel, tProgress), gs)
      case Continue(_) => end == Waiting
      case Stop(o) => end == Ended(o)
      case IoError => end == Failed
  {
    ghost var s0 := Fresh(tActivity, tCancel, tProgress);
    var lastBytes, lastActivityAt := 0, tActivity;
    var lastCancelPoll, lastProgressPoll := tCancel, tProgress;
    var worktree: WorktreeProgress? := null;
    var i := 0;
    end := Waiting;
    while i < |gs| && end == Waiting
      invariant 0 <= i <= |gs|
      invariant worktree != null ==> fresh(worktree) && worktree.Valid()
      invariant Seen(Run(c, s0, gs[..i])) == end
      invariant end == Waiting ==>
                  Run(c, s0, gs[..i]).s
                  == Loop(lastBytes, lastActivityAt, lastCancelPoll, lastProgressPoll, ValueOf(worktree))
    {
      var g := gs[i];
      RunStep(c, s0, gs, i);
      i := i + 1;
      if g.probe != Running {
        end := if g.probe.ProbeFailed? then Failed else Ended(PLAIN.(exitOk := g.probe.ok));
        continue;
      }
      if g.bytes != lastBytes {
        lastBytes, lastActivityAt := g.bytes, g.tActivity;
      }
      if Since(g.tCap, c.start) >= c.hardCap {
        end := Reaped(g.reap, PLAIN.(timedOut := true));
        continue;
      }
      if g.completedAt.None? && Since(g.tIdle, lastActivityAt) >= c.idleTimeout {
        end := Reaped(g.reap, PLAIN.(timedOut := true, idleKilled := true));
        continue;
      }
      if g.completedAt.None? && Since(g.tProgress, lastProgressPoll) >= SECOND {
        lastProgressPoll := g.tProgressSet;
        worktree := ProbeWorktree(c, worktree, g);
        if g.exhaustedLine.Some? && c.exhaustionKill
           && UnchangedSinceExhaustion(worktree.exhaustionBaseline, g.nowPrint)
        {
          end := Reaped(g.reap, PLAIN.(exhausted := g.exhaustedLine));
          continue;
        }
        if IsStalled(g.tNow, worktree.lastChange, g.lastNovel, g.repetitive, c.window) {
          end := Reaped(g.reap, PLAIN.(stalled := true));
          continue;
        }
      }
      end, lastCancelPoll := FinishIteration(c, lastCancelPoll, g,
        Loop(lastBytes, lastActivityAt, lastCancelPoll, lastProgressPoll, ValueOf(worktree)));
    }
    if end != Waiting {
      RunIsOver(c, s0, gs, i);
    } else {
      assert gs[..i] == gs;
    }
  }

  // ---- Every run ----

  /** The glance a stopped run stopped at, and the state it stopped from. */
  lemma {:induction false} StoppedAt(c: Config, s: Loop, gs: seq<Glance>) returns (k: nat)
    requires Started(s) && !Run(c, s, gs).Continue?
    ensures k < |gs| && Run(c, s, gs[..k]).Continue?
    ensures Run(c, s, gs) == Iterate(c, Run(c, s, gs[..k]).s, gs[k])
  {
    k := |gs| - 1;
    if !Run(c, s, gs[..k]).Continue? {
      k := StoppedAt(c, s, gs[..k]);
      assert gs[..|gs| - 1][..k] == gs[..k];
    }
  }

  function Flags(o: Outcome): (n: nat) {
    (if o.timedOut then 1 else 0) + (if o.cancelled then 1 else 0)
    + (if o.stalled then 1 else 0) + (if o.exhausted.Some? then 1 else 0)
  }

  /** One iteration stops for at most one reason. */
  lemma OneReasonOnce(c: Config, s: Loop, g: Glance)
    requires Started(s) && Iterate(c, s, g).Stop?
    ensures
      var o := Iterate(c, s, g).o;
      Flags(o) <= 1 && (o.idleKilled ==> o.timedOut) && (o.completedCleanup ==> Flags(o) == 0)
  {
    hide Probed, ExhaustionKill, StallKill, NoteActivity, ProgressDue, Ready;
  }

  /** Every run ends for at most one reason, and an idle kill counts as a timeout. */
  lemma OneReason(c: Config, s: Loop, gs: seq<Glance>)
    requires Started(s) && Run(c, s, gs).Stop?
    ensures Flags(Run(c, s, gs).o) <= 1
    ensures Run(c, s, gs).o.idleKilled ==> Run(c, s, gs).o.timedOut
    ensures Run(c, s, gs).o.completedCleanup ==> Flags(Run(c, s, gs).o) == 0
  {
    hide Run, Iterate, Flags;
    var k := StoppedAt(c, s, gs);
    OneReasonOnce(c, Run(c, s, gs[..k]).s, gs[k]);
  }

  /** The iteration saw a result at least a second old, and its job, if any, was polled and alive. */
  ghost predicate CompletedUndisturbed(c: Config, g: Glance) {
    && g.completedAt.Some? && g.tDone - g.completedAt.value >= SECOND
    && (c.hasJob ==> !g.jobCancelled)
    && g.secondProbe == Running
  }

  /** Success means exit 0 or such a completed result, and none of the failure flags. */
  lemma SuccessMeans(c: Config, s: Loop, gs: seq<Glance>) returns (k: nat)
    requires Started(s) && Run(c, s, gs).Stop? && Run(c, s, gs).o.Success()
    ensures k < |gs| && Run(c, s, gs[..k]).Continue?
    ensures Flags(Run(c, s, gs).o) == 0
    ensures gs[k].probe == Exited(true) || gs[k].secondProbe == Exited(true) || CompletedUndisturbed(c, gs[k])
  {
    hide Run;
    k := StoppedAt(c, s, gs);
  }

  /** A child seen to exit with a failure is never reported as a success. */
  lemma RealExitWins(c: Config, s: Loop, gs: seq<Glance>, k: nat)
    requires Started(s) && k < |gs| && Run(c, s, gs[..k]).Continue? && Run(c, s, gs).Stop?
    requires gs[k].probe == Exited(false) || (gs[k].probe == Running && gs[k].secondProbe == Exited(false))
    requires !Run(c, s, gs[..k + 1]).Continue?
    ensures !Run(c, s, gs).o.Success()
  {
    hide Run;
    RunStep(c, s, gs, k);
    RunIsOver(c, s, gs, k + 1);
  }

  /** While the loop goes on, no iteration has read the clock at or beyond the hard cap. */
  lemma {:induction false} BelowHardCap(c: Config, s: Loop, gs: seq<Glance>)
    requires Started(s) && Run(c, s, gs).Continue?
    ensures forall i :: 0 <= i < |gs| ==> Since(gs[i].tCap, c.start) < c.hardCap
  {
    if gs != [] {
      BelowHardCap(c, s, gs[..|gs| - 1]);
    }
  }

  /** Iterations begin with the loop and take at least the 20 ms sleep each. */
  ghost predicate Paced(c: Config, gs: seq<Glance>) {
    forall i :: 0 <= i < |gs| ==> gs[i].tCap >= c.start + i * (20 * MILLISECOND)
  }

  /** The number of iterations is bounded by the hard cap. */
  lemma LoopEnds(c: Config, s: Loop, gs: seq<Glance>)
    requires Started(s) && Paced(c, gs)
    requires (|gs| - 1) * (20 * MILLISECOND) >= c.hardCap && gs != []
    ensures !Run(c, s, gs).Continue?
  {
    var last := |gs| - 1;
    assert Since(gs[last].tCap, c.start) >= c.hardCap;
    if Run(c, s, gs).Continue? {
      BelowHardCap(c, s, gs);
    }
  }

  /** A stopped run stops in the first iteration that reads the clock beyond the cap, if not before. */
  lemma StopsWithinOneIteration(c: Config, s: Loop, gs: seq<Glance>) returns (k: nat)
    requires Started(s) && !Run(c, s, gs).Continue?
    ensures k < |gs| && Run(c, s, gs) == Run(c, s, gs[..k + 1])
    ensures forall i :: 0 <= i < k ==> Since(gs[i].tCap, c.start) < c.hardCap
  {
    k := StoppedAt(c, s, gs);
    BelowHardCap(c, s, gs[..k]);
    RunStep(c, s, gs, k);
    assert forall i :: 0 <= i < k ==> gs[..k][i] == gs[i];
  }

  // ---- Why a run was killed ----

  /** The byte counter differs from the previous reading. */
  predicate NewBytes(s: Loop, gs: seq<Glance>, j: nat)
    requires j < |gs|
  {
    gs[j].bytes != if j == 0 then s.lastBytes else gs[j - 1].bytes
  }

  ghost predicate ActivityInOrder(s: Loop, gs: seq<Glance>) {
    && (forall j :: 0 <= j < |gs| ==> s.lastActivityAt <= gs[j].tActivity)
    && (forall i, j :: 0 <= i < j < |gs| ==> gs[i].tActivity <= gs[j].tActivity)
  }

  lemma ActivityStep(c: Config, s: Loop, g: Glance)
    requires Started(s) && Iterate(c, s, g).Continue?
    ensures
      var s' := Iterate(c, s, g).s;
      s'.lastBytes == g.bytes && s'.lastActivityAt == if g.bytes == s.lastBytes then s.lastActivityAt else g.tActivity
  {
  }

  lemma {:induction false} ActivityIsLatest(c: Config, s: Loop, gs: seq<Glance>)
    requires Started(s) && ActivityInOrder(s, gs) && Run(c, s, gs).Continue?
    ensures Run(c, s, gs).s.lastBytes == if gs == [] then s.lastBytes else gs[|gs| - 1].bytes
    ensures s.lastActivityAt <= Run(c, s, gs).s.lastActivityAt
    ensures gs != [] ==> Run(c, s, gs).s.lastActivityAt <= gs[|gs| - 1].tActivity
    ensures forall j :: 0 <= j < |gs| && NewBytes(s, gs, j) ==> gs[j].tActivity <= Run(c, s, gs).s.lastActivityAt
  {
    hide Iterate;
    if gs != [] {
      var front := gs[..|gs| - 1];
      ActivityIsLatest(c, s, front);
      ActivityStep(c, Run(c, s, front).s, gs[|gs| - 1]);
      forall j | 0 <= j < |front| && NewBytes(s, gs, j)
        ensures gs[j].tActivity <= Run(c, s, gs).s.lastActivityAt
      {
        assert NewBytes(s, front, j);
      }
    }
  }

  lemma IdleIteration(c: Config, s: Loop, g: Glance)
    requires Started(s) && Iterate(c, s, g).Stop? && Iterate(c, s, g).o.idleKilled
    ensures g.completedAt.None?
    ensures
      var at := if g.bytes == s.lastBytes then s.lastActivityAt else g.tActivity;
      Since(g.tIdle, at) >= c.idleTimeout
  {
    hide Since, ProgressDue, ExhaustionKill, StallKill, Probed;
  }

  /** An idle kill follows a full timeout without a byte of output and without a result. */
  lemma IdleKillMeansSilence(c: Config, s: Loop, gs: seq<Glance>) returns (k: nat)
    requires Started(s) && ActivityInOrder(s, gs) && c.idleTimeout > 0
    requires Run(c, s, gs).Stop? && Run(c, s, gs).o.idleKilled
    ensures k < |gs| && gs[k].completedAt.None? && Run(c, s, gs) == Run(c, s, gs[..k + 1])
    ensures gs[k].tIdle - s.lastActivityAt >= c.idleTimeout
    ensures forall j :: 0 <= j <= k && NewBytes(s, gs, j) ==> gs[k].tIdle - gs[j].tActivity >= c.idleTimeout
  {
    hide Run, Iterate;
    k := StoppedAt(c, s, gs);
    RunStep(c, s, gs, k);
    var front := gs[..k];
    ActivityIsLatest(c, s, front);
    IdleIteration(c, Run(c, s, front).s, gs[k]);
    forall j | 0 <= j <= k && NewBytes(s, gs, j) ensures gs[k].tIdle - gs[j].tActivity >= c.idleTimeout {
      if j < k {
        assert NewBytes(s, front, j);
      }
    }
  }

  /** The fingerprints of a run: the first one dated at the start, the others taken at polls, in order. */
  ghost predicate PrintsOf(c: Config, gs: seq<Glance>, prints: seq<Print>) {
    && prints != [] && prints[0].at == c.start && PrintsInOrder(prints)
    && (forall p :: 0 < p < |prints| ==> Polled(gs, prints[p]))
  }

  ghost predicate Polled(gs: seq<Glance>, p: Print) {
    exists j :: 0 <= j < |gs| && p == Print(gs[j].tNow, gs[j].pollPrint)
  }

  ghost predicate PollsInOrder(c: Config, gs: seq<Glance>) {
    && (forall j :: 0 <= j < |gs| ==> c.start <= gs[j].tNow)
    && (forall i, j :: 0 <= i < j < |gs| ==> gs[i].tNow <= gs[j].tNow)
  }

  lemma PrintsOfProbe(c: Config, gs: seq<Glance>, w: Option<Worktree>, k: nat)
    requires k < |gs| && PollsInOrder(c, gs)
    requires w.Some? ==> PrintsOf(c, gs[..k], w.value.prints)
    ensures PrintsOf(c, gs[..k + 1], Probed(c, w, gs[k]).prints)
  {
    var front, upTo := gs[..k], gs[..k + 1];
    var earlier := if w.Some? then w.value.prints else [Print(c.start, gs[k].firstPrint)];
    var later := PolledPrints(c, earlier, gs[k]);
    forall p | 0 < p < |earlier| ensures earlier[p].at <= gs[k].tNow && Polled(upTo, earlier[p])
    {
      var j :| 0 <= j < |front| && earlier[p] == Print(front[j].tNow, front[j].pollPrint);
      assert upTo[j] == front[j] == gs[j];
    }
    if later != earlier {
      assert later[|earlier|] == Print(upTo[k].tNow, upTo[k].pollPrint);
      assert Polled(upTo, later[|earlier|]);
    }
  }

  lemma PrintsOfLonger(c: Config, gs: seq<Glance>, more: seq<Glance>, prints: seq<Print>)
    requires PrintsOf(c, gs, prints) && gs <= more
    ensures PrintsOf(c, more, prints)
  {
    forall p | 0 < p < |prints| ensures Polled(more, prints[p]) {
      assert Polled(gs, prints[p]);
      var j :| 0 <= j < |gs| && prints[p] == Print(gs[j].tNow, gs[j].pollPrint);
      assert more[j] == gs[j];
    }
  }

  lemma {:induction false} PrintsOfRun(c: Config, s: Loop, gs: seq<Glance>)
    requires Started(s) && s.worktree.None? && PollsInOrder(c, gs) && Run(c, s, gs).Continue?
    ensures Run(c, s, gs).s.worktree.Some? ==> PrintsOf(c, gs, Run(c, s, gs).s.worktree.value.prints)
  {
    if gs != [] {
      var k := |gs| - 1;
      var front := gs[..k];
      PrintsOfRun(c, s, front);
      var w := Run(c, s, front).s.worktree;
      assert gs[..k + 1] == gs;
      PrintsOfProbe(c, gs, w, k);
      if w.Some? {
        PrintsOfLonger(c, front, gs, w.value.prints);
      }
    }
  }

  /** The iteration read the output detector while its history was `log`. */
  ghost predicate ReadsOutput(r: Rules, log: seq<LineAssembly.Seen>, outputStart: Instant, g: Glance) {
    && Chronological(log)
    && g.lastNovel == LastNovelAt(Kept(r, log), outputStart)
    && g.repetitive == Repetitive(Kept(r, log))
  }

  /**
   * A stall kill over a whole run: the output had been looping over at most
   * three lines, and for the full window there was no new line, no change of
   * the worktree at any poll, and no result.
   */
  lemma StallKillIsJustified(c: Config, s: Loop, gs: seq<Glance>,
                             r: Rules, logs: seq<seq<LineAssembly.Seen>>, outputStart: Instant)
    returns (k: nat, prints: seq<Print>)
    requires Started(s) && s.worktree.None? && PollsInOrder(c, gs) && c.window >= 0
    requires |logs| == |gs| && forall j :: 0 <= j < |gs| ==> ReadsOutput(r, logs[j], outputStart, gs[j])
    requires Run(c, s, gs).Stop? && Run(c, s, gs).o.stalled
    ensures k < |gs| && gs[k].completedAt.None? && PrintsOf(c, gs[..k + 1], prints)
    ensures c.window > 0 && Repetitive(Kept(r, logs[k])) && Quiet(Kept(r, logs[k]), prints, gs[k].tNow, c.window)
  {
    hide Run, Kept, Repetitive, Quiet, PrintsOf, PollsInOrder, ReadsOutput;
    k := StoppedAt(c, s, gs);
    var s' := Run(c, s, gs[..k]).s;
    assert PollsInOrder(c, gs[..k]) by { PollsFront(c, gs, k); }
    PrintsOfRun(c, s, gs[..k]);
    var w := StalledIteration(c, s', gs[k]);
    PrintsOfProbe(c, gs, s'.worktree, k);
    prints := w.prints;
    VerdictFromGlance(c, r, logs[k], outputStart, prints, gs[..k + 1], gs[k]);
  }

  lemma PollsFront(c: Config, gs: seq<Glance>, k: nat)
    requires PollsInOrder(c, gs) && k <= |gs|
    ensures PollsInOrder(c, gs[..k])
  {
  }

  lemma StalledIteration(c: Config, s: Loop, g: Glance) returns (w: Worktree)
    requires Started(s) && Iterate(c, s, g).Stop? && Iterate(c, s, g).o.stalled
    ensures w == Probed(c, s.worktree, g) && StallKill(c, w, g) && g.completedAt.None?
  {
    w := Probed(c, s.worktree, g);
  }

  lemma VerdictFromGlance(c: Config, r: Rules, log: seq<LineAssembly.Seen>, outputStart: Instant,
                          prints: seq<Print>, gs: seq<Glance>, g: Glance)
    requires ReadsOutput(r, log, outputStart, g) && PrintsOf(c, gs, prints) && c.window >= 0
    requires IsStalled(g.tNow, ChangedAt(prints), g.lastNovel, g.repetitive, c.window)
    ensures c.window > 0 && Repetitive(Kept(r, log)) && Quiet(Kept(r, log), prints, g.tNow, c.window)
  {
    StallMeansNoProgress(r, log, outputStart, prints, g.tNow, c.window);
  }

  /** Iteration `j` looked at the output and the worktree. */
  ghost predicate Looked(c: Config, s: Loop, gs: seq<Glance>, j: nat)
    requires Started(s) && j < |gs|
  {
    Run(c, s, gs[..j]).Continue? && ProgressDue(NoteActivity(Run(c, s, gs[..j]).s, gs[j]), gs[j])
  }

  /** Iteration `j` is the first that looked and saw an exhaustion line. */
  ghost predicate FirstSighting(c: Config, s: Loop, gs: seq<Glance>, j: nat)
    requires Started(s)
  {
    && j < |gs| && Looked(c, s, gs, j) && gs[j].exhaustionSeen
    && forall i: nat :: i < j && Looked(c, s, gs, i) ==> !gs[i].exhaustionSeen
  }

  ghost function Baseline(s: Loop): Option<Option<int>> {
    if s.worktree.None? then None else s.worktree.value.baseline
  }

  /** The baseline is set by the first look that sees an exhaustion line, and then stays. */
  lemma BaselineMoves(c: Config, s: Loop, g: Glance)
    requires Started(s) && c.exhaustionKill && Iterate(c, s, g).Continue?
    ensures
      var b, looked := Baseline(s), ProgressDue(NoteActivity(s, g), g);
      Baseline(Iterate(c, s, g).s) == if looked && b.None? && g.exhaustionSeen then Some(g.notePrint) else b
  {
    hide ExhaustionKill, StallKill, PolledPrints, Since;
  }

  lemma {:induction false} BaselineIsFirst(c: Config, s: Loop, gs: seq<Glance>, k: nat)
    requires Started(s) && s.worktree.None? && k <= |gs| && c.exhaustionKill && Run(c, s, gs[..k]).Continue?
    ensures
      var b := Baseline(Run(c, s, gs[..k]).s);
      && (b.None? ==> forall i: nat :: i < k && Looked(c, s, gs, i) ==> !gs[i].exhaustionSeen)
      && (b.Some? ==> exists j: nat :: j < k && FirstSighting(c, s, gs, j) && b.value == gs[j].notePrint)
  {
    if k > 0 {
      assert gs[..k][..k - 1] == gs[..k - 1];
      BaselineIsFirst(c, s, gs, k - 1);
      RunStep(c, s, gs, k - 1);
      var w := Run(c, s, gs[..k - 1]).s;
      BaselineMoves(c, w, gs[k - 1]);
      hide Run, Iterate, Baseline, NoteActivity, ProgressDue;
      if Baseline(w).None? && Looked(c, s, gs, k - 1) && gs[k - 1].exhaustionSeen {
        assert FirstSighting(c, s, gs, k - 1);
      }
    }
  }

  /** The iteration read the detector's exhaustion while its history was `log`. */
  ghost predicate ReadsExhaustion(r: Rules, log: seq<LineAssembly.Seen>, g: Glance) {
    && (g.exhaustionSeen <==> Sightings(r, log) != [])
    && (g.exhaustedLine.Some? <==> ThreeSpaced(Times(Sightings(r, log))))
    && (g.exhaustedLine.Some? ==>
          exists x :: x in Sightings(r, log) && g.exhaustedLine.value == r.trim(x.line))
  }

  /**
   * An exhaustion kill over a whole run: the output had shown three sightings at
   * least 15 s apart, the line reported is one of those sighted, and the worktree
   * is as it was at the first sighting that was looked at.
   */
  lemma ExhaustionKillMeans(c: Config, s: Loop, gs: seq<Glance>, r: Rules, logs: seq<seq<LineAssembly.Seen>>)
    returns (j: nat, k: nat)
    requires Started(s) && s.worktree.None?
    requires |logs| == |gs| && forall i :: 0 <= i < |gs| ==> ReadsExhaustion(r, logs[i], gs[i])
    requires Run(c, s, gs).Stop? && Run(c, s, gs).o.exhausted.Some?
    ensures j <= k < |gs| && FirstSighting(c, s, gs, j)
    ensures ThreeSpaced(Times(Sightings(r, logs[k])))
    ensures exists x :: x in Sightings(r, logs[k]) && Run(c, s, gs).o.exhausted.value == r.trim(x.line)
    ensures gs[k].nowPrint == gs[j].notePrint && c.exhaustionKill && gs[k].completedAt.None?
  {
    hide Run, Sightings, Times;
    k := StoppedAt(c, s, gs);
    ThreeAreSome(Times(Sightings(r, logs[k])));
    ExhaustedIteration(c, Run(c, s, gs[..k]).s, gs[k]);
    assert Looked(c, s, gs, k);
    assert ReadsExhaustion(r, logs[k], gs[k]);
    BaselineIsFirst(c, s, gs, k);
    var b := Baseline(Run(c, s, gs[..k]).s);
    hide Iterate, Baseline, Looked, ReadsExhaustion;
    if b.None? {
      j := k;
    } else {
      j :| j < k && FirstSighting(c, s, gs, j) && b.value == gs[j].notePrint;
    }
  }

  lemma ThreeAreSome(times: seq<Instant>)
    requires ThreeSpaced(times)
    ensures times != []
  {
  }

  lemma ExhaustedIteration(c: Config, s: Loop, g: Glance)
    requires Started(s) && Iterate(c, s, g).Stop? && Iterate(c, s, g).o.exhausted.Some?
    ensures g.completedAt.None? && c.exhaustionKill && ProgressDue(NoteActivity(s, g), g)
    ensures g.exhaustedLine == Iterate(c, s, g).o.exhausted
    ensures g.exhaustionSeen ==> g.nowPrint == if Baseline(s).Some? then Baseline(s).value else g.notePrint
  {
  }
}
