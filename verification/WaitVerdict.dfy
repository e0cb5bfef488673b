/**
 * What ends a wait, told by the readings alone: for each reason, the readings
 * that make it the reason, and none before it.
 */
module WaitVerdict {
  import opened Wrappers
  import opened ExhaustionHits
  import opened StallVerdict
  import opened WaitLoop

  const ONE_SECOND: int := 1_000_000_000

  /** The clocks the loop begins with: of the last activity, the last poll for cancellation, and the last look. */
  datatype Clocks = Clocks(activity: Instant, cancel: Instant, look: Instant)

  predicate Elapsed(now: Instant, since: Instant, duration: int) {
    now - since >= duration || duration <= 0
  }

  function Last(gs: seq<Glance>): Glance
    requires gs != []
  {
    gs[|gs| - 1]
  }

  function Front(gs: seq<Glance>): seq<Glance>
    requires gs != []
  {
    gs[..|gs| - 1]
  }

  // ---- What the readings so far come to ----

  function BytesSeen(gs: seq<Glance>): nat {
    if gs == [] then 0 else Last(gs).bytes
  }

  /** When the byte counter was last seen to have moved. */
  function ActivityAt(t: Clocks, gs: seq<Glance>): Instant {
    if gs == [] then t.activity
    else if Last(gs).bytes != BytesSeen(Front(gs)) then Last(gs).tActivity
    else ActivityAt(t, Front(gs))
  }

  /** The last reading looks at the output and the worktree: there is no result yet, and no look for a second. */
  predicate IsLook(t: Clocks, gs: seq<Glance>)
    requires gs != []
    decreases |gs|, 0
  {
    Last(gs).completedAt.None? && Elapsed(Last(gs).tProgress, LookAt(t, Front(gs)), ONE_SECOND)
  }

  function LookAt(t: Clocks, gs: seq<Glance>): Instant
    decreases |gs|, 1
  {
    if gs == [] then t.look else if IsLook(t, gs) then Last(gs).tProgressSet else LookAt(t, Front(gs))
  }

  /** A result that is a second old. */
  predicate IsReady(g: Glance) {
    g.completedAt.Some? && Elapsed(g.tDone, g.completedAt.value, ONE_SECOND)
  }

  /** The last reading asks whether the job is cancelled: once a second, and before a finished run is cleaned up. */
  predicate IsCancelPoll(c: Config, t: Clocks, gs: seq<Glance>)
    requires gs != []
    decreases |gs|, 0
  {
    c.hasJob && (IsReady(Last(gs)) || Elapsed(Last(gs).tCancel, CancelPollAt(c, t, Front(gs)), ONE_SECOND))
  }

  function CancelPollAt(c: Config, t: Clocks, gs: seq<Glance>): Instant
    decreases |gs|, 1
  {
    if gs == [] then t.cancel
    else if IsCancelPoll(c, t, gs) then Last(gs).tCancelSet
    else CancelPollAt(c, t, Front(gs))
  }

  /** The fingerprints taken: one at the first look, dated at the start, and one at each look where one is due. */
  function Prints(c: Config, t: Clocks, gs: seq<Glance>): (prints: seq<Print>)
    ensures gs != [] && IsLook(t, gs) ==> prints != []
  {
    if gs == [] then []
    else
      var g, before := Last(gs), Prints(c, t, Front(gs));
      if !IsLook(t, gs) then before
      else
        var begun := if before == [] then [Print(c.start, g.firstPrint)] else before;
        if c.window == 0 || !Elapsed(g.tCheck, c.start, c.checkEvery)
           || !Elapsed(g.tNow, begun[|begun| - 1].at, c.checkEvery)
        then begun
        else begun + [Print(g.tNow, g.pollPrint)]
  }

  /** The fingerprint at the first look that saw the agent exhausted, if that is acted upon. */
  function SightedAt(c: Config, t: Clocks, gs: seq<Glance>): Option<Option<int>> {
    if gs == [] then None
    else
      var before := SightedAt(c, t, Front(gs));
      if before.None? && c.exhaustionKill && IsLook(t, gs) && Last(gs).exhaustionSeen then Some(Last(gs).notePrint)
      else before
  }

  // ---- Reasons to stop ----

  predicate IsCapped(c: Config, gs: seq<Glance>)
    requires gs != []
  {
    Elapsed(Last(gs).tCap, c.start, c.hardCap)
  }

  predicate IsSilent(c: Config, t: Clocks, gs: seq<Glance>)
    requires gs != []
  {
    Last(gs).completedAt.None? && Elapsed(Last(gs).tIdle, ActivityAt(t, gs), c.idleTimeout)
  }

  /** Reported as exhausted, and nothing has changed since that was sighted. */
  predicate IsSpent(c: Config, t: Clocks, gs: seq<Glance>)
    requires gs != []
  {
    IsLook(t, gs) && c.exhaustionKill && Last(gs).exhaustedLine.Some? && SightedAt(c, t, gs) == Some(Last(gs).nowPrint)
  }

  /** Output that loops, and for a window neither a new line nor a change of the worktree. */
  predicate IsLooping(c: Config, t: Clocks, gs: seq<Glance>)
    requires gs != []
  {
    && IsLook(t, gs) && c.window != 0 && Last(gs).repetitive
    && Elapsed(Last(gs).tNow, ChangedAt(Prints(c, t, gs)), c.window)
    && Elapsed(Last(gs).tNow, Last(gs).lastNovel, c.window)
  }

  predicate IsCancelled(c: Config, t: Clocks, gs: seq<Glance>)
    requires gs != []
  {
    IsCancelPoll(c, t, gs) && Last(gs).jobCancelled
  }

  /** Nothing at the last reading gives reason to stop. */
  predicate GoesOn(c: Config, t: Clocks, gs: seq<Glance>)
    requires gs != []
  {
    && Last(gs).probe == Running
    && !IsCapped(c, gs) && !IsSilent(c, t, gs) && !IsSpent(c, t, gs) && !IsLooping(c, t, gs)
    && !IsCancelled(c, t, gs) && !IsReady(Last(gs))
  }

  /** How a killed child ends. */
  function KilledAs(reap: Reap, timedOut: bool, idle: bool, cancelled: bool, stalled: bool, exhausted: Option<string>,
                    completed: bool): Verdict
  {
    match reap
    case ReapFailed => IoError
    case Reaped(ok) => Stop(Outcome(ok, timedOut, idle, cancelled, stalled, exhausted, completed))
  }

  /** The end of a wait that had no reason to stop before its last reading, and has one there. */
  function EndOf(c: Config, t: Clocks, gs: seq<Glance>): Verdict
    requires gs != [] && !GoesOn(c, t, gs)
  {
    var g := Last(gs);
    if g.probe.ProbeFailed? then IoError
    else if g.probe.Exited? then Stop(Outcome(g.probe.ok, false, false, false, false, None, false))
    else if IsCapped(c, gs) then KilledAs(g.reap, true, false, false, false, None, false)
    else if IsSilent(c, t, gs) then KilledAs(g.reap, true, true, false, false, None, false)
    else if IsSpent(c, t, gs) then KilledAs(g.reap, false, false, false, false, g.exhaustedLine, false)
    else if IsLooping(c, t, gs) then KilledAs(g.reap, false, false, false, true, None, false)
    else if IsCancelled(c, t, gs) then KilledAs(g.reap, false, false, true, false, None, false)
    else if g.secondProbe.ProbeFailed? then IoError
    else if g.secondProbe.Exited? then Stop(Outcome(g.secondProbe.ok, false, false, false, false, None, false))
    else KilledAs(g.reap, false, false, false, false, None, true)
  }

  // ---- The loop carries just that ----

  ghost function Carried(c: Config, t: Clocks, gs: seq<Glance>): Loop {
    var prints := Prints(c, t, gs);
    Loop(BytesSeen(gs), ActivityAt(t, gs), CancelPollAt(c, t, gs), LookAt(t, gs),
         if prints == [] then None else Some(Worktree(prints, SightedAt(c, t, gs))))
  }

  function Begun(t: Clocks): (s: Loop)
    ensures Started(s)
  {
    Fresh(t.activity, t.cancel, t.look)
  }

  lemma SinceIsElapsed(now: Instant, since: Instant, duration: int)
    ensures Since(now, since) >= duration <==> Elapsed(now, since, duration)
  {
  }

  lemma BothElapsed(now: Instant, a: Instant, b: Instant, window: int)
    ensures Since(now, if a < b then b else a) >= window <==> Elapsed(now, a, window) && Elapsed(now, b, window)
  {
  }

  lemma {:induction false} SightedNeedsPrints(c: Config, t: Clocks, gs: seq<Glance>)
    ensures Prints(c, t, gs) == [] ==> SightedAt(c, t, gs).None?
  {
    if gs != [] { SightedNeedsPrints(c, t, Front(gs)); }
  }

  /** The fingerprints, when one is taken. */
  lemma PolledIs(c: Config, before: seq<Print>, g: Glance)
    requires before != []
    ensures
      PolledPrints(c, before, g)
      == if c.window == 0 || !Elapsed(g.tCheck, c.start, c.checkEvery)
            || !Elapsed(g.tNow, before[|before| - 1].at, c.checkEvery)
         then before else before + [Print(g.tNow, g.pollPrint)]
  {
    SinceIsElapsed(g.tCheck, c.start, c.checkEvery);
    SinceIsElapsed(g.tNow, before[|before| - 1].at, c.checkEvery);
    hide Since, Elapsed;
  }

  lemma PrintsStep(c: Config, t: Clocks, gs: seq<Glance>)
    requires gs != [] && IsLook(t, gs)
    ensures
      var before := Prints(c, t, Front(gs));
      Prints(c, t, gs)
      == PolledPrints(c, if before == [] then [Print(c.start, Last(gs).firstPrint)] else before, Last(gs))
  {
    hide IsLook, Elapsed, PolledPrints;
    var before := Prints(c, t, Front(gs));
    PolledIs(c, if before == [] then [Print(c.start, Last(gs).firstPrint)] else before, Last(gs));
  }

  /** What a look makes of the worktree. */
  lemma ProbedIs(c: Config, t: Clocks, gs: seq<Glance>, s: Loop)
    requires gs != [] && s == Carried(c, t, Front(gs)) && IsLook(t, gs)
    ensures Started(s) && Probed(c, s.worktree, Last(gs)) == Worktree(Prints(c, t, gs), SightedAt(c, t, gs))
  {
    SightedNeedsPrints(c, t, Front(gs));
    PrintsStep(c, t, gs);
    hide IsLook, Prints, PolledPrints, ActivityAt, CancelPollAt, LookAt;
  }

  lemma LookIsDue(c: Config, t: Clocks, gs: seq<Glance>, s: Loop)
    requires gs != [] && s == Carried(c, t, Front(gs))
    ensures ProgressDue(NoteActivity(s, Last(gs)), Last(gs)) <==> IsLook(t, gs)
  {
    SinceIsElapsed(Last(gs).tProgress, LookAt(t, Front(gs)), ONE_SECOND);
    hide Since, Elapsed, Prints, SightedAt, ActivityAt, CancelPollAt;
  }

  /** Activity, as the iteration notes it. */
  lemma NotedIs(c: Config, t: Clocks, gs: seq<Glance>, s: Loop)
    requires gs != [] && s == Carried(c, t, Front(gs))
    ensures NoteActivity(s, Last(gs)) == s.(lastBytes := BytesSeen(gs), lastActivityAt := ActivityAt(t, gs))
  {
    hide Prints, SightedAt, CancelPollAt, LookAt;
  }

  lemma ReadyIs(g: Glance)
    ensures Ready(g) <==> IsReady(g)
  {
  }

  /** The part behind the look. */
  lemma FinishIs(c: Config, t: Clocks, gs: seq<Glance>, s: Loop)
    requires gs != [] && s.lastCancelPoll == CancelPollAt(c, t, Front(gs))
    ensures
      var g, v := Last(gs), Finish(c, s, Last(gs));
      if IsCancelled(c, t, gs) then v == KilledAs(g.reap, false, false, true, false, None, false)
      else if !IsReady(g) then v == Continue(s.(lastCancelPoll := CancelPollAt(c, t, gs)))
      else if g.secondProbe.ProbeFailed? then v == IoError
      else if g.secondProbe.Exited? then v == Stop(Outcome(g.secondProbe.ok, false, false, false, false, None, false))
      else v == KilledAs(g.reap, false, false, false, false, None, true)
  {
    ReadyIs(Last(gs));
    SinceIsElapsed(Last(gs).tCancel, CancelPollAt(c, t, Front(gs)), ONE_SECOND);
    hide Since, Elapsed, Ready, IsReady;
  }

  /** An iteration that comes as far as its look. */
  lemma LookEnds(c: Config, t: Clocks, gs: seq<Glance>, s: Loop)
    requires gs != [] && s == Carried(c, t, Front(gs)) && IsLook(t, gs)
    ensures Started(s) && Probed(c, s.worktree, Last(gs)).prints != []
    ensures ExhaustionKill(c, Probed(c, s.worktree, Last(gs)), Last(gs)) <==> IsSpent(c, t, gs)
    ensures StallKill(c, Probed(c, s.worktree, Last(gs)), Last(gs)) <==> IsLooping(c, t, gs)
  {
    ProbedIs(c, t, gs, s);
    var g := Last(gs);
    BothElapsed(g.tNow, ChangedAt(Prints(c, t, gs)), g.lastNovel, c.window);
    hide Since, Elapsed, IsLook, Probed, Prints, SightedAt, ChangedAt, Carried;
  }

  /** One iteration is what its reading says. */
  lemma IterationIs(c: Config, t: Clocks, gs: seq<Glance>, s: Loop)
    requires gs != [] && s == Carried(c, t, Front(gs)) && Started(s)
    ensures Iterate(c, s, Last(gs)) == if GoesOn(c, t, gs) then Continue(Carried(c, t, gs)) else EndOf(c, t, gs)
  {
    var g := Last(gs);
    NotedIs(c, t, gs, s);
    LookIsDue(c, t, gs, s);
    SinceIsElapsed(g.tCap, c.start, c.hardCap);
    SinceIsElapsed(g.tIdle, ActivityAt(t, gs), c.idleTimeout);
    var noted := NoteActivity(s, g);
    if IsLook(t, gs) {
      ProbedIs(c, t, gs, s);
      LookEnds(c, t, gs, s);
      var looked := noted.(lastProgressPoll := g.tProgressSet, worktree := Some(Probed(c, s.worktree, g)));
      FinishIs(c, t, gs, looked);
    } else {
      FinishIs(c, t, gs, noted);
    }
    hide Since, Elapsed, NoteActivity, Probed, Finish, ExhaustionKill, StallKill, ProgressDue;
    hide IsCancelPoll, IsLook, IsReady, ActivityAt, ChangedAt;
  }

  /** No reading gives a reason to stop. */
  predicate NoneStops(c: Config, t: Clocks, gs: seq<Glance>) {
    forall k :: 0 < k <= |gs| ==> GoesOn(c, t, gs[..k])
  }

  lemma NoneStopsSnoc(c: Config, t: Clocks, gs: seq<Glance>)
    requires gs != []
    ensures NoneStops(c, t, gs) <==> NoneStops(c, t, Front(gs)) && GoesOn(c, t, gs)
  {
    hide GoesOn;
    var front := Front(gs);
    assert gs[..|gs|] == gs;
    forall k | 0 < k <= |front| ensures front[..k] == gs[..k] {}
    if NoneStops(c, t, gs) {
      forall k | 0 < k <= |front| ensures GoesOn(c, t, front[..k]) { assert GoesOn(c, t, gs[..k]); }
    }
  }

  /** A wait goes on exactly as long as no reading gives a reason to stop, and carries what the readings come to. */
  lemma {:induction false} GoesOnExactly(c: Config, t: Clocks, gs: seq<Glance>)
    ensures Run(c, Begun(t), gs).Continue? <==> NoneStops(c, t, gs)
    ensures Run(c, Begun(t), gs).Continue? ==> Run(c, Begun(t), gs).s == Carried(c, t, gs)
  {
    if gs != [] {
      var front := Front(gs);
      GoesOnExactly(c, t, front);
      NoneStopsSnoc(c, t, gs);
      hide GoesOn, EndOf, Carried, Iterate, NoneStops;
      if Run(c, Begun(t), front).Continue? {
        IterationIs(c, t, gs, Run(c, Begun(t), front).s);
        EndIsNoGoingOn(c, t, gs);
      }
    }
  }

  lemma EndIsNoGoingOn(c: Config, t: Clocks, gs: seq<Glance>)
    requires gs != []
    ensures !GoesOn(c, t, gs) ==> !EndOf(c, t, gs).Continue?
  {
    hide GoesOn, IsLooping, IsSpent, IsSilent, IsCapped, IsCancelled;
  }

  /** The last of these readings is the first that gives a reason to stop. */
  ghost predicate StopsAtLast(c: Config, t: Clocks, gs: seq<Glance>) {
    gs != [] && !GoesOn(c, t, gs) && NoneStops(c, t, Front(gs))
  }

  /** A wait ends at the first reading that gives a reason, and as that says, whatever would follow. */
  lemma EndsExactly(c: Config, t: Clocks, gs: seq<Glance>, more: seq<Glance>)
    requires StopsAtLast(c, t, gs)
    ensures Run(c, Begun(t), gs + more) == EndOf(c, t, gs)
  {
    hide GoesOn, EndOf, Carried, Iterate, NoneStops;
    GoesOnExactly(c, t, Front(gs));
    IterationIs(c, t, gs, Run(c, Begun(t), Front(gs)).s);
    EndIsNoGoingOn(c, t, gs);
    assert (gs + more)[..|gs|] == gs;
    RunIsOver(c, Begun(t), gs + more, |gs|);
  }

  lemma EndsAtLast(c: Config, t: Clocks, gs: seq<Glance>)
    requires StopsAtLast(c, t, gs)
    ensures Run(c, Begun(t), gs) == EndOf(c, t, gs)
  {
    hide StopsAtLast, EndOf, Run;
    assert gs + [] == gs;
    EndsExactly(c, t, gs, []);
  }

  // ---- Flag by flag ----

  /** A child seen to have exited ends the wait with just its own status. */
  lemma ExitIsReported(c: Config, t: Clocks, gs: seq<Glance>)
    requires StopsAtLast(c, t, gs) && Last(gs).probe.Exited?
    ensures Run(c, Begun(t), gs) == Stop(Outcome(Last(gs).probe.ok, false, false, false, false, None, false))
  {
    hide GoesOn, Run;
    EndsAtLast(c, t, gs);
  }

  /** Each reason is given exactly if it holds and none does that is looked at before. */
  lemma ReasonsExactly(c: Config, t: Clocks, gs: seq<Glance>)
    requires StopsAtLast(c, t, gs) && Run(c, Begun(t), gs).Stop?
    ensures
      var o, running := Run(c, Begun(t), gs).o, Last(gs).probe == Running;
      var timely := running && !IsCapped(c, gs) && !IsSilent(c, t, gs);
      && (o.timedOut <==> running && (IsCapped(c, gs) || IsSilent(c, t, gs)))
      && (o.idleKilled <==> running && !IsCapped(c, gs) && IsSilent(c, t, gs))
      && o.exhausted == (if timely && IsSpent(c, t, gs) then Last(gs).exhaustedLine else None)
      && (o.stalled <==> timely && !IsSpent(c, t, gs) && IsLooping(c, t, gs))
      && (o.cancelled <==> timely && !IsSpent(c, t, gs) && !IsLooping(c, t, gs) && IsCancelled(c, t, gs))
      && (o.completedCleanup
          <==> timely && IsReady(Last(gs)) && !IsCancelled(c, t, gs) && Last(gs).secondProbe == Running)
  {
    NoLookWhenReady(c, t, gs);
    hide Run, IsLooping, IsSpent, IsSilent, IsCapped, IsCancelled, IsReady;
    EndsAtLast(c, t, gs);
    hide StopsAtLast;
  }

  /** A result keeps the loop from looking. */
  lemma NoLookWhenReady(c: Config, t: Clocks, gs: seq<Glance>)
    requires gs != []
    ensures IsReady(Last(gs)) ==> !IsSilent(c, t, gs) && !IsSpent(c, t, gs) && !IsLooping(c, t, gs)
  {
  }

  /** A run is a success exactly if the child exits with 0, or a result is a second old within the cap, uncancelled. */
  lemma SuccessExactly(c: Config, t: Clocks, gs: seq<Glance>)
    requires StopsAtLast(c, t, gs)
    ensures
      var g, v := Last(gs), Run(c, Begun(t), gs);
      v.Stop? && v.o.Success()
      <==> || g.probe == Exited(true)
           || (&& g.probe == Running && !IsCapped(c, gs) && IsReady(g) && !IsCancelled(c, t, gs)
               && (g.secondProbe == Exited(true) || (g.secondProbe == Running && g.reap.Reaped?)))
  {
    NoLookWhenReady(c, t, gs);
    hide Run, IsLooping, IsSpent, IsSilent, IsCapped, IsCancelled, IsReady;
    EndsAtLast(c, t, gs);
    hide StopsAtLast;
  }
}
