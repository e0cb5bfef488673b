/**
 * The leased claim on one target, taken in two statements: the ledger's atomic
 * upsert, then the owner's update of what only this table has. Any number of
 * callers interleave statement by statement.
 */
module ClaimLedger {
  import opened Wrappers

  type Owner = string

  datatype Stop = Stop(at: int, reason: Option<string>)

  datatype Row = Row(owner: Owner, claimed: bool, created: int, heartbeat: int,
                     commit: Option<string>, scope: Option<string>, stop: Option<Stop>)

  // ---- Single statements ----

  predicate IsStale(r: Row, now: int, ttl: int) {
    r.heartbeat < now - ttl
  }

  /** A target is there to be had when nobody has it, the caller does, or its claim is done or stale. */
  predicate CanAcquire(row: Option<Row>, owner: Owner, now: int, ttl: int) {
    row.None? || row.value.owner == owner || !row.value.claimed || IsStale(row.value, now, ttl)
  }

  /** The upsert knows nothing of commit, scope and stop, and leaves them in a row it takes over. */
  function Upserted(row: Option<Row>, owner: Owner, now: int): Row {
    if row.None? then Row(owner, true, now, now, None, None, None)
    else
      row.value.(owner := owner, claimed := true, heartbeat := now, created := now)
  }

  /** The follow-up update, scoped to its owner. */
  function Updated(row: Option<Row>, owner: Owner, commit: Option<string>, scope: Option<string>): Option<Row> {
    if row.Some? && row.value.owner == owner then Some(row.value.(commit := commit, scope := scope, stop := None))
    else row
  }

  predicate IsOwners(row: Option<Row>, owner: Owner) {
    row.Some? && row.value.owner == owner
  }

  predicate IsLive(row: Option<Row>, owner: Owner) {
    IsOwners(row, owner) && row.value.claimed
  }

  /** Deliberately not owner-scoped. */
  predicate CanStop(row: Option<Row>) {
    row.Some? && row.value.claimed
  }

  function ShouldStop(row: Option<Row>): Option<Stop> {
    if row.Some? then row.value.stop else None
  }

  /** Whether a listing of the live claims shows the row. */
  predicate IsListed(row: Option<Row>, now: int, ttl: int) {
    row.Some? && row.value.claimed && !IsStale(row.value, now, ttl)
  }

  /** What is listed as live is exactly what nobody else could acquire. */
  lemma ListedIsHeld(row: Option<Row>, now: int, ttl: int)
    ensures IsListed(row, now, ttl)
            <==> row.Some? && forall other :: other != row.value.owner ==> !CanAcquire(row, other, now, ttl)
  {
    if row.Some? {
      var other := row.value.owner + "!";
      assert |other| != |row.value.owner|;
      assert !IsListed(row, now, ttl) ==> CanAcquire(row, other, now, ttl);
    }
  }

  // ---- The machine ----

  datatype Pc = Begun | Won | Over

  datatype Call = Call(owner: Owner, commit: Option<string>, scope: Option<string>, pc: Pc)

  /**
   * `ran` is the last call whose second statement took effect since the row was
   * made, `settled` the same if that was in the present tenure, and `requests` the
   * stops accepted since. A tenure ends with the row or its owner.
   */
  datatype State = State(ttl: int, row: Option<Row>, calls: map<nat, Call>,
                         ran: Option<nat>, settled: Option<nat>, requests: seq<Stop>)

  datatype Step =
    | Call1(id: nat, now: int)
    | Call2(id: nat)
    | Heartbeat(owner: Owner, now: int)
    | Release(owner: Owner)
    | Finish(owner: Owner, now: int)
    | RequestStop(stop: Stop)

  predicate Enabled(s: State, step: Step) {
    match step
    case Call1(id, _) => id in s.calls && s.calls[id].pc.Begun?
    case Call2(id) => id in s.calls && s.calls[id].pc.Won?
    case _ => true
  }

  function Go(s: State, id: nat, pc: Pc): State
    requires id in s.calls
  {
    s.(calls := s.calls[id := s.calls[id].(pc := pc)])
  }

  function Apply(s: State, step: Step): State
    requires Enabled(s, step)
  {
    match step
    case Call1(id, now) =>
      var owner := s.calls[id].owner;
      if !CanAcquire(s.row, owner, now, s.ttl) then Go(s, id, Over)
      else
        Go(s, id, Won).(row := Some(Upserted(s.row, owner, now)),
                        settled := if IsOwners(s.row, owner) then s.settled else None)
    case Call2(id) =>
      var c := s.calls[id];
      var mine := IsOwners(s.row, c.owner);
      Go(s, id, Over).(row := Updated(s.row, c.owner, c.commit, c.scope),
                       ran := if mine then Some(id) else s.ran,
                       settled := if mine then Some(id) else s.settled,
                       requests := if mine then [] else s.requests)
    case Heartbeat(owner, now) =>
      if IsOwners(s.row, owner) then s.(row := Some(s.row.value.(heartbeat := now))) else s
    case Release(owner) =>
      if IsOwners(s.row, owner) then s.(row := None, ran := None, settled := None, requests := []) else s
    case Finish(owner, now) =>
      if IsOwners(s.row, owner) then s.(row := Some(s.row.value.(claimed := false, heartbeat := now))) else s
    case RequestStop(stop) =>
      if CanStop(s.row) then s.(row := Some(s.row.value.(stop := Some(stop))), requests := s.requests + [stop]) else s
  }

  /** What a first statement leaves: a row of the caller's if the target was to be had, else what there was. */
  lemma FirstStatement(s: State, id: nat, now: int)
    requires Enabled(s, Call1(id, now))
    ensures
      var c, t, r := s.calls[id], Apply(s, Call1(id, now)), s.row;
      if r.None? then t.row == Some(Row(c.owner, true, now, now, None, None, None)) && t.calls[id].pc == Won
      else if r.value.owner == c.owner || !r.value.claimed || now - r.value.heartbeat > s.ttl then
        && t.row == Some(Row(c.owner, true, now, now, r.value.commit, r.value.scope, r.value.stop))
        && t.calls[id].pc == Won
      else t.row == r && t.calls[id].pc == Over
  {
  }

  /** What a second statement leaves: the caller's commit and scope and no stop in a row of its own. */
  lemma SecondStatement(s: State, id: nat)
    requires Enabled(s, Call2(id))
    ensures
      var c, t, r := s.calls[id], Apply(s, Call2(id)), s.row;
      && t.calls[id].pc == Over
      && t.row == if r.Some? && r.value.owner == c.owner
                  then Some(Row(c.owner, r.value.claimed, r.value.created, r.value.heartbeat, c.commit, c.scope, None))
                  else r
  {
  }

  /** Signs of life, giving up and finishing are the owner's alone; anybody may ask a held claim's owner to stop. */
  lemma OtherStatements(s: State, owner: Owner, now: int, stop: Stop)
    ensures
      var r := s.row;
      var beat, gone := Apply(s, Heartbeat(owner, now)).row, Apply(s, Release(owner)).row;
      var done, asked := Apply(s, Finish(owner, now)).row, Apply(s, RequestStop(stop)).row;
      if r.None? then beat.None? && gone.None? && done.None? && asked.None?
      else
        var v := r.value;
        && (v.owner != owner ==> beat == r && gone == r && done == r)
        && (v.owner == owner ==>
              && beat == Some(Row(owner, v.claimed, v.created, now, v.commit, v.scope, v.stop)) && gone == None
              && done == Some(Row(owner, false, v.created, now, v.commit, v.scope, v.stop)))
        && asked == Some(v.(stop := if v.claimed then Some(stop) else v.stop))
  {
  }

  function After(s: State, steps: seq<Step>): State {
    if steps == [] then s
    else
      var w, step := After(s, steps[..|steps| - 1]), steps[|steps| - 1];
      if Enabled(w, step) then Apply(w, step) else w
  }

  lemma AfterSnoc(s: State, steps: seq<Step>, step: Step)
    ensures
      var w := After(s, steps);
      After(s, steps + [step]) == if Enabled(w, step) then Apply(w, step) else w
  {
    assert (steps + [step])[..|steps|] == steps;
  }

  /** Nobody has the target, and no call has begun. */
  predicate IsFresh(s: State) {
    && s.row.None? && s.ran.None? && s.settled.None? && s.requests == []
    && forall id :: id in s.calls ==> s.calls[id].pc.Begun?
  }

  // ---- Provenance ----

  function LastOf(requests: seq<Stop>): Option<Stop> {
    if requests == [] then None else Some(requests[|requests| - 1])
  }

  /** Commit and scope are those of the last second statement, and the stop is the last one asked for since. */
  ghost predicate ShowsLast(s: State) {
    s.row.Some? ==>
      && (s.ran.None? ==> s.row.value.commit.None? && s.row.value.scope.None?)
      && (s.ran.Some? ==> s.ran.value in s.calls
                          && s.row.value.commit == s.calls[s.ran.value].commit
                          && s.row.value.scope == s.calls[s.ran.value].scope)
      && ShouldStop(s.row) == LastOf(s.requests)
  }

  /** What is settled is the owner's own. */
  ghost predicate IsOwn(s: State) {
    s.settled.Some? ==>
      s.settled == s.ran && s.settled.value in s.calls && IsOwners(s.row, s.calls[s.settled.value].owner)
  }

  /** Without a row there is nothing to remember. */
  predicate IsBare(s: State) {
    s.row.None? ==> s.ran.None? && s.settled.None? && s.requests == []
  }

  lemma StepShowsLast(s: State, step: Step)
    requires Enabled(s, step) && ShowsLast(s) && IsBare(s)
    ensures ShowsLast(Apply(s, step)) && IsBare(Apply(s, step))
  {
    hide CanAcquire;
  }

  lemma StepIsOwn(s: State, step: Step)
    requires Enabled(s, step) && IsOwn(s)
    ensures IsOwn(Apply(s, step))
  {
    hide CanAcquire, LastOf;
  }

  /** In every run, the row shows what the last second statement left in it, and the stops asked for since. */
  lemma {:induction false} ProvenanceIsTheLast(s: State, steps: seq<Step>)
    requires IsFresh(s)
    ensures ShowsLast(After(s, steps)) && IsBare(After(s, steps)) && IsOwn(After(s, steps))
  {
    if steps != [] {
      var w, step := After(s, steps[..|steps| - 1]), steps[|steps| - 1];
      ProvenanceIsTheLast(s, steps[..|steps| - 1]);
      hide Enabled, Apply, ShowsLast, IsBare, IsOwn;
      if Enabled(w, step) {
        StepShowsLast(w, step);
        StepIsOwn(w, step);
      }
    }
  }

  /** Once the owner's second statement has run, commit and scope are that call's, and any stop was asked for since. */
  lemma ProvenanceIsTheOwners(s: State, steps: seq<Step>)
    requires IsFresh(s) && After(s, steps).settled.Some?
    ensures
      var t := After(s, steps);
      && t.settled.value in t.calls && t.row.Some?
      && var c, r := t.calls[t.settled.value], t.row.value;
         r.owner == c.owner && r.commit == c.commit && r.scope == c.scope && ShouldStop(t.row) == LastOf(t.requests)
  {
    ProvenanceIsTheLast(s, steps);
  }

  /** What is settled stays so until the row is released or taken, whoever else's second statement is late. */
  lemma SettledUntilTheTenureEnds(s: State, step: Step)
    requires Enabled(s, step) && s.row.Some? && s.settled.Some?
    requires Apply(s, step).row.Some? && Apply(s, step).row.value.owner == s.row.value.owner
    ensures Apply(s, step).settled.Some?
    ensures step.Call2? && s.calls[step.id].owner != s.row.value.owner ==>
              Apply(s, step).(calls := s.calls) == s
  {
  }

  /** What a new owner's row shows: the former row's commit, scope and pending stop while unsettled, then its own. */
  ghost predicate InTenure(former: State, owner: Owner, t: State) {
    && IsOwners(t.row, owner) && IsOwn(t) && former.row.Some?
    && (t.settled.None? ==>
          && t.row.value.commit == former.row.value.commit && t.row.value.scope == former.row.value.scope
          && t.ran == former.ran && (ShouldStop(former.row).Some? ==> ShouldStop(t.row).Some?))
    && (t.settled.Some? ==>
          && t.row.value.commit == t.calls[t.settled.value].commit
          && t.row.value.scope == t.calls[t.settled.value].scope)
  }

  lemma StepInTenure(former: State, owner: Owner, w: State, step: Step)
    requires Enabled(w, step) && InTenure(former, owner, w) && IsOwners(Apply(w, step).row, owner)
    ensures InTenure(former, owner, Apply(w, step))
  {
    hide CanAcquire;
  }

  /**
   * A row taken over shows the former tenure's commit, scope and pending stop for
   * exactly as long as no second statement of the new owner has run, in every run
   * that leaves it the row.
   */
  lemma {:induction false} TheWindowShowsTheFormerOwner(s: State, id: nat, now: int, steps: seq<Step>)
    requires Enabled(s, Call1(id, now)) && s.row.Some? && s.row.value.owner != s.calls[id].owner
    requires CanAcquire(s.row, s.calls[id].owner, now, s.ttl)
    requires forall k :: 0 <= k <= |steps| ==>
               IsOwners(After(Apply(s, Call1(id, now)), steps[..k]).row, s.calls[id].owner)
    ensures InTenure(s, s.calls[id].owner, After(Apply(s, Call1(id, now)), steps))
  {
    assert steps[..|steps|] == steps;
    var t := Apply(s, Call1(id, now));
    if steps != [] {
      var front, step := steps[..|steps| - 1], steps[|steps| - 1];
      assert forall k :: 0 <= k <= |front| ==> front[..k] == steps[..k];
      TheWindowShowsTheFormerOwner(s, id, now, front);
      hide Enabled, Apply, InTenure;
      var w := After(t, front);
      if Enabled(w, step) { StepInTenure(s, s.calls[id].owner, w, step); }
    }
  }

  /** A table in which one call of "a" settles, is asked to stop and goes stale, and one of "b" takes over. */
  function Stolen(): State {
    State(10, None, map[0 := Call("a", Some("c0"), None, Begun), 1 := Call("b", Some("c1"), None, Begun)],
          None, None, [])
  }

  /** One step further in a run. */
  lemma Take(s: State, steps: seq<Step>, w: State, step: Step) returns (longer: seq<Step>, t: State)
    requires w == After(s, steps) && Enabled(w, step)
    ensures longer == steps + [step] && t == Apply(w, step) == After(s, longer)
  {
    longer, t := steps + [step], Apply(w, step);
    AfterSnoc(s, steps, step);
  }

  /** "b" then holds a row with the commit and the stop of "a". */
  lemma StolenRowShowsTheStop() returns (steps: seq<Step>)
    ensures
      var t := After(Stolen(), steps);
      && IsOwners(t.row, "b") && t.row.value.commit == Some("c0") && ShouldStop(t.row) == Some(Stop(5, None))
  {
    var s, w := Stolen(), Stolen();
    steps := [];
    steps, w := Take(s, steps, w, Call1(0, 0));
    steps, w := Take(s, steps, w, Call2(0));
    steps, w := Take(s, steps, w, RequestStop(Stop(5, None)));
    steps, w := Take(s, steps, w, Call1(1, 100));
  }

  // ---- Late statements of the owner's own calls ----

  /** While the owner keeps, or comes back to, the row, a stop is pending. */
  ghost predicate StopHolds(s: State, owner: Owner) {
    forall steps :: IsOwners(After(s, steps).row, owner) ==> ShouldStop(After(s, steps).row).Some?
  }

  ghost predicate AllOver(s: State, owner: Owner) {
    forall id :: id in s.calls && s.calls[id].owner == owner ==> s.calls[id].pc.Over?
  }

  lemma StepKeepsStop(s: State, step: Step, owner: Owner)
    requires Enabled(s, step) && AllOver(s, owner) && (IsOwners(s.row, owner) ==> ShouldStop(s.row).Some?)
    ensures AllOver(Apply(s, step), owner)
    ensures IsOwners(Apply(s, step).row, owner) ==> ShouldStop(Apply(s, step).row).Some?
  {
    hide CanAcquire;
  }

  lemma {:induction false} NoCallClears(s: State, owner: Owner, steps: seq<Step>)
    requires AllOver(s, owner) && (IsOwners(s.row, owner) ==> ShouldStop(s.row).Some?)
    ensures AllOver(After(s, steps), owner)
    ensures IsOwners(After(s, steps).row, owner) ==> ShouldStop(After(s, steps).row).Some?
  {
    if steps != [] {
      var w, step := After(s, steps[..|steps| - 1]), steps[|steps| - 1];
      NoCallClears(s, owner, steps[..|steps| - 1]);
      hide Apply, Enabled, AllOver;
      if Enabled(w, step) { StepKeepsStop(w, step, owner); }
    }
  }

  lemma OneCallClears(s: State, id: nat) returns (steps: seq<Step>)
    requires id in s.calls && !s.calls[id].pc.Over? && IsOwners(s.row, s.calls[id].owner)
    ensures IsOwners(After(s, steps).row, s.calls[id].owner) && ShouldStop(After(s, steps).row).None?
  {
    if s.calls[id].pc.Won? {
      steps := [Call2(id)];
      AfterSnoc(s, [], Call2(id));
    } else {
      steps := [Call1(id, 0), Call2(id)];
      AfterSnoc(s, [], Call1(id, 0));
      AfterSnoc(s, [Call1(id, 0)], Call2(id));
    }
  }

  /** A pending stop stays until its owner's tenure ends exactly when none of the owner's calls is still under way. */
  lemma StopHoldsExactly(s: State, owner: Owner)
    requires IsOwners(s.row, owner) && ShouldStop(s.row).Some?
    ensures StopHolds(s, owner) <==> AllOver(s, owner)
  {
    if AllOver(s, owner) {
      forall steps ensures IsOwners(After(s, steps).row, owner) ==> ShouldStop(After(s, steps).row).Some? {
        NoCallClears(s, owner, steps);
      }
    } else {
      var id :| id in s.calls && s.calls[id].owner == owner && !s.calls[id].pc.Over?;
      var steps := OneCallClears(s, id);
      assert IsOwners(After(s, steps).row, owner) && ShouldStop(After(s, steps).row).None?;
    }
  }

  /** The owner makes no further attempt to acquire. */
  ghost predicate NoNewAttempt(s: State, owner: Owner, steps: seq<Step>) {
    forall i: nat :: i < |steps| ==> !IsAttempt(s, owner, steps[i])
  }

  predicate IsAttempt(s: State, owner: Owner, step: Step) {
    step.Call1? && step.id in s.calls && s.calls[step.id].owner == owner
  }

  ghost predicate StopHoldsMeanwhile(s: State, owner: Owner) {
    forall steps :: NoNewAttempt(s, owner, steps) && IsOwners(After(s, steps).row, owner) ==>
                      ShouldStop(After(s, steps).row).Some?
  }

  /** None of the owner's calls is between its two statements. */
  ghost predicate NoneBetween(s: State, owner: Owner) {
    forall id :: id in s.calls && s.calls[id].owner == owner ==> !s.calls[id].pc.Won?
  }

  ghost predicate SameOwners(s: State, t: State) {
    s.calls.Keys == t.calls.Keys && forall id :: id in s.calls ==> t.calls[id].owner == s.calls[id].owner
  }

  lemma StepKeepsStopMeanwhile(s: State, step: Step, owner: Owner)
    requires Enabled(s, step) && NoneBetween(s, owner) && (IsOwners(s.row, owner) ==> ShouldStop(s.row).Some?)
    requires !IsAttempt(s, owner, step)
    ensures NoneBetween(Apply(s, step), owner)
    ensures IsOwners(Apply(s, step).row, owner) ==> ShouldStop(Apply(s, step).row).Some?
  {
    hide CanAcquire;
  }

  lemma StepKeepsOwners(s: State, step: Step)
    requires Enabled(s, step)
    ensures SameOwners(s, Apply(s, step))
  {
    hide CanAcquire;
  }

  lemma {:induction false} NoOldCallClears(s: State, owner: Owner, steps: seq<Step>)
    requires NoneBetween(s, owner) && (IsOwners(s.row, owner) ==> ShouldStop(s.row).Some?)
    requires NoNewAttempt(s, owner, steps)
    ensures NoneBetween(After(s, steps), owner) && SameOwners(s, After(s, steps))
    ensures IsOwners(After(s, steps).row, owner) ==> ShouldStop(After(s, steps).row).Some?
  {
    if steps != [] {
      var front := steps[..|steps| - 1];
      assert !IsAttempt(s, owner, steps[|steps| - 1]);
      assert forall i: nat :: i < |front| ==> front[i] == steps[i];
      var w, step := After(s, front), steps[|steps| - 1];
      NoOldCallClears(s, owner, front);
      hide Apply, Enabled, NoneBetween;
      if Enabled(w, step) {
        StepKeepsStopMeanwhile(w, step, owner);
        StepKeepsOwners(w, step);
      }
    }
  }

  /**
   * Until the owner tries to acquire once more, a pending stop stays exactly when
   * none of its calls has its second statement still to come.
   */
  lemma StopHoldsMeanwhileExactly(s: State, owner: Owner)
    requires IsOwners(s.row, owner) && ShouldStop(s.row).Some?
    ensures StopHoldsMeanwhile(s, owner) <==> NoneBetween(s, owner)
  {
    if NoneBetween(s, owner) {
      forall steps | NoNewAttempt(s, owner, steps) && IsOwners(After(s, steps).row, owner)
        ensures ShouldStop(After(s, steps).row).Some?
      {
        NoOldCallClears(s, owner, steps);
      }
    } else {
      var id :| id in s.calls && s.calls[id].owner == owner && s.calls[id].pc.Won?;
      var steps := [Call2(id)];
      AfterSnoc(s, [], Call2(id));
      assert NoNewAttempt(s, owner, steps) && IsOwners(After(s, steps).row, owner);
      assert ShouldStop(After(s, steps).row).None?;
    }
  }

  /** Two calls of "a", the first overtaken by one of "b" between its statements. */
  function Overtaken(): State {
    State(10, None, map[0 := Call("a", Some("c0"), None, Begun), 1 := Call("b", Some("c1"), None, Begun),
                        2 := Call("a", Some("c2"), None, Begun)], None, None, [])
  }

  /** The second call's stop is pending, until the first one's late statement clears it. */
  lemma OwnLateStatementClears() returns (steps: seq<Step>)
    ensures
      var t, u := After(Overtaken(), steps), After(Overtaken(), steps + [Call2(0)]);
      && IsOwners(t.row, "a") && t.settled == Some(2) && ShouldStop(t.row) == Some(Stop(205, None))
      && IsOwners(u.row, "a") && ShouldStop(u.row).None?
  {
    var s, w := Overtaken(), Overtaken();
    steps := [];
    steps, w := Take(s, steps, w, Call1(0, 0));
    steps, w := Take(s, steps, w, Call1(1, 100));
    steps, w := Take(s, steps, w, Call1(2, 200));
    steps, w := Take(s, steps, w, Call2(2));
    steps, w := Take(s, steps, w, RequestStop(Stop(205, None)));
    var late, u := Take(s, steps, w, Call2(0));
  }

  // ---- The lease ----

  /** Every attempt to acquire comes within the time to live of the owner's last sign of life; it gives nothing up. */
  ghost predicate KeptAlive(s: State, owner: Owner, steps: seq<Step>) {
    steps == []
    || (&& KeptAlive(s, owner, steps[..|steps| - 1])
        && var w, step := After(s, steps[..|steps| - 1]), steps[|steps| - 1];
           step != Release(owner) && !(step.Finish? && step.owner == owner)
           && (step.Call1? && w.row.Some? ==> step.now <= w.row.value.heartbeat + w.ttl))
  }

  /** An owner that keeps its claim alive keeps it, in every interleaving. */
  lemma {:induction false} LeaseHolds(s: State, owner: Owner, steps: seq<Step>)
    requires IsLive(s.row, owner) && KeptAlive(s, owner, steps)
    ensures IsLive(After(s, steps).row, owner)
  {
    if steps != [] {
      LeaseHolds(s, owner, steps[..|steps| - 1]);
    }
  }

  // ---- The table ----

  type Key = (string, string)

  function RowAt(rows: map<Key, Row>, key: Key): Option<Row> {
    if key in rows then Some(rows[key]) else None
  }

  class Claims {
    var rows: map<Key, Row>

    /** Both statements, with nothing in between. */
    method Acquire(key: Key, owner: Owner, commit: Option<string>, scope: Option<string>, now: int, ttl: int)
      returns (acquired: bool)
      modifies this
      ensures acquired == CanAcquire(RowAt(old(rows), key), owner, now, ttl)
      ensures !acquired ==> rows == old(rows)
      ensures acquired ==>
                key in rows && rows == old(rows)[key := rows[key]] && IsLive(RowAt(rows, key), owner)
                && rows[key].heartbeat == now == rows[key].created
                && rows[key].commit == commit && rows[key].scope == scope
                && rows[key].stop.None?
    {
      acquired := CanAcquire(RowAt(rows, key), owner, now, ttl);
      if acquired {
        rows := rows[key := Upserted(RowAt(rows, key), owner, now)];
        if IsOwners(RowAt(rows, key), owner) {
          rows := rows[key := rows[key].(commit := commit, scope := scope, stop := None)];
        }
      }
    }

    /** A sign of life, which only the owner's own row takes. */
    method Heartbeat(key: Key, owner: Owner, now: int) returns (taken: bool)
      modifies this
      ensures taken == IsOwners(RowAt(old(rows), key), owner)
      ensures rows == if taken then old(rows)[key := old(rows)[key].(heartbeat := now)] else old(rows)
    {
      taken := IsOwners(RowAt(rows, key), owner);
      if taken {
        rows := rows[key := rows[key].(heartbeat := now)];
      }
    }

    /** Frees a target of the owner's. */
    method Release(key: Key, owner: Owner) returns (freed: bool)
      modifies this
      ensures freed == IsOwners(RowAt(old(rows), key), owner)
      ensures rows == if freed then old(rows) - {key} else old(rows)
    {
      freed := IsOwners(RowAt(rows, key), owner);
      if freed {
        rows := rows - {key};
      }
    }

    /** Keeps the row, as one that anybody may take over. */
    method Done(key: Key, owner: Owner, now: int) returns (done: bool)
      modifies this
      ensures done == IsOwners(RowAt(old(rows), key), owner)
      ensures rows == if done then old(rows)[key := old(rows)[key].(claimed := false, heartbeat := now)] else old(rows)
      ensures done ==> forall other, at, ttl :: CanAcquire(RowAt(rows, key), other, at, ttl)
    {
      done := IsOwners(RowAt(rows, key), owner);
      if done {
        rows := rows[key := rows[key].(claimed := false, heartbeat := now)];
      }
    }

    /** Whether there was a live claim to stop. */
    method RequestStop(key: Key, reason: Option<string>, now: int) returns (stopped: bool)
      modifies this
      ensures stopped == CanStop(RowAt(old(rows), key))
      ensures rows == if stopped then old(rows)[key := old(rows)[key].(stop := Some(Stop(now, reason)))] else old(rows)
    {
      stopped := CanStop(RowAt(rows, key));
      if stopped {
        rows := rows[key := rows[key].(stop := Some(Stop(now, reason)))];
      }
    }
  }
}
