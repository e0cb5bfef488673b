/**
 * When a write that succeeded is sure to outlast a crash. The program never syncs
 * the directory; here, somebody may at any time, between the writers' steps.
 */
module Durability {
  import opened Wrappers
  import opened AtomicWrite

  datatype Event = Call(step: Step) | SyncDirectory

  /** Earlier bindings are then gone for good. */
  function DirectorySynced(d: Disk): Disk {
    d.(ever := set b | b in d.ever && b.1 == Lookup(d, b.0))
  }

  function Next(w: World, event: Event): World {
    match event
    case Call(step) => if Enabled(w, step) then Apply(w, step) else w
    case SyncDirectory => w.(disk := DirectorySynced(w.disk))
  }

  function Onward(w: World, events: seq<Event>): World {
    if events == [] then w else Next(Onward(w, events[..|events| - 1]), events[|events| - 1])
  }

  /** This event is a call's success. */
  predicate IsSuccess(w: World, event: Event) {
    event.Call? && Enabled(w, event.step) && Apply(w, event.step).writers[event.step.id].pc.Replaced?
  }

  /** No call succeeds in any of these. */
  ghost predicate NoneSucceeds(w: World, events: seq<Event>) {
    forall i: nat :: i < |events| ==> !IsSuccess(Onward(w, events[..i]), events[i])
  }

  /** A crash cannot leave the target anything but what call `id` wrote. */
  ghost predicate IsDurable(w: World, id: nat) {
    id in w.writers && forall content :: MayHold(w.disk, w.target, content) ==> content == Some(w.writers[id].bytes)
  }

  // ---- What every event keeps ----

  lemma SyncKeepsTop(o: World, w: World)
    requires Top(o, w)
    ensures Top(o, w.(disk := DirectorySynced(w.disk)))
  {
    var d := w.disk;
    assert Lookup(DirectorySynced(d), w.target) == Lookup(d, w.target);
  }

  lemma SyncKeeps(o: World, w: World)
    requires Ok(o, w)
    ensures Ok(o, w.(disk := DirectorySynced(w.disk)))
  {
    var t := w.(disk := DirectorySynced(w.disk));
    SyncKeepsTop(o, w);
    hide Top, Fresh, IsStart, FewShare;
    forall i | i in t.writers ensures Own(o, t, i) && Accounted(o, t, i) {
      assert Own(o, w, i) && Accounted(o, w, i);
      SyncKeepsWriter(o, w, i);
    }
    forall i, j | i in t.writers && j in t.writers ensures Apart(t, i, j) { assert Apart(w, i, j); }
    forall b | (t.target, b) in t.disk.ever ensures Bound(o, t, b) { assert Bound(o, w, b); }
  }

  lemma SyncKeepsWriter(o: World, w: World, i: nat)
    requires i in w.writers && Own(o, w, i) && Accounted(o, w, i)
    ensures Own(o, w.(disk := DirectorySynced(w.disk)), i) && Accounted(o, w.(disk := DirectorySynced(w.disk)), i)
  {
    var t := w.(disk := DirectorySynced(w.disk));
    assert Cleaned(t, w.writers[i].tmp) == Cleaned(w, w.writers[i].tmp);
  }

  lemma NextKeeps(o: World, w: World, event: Event)
    requires Ok(o, w)
    ensures Ok(o, Next(w, event))
  {
    hide Ok, Apply, Enabled;
    if event.SyncDirectory? {
      SyncKeeps(o, w);
    } else if Enabled(w, event.step) {
      var step := event.step;
      if step.Rename? { RenameKeeps(o, w, step.id, step.fails); } else { QuietStepKeeps(o, w, step); }
    }
  }

  /** The invariant of all runs holds in those with syncs, too. */
  lemma {:induction false} HistoryIsOk(o: World, events: seq<Event>)
    requires Fresh(o)
    ensures Ok(o, Onward(o, events))
  {
    hide Ok, Next, Fresh;
    if events == [] {
      FreshIsOk(o);
    } else {
      HistoryIsOk(o, events[..|events| - 1]);
      NextKeeps(o, Onward(o, events[..|events| - 1]), events[|events| - 1]);
    }
  }

  // ---- One success, and what comes behind it ----

  /** Of no concern to the target: what it may hold stays as it is. */
  lemma QuietHolds(o: World, w: World, step: Step, t: World, content: Option<Bytes>)
    requires Ok(o, w) && Enabled(w, step) && t == Next(w, Event.Call(step)) && !IsSuccess(w, Event.Call(step))
    ensures t.target == w.target && (MayHold(t.disk, t.target, content) <==> MayHold(w.disk, w.target, content))
  {
    StepIsTheWriters(w, step);
    hide Ok, Own, Top, MayHold, Fresh, Enabled, Apply, Accounted, OldFilesUntouched, SameNames;
    WriterFacts(o, w, step.id);
    NotReplacedYet(w, step);
    OnlySuccessStep(o, w, step, content);
    TargetsAreOthers(o, w, step.id);
    QuietTouches(w, step);
    if MayHold(w.disk, w.target, content) { QuietStillHolds(o, w, step, content); }
  }

  lemma QuietStillHolds(o: World, w: World, step: Step, content: Option<Bytes>)
    requires Enabled(w, step) && step.id in Apply(w, step).writers && !Apply(w, step).writers[step.id].pc.Replaced?
    requires Own(o, w, step.id) && MayHold(w.disk, w.target, content)
    requires forall b :: (w.target, b) in w.disk.ever ==>
                           b.None? || (b.value < |w.disk.inodes| && b.value != Touched(w, step.id))
    ensures MayHold(Apply(w, step).disk, w.target, content)
  {
    var t := Apply(w, step);
    QuietTouchesOneFile(w, step);
    EverGrows(w, step);
    hide Apply, Own, Enabled;
    var b :| (w.target, b) in w.disk.ever && Survives(w.disk, b, content);
    assert (w.target, b) in t.disk.ever && Survives(t.disk, b, content);
  }

  lemma EverGrows(w: World, step: Step)
    requires Enabled(w, step)
    ensures w.disk.ever <= Apply(w, step).disk.ever
  {
  }

  /** Right behind the rename: what might be there before, or what was written. */
  lemma SuccessHolds(o: World, w: World, step: Step, t: World, content: Option<Bytes>)
    requires Ok(o, w) && IsSuccess(w, Event.Call(step)) && t == Next(w, Event.Call(step))
    ensures step.id in w.writers && step.id in t.writers
    ensures t.target == w.target && t.winner == Some(step.id) && t.writers[step.id].bytes == w.writers[step.id].bytes
    ensures MayHold(t.disk, t.target, content)
            <==> MayHold(w.disk, w.target, content) || content == Some(w.writers[step.id].bytes)
  {
    hide Top, Fresh, Accounted, OldFilesUntouched, SameNames;
    SuccessIsRename(w, step);
    WriterFacts(o, w, step.id);
    hide Ok;
    RenameBinds(o, w, step);
    hide Apply, Enabled, Own, MayHold, Survives, IsSuccess;
    BoundHolds(w, t, w.writers[step.id].pc.ino, w.writers[step.id].bytes, content);
  }

  lemma BoundHolds(w: World, t: World, ino: nat, bytes: Bytes, content: Option<Bytes>)
    requires t.target == w.target && t.disk.inodes == w.disk.inodes && ino < |w.disk.inodes|
    requires w.disk.inodes[ino].synced && w.disk.inodes[ino].bytes == bytes
    requires forall b :: (w.target, b) in t.disk.ever <==> (w.target, b) in w.disk.ever || b == Some(ino)
    ensures MayHold(t.disk, t.target, content) <==> MayHold(w.disk, w.target, content) || content == Some(bytes)
  {
    if MayHold(t.disk, t.target, content) {
      var b :| (t.target, b) in t.disk.ever && Survives(t.disk, b, content);
      assert b != Some(ino) ==> (w.target, b) in w.disk.ever && Survives(w.disk, b, content);
    }
    if MayHold(w.disk, w.target, content) {
      var b :| (w.target, b) in w.disk.ever && Survives(w.disk, b, content);
      assert (t.target, b) in t.disk.ever && Survives(t.disk, b, content);
    }
    if content == Some(bytes) {
      assert (t.target, Some(ino)) in t.disk.ever && Survives(t.disk, Some(ino), content);
    }
  }

  lemma SuccessIsRename(w: World, step: Step)
    requires IsSuccess(w, Event.Call(step))
    ensures Enabled(w, step) && step.id in w.writers
    ensures step.Rename? && !step.fails && w.writers[step.id].pc.Moded? && w.writers[step.id].tmp in w.disk.names
  {
  }

  lemma RenameBinds(o: World, w: World, step: Step)
    requires Enabled(w, step) && step.Rename? && !step.fails && Own(o, w, step.id)
    requires w.writers[step.id].tmp in w.disk.names && w.writers[step.id].tmp != w.target
    ensures
      var t, u := Apply(w, step), w.writers[step.id];
      && t.target == w.target && t.winner == Some(step.id) && t.writers[step.id].bytes == u.bytes
      && u.pc.HasIno() && t.disk.inodes == w.disk.inodes && u.pc.ino < |w.disk.inodes|
      && w.disk.inodes[u.pc.ino].synced && w.disk.inodes[u.pc.ino].bytes == u.bytes
      && (forall b :: (w.target, b) in t.disk.ever <==> (w.target, b) in w.disk.ever || b == Some(u.pc.ino))
  {
  }

  /** A directory synced while this success is the last: nothing else may come back. */
  lemma SyncedHolds(o: World, w: World, id: nat, content: Option<Bytes>)
    requires Ok(o, w) && w.winner == Some(id)
    ensures id in w.writers
            && (MayHold(DirectorySynced(w.disk), w.target, content) <==> content == Some(w.writers[id].bytes))
  {
    assert Own(o, w, id);
    hide Ok, Accounted, Apart, Bound;
    var d, b := DirectorySynced(w.disk), Lookup(w.disk, w.target);
    assert (w.target, b) in d.ever;
    assert content == Some(w.writers[id].bytes) ==> Survives(d, b, content);
  }

  /** What stands behind a success that is the last one so far. */
  ghost predicate Stands(o: World, w: World, t: World, id: nat) {
    && Ok(o, t) && t.target == w.target && t.winner == Some(id)
    && id in w.writers && id in t.writers && t.writers[id].bytes == w.writers[id].bytes
  }

  lemma QuietStands(o: World, w: World, t: World, id: nat, event: Event)
    requires Stands(o, w, t, id) && !IsSuccess(t, event)
    ensures Stands(o, w, Next(t, event), id)
  {
    hide Ok;
    NextKeeps(o, t, event);
  }

  lemma OnwardStep(w: World, after: seq<Event>)
    ensures after == [] ==> Onward(w, after) == w
    ensures after != [] ==> Onward(w, after) == Next(Onward(w, after[..|after| - 1]), after[|after| - 1])
  {
  }

  lemma InFrontOrLast(after: seq<Event>)
    requires after != []
    ensures SyncDirectory in after <==> SyncDirectory in after[..|after| - 1] || after[|after| - 1] == SyncDirectory
  {
    assert after == after[..|after| - 1] + [after[|after| - 1]];
  }

  /** As long as no directory is synced, what might be there before may still come back; afterwards, nothing may. */
  lemma {:induction false} StandsOnward(o: World, w: World, id: nat, after: seq<Event>, content: Option<Bytes>)
    requires Stands(o, w, w, id) && NoneSucceeds(w, after)
    ensures Stands(o, w, Onward(w, after), id)
    ensures
      var t := Onward(w, after);
      MayHold(t.disk, t.target, content)
      <==> if SyncDirectory in after then content == Some(w.writers[id].bytes) else MayHold(w.disk, w.target, content)
  {
    hide Onward, MayHold, NoneSucceeds, IsSuccess, Ok, Next;
    OnwardStep(w, after);
    if after != [] {
      var front, event := after[..|after| - 1], after[|after| - 1];
      InFrontOrLast(after);
      FrontNoneSucceeds(w, after);
      StandsOnward(o, w, id, front, content);
      QuietStands(o, w, Onward(w, front), id, event);
      NextHolds(o, w, Onward(w, front), id, event, content);
    }
  }

  lemma FrontNoneSucceeds(w: World, after: seq<Event>)
    requires NoneSucceeds(w, after) && after != []
    ensures NoneSucceeds(w, after[..|after| - 1])
    ensures !IsSuccess(Onward(w, after[..|after| - 1]), after[|after| - 1])
  {
    hide IsSuccess, Onward;
    var front := after[..|after| - 1];
    forall i: nat | i < |front| ensures !IsSuccess(Onward(w, front[..i]), front[i]) {
      assert front[..i] == after[..i];
      assert !IsSuccess(Onward(w, after[..i]), after[i]);
    }
  }

  lemma NextHolds(o: World, w: World, t: World, id: nat, event: Event, content: Option<Bytes>)
    requires Stands(o, w, t, id) && !IsSuccess(t, event)
    ensures
      var n := Next(t, event);
      MayHold(n.disk, n.target, content)
      <==> if event.SyncDirectory? then content == Some(w.writers[id].bytes) else MayHold(t.disk, t.target, content)
  {
    hide Ok, MayHold, Apply, Enabled;
    if event.SyncDirectory? {
      SyncedHolds(o, t, id, content);
    } else if Enabled(t, event.step) {
      QuietHolds(o, t, event.step, Next(t, event), content);
    }
  }

  lemma StandsAtFirst(o: World, before: seq<Event>, step: Step, t: World)
    requires Fresh(o) && IsSuccess(Onward(o, before), Event.Call(step))
    requires t == Next(Onward(o, before), Event.Call(step))
    ensures Stands(o, t, t, step.id) && Ok(o, Onward(o, before))
  {
    hide Ok, Onward, Fresh, MayHold, IsSuccess, Next;
    HistoryIsOk(o, before);
    NextKeeps(o, Onward(o, before), Event.Call(step));
    SuccessHolds(o, Onward(o, before), step, t, None);
  }

  /** What the target may hold behind a success and any events that are none. */
  lemma HeldBehind(o: World, before: seq<Event>, step: Step, t: World, after: seq<Event>, content: Option<Bytes>)
    requires Fresh(o) && IsSuccess(Onward(o, before), Event.Call(step))
    requires t == Next(Onward(o, before), Event.Call(step))
    requires NoneSucceeds(t, after)
    ensures
      var w, n := Onward(o, before), Onward(t, after);
      && step.id in w.writers && step.id in n.writers && n.writers[step.id].bytes == w.writers[step.id].bytes
      && (MayHold(n.disk, n.target, content)
          <==> content == Some(w.writers[step.id].bytes)
               || (SyncDirectory !in after && MayHold(w.disk, w.target, content)))
  {
    hide Ok, Onward, Fresh, MayHold, IsSuccess, Next, NoneSucceeds;
    StandsAtFirst(o, before, step, t);
    SuccessHolds(o, Onward(o, before), step, t, content);
    StandsOnward(o, t, step.id, after, content);
  }

  /**
   * A success is durable, as long as it is the last, exactly when the directory is
   * synced behind the rename -- or nothing but the same content might be there before.
   */
  lemma DurableExactly(o: World, before: seq<Event>, step: Step, t: World, after: seq<Event>)
    requires Fresh(o) && IsSuccess(Onward(o, before), Event.Call(step))
    requires t == Next(Onward(o, before), Event.Call(step))
    requires NoneSucceeds(t, after)
    ensures step.id in Onward(o, before).writers
    ensures
      var w, id := Onward(o, before), step.id;
      IsDurable(Onward(t, after), id)
      <==> || SyncDirectory in after
           || forall content :: MayHold(w.disk, w.target, content) ==> content == Some(w.writers[id].bytes)
  {
    hide Ok, Onward, Fresh, MayHold, IsSuccess, Next, NoneSucceeds;
    var w, n, id := Onward(o, before), Onward(t, after), step.id;
    HeldBehind(o, before, step, t, after, None);
    forall content
      ensures MayHold(n.disk, n.target, content)
              <==> content == Some(w.writers[id].bytes)
                   || (SyncDirectory !in after && MayHold(w.disk, w.target, content))
    {
      HeldBehind(o, before, step, t, after, content);
    }
  }
}
