/**
 * Replacing a file by writing a temporary one beside it, syncing it and renaming
 * it over: any number of writers, each system call a step that may fail, a crash
 * possible after each. All names are names in the target's directory.
 */
module AtomicWrite {
  import opened Wrappers

  type Name = string
  type Bytes = string
  type Mode = nat

  /** What a file is to a crash: synced contents survive it, others may become anything. */
  datatype Inode = Inode(bytes: Bytes, mode: Mode, synced: bool)

  /** `ever` holds every binding a name has had, any of which a crash may bring back. */
  datatype Disk = Disk(inodes: seq<Inode>, names: map<Name, nat>, ever: set<(Name, Option<nat>)>)

  datatype Pc =
    | Begun
    | Ready                 // the target's permissions are read
    | Open(ino: nat)        // the temporary file, in part written
    | Synced(ino: nat)
    | Moded(ino: nat)       // its permissions are set, if they are to be
    | Replaced(ino: nat)    // the target: success
    | Failed                // the temporary file is yet to be removed
    | Errored
  {
    predicate HasTmp() { Open? || Synced? || Moded? }
    predicate HasIno() { HasTmp() || Replaced? }
  }

  /** One call of the write, and the permissions it is to apply, once known. */
  datatype Writer = Writer(tmp: Name, bytes: Bytes, permissions: Option<Mode>, wanted: Option<Mode>, pc: Pc)

  /** `winner` is the last writer that renamed. */
  datatype World = World(target: Name, disk: Disk, writers: map<nat, Writer>, winner: Option<nat>)

  /** `fails` is the system call's outcome. */
  datatype Step =
    | Stat(id: nat, fails: bool)
    | CreateNew(id: nat, umasked: Mode, fails: bool)
    | Append(id: nat, count: nat, fails: bool)
    | Sync(id: nat, fails: bool)
    | Chmod(id: nat, fails: bool)
    | Rename(id: nat, fails: bool)
    | Remove(id: nat, fails: bool)

  // ---- System calls ----

  function Lookup(d: Disk, name: Name): (ino: Option<nat>) {
    if name in d.names && d.names[name] < |d.inodes| then Some(d.names[name]) else None
  }

  function Contents(d: Disk, name: Name): Option<Bytes> {
    var ino := Lookup(d, name);
    if ino.Some? then Some(d.inodes[ino.value].bytes) else None
  }

  function Bind(d: Disk, name: Name, ino: nat): Disk {
    d.(names := d.names[name := ino], ever := d.ever + {(name, Some(ino))})
  }

  function Unbind(d: Disk, name: Name): Disk {
    d.(names := d.names - {name}, ever := d.ever + {(name, None)})
  }

  function Created(d: Disk, name: Name, mode: Mode): Disk {
    Bind(d.(inodes := d.inodes + [Inode("", mode, false)]), name, |d.inodes|)
  }

  function SetInode(d: Disk, ino: nat, f: Inode): Disk
    requires ino < |d.inodes|
  {
    d.(inodes := d.inodes[ino := f])
  }

  /** Both names change at once. */
  function Renamed(d: Disk, from: Name, to: Name): Disk
    requires from in d.names
  {
    Unbind(Bind(d, to, d.names[from]), from)
  }

  // ---- The steps of a writer ----

  function Go(w: World, id: nat, u: Writer, pc: Pc): World {
    w.(writers := w.writers[id := u.(pc := pc)])
  }

  predicate Enabled(w: World, step: Step) {
    step.id in w.writers
    && var u := w.writers[step.id];
       match step
       case Stat(_, _) => u.pc.Begun?
       case CreateNew(_, _, _) => u.pc.Ready?
       case Append(_, count, _) =>
         u.pc.Open? && u.pc.ino < |w.disk.inodes| && |w.disk.inodes[u.pc.ino].bytes| + count <= |u.bytes|
       case Sync(_, _) => u.pc.Open? && u.pc.ino < |w.disk.inodes| && w.disk.inodes[u.pc.ino].bytes == u.bytes
       case Chmod(_, _) => u.pc.Synced?
       case Rename(_, _) => u.pc.Moded?
       case Remove(_, _) => u.pc.Failed?
  }

  /** Permissions not asked for are those of the file replaced, if there is one. */
  function Wanted(d: Disk, target: Name, permissions: Option<Mode>, fails: bool): Option<Mode> {
    if permissions.Some? then permissions
    else
      var ino := Lookup(d, target);
      if fails || ino.None? then None else Some(d.inodes[ino.value].mode)
  }

  function Apply(w: World, step: Step): World
    requires Enabled(w, step)
  {
    var id, u, d := step.id, w.writers[step.id], w.disk;
    match step
    case Stat(_, fails) => Go(w, id, u.(wanted := Wanted(d, w.target, u.permissions, fails)), Ready)
    case CreateNew(_, umasked, fails) =>
      if fails || u.tmp in d.names then Go(w, id, u, Failed)
      else Go(w, id, u, Open(|d.inodes|)).(disk := Created(d, u.tmp, umasked))
    case Append(_, count, fails) =>
      var f := d.inodes[u.pc.ino];
      var more := u.bytes[|f.bytes|..|f.bytes| + count];
      Go(w, id, u, if fails then Failed else u.pc)
      .(disk := SetInode(d, u.pc.ino, f.(bytes := f.bytes + more, synced := false)))
    case Sync(_, fails) =>
      if fails then Go(w, id, u, Failed)
      else Go(w, id, u, Synced(u.pc.ino)).(disk := SetInode(d, u.pc.ino, d.inodes[u.pc.ino].(synced := true)))
    case Chmod(_, fails) =>
      var ino := Lookup(d, u.tmp);
      if u.wanted.None? then Go(w, id, u, Moded(u.pc.ino))
      else if fails || ino.None? then Go(w, id, u, Failed)
      else Go(w, id, u, Moded(u.pc.ino)).(disk := SetInode(d, ino.value, d.inodes[ino.value].(mode := u.wanted.value)))
    case Rename(_, fails) =>
      if fails || u.tmp !in d.names then Go(w, id, u, Failed)
      else Go(w, id, u, Replaced(d.names[u.tmp])).(disk := Renamed(d, u.tmp, w.target), winner := Some(id))
    case Remove(_, fails) =>
      Go(w, id, u, Errored).(disk := if fails || u.tmp !in d.names then d else Unbind(d, u.tmp))
  }

  // ---- What every step keeps ----

  /** The calls that have drawn a temporary name. */
  function Sharers(w: World, name: Name): set<nat> {
    set id | id in w.writers && w.writers[id].tmp == name
  }

  /** Those of them that failed, and have tried to clean up after themselves. */
  function Cleaned(w: World, name: Name): set<nat> {
    set id | id in w.writers && w.writers[id].tmp == name && w.writers[id].pc.Errored?
  }

  /** One call more where the name is taken already, which one of them then has to clear first. */
  function Taken(d: Disk, name: Name): nat {
    if name in d.names then 1 else 0
  }

  /** No temporary name is the target, and no three calls share one, or four where it was taken already. */
  ghost predicate FewShare(w: World) {
    forall id :: id in w.writers ==>
      w.writers[id].tmp != w.target && |Sharers(w, w.writers[id].tmp)| <= 2 + Taken(w.disk, w.writers[id].tmp)
  }

  /** The old target, if there is one, is safely on disk, and no call has begun. */
  ghost predicate IsStart(w: World) {
    && w.winner.None?
    && (forall i :: i in w.writers ==> w.writers[i].pc.Begun?)
    && (w.target in w.disk.names ==> w.disk.names[w.target] < |w.disk.inodes|
                                     && w.disk.inodes[w.disk.names[w.target]].synced)
    && (forall b :: (w.target, b) in w.disk.ever <==> b == Lookup(w.disk, w.target))
  }

  ghost predicate Fresh(w: World) {
    IsStart(w) && FewShare(w)
  }

  /** The calls and their temporary names are those given. */
  ghost predicate SameNames(o: World, w: World) {
    && w.target == o.target && w.writers.Keys == o.writers.Keys
    && forall id :: id in o.writers ==> w.writers[id].tmp == o.writers[id].tmp
  }

  /**
   * As long as nobody has cleaned up, a name that was taken still is; and a call
   * that has lost its file has lost it to yet another that cleaned up.
   */
  ghost predicate Accounted(o: World, w: World, id: nat)
    requires id in w.writers
  {
    var u := w.writers[id];
    && (u.tmp in o.disk.names && Cleaned(w, u.tmp) == {} ==> u.tmp in w.disk.names && !u.pc.HasIno())
    && (u.pc.HasTmp() && u.tmp !in w.disk.names ==> |Cleaned(w, u.tmp)| > Taken(o.disk, u.tmp))
  }

  /** A writer's file: new, its own, a beginning of what it writes, and all of it once synced. */
  ghost predicate Own(o: World, w: World, id: nat)
    requires id in w.writers
  {
    var u := w.writers[id];
    u.pc.HasIno() ==>
      && |o.disk.inodes| <= u.pc.ino < |w.disk.inodes|
      && (u.pc.HasTmp() && u.tmp in w.disk.names ==> w.disk.names[u.tmp] == u.pc.ino)
      && var f := w.disk.inodes[u.pc.ino];
         (|f.bytes| <= |u.bytes| && f.bytes == u.bytes[..|f.bytes|])
         && (!u.pc.Open? ==> f.synced && f.bytes == u.bytes)
         && (u.pc.Replaced? ==> w.winner.Some?)
         && ((u.pc.Moded? || u.pc.Replaced?) && u.wanted.Some? ==> f.mode == u.wanted.value)
  }

  ghost predicate Apart(w: World, i: nat, j: nat)
    requires i in w.writers && j in w.writers
  {
    i != j && w.writers[i].pc.HasIno() && w.writers[j].pc.HasIno() ==> w.writers[i].pc.ino != w.writers[j].pc.ino
  }

  /** The target was only ever the old file or that of a writer that succeeded. */
  ghost predicate Bound(o: World, w: World, b: Option<nat>) {
    || b == Lookup(o.disk, o.target)
    || exists id :: id in w.writers && w.writers[id].pc.Replaced? && b == Some(w.writers[id].pc.ino)
  }

  /** The target now is that of the last writer that succeeded. */
  ghost predicate Top(o: World, w: World) {
    && (w.target in w.disk.names ==> w.disk.names[w.target] < |w.disk.inodes|)
    && (if w.winner.None? then Lookup(w.disk, w.target) == Lookup(o.disk, o.target)
        else && w.winner.value in w.writers && w.writers[w.winner.value].pc.Replaced?
             && w.target in w.disk.names && w.disk.names[w.target] == w.writers[w.winner.value].pc.ino)
    && (w.target, Lookup(w.disk, w.target)) in w.disk.ever
  }

  ghost predicate OldFilesUntouched(o: World, w: World) {
    && |o.disk.inodes| <= |w.disk.inodes|
    && forall i :: 0 <= i < |o.disk.inodes| ==> w.disk.inodes[i] == o.disk.inodes[i]
  }

  ghost predicate Ok(o: World, w: World) {
    && Fresh(o) && SameNames(o, w) && OldFilesUntouched(o, w) && Top(o, w)
    && (forall i :: i in w.writers ==> Own(o, w, i))
    && (forall i :: i in w.writers ==> Accounted(o, w, i))
    && (forall i, j :: i in w.writers && j in w.writers ==> Apart(w, i, j))
    && (forall b :: (w.target, b) in w.disk.ever ==> Bound(o, w, b))
  }

  /** A step of writer `id` touches its own name, the target's, and file `c`, which is its own or new. */
  ghost predicate Elsewhere(o: World, w: World, t: World, id: nat, c: nat)
    requires id in w.writers
  {
    && t.target == w.target && t.writers.Keys == w.writers.Keys && (w.winner.Some? ==> t.winner.Some?)
    && t.writers[id].tmp == w.writers[id].tmp && !w.writers[id].pc.Replaced?
    && (forall j :: j in w.writers && j != id ==> t.writers[j] == w.writers[j])
    && |o.disk.inodes| <= c
    && (c < |w.disk.inodes| ==> w.writers[id].pc.HasIno() && w.writers[id].pc.ino == c)
    && (t.writers[id].pc.HasIno() ==> t.writers[id].pc.ino == c)
    && |w.disk.inodes| <= |t.disk.inodes|
    && (forall i :: 0 <= i < |w.disk.inodes| && i != c ==> t.disk.inodes[i] == w.disk.inodes[i])
    && (forall n :: n != w.target && n != w.writers[id].tmp ==> SameName(w.disk, t.disk, n))
    && (w.writers[id].tmp in t.disk.names ==>
          SameName(w.disk, t.disk, w.writers[id].tmp) || NobodyElseHas(w, id))
  }

  /** No other call under way has a file by this one's name. */
  ghost predicate NobodyElseHas(w: World, id: nat)
    requires id in w.writers
  {
    forall j :: j in w.writers && j != id && w.writers[j].tmp == w.writers[id].tmp ==> !w.writers[j].pc.HasTmp()
  }

  ghost predicate SameName(d: Disk, e: Disk, n: Name) {
    && (n in d.names <==> n in e.names)
    && (n in d.names ==> d.names[n] == e.names[n])
  }

  lemma OtherKeepsOwn(o: World, w: World, t: World, id: nat, c: nat, j: nat)
    requires id in w.writers && Elsewhere(o, w, t, id, c)
    requires j in w.writers && j != id && w.writers[j].tmp != w.target && Own(o, w, j) && Apart(w, j, id)
    ensures Own(o, t, j) && Apart(t, j, id) && Apart(t, id, j)
  {
    if w.writers[j].tmp != w.writers[id].tmp { assert SameName(w.disk, t.disk, w.writers[j].tmp); }
  }

  lemma OtherStaysBound(o: World, w: World, t: World, id: nat, c: nat, b: Option<nat>)
    requires id in w.writers && Elsewhere(o, w, t, id, c) && Bound(o, w, b)
    ensures Bound(o, t, b)
  {
    if b != Lookup(o.disk, o.target) {
      var i :| i in w.writers && w.writers[i].pc.Replaced? && b == Some(w.writers[i].pc.ino);
      assert i in t.writers && t.writers[i] == w.writers[i];
    }
  }

  /** Then only the writer itself and what became of the target need a look. */
  lemma KeepsElsewhere(o: World, w: World, t: World, id: nat, c: nat)
    requires Ok(o, w) && id in w.writers && Elsewhere(o, w, t, id, c)
    requires Own(o, t, id) && Top(o, t) && forall j :: j in t.writers ==> Accounted(o, t, j)
    requires forall b :: (t.target, b) in t.disk.ever ==> (w.target, b) in w.disk.ever || Bound(o, t, b)
    ensures Ok(o, t)
  {
    hide Own, Bound, Apart, Top, IsStart, Accounted;
    NoTmpIsTarget(o, w);
    hide Fresh;
    forall j | j in t.writers ensures Own(o, t, j) && Apart(t, j, id) && Apart(t, id, j) {
      if j != id { OtherKeepsOwn(o, w, t, id, c, j); }
      else { SelfApart(t, id); }
    }
    forall i, j | i in t.writers && j in t.writers ensures Apart(t, i, j) {
      if i != id && j != id { SameApart(w, t, i, j); }
    }
    forall b | (t.target, b) in t.disk.ever ensures Bound(o, t, b) {
      if (w.target, b) in w.disk.ever { OtherStaysBound(o, w, t, id, c, b); }
    }
  }

  lemma NoTmpIsTarget(o: World, w: World)
    requires FewShare(o) && SameNames(o, w)
    ensures forall j :: j in w.writers ==> w.writers[j].tmp != w.target
  {
  }

  lemma SelfApart(t: World, id: nat)
    requires id in t.writers
    ensures Apart(t, id, id)
  {
  }

  lemma SameApart(w: World, t: World, i: nat, j: nat)
    requires i in w.writers && j in w.writers && i in t.writers && j in t.writers
    requires w.writers[i] == t.writers[i] && w.writers[j] == t.writers[j] && Apart(w, i, j)
    ensures Apart(t, i, j)
  {
  }

  /** Which file a step may change. */
  function Touched(w: World, id: nat): nat
    requires id in w.writers
  {
    if w.writers[id].pc.HasIno() then w.writers[id].pc.ino else |w.disk.inodes|
  }

  lemma WriterFacts(o: World, w: World, id: nat)
    requires Ok(o, w) && id in w.writers
    ensures SameNames(o, w) && OldFilesUntouched(o, w) && Own(o, w, id) && Top(o, w)
    ensures w.writers[id].tmp != w.target && Fresh(o) && Accounted(o, w, id)
    ensures |o.disk.inodes| <= Touched(w, id)
  {
  }

  // ---- Who has cleaned up ----

  lemma CleanedAfter(w: World, step: Step, name: Name)
    requires Enabled(w, step)
    ensures Cleaned(Apply(w, step), name)
            == Cleaned(w, name) + (if step.Remove? && w.writers[step.id].tmp == name then {step.id} else {})
    ensures step.id !in Cleaned(w, name)
  {
  }

  lemma TwoMoreShare(w: World, i: nat, j: nat)
    requires i in w.writers && j in w.writers && i != j && w.writers[i].tmp == w.writers[j].tmp
    requires !w.writers[i].pc.Errored? && !w.writers[j].pc.Errored?
    ensures |Cleaned(w, w.writers[i].tmp)| + 2 <= |Sharers(w, w.writers[i].tmp)|
  {
    var cleaned, all := Cleaned(w, w.writers[i].tmp), Sharers(w, w.writers[i].tmp);
    assert cleaned + {i, j} <= all;
    SubsetCount(cleaned + {i, j}, all);
    assert |cleaned + {i, j}| == |cleaned| + 2;
  }

  lemma {:induction false} SubsetCount(a: set<nat>, b: set<nat>)
    requires a <= b
    ensures |a| <= |b|
  {
    if a != {} {
      var x :| x in a;
      SubsetCount(a - {x}, b - {x});
    }
  }

  lemma SameSharers(o: World, w: World, name: Name)
    requires SameNames(o, w)
    ensures Sharers(w, name) == Sharers(o, name)
  {
    assert forall id :: id in w.writers <==> id in w.writers.Keys;
  }

  /** A call that finds its name free finds nobody else using it. */
  lemma CreatesAlone(o: World, w: World, id: nat)
    requires FewShare(o) && SameNames(o, w) && id in w.writers && w.writers[id].pc.Ready?
    requires w.writers[id].tmp !in w.disk.names && forall j :: j in w.writers ==> Accounted(o, w, j)
    ensures NobodyElseHas(w, id)
  {
    var name := w.writers[id].tmp;
    SameSharers(o, w, name);
    assert |Sharers(o, name)| <= 2 + Taken(o.disk, name);
    hide Sharers, Cleaned, Taken;
    forall j | j in w.writers && j != id && w.writers[j].tmp == name ensures !w.writers[j].pc.HasTmp() {
      if w.writers[j].pc.HasTmp() {
        assert Accounted(o, w, j);
        TwoMoreShare(w, id, j);
      }
    }
  }

  /** What a step does to the names, and to what its call has. */
  ghost predicate NamesMove(w: World, step: Step, t: World)
    requires step.id in w.writers
  {
    && t.writers.Keys == w.writers.Keys && step.id in t.writers && t.target == w.target
    && (forall j :: j in w.writers && j != step.id ==> t.writers[j] == w.writers[j])
    && (forall n :: n != w.target && n != w.writers[step.id].tmp ==> SameName(w.disk, t.disk, n))
    && var name, u, v := w.writers[step.id].tmp, w.writers[step.id], t.writers[step.id];
       v.tmp == name
       && (|| (SameName(w.disk, t.disk, name) && (v.pc.HasIno() ==> u.pc.HasIno()) && (v.pc.HasTmp() ==> u.pc.HasTmp()))
           || (step.CreateNew? && name !in w.disk.names && name in t.disk.names)
           || (step.Remove? && name !in t.disk.names && u.pc.Failed? && v.pc.Errored?)
           || (step.Rename? && name in w.disk.names && u.pc.HasTmp() && v.pc.Replaced?))
  }

  lemma StepMovesNames(w: World, step: Step)
    requires Enabled(w, step) && w.writers[step.id].tmp != w.target
    ensures NamesMove(w, step, Apply(w, step))
  {
    var t := Apply(w, step);
    forall n | n != w.target && n != w.writers[step.id].tmp ensures SameName(w.disk, t.disk, n) {}
    assert t.writers.Keys == w.writers.Keys;
  }

  lemma OtherNameAccounts(o: World, w: World, step: Step, j: nat)
    requires Enabled(w, step) && j in w.writers && w.writers[j].tmp != w.writers[step.id].tmp
    requires w.writers[step.id].tmp != w.target && w.writers[j].tmp != w.target && Accounted(o, w, j)
    ensures j in Apply(w, step).writers && Accounted(o, Apply(w, step), j)
  {
    StepMovesNames(w, step);
    CleanedAfter(w, step, w.writers[j].tmp);
    hide Cleaned, Taken, Apply, Enabled;
    assert j in Apply(w, step).writers.Keys;
    assert SameName(w.disk, Apply(w, step).disk, w.writers[j].tmp);
  }

  lemma SameNameAccounts(o: World, w: World, step: Step, t: World, j: nat)
    requires step.id in w.writers && NamesMove(w, step, t)
    requires j in w.writers && j in t.writers && w.writers[j].tmp == w.writers[step.id].tmp != w.target
    requires Accounted(o, w, j) && Accounted(o, w, step.id)
    requires j != step.id && w.writers[j].tmp in w.disk.names ==>
               !(w.writers[j].pc.HasTmp() && w.writers[step.id].pc.HasTmp())
    requires Cleaned(t, w.writers[j].tmp)
             == Cleaned(w, w.writers[j].tmp) + (if step.Remove? then {step.id} else {})
    requires step.id !in Cleaned(w, w.writers[j].tmp)
    ensures Accounted(o, t, j)
  {
    hide Cleaned;
    var c := Cleaned(w, w.writers[j].tmp);
    assert step.Remove? ==> |c + {step.id}| == |c| + 1;
  }

  /** Two calls under way cannot both have the file that bears their name. */
  lemma OwnNames(o: World, w: World, i: nat, j: nat)
    requires Ok(o, w) && i in w.writers && j in w.writers
    ensures i != j && w.writers[i].tmp == w.writers[j].tmp && w.writers[i].tmp in w.disk.names ==>
              !(w.writers[i].pc.HasTmp() && w.writers[j].pc.HasTmp())
  {
    assert Own(o, w, i) && Own(o, w, j) && Apart(w, i, j);
  }

  lemma AccountsForOne(o: World, w: World, step: Step, j: nat)
    requires Ok(o, w) && Enabled(w, step) && j in w.writers
    ensures j in Apply(w, step).writers && Accounted(o, Apply(w, step), j)
  {
    WriterFacts(o, w, j);
    WriterFacts(o, w, step.id);
    var t, name := Apply(w, step), w.writers[j].tmp;
    StepMovesNames(w, step);
    CleanedAfter(w, step, name);
    if name == w.writers[step.id].tmp {
      OwnNames(o, w, j, step.id);
      hide Apply, Own, Accounted, Apart, Top, Fresh, Enabled, Cleaned, OldFilesUntouched;
      assert j in t.writers.Keys;
      SameNameAccounts(o, w, step, t, j);
    } else {
      OtherNameAccounts(o, w, step, j);
    }
  }

  lemma StepAccounts(o: World, w: World, step: Step)
    requires Ok(o, w) && Enabled(w, step)
    ensures forall j :: j in Apply(w, step).writers ==> Accounted(o, Apply(w, step), j)
  {
    SameKeys(w, step);
    hide Ok, Apply, Enabled, Accounted;
    forall j | j in Apply(w, step).writers ensures Accounted(o, Apply(w, step), j) {
      AccountsForOne(o, w, step, j);
    }
  }

  lemma SameKeys(w: World, step: Step)
    requires Enabled(w, step)
    ensures forall j :: j in Apply(w, step).writers <==> j in w.writers
  {
  }

  /** Steps that neither touch the target nor replace it. */
  lemma QuietStepKeeps(o: World, w: World, step: Step)
    requires Ok(o, w) && Enabled(w, step) && !step.Rename?
    ensures Ok(o, Apply(w, step))
  {
    var id, c, t := step.id, Touched(w, step.id), Apply(w, step);
    WriterFacts(o, w, id);
    if step.CreateNew? && w.writers[id].tmp !in w.disk.names { CreatesAlone(o, w, id); }
    QuietIsElsewhere(o, w, step);
    QuietKeepsOwn(o, w, step);
    QuietKeepsTop(o, w, step);
    StepAccounts(o, w, step);
    hide Ok, Own, Top, Apply, Elsewhere, Enabled, Accounted;
    KeepsElsewhere(o, w, t, id, c);
  }

  lemma QuietNames(w: World, step: Step)
    requires Enabled(w, step) && !step.Rename?
    ensures forall n :: n != w.target && n != w.writers[step.id].tmp ==> SameName(w.disk, Apply(w, step).disk, n)
    ensures
      var name := w.writers[step.id].tmp;
      name in Apply(w, step).disk.names ==>
        SameName(w.disk, Apply(w, step).disk, name) || (step.CreateNew? && name !in w.disk.names)
  {
    var t := Apply(w, step);
    forall n | n != w.target && n != w.writers[step.id].tmp ensures SameName(w.disk, t.disk, n) {}
  }

  lemma QuietIsElsewhere(o: World, w: World, step: Step)
    requires Enabled(w, step) && !step.Rename? && Own(o, w, step.id) && OldFilesUntouched(o, w)
    requires step.CreateNew? && w.writers[step.id].tmp !in w.disk.names ==> NobodyElseHas(w, step.id)
    ensures Elsewhere(o, w, Apply(w, step), step.id, Touched(w, step.id))
  {
    QuietNames(w, step);
    hide SameName, NobodyElseHas;
  }

  lemma QuietKeepsOwn(o: World, w: World, step: Step)
    requires Enabled(w, step) && !step.Rename? && Own(o, w, step.id) && OldFilesUntouched(o, w)
    ensures Own(o, Apply(w, step), step.id)
  {
  }

  lemma QuietKeepsTop(o: World, w: World, step: Step)
    requires Enabled(w, step) && !step.Rename? && w.writers[step.id].tmp != w.target && Top(o, w)
    ensures Top(o, Apply(w, step))
    ensures forall b :: (w.target, b) in Apply(w, step).disk.ever ==> (w.target, b) in w.disk.ever
  {
  }

  lemma RenameKeeps(o: World, w: World, id: nat, fails: bool)
    requires Ok(o, w) && Enabled(w, Rename(id, fails))
    ensures Ok(o, Apply(w, Rename(id, fails)))
  {
    var c, t := Touched(w, id), Apply(w, Rename(id, fails));
    WriterFacts(o, w, id);
    RenameIsElsewhere(o, w, id, fails);
    RenameTop(o, w, id, fails);
    StepAccounts(o, w, Rename(id, fails));
    hide Ok, Own, Top, Apply, Elsewhere, Enabled, Accounted;
    KeepsElsewhere(o, w, t, id, c);
  }

  lemma RenameIsElsewhere(o: World, w: World, id: nat, fails: bool)
    requires Enabled(w, Rename(id, fails)) && Own(o, w, id) && OldFilesUntouched(o, w)
    ensures Elsewhere(o, w, Apply(w, Rename(id, fails)), id, Touched(w, id))
    ensures Own(o, Apply(w, Rename(id, fails)), id)
  {
    var t := Apply(w, Rename(id, fails));
    forall n | n != w.target && n != w.writers[id].tmp ensures SameName(w.disk, t.disk, n) {}
  }

  lemma RenameTop(o: World, w: World, id: nat, fails: bool)
    requires Enabled(w, Rename(id, fails)) && Own(o, w, id) && Top(o, w) && w.writers[id].tmp != w.target
    ensures
      var t := Apply(w, Rename(id, fails));
      Top(o, t) && forall b :: (t.target, b) in t.disk.ever ==> (w.target, b) in w.disk.ever || Bound(o, t, b)
  {
    var t, u := Apply(w, Rename(id, fails)), w.writers[id];
    assert id in t.writers;
    forall b | (t.target, b) in t.disk.ever && (w.target, b) !in w.disk.ever ensures Bound(o, t, b) {
      assert t.writers[id].pc.Replaced? && b == Some(t.writers[id].pc.ino);
    }
  }

  // ---- Whole runs ----

  function After(o: World, steps: seq<Step>): World {
    if steps == [] then o
    else
      var w, step := After(o, steps[..|steps| - 1]), steps[|steps| - 1];
      if Enabled(w, step) then Apply(w, step) else w
  }

  lemma FreshIsOk(o: World)
    requires Fresh(o)
    ensures Ok(o, o)
  {
    hide FewShare;
  }

  lemma {:induction false} EveryRunIsOk(o: World, steps: seq<Step>)
    requires Fresh(o)
    ensures Ok(o, After(o, steps))
  {
    hide Ok, Fresh, Enabled, Apply;
    if steps == [] {
      FreshIsOk(o);
    } else {
      var w, step := After(o, steps[..|steps| - 1]), steps[|steps| - 1];
      EveryRunIsOk(o, steps[..|steps| - 1]);
      if Enabled(w, step) {
        if step.Rename? { RenameKeeps(o, w, step.id, step.fails); } else { QuietStepKeeps(o, w, step); }
      }
    }
  }

  /** What a name may hold after a crash: any binding it ever had, and only synced contents for sure. */
  ghost predicate MayHold(d: Disk, name: Name, content: Option<Bytes>) {
    exists b :: (name, b) in d.ever && Survives(d, b, content)
  }

  ghost predicate Survives(d: Disk, b: Option<nat>, content: Option<Bytes>) {
    if b.None? then content.None?
    else
      content.Some?
      && (b.value < |d.inodes| && d.inodes[b.value].synced ==> content.value == d.inodes[b.value].bytes)
  }

  /** The old content, or all of what one successful writer wrote. */
  ghost predicate IsWhole(o: World, w: World, content: Option<Bytes>) {
    || content == Contents(o.disk, o.target)
    || exists id :: id in w.writers && w.writers[id].pc.Replaced? && content == Some(w.writers[id].bytes)
  }

  /** Crash atomicity: whenever the crash comes, the target is whole. */
  lemma CrashIsAtomic(o: World, steps: seq<Step>, content: Option<Bytes>)
    requires Fresh(o) && MayHold(After(o, steps).disk, o.target, content)
    ensures IsWhole(o, After(o, steps), content)
  {
    EveryRunIsOk(o, steps);
    var w := After(o, steps);
    hide After;
    var b :| (o.target, b) in w.disk.ever && Survives(w.disk, b, content);
    assert Bound(o, w, b);
    if b != Lookup(o.disk, o.target) {
      var id :| id in w.writers && w.writers[id].pc.Replaced? && b == Some(w.writers[id].pc.ino);
      assert Own(o, w, id);
    }
  }

  /** Without a crash, the target has what the last successful writer wrote, under the permissions it was to apply. */
  lemma LastSuccessShows(o: World, steps: seq<Step>)
    requires Fresh(o)
    ensures
      var w := After(o, steps);
      if w.winner.None? then Contents(w.disk, w.target) == Contents(o.disk, o.target)
      else
        && w.winner.value in w.writers && w.writers[w.winner.value].pc.Replaced?
        && var u := w.writers[w.winner.value];
           Contents(w.disk, w.target) == Some(u.bytes)
           && (u.wanted.Some? ==> w.disk.inodes[w.disk.names[w.target]].mode == u.wanted.value)
  {
    EveryRunIsOk(o, steps);
    var w := After(o, steps);
    hide After;
    if w.winner.Some? { assert Own(o, w, w.winner.value); }
  }

  lemma {:induction false} BindingsAreRemembered(o: World, steps: seq<Step>, b: (Name, Option<nat>))
    requires b in o.disk.ever
    ensures b in After(o, steps).disk.ever
  {
    if steps != [] { BindingsAreRemembered(o, steps[..|steps| - 1], b); }
  }

  /** Atomic, but not durable: no directory being synced, a crash may bring the old content back after a success. */
  lemma OldMayComeBack(o: World, steps: seq<Step>)
    requires Fresh(o)
    ensures MayHold(After(o, steps).disk, o.target, Contents(o.disk, o.target))
  {
    var b := Lookup(o.disk, o.target);
    BindingsAreRemembered(o, steps, (o.target, b));
    EveryRunIsOk(o, steps);
    var w := After(o, steps);
    hide After;
    assert Survives(w.disk, b, Contents(o.disk, o.target));
  }

  lemma OnlySuccessStep(o: World, w: World, step: Step, content: Option<Bytes>)
    requires Ok(o, w) && Enabled(w, step) && !Apply(w, step).writers[step.id].pc.Replaced?
    ensures
      var t := Apply(w, step);
      && Contents(t.disk, t.target) == Contents(w.disk, w.target)
      && (MayHold(t.disk, t.target, content) ==> MayHold(w.disk, w.target, content))
  {
    WriterFacts(o, w, step.id);
    NotReplacedYet(w, step);
    TargetsAreOthers(o, w, step.id);
    hide Ok, Own, Top, Enabled, Apply, Contents, MayHold, Fresh;
    QuietKeepsHolding(o, w, step, content);
  }

  lemma StepIsTheWriters(w: World, step: Step)
    requires Enabled(w, step)
    ensures step.id in w.writers && step.id in Apply(w, step).writers
  {
  }

  lemma NotReplacedYet(w: World, step: Step)
    requires Enabled(w, step)
    ensures !w.writers[step.id].pc.Replaced?
  {
  }

  /** Whoever fails changed nothing: only a successful rename changes what the target has, or may have after a crash. */
  lemma OnlySuccessChanges(o: World, steps: seq<Step>, step: Step, content: Option<Bytes>)
    requires Fresh(o) && Enabled(After(o, steps), step)
    ensures
      var w := After(o, steps);
      var t := Apply(w, step);
      !t.writers[step.id].pc.Replaced? ==>
        && Contents(t.disk, t.target) == Contents(w.disk, w.target)
        && (MayHold(t.disk, t.target, content) ==> MayHold(w.disk, w.target, content))
  {
    hide After, Ok, Fresh, Enabled, MayHold, Contents, Apply;
    EveryRunIsOk(o, steps);
    var w := After(o, steps);
    SameKeys(w, step);
    StepIsTheWriters(w, step);
    if !Apply(w, step).writers[step.id].pc.Replaced? {
      OnlySuccessStep(o, w, step, content);
    }
  }

  /** A file under way is bound to the target neither now nor at any earlier time. */
  lemma TargetsAreOthers(o: World, w: World, id: nat)
    requires Ok(o, w) && id in w.writers && !w.writers[id].pc.Replaced?
    ensures forall b :: (w.target, b) in w.disk.ever ==>
                          b.None? || (b.value < |w.disk.inodes| && b.value != Touched(w, id))
  {
    forall b | (w.target, b) in w.disk.ever
      ensures b.None? || (b.value < |w.disk.inodes| && b.value != Touched(w, id))
    {
      assert Bound(o, w, b) && Own(o, w, id);
      if b != Lookup(o.disk, o.target) {
        var i :| i in w.writers && w.writers[i].pc.Replaced? && b == Some(w.writers[i].pc.ino);
        assert Own(o, w, i) && Apart(w, i, id);
      }
    }
  }

  /** What a step that does not replace the target leaves alone on the disk. */
  lemma QuietTouches(w: World, step: Step)
    requires Enabled(w, step) && !Apply(w, step).writers[step.id].pc.Replaced? && w.writers[step.id].tmp != w.target
    ensures
      var t := Apply(w, step);
      && t.target == w.target && SameName(w.disk, t.disk, w.target)
      && |w.disk.inodes| <= |t.disk.inodes|
      && (forall b :: (t.target, b) in t.disk.ever ==> (w.target, b) in w.disk.ever)
  {
  }

  lemma QuietTouchesOneFile(w: World, step: Step)
    requires Enabled(w, step) && !Apply(w, step).writers[step.id].pc.Replaced?
    requires w.writers[step.id].pc.HasTmp() && Lookup(w.disk, w.writers[step.id].tmp).Some? ==>
               Lookup(w.disk, w.writers[step.id].tmp) == Some(Touched(w, step.id))
    ensures
      var t := Apply(w, step);
      && |w.disk.inodes| <= |t.disk.inodes|
      && forall i :: 0 <= i < |w.disk.inodes| && i != Touched(w, step.id) ==> t.disk.inodes[i] == w.disk.inodes[i]
  {
  }

  lemma QuietKeepsHolding(o: World, w: World, step: Step, content: Option<Bytes>)
    requires Enabled(w, step) && !Apply(w, step).writers[step.id].pc.Replaced?
    requires Own(o, w, step.id) && Top(o, w) && w.writers[step.id].tmp != w.target
    requires forall b :: (w.target, b) in w.disk.ever ==>
               b.None? || (b.value < |w.disk.inodes| && b.value != Touched(w, step.id))
    ensures
      var t := Apply(w, step);
      && Contents(t.disk, t.target) == Contents(w.disk, w.target)
      && (MayHold(t.disk, t.target, content) ==> MayHold(w.disk, w.target, content))
  {
    var t := Apply(w, step);
    QuietTouches(w, step);
    QuietTouchesOneFile(w, step);
    hide Apply, Own, Enabled;
    if MayHold(t.disk, t.target, content) {
      var b :| (t.target, b) in t.disk.ever && Survives(t.disk, b, content);
      assert (w.target, b) in w.disk.ever && Survives(w.disk, b, content);
    }
  }

  // ---- How many calls may share a name ----

  /** Whatever the run, a crash leaves the target whole. */
  ghost predicate IsAtomic(o: World) {
    forall steps, content :: MayHold(After(o, steps).disk, o.target, content) ==> IsWhole(o, After(o, steps), content)
  }

  /** One step further in a run. */
  lemma Take(o: World, steps: seq<Step>, w: World, step: Step) returns (longer: seq<Step>, t: World)
    requires w == After(o, steps) && Enabled(w, step)
    ensures longer == steps + [step] && t == Apply(w, step) == After(o, longer)
  {
    longer, t := steps + [step], Apply(w, step);
    assert longer[..|steps|] == steps;
  }

  ghost predicate NoneReplaced(w: World) {
    forall id :: id in w.writers ==> !w.writers[id].pc.Replaced?
  }

  /** All but one of the calls are as they were. */
  ghost predicate OthersSame(w: World, t: World, id: nat) {
    t.target == w.target && t.writers.Keys == w.writers.Keys
    && forall j :: j in w.writers && j != id ==> t.writers[j] == w.writers[j]
  }

  ghost predicate IsFilled(w: World, id: nat) {
    && id in w.writers && w.writers[id].pc.Open? && w.writers[id].pc.ino < |w.disk.inodes|
    && w.disk.inodes[w.writers[id].pc.ino].bytes == w.writers[id].bytes
    && w.writers[id].tmp in w.disk.names && w.disk.names[w.writers[id].tmp] < |w.disk.inodes|
  }

  lemma Fill(o: World, steps: seq<Step>, w: World, id: nat) returns (longer: seq<Step>, t: World)
    requires w == After(o, steps) && id in w.writers && w.writers[id].pc.Begun? && w.writers[id].tmp !in w.disk.names
    ensures t == After(o, longer) && OthersSame(w, t, id) && IsFilled(t, id)
    ensures t.writers[id].tmp == w.writers[id].tmp
  {
    var bytes := w.writers[id].bytes;
    assert bytes[0..0 + |bytes|] == bytes && "" + bytes == bytes;
    longer, t := Take(o, steps, w, Stat(id, true));
    longer, t := Take(o, longer, t, CreateNew(id, 0, false));
    longer, t := Take(o, longer, t, Append(id, |bytes|, false));
  }

  /** A call whose name is free can get as far as having its file filled, synced and under its permissions. */
  lemma FillUp(o: World, steps: seq<Step>, w: World, id: nat) returns (longer: seq<Step>, t: World)
    requires w == After(o, steps) && id in w.writers && w.writers[id].pc.Begun? && w.writers[id].tmp !in w.disk.names
    ensures t == After(o, longer) && OthersSame(w, t, id) && id in t.writers
    ensures t.writers[id].pc.Moded? && t.writers[id].tmp == w.writers[id].tmp && t.writers[id].tmp in t.disk.names
  {
    longer, t := Fill(o, steps, w, id);
    longer, t := Take(o, longer, t, Sync(id, false));
    longer, t := Take(o, longer, t, Chmod(id, false));
  }

  /** A call that finds its name taken clears it. */
  lemma ClearUp(o: World, steps: seq<Step>, w: World, id: nat) returns (longer: seq<Step>, t: World)
    requires w == After(o, steps) && id in w.writers && w.writers[id].pc.Begun? && w.writers[id].tmp in w.disk.names
    ensures t == After(o, longer) && OthersSame(w, t, id) && id in t.writers && t.writers[id].pc.Errored?
    ensures w.writers[id].tmp !in t.disk.names && (w.writers[id].tmp, None) in t.disk.ever
  {
    longer, t := Take(o, steps, w, Stat(id, true));
    longer, t := Take(o, longer, t, CreateNew(id, 0, false));
    longer, t := Take(o, longer, t, Remove(id, false));
  }

  /** A call that finds its name free binds it to an empty file, which is not synced. */
  lemma StartOver(o: World, steps: seq<Step>, w: World, id: nat) returns (longer: seq<Step>, t: World)
    requires w == After(o, steps) && id in w.writers && w.writers[id].pc.Begun? && w.writers[id].tmp !in w.disk.names
    ensures t == After(o, longer) && OthersSame(w, t, id) && id in t.writers && t.writers[id].pc.Open?
    ensures
      var name := w.writers[id].tmp;
      name in t.disk.names && t.disk.names[name] < |t.disk.inodes| && !t.disk.inodes[t.disk.names[name]].synced
      && t.disk.inodes[t.disk.names[name]].bytes == "" && (name, Some(t.disk.names[name])) in t.disk.ever
  {
    longer, t := Take(o, steps, w, Stat(id, true));
    longer, t := Take(o, longer, t, CreateNew(id, 0, false));
  }

  /** A text that is neither of these. */
  function Other(a: Option<Bytes>, b: Bytes): (c: Bytes)
    ensures a != Some(c) && b != c
  {
    var long := (if a.Some? then a.value else "") + b + "!";
    assert |long| > |b| && (a.Some? ==> |long| > |a.value|);
    long
  }

  /**
   * Three calls with one free name: the first fills its file, the second finds it
   * and, failing, removes it, the third's, just created, the first then renames.
   */
  lemma ThreeTear(o: World, steps: seq<Step>, w: World, i: nat, j: nat, k: nat)
    returns (longer: seq<Step>, content: Option<Bytes>)
    requires w == After(o, steps) && NoneReplaced(w) && w.target == o.target
    requires i in w.writers && j in w.writers && k in w.writers && i != j && j != k && i != k
    requires w.writers[i].pc.Begun? && w.writers[j].pc.Begun? && w.writers[k].pc.Begun?
    requires w.writers[i].tmp == w.writers[j].tmp == w.writers[k].tmp != w.target
    requires w.writers[i].tmp !in w.disk.names
    ensures MayHold(After(o, longer).disk, o.target, content) && !IsWhole(o, After(o, longer), content)
    ensures Contents(After(o, longer).disk, o.target) == Some("")
  {
    hide Apply, After, Enabled;
    var t;
    longer, t := FillUp(o, steps, w, i);
    longer, t := ClearUp(o, longer, t, j);
    longer, t := StartOver(o, longer, t, k);
    var u := t;
    longer, t := RenameAnyway(o, longer, t, i);
    content := Some(Other(Contents(o.disk, o.target), t.writers[i].bytes));
    assert Survives(t.disk, Some(u.disk.names[u.writers[i].tmp]), content);
  }

  lemma RenameAnyway(o: World, steps: seq<Step>, w: World, i: nat) returns (longer: seq<Step>, t: World)
    requires w == After(o, steps) && i in w.writers && w.writers[i].pc.Moded? && w.writers[i].tmp != w.target
    requires w.writers[i].tmp in w.disk.names && w.disk.names[w.writers[i].tmp] < |w.disk.inodes|
    ensures t == After(o, longer) && OthersSame(w, t, i) && i in t.writers && t.writers[i].pc.Replaced?
    ensures t.disk.inodes == w.disk.inodes && (w.target, Some(w.disk.names[w.writers[i].tmp])) in t.disk.ever
    ensures Lookup(t.disk, w.target) == Some(w.disk.names[w.writers[i].tmp])
  {
    longer, t := Take(o, steps, w, Rename(i, false));
  }

  /** A call whose temporary name is the target tears it down, or up. */
  lemma TargetTears(o: World, id: nat) returns (steps: seq<Step>, content: Option<Bytes>)
    requires IsStart(o) && id in o.writers && o.writers[id].tmp == o.target
    ensures MayHold(After(o, steps).disk, o.target, content) && !IsWhole(o, After(o, steps), content)
  {
    var w;
    assert o == After(o, []);
    if o.target in o.disk.names {
      steps, w := ClearUp(o, [], o, id);
      content := None;
      assert Survives(w.disk, None, content);
    } else {
      steps, w := StartOver(o, [], o, id);
      content := Some("");
      assert Survives(w.disk, Some(w.disk.names[o.target]), content);
    }
  }

  lemma PickThree(s: set<nat>) returns (i: nat, j: nat, k: nat)
    requires |s| >= 3
    ensures i in s && j in s && k in s && i != j && j != k && i != k
  {
    i :| i in s;
    assert |s - {i}| == |s| - 1;
    j :| j in s - {i};
    assert |s - {i} - {j}| == |s| - 2;
    k :| k in s - {i} - {j};
  }

  lemma CrowdTears(o: World, name: Name) returns (steps: seq<Step>, content: Option<Bytes>)
    requires IsStart(o) && name != o.target && |Sharers(o, name)| > 2 + Taken(o.disk, name)
    ensures MayHold(After(o, steps).disk, o.target, content) && !IsWhole(o, After(o, steps), content)
  {
    var all, w := Sharers(o, name), o;
    assert o == After(o, []);
    steps := [];
    if name in o.disk.names {
      var r :| r in all;
      steps, w := ClearUp(o, [], o, r);
      all := all - {r};
    }
    var i, j, k := PickThree(all);
    steps, content := ThreeTear(o, steps, w, i, j, k);
  }

  /**
   * Crash atomicity holds in every run exactly when no temporary name is the
   * target and no three calls share one, or four where it was taken already.
   */
  lemma AtomicExactly(o: World)
    requires IsStart(o)
    ensures IsAtomic(o) <==> FewShare(o)
  {
    if FewShare(o) {
      forall steps, content | MayHold(After(o, steps).disk, o.target, content)
        ensures IsWhole(o, After(o, steps), content)
      {
        CrashIsAtomic(o, steps, content);
      }
    } else {
      var id :| id in o.writers
                && !(o.writers[id].tmp != o.target
                     && |Sharers(o, o.writers[id].tmp)| <= 2 + Taken(o.disk, o.writers[id].tmp));
      var steps, content;
      if o.writers[id].tmp == o.target {
        steps, content := TargetTears(o, id);
      } else {
        steps, content := CrowdTears(o, o.writers[id].tmp);
      }
    }
  }

  // ---- One call, and its fallback ----

  /** A world with one call in it. */
  function Alone(target: Name, disk: Disk, tmp: Name, bytes: Bytes, permissions: Option<Mode>): World {
    World(target, disk, map[0 := Writer(tmp, bytes, permissions, None, Begun)], None)
  }

  /** The target has these bytes, synced, and these permissions if any are wanted. */
  ghost predicate Wrote(d: Disk, target: Name, bytes: Bytes, wanted: Option<Mode>) {
    && Contents(d, target) == Some(bytes) && d.inodes[d.names[target]].synced
    && (wanted.Some? ==> d.inodes[d.names[target]].mode == wanted.value)
  }

  /** Calls keep their arguments. */
  ghost predicate SameCall(u: Writer, v: Writer) {
    u.tmp == v.tmp && u.bytes == v.bytes && u.permissions == v.permissions
  }

  lemma {:induction false} CallsStay(o: World, steps: seq<Step>, id: nat)
    requires forall i :: i in o.writers ==> o.writers[i].pc.Begun?
    ensures After(o, steps).writers.Keys == o.writers.Keys
    ensures id in o.writers ==> SameCall(o.writers[id], After(o, steps).writers[id])
  {
    if steps != [] {
      var w, step := After(o, steps[..|steps| - 1]), steps[|steps| - 1];
      CallsStay(o, steps[..|steps| - 1], id);
      hide After;
      if Enabled(w, step) { CallStays(o, w, step, id); }
    }
  }

  lemma CallStays(o: World, w: World, step: Step, id: nat)
    requires Enabled(w, step) && w.writers.Keys == o.writers.Keys
    requires id in o.writers ==> SameCall(o.writers[id], w.writers[id])
    ensures Apply(w, step).writers.Keys == o.writers.Keys
    ensures id in o.writers ==> SameCall(o.writers[id], Apply(w, step).writers[id])
  {
  }

  /** The world is one the machine can come to, by way of these disks. */
  ghost predicate On(o: World, w: World, trail: seq<Disk>) {
    && (exists steps :: w == After(o, steps))
    && trail != [] && trail[|trail| - 1] == w.disk
    && forall k :: 0 <= k < |trail| ==> exists steps :: trail[k] == After(o, steps).disk
  }

  lemma AloneIsFresh(target: Name, disk: Disk, tmp: Name, bytes: Bytes, permissions: Option<Mode>)
    requires Fresh(World(target, disk, map[], None)) && tmp != target
    ensures Fresh(Alone(target, disk, tmp, bytes, permissions))
  {
    assert Sharers(Alone(target, disk, tmp, bytes, permissions), tmp) == {0};
  }

  lemma OnStart(o: World)
    ensures On(o, o, [o.disk])
  {
    assert After(o, []) == o;
  }

  lemma OnStep(o: World, w: World, trail: seq<Disk>, step: Step) returns (longer: seq<Disk>)
    requires On(o, w, trail) && Enabled(w, step)
    ensures longer == trail + [Apply(w, step).disk] && On(o, Apply(w, step), longer)
  {
    var steps :| w == After(o, steps);
    longer := trail + [Apply(w, step).disk];
    assert (steps + [step])[..|steps|] == steps;
    assert Apply(w, step) == After(o, steps + [step]);
  }

  /** Where a step takes its writer, how much of its file is then written, and what it is called. */
  ghost predicate Went(w: World, step: Step, t: World)
    requires Enabled(w, step)
  {
    step.id in t.writers
    && var u, v := w.writers[step.id], t.writers[step.id];
       v.tmp == u.tmp && v.bytes == u.bytes && (step.Stat? || v.wanted == u.wanted)
       && (step.CreateNew? || step.Rename? || step.Remove? || t.disk.names == w.disk.names)
       && |w.disk.inodes| <= |t.disk.inodes|
       && match step
          case Stat(_, fails) => v.pc.Ready? && v.wanted == Wanted(w.disk, w.target, u.permissions, fails)
          case CreateNew(_, _, fails) =>
            if fails || u.tmp in w.disk.names then v.pc.Failed?
            else && v.pc.Open? && v.pc.ino < |t.disk.inodes| && t.disk.inodes[v.pc.ino].bytes == ""
                 && Lookup(t.disk, u.tmp).Some?
          case Append(_, count, fails) =>
            if fails then v.pc.Failed?
            else && v.pc == u.pc && v.pc.ino < |t.disk.inodes|
                 && (w.disk.inodes[u.pc.ino].bytes == "" ==> t.disk.inodes[v.pc.ino].bytes == u.bytes[..count])
          case Sync(_, fails) => if fails then v.pc.Failed? else v.pc.Synced?
          case Chmod(_, fails) =>
            if u.wanted.Some? && (fails || Lookup(w.disk, u.tmp).None?) then v.pc.Failed? else v.pc.Moded?
          case Rename(_, fails) =>
            if fails || u.tmp !in w.disk.names then v.pc.Failed?
            else v.pc.Replaced? && (u.tmp != w.target ==> u.tmp !in t.disk.names)
          case Remove(_, fails) => v.pc.Errored? && (!fails ==> u.tmp !in t.disk.names)
  }

  lemma Goes(w: World, step: Step)
    requires Enabled(w, step)
    ensures Went(w, step, Apply(w, step))
  {
  }

  lemma TopIsWinner(o: World, w: World, id: nat)
    requires Top(o, w) && id in w.writers && Own(o, w, id) && w.winner == Some(id)
    ensures w.target in w.disk.names && w.disk.names[w.target] < |w.disk.inodes|
    ensures
      var f := w.disk.inodes[w.disk.names[w.target]];
      f.synced && f.bytes == w.writers[id].bytes
      && (w.writers[id].wanted.Some? ==> f.mode == w.writers[id].wanted.value)
  {
  }

  lemma CallEnds(o: World, w: World, trail: seq<Disk>)
    requires On(o, w, trail) && Fresh(o) && o.writers.Keys == {0}
    ensures
      && 0 in w.writers && w.target == o.target
      && (w.writers[0].pc.Replaced? ==> Wrote(w.disk, o.target, o.writers[0].bytes, w.writers[0].wanted))
      && (!w.writers[0].pc.Replaced? ==> Contents(w.disk, o.target) == Contents(o.disk, o.target))
    ensures forall k, c :: 0 <= k < |trail| && MayHold(trail[k], o.target, c) ==>
              c == Contents(o.disk, o.target) || c == Some(o.writers[0].bytes)
  {
    var steps :| w == After(o, steps);
    EveryRunIsOk(o, steps);
    CallsStay(o, steps, 0);
    LastSuccessShows(o, steps);
    hide After;
    assert Own(o, w, 0);
    assert w.winner.Some? ==> w.winner.value in w.writers.Keys;
    if w.writers[0].pc.Replaced? { TopIsWinner(o, w, 0); }
    forall k, c | 0 <= k < |trail| && MayHold(trail[k], o.target, c)
      ensures c == Contents(o.disk, o.target) || c == Some(o.writers[0].bytes)
    {
      var before :| trail[k] == After(o, before).disk;
      CrashIsAtomic(o, before, c);
      CallsStay(o, before, 0);
      assert forall id :: id in After(o, before).writers.Keys ==> id == 0;
    }
  }

  /** An error, and whether it says that the directory is read-only. */
  datatype IoResult = Fine | Error(readOnlyDir: bool)

  /** What goes wrong in a call; `written` bytes get into the file before an error. */
  datatype Faults = Faults(stat: bool, create: bool, written: Option<nat>, sync: bool, chmod: bool,
                           rename: bool, remove: bool, readOnlyDir: bool)

  /** No system call of the write fails, as far as it is made. */
  predicate Succeeds(f: Faults, wanted: Option<Mode>) {
    !f.create && f.written.None? && !f.sync && (wanted.Some? ==> !f.chmod) && !f.rename
  }

  /** Nor any of overwriting in place. */
  predicate Overwrites(f: Faults, permissions: Option<Mode>) {
    !f.create && f.written.None? && !f.sync && (permissions.Some? ==> !f.chmod)
  }

  ghost predicate MayHoldAnything(d: Disk, target: Name) {
    forall content :: MayHold(d, target, Some(content))
  }

  lemma TruncatedMayHoldAnything(d: Disk, target: Name, ino: nat)
    requires Lookup(d, target) == Some(ino) && (target, Some(ino)) in d.ever
    ensures MayHoldAnything(SetInode(d, ino, d.inodes[ino].(bytes := "", synced := false)), target)
  {
    var e := SetInode(d, ino, d.inodes[ino].(bytes := "", synced := false));
    forall content ensures MayHold(e, target, Some(content)) {
      assert Survives(e, Some(ino), Some(content));
    }
  }

  class Directory {
    const target: Name
    var disk: Disk

    constructor (target: Name, disk: Disk)
      ensures this.target == target && this.disk == disk
    {
      this.target := target;
      this.disk := disk;
    }

    /** The old target, if there is one, is safely on disk. */
    ghost predicate Settled()
      reads this
    {
      Fresh(World(target, disk, map[], None))
    }

    /** One call, undisturbed by others; `trail` is the disk as it was between its system calls. */
    method TryAtomicWrite(tmp: Name, bytes: Bytes, permissions: Option<Mode>, umasked: Mode, f: Faults)
      returns (r: IoResult, ghost trail: seq<Disk>)
      requires Settled() && tmp != target
      modifies this`disk
      ensures r.Fine? <==> tmp !in old(disk).names && Succeeds(f, Wanted(old(disk), target, permissions, f.stat))
      ensures r.Fine? || !f.remove ==> tmp !in disk.names
      ensures r.Fine? ==> Wrote(disk, target, bytes, Wanted(old(disk), target, permissions, f.stat))
      ensures r.Fine? && permissions.Some? ==> disk.inodes[disk.names[target]].mode == permissions.value
      ensures r.Fine? && permissions.None? && !f.stat && Contents(old(disk), target).Some? ==>
                disk.inodes[disk.names[target]].mode == old(disk).inodes[old(disk).names[target]].mode
      ensures r.Error? ==> r.readOnlyDir == f.readOnlyDir && Contents(disk, target) == Contents(old(disk), target)
      ensures trail != [] && trail[|trail| - 1] == disk
      ensures forall k, c :: 0 <= k < |trail| && MayHold(trail[k], target, c) ==>
                c == Contents(old(disk), target) || c == Some(bytes)
    {
      ghost var o := Alone(target, disk, tmp, bytes, permissions);
      var w := Alone(target, disk, tmp, bytes, permissions);
      trail := [disk];
      OnStart(o);
      AloneIsFresh(target, disk, tmp, bytes, permissions);
      hide After, On, Fresh, Wrote, MayHold, Contents, Apply, Wanted;
      trail, w := Call(o, w, trail, Stat(0, f.stat));
      trail, w := Attempt(o, w, trail, umasked, f);
      r := Fine;
      if w.writers[0].pc.Failed? {
        trail, w := Call(o, w, trail, Remove(0, f.remove));
        r := Error(f.readOnlyDir);
      }
      disk := w.disk;
      CallEnds(o, w, trail);
    }

    /** Creates, fills, syncs and renames the temporary file, as far as nothing fails. */
    static method Attempt(ghost o: World, w0: World, ghost trail0: seq<Disk>, umasked: Mode, f: Faults)
      returns (ghost trail: seq<Disk>, w: World)
      requires On(o, w0, trail0) && 0 in w0.writers && w0.writers[0].pc.Ready?
      ensures On(o, w, trail) && 0 in w.writers && w.writers[0].wanted == w0.writers[0].wanted
      ensures w.writers[0].pc.Failed? || w.writers[0].pc.Replaced?
      ensures w.writers[0].pc.Replaced?
              <==> w0.writers[0].tmp !in w0.disk.names && Succeeds(f, w0.writers[0].wanted)
      ensures w.writers[0].tmp == w0.writers[0].tmp
      ensures w.writers[0].pc.Replaced? && w.writers[0].tmp != w0.target ==> w.writers[0].tmp !in w.disk.names
    {
      hide On, Apply, Wanted;
      trail, w := Call(o, w0, trail0, CreateNew(0, umasked, f.create));
      if w.writers[0].pc.Open? {
        var failing, size := f.written.Some?, |w.writers[0].bytes|;
        var count := if failing && f.written.value < size then f.written.value else size;
        trail, w := Call(o, w, trail, Append(0, count, failing));
      }
      if w.writers[0].pc.Open? {
        trail, w := Call(o, w, trail, Sync(0, f.sync));
      }
      if w.writers[0].pc.Synced? {
        trail, w := Call(o, w, trail, Chmod(0, f.chmod));
      }
      if w.writers[0].pc.Moded? {
        trail, w := Call(o, w, trail, Rename(0, f.rename));
      }
    }

    /** One system call. */
    static method Call(ghost o: World, w: World, ghost trail: seq<Disk>, step: Step)
      returns (ghost longer: seq<Disk>, t: World)
      requires On(o, w, trail) && Enabled(w, step)
      ensures On(o, t, longer) && Went(w, step, t) && t.target == w.target
    {
      longer := OnStep(o, w, trail, step);
      t := Apply(w, step);
      Goes(w, step);
    }
 
    /**
     * Overwrites the file itself, which a read-only directory does not prevent. Not
     * crash-atomic: once the file is open, the next disk may hold anything after a crash.
     */
    method InPlaceOverwrite(bytes: Bytes, permissions: Option<Mode>, f: Faults)
      returns (r: IoResult, ghost trail: seq<Disk>)
      modifies this`disk
      ensures r.Fine? <==> Lookup(old(disk), target).Some? && Overwrites(f, permissions)
      ensures r.Fine? ==> Wrote(disk, target, bytes, permissions)
      ensures disk.names == old(disk).names && |disk.inodes| == |old(disk).inodes|
      ensures r.Error? ==>
                || Contents(disk, target) == Contents(old(disk), target)
                || exists n :: 0 <= n <= |bytes| && Contents(disk, target) == Some(bytes[..n])
      ensures trail != [] && trail[|trail| - 1] == disk
      ensures
        if f.create || Lookup(old(disk), target).None? then r.Error? && trail == [old(disk)]
        else
          |trail| > 1
          && ((target, Lookup(old(disk), target)) in old(disk).ever ==> MayHoldAnything(trail[1], target))
    {
      r := Error(f.readOnlyDir);
      trail := [disk];
      var ino := Lookup(disk, target);
      if f.create || ino.None? {
        return;
      }
      var file := disk.inodes[ino.value].(bytes := "", synced := false);
      if (target, ino) in disk.ever { TruncatedMayHoldAnything(disk, target, ino.value); }
      disk := SetInode(disk, ino.value, file);
      trail := trail + [disk];
      assert (target, ino) in disk.ever ==> MayHoldAnything(trail[1], target);
      var count := if f.written.Some? && f.written.value < |bytes| then f.written.value else |bytes|;
      file := file.(bytes := bytes[..count]);
      disk := SetInode(disk, ino.value, file);
      trail := trail + [disk];
      assert Contents(disk, target) == Some(bytes[..count]);
      if f.written.Some? || f.sync {
        return;
      }
      assert bytes[..|bytes|] == bytes;
      file := file.(synced := true);
      disk := SetInode(disk, ino.value, file);
      trail := trail + [disk];
      if permissions.Some? {
        if f.chmod {
          assert Contents(disk, target) == Some(bytes[..count]);
          return;
        }
        disk := SetInode(disk, ino.value, file.(mode := permissions.value));
        trail := trail + [disk];
      }
      r := Fine;
    }

    /** Falls back only when the directory is read-only and there is a file to overwrite. */
    method WriteBytesWithFallback(tmp: Name, bytes: Bytes, permissions: Option<Mode>, umasked: Mode,
                                  f: Faults, g: Faults)
      returns (r: IoResult)
      requires Settled() && tmp != target
      modifies this`disk
      ensures r.Fine? <==> || (tmp !in old(disk).names && Succeeds(f, Wanted(old(disk), target, permissions, f.stat)))
                           || (f.readOnlyDir && Contents(old(disk), target).Some? && Overwrites(g, permissions))
      ensures r.Fine? ==> Contents(disk, target) == Some(bytes) && disk.inodes[disk.names[target]].synced
      ensures r.Fine? && permissions.Some? ==> disk.inodes[disk.names[target]].mode == permissions.value
      ensures r.Error? && (!f.readOnlyDir || Contents(old(disk), target).None?) ==>
                Contents(disk, target) == Contents(old(disk), target)
      ensures r.Error? ==>
                || Contents(disk, target) == Contents(old(disk), target)
                || exists n :: 0 <= n <= |bytes| && Contents(disk, target) == Some(bytes[..n])
    {
      ghost var trail;
      r, trail := TryAtomicWrite(tmp, bytes, permissions, umasked, f);
      if r.Error? && r.readOnlyDir && Contents(disk, target).Some? {
        r, trail := InPlaceOverwrite(bytes, permissions, g);
      }
    }
  }
}
