/**
 * The sweep that releases the item claims of owners that are gone. What the
 * session registry, the job queue, the processes of this host and the ledger
 * answer is given, anew for every sweep.
 */
module ClaimSweep {
  import opened Wrappers
  import opened Substrings

  const STALE_AFTER_SECS: int := 15 * 60

  // ---- Judging one owner ----

  datatype Liveness = Live | Exited | Unverifiable
  datatype JobState = Queued | Running | Finished | Killed | Failed

  /** A registry or queue that cannot be asked answers for nobody. */
  datatype Signs = Signs(here: set<string>, jobs: map<string, JobState>, sessions: map<string, Liveness>,
                         pids: set<nat>)

  /** What stands behind the first colon. */
  function InstanceOf(owner: string): Option<string> {
    var i := Find(owner, ":");
    if i.None? then None else Some(owner[i.value + 1..])
  }

  predicate IsHex(c: char) { '0' <= c <= '9' || 'a' <= c <= 'f' || 'A' <= c <= 'F' }

  predicate AllHex(s: string) { forall i :: 0 <= i < |s| ==> IsHex(s[i]) }

  predicate AllDigits(s: string) { forall i :: 0 <= i < |s| ==> '0' <= s[i] <= '9' }

  function Number(s: string): nat
    requires AllDigits(s)
  {
    if s == "" then 0 else Number(s[..|s| - 1]) * 10 + (s[|s| - 1] as int - '0' as int)
  }

  /** A 32-bit number, which may carry a plus sign. */
  function ParsePid(s: string): (pid: Option<nat>)
    ensures pid.Some? ==> pid.value < 0x1_0000_0000
  {
    var digits := if s != "" && s[0] == '+' then s[1..] else s;
    if digits == "" || !AllDigits(digits) || Number(digits) >= 0x1_0000_0000 then None else Some(Number(digits))
  }

  /** The process of an instance that names one: its number, a dash, and sixteen hexadecimal digits. */
  function FallbackPid(instance: string): Option<nat> {
    var i := Find(instance, "-");
    if i.None? || |instance| - i.value - 1 != 16 || !AllHex(instance[i.value + 1..]) then None
    else ParsePid(instance[..i.value])
  }

  function SessionOf(owner: string, s: Signs): Liveness {
    if owner in s.sessions then s.sessions[owner] else Unverifiable
  }

  function JudgeWithoutJob(owner: string, heartbeat: int, now: int, s: Signs): Liveness {
    match SessionOf(owner, s)
    case Live => Live
    case Exited => Exited
    case Unverifiable =>
      var instance := InstanceOf(owner);
      var pid := if instance.None? then None else FallbackPid(instance.value);
      if pid.None? then Unverifiable
      else if pid.value in s.pids then Live
      else if now - heartbeat > STALE_AFTER_SECS then Exited
      else Unverifiable
  }

  function JudgeOwner(owner: string, heartbeat: int, now: int, s: Signs): Liveness {
    var instance := InstanceOf(owner);
    if instance.Some? && instance.value in s.here then Live
    else if instance.Some? && instance.value in s.jobs then
      match s.jobs[instance.value]
      case Queued => Live
      case Running => if SessionOf(owner, s).Exited? then Exited else Live
      case Finished | Killed | Failed => Exited
    else JudgeWithoutJob(owner, heartbeat, now, s)
  }

  ghost predicate JobSaysGone(owner: string, s: Signs) {
    InstanceOf(owner).Some? && InstanceOf(owner).value in s.jobs
    && !s.jobs[InstanceOf(owner).value].Queued? && !s.jobs[InstanceOf(owner).value].Running?
  }

  ghost predicate ProcessIsGone(owner: string, heartbeat: int, now: int, s: Signs) {
    InstanceOf(owner).Some? && FallbackPid(InstanceOf(owner).value).Some?
    && FallbackPid(InstanceOf(owner).value).value !in s.pids && now - heartbeat > 900
  }

  /**
   * Losing contact is no proof: an owner is judged exited exactly when its job is
   * finished, its session has ended with the job not just queued, or, with nothing
   * known of either, its process is gone and long silent; never a job of this process.
   */
  lemma ExitNeedsProof(owner: string, heartbeat: int, now: int, s: Signs)
    ensures
      var i := InstanceOf(owner);
      JudgeOwner(owner, heartbeat, now, s).Exited?
      <==> && !(i.Some? && i.value in s.here)
           && (|| JobSaysGone(owner, s)
               || (SessionOf(owner, s).Exited? && !(i.Some? && i.value in s.jobs && s.jobs[i.value].Queued?))
               || (SessionOf(owner, s).Unverifiable? && !(i.Some? && i.value in s.jobs)
                   && ProcessIsGone(owner, heartbeat, now, s)))
  {
  }

  // ---- One sweep ----

  /** A claim as the ledger lists it; an item claim has one part to its key. */
  datatype Claim = Claim(key: seq<string>, owner: string, status: string, heartbeat: int)

  type Suspect = (string, string)

  /** What the ledger says to an owner-scoped release. */
  datatype Release = Freed | NotYours | Error

  /** A pull request as far as the sweep looks at it. */
  datatype PrStatus = Merged | Closed | Passing(autoMerge: bool) | AwaitingReview(autoMerge: bool) | Pending | Unknown

  /** An item, its labels, those its project knows, and what its re-queueing would come to. */
  datatype Item = Item(group: string, labels: set<string>, known: set<string>, hasAgent: bool, atCap: bool,
                       requeues: bool)

  /** What a sweep meets: the listing, unless that failed, what to judge by, how releases went, the readable items. */
  datatype Tick = Tick(listing: Option<seq<Claim>>, signs: Signs, now: int, releases: seq<Release>,
                       items: map<string, Item>)

  predicate IsItemClaim(c: Claim) {
    c.status == "claimed" && |c.key| == 1
  }

  function SuspectOf(c: Claim): Suspect {
    (if |c.key| == 1 then c.key[0] else "", c.owner)
  }

  predicate JudgedExited(t: Tick, c: Claim) {
    IsItemClaim(c) && JudgeOwner(c.owner, c.heartbeat, t.now, t.signs).Exited?
  }

  function ReleaseAt(t: Tick, i: nat): Release {
    if i < |t.releases| then t.releases[i] else Error
  }

  function Listed(t: Tick): seq<Claim> {
    if t.listing.Some? then t.listing.value else []
  }

  /** The sweep tries to release claim `i`. */
  predicate Tried(t: Tick, memory: set<Suspect>, i: nat) {
    i < |Listed(t)| && JudgedExited(t, Listed(t)[i]) && SuspectOf(Listed(t)[i]) in memory
  }

  predicate IsFreed(t: Tick, memory: set<Suspect>, i: nat) {
    Tried(t, memory, i) && ReleaseAt(t, i).Freed?
  }

  /** Claim `i` stays, or comes, under suspicion. */
  predicate IsSuspected(t: Tick, memory: set<Suspect>, i: nat) {
    && i < |Listed(t)| && JudgedExited(t, Listed(t)[i])
    && (SuspectOf(Listed(t)[i]) in memory ==> ReleaseAt(t, i).Error?)
  }

  function SuspectsAfter(t: Tick, memory: set<Suspect>): set<Suspect> {
    if t.listing.None? then memory
    else set i: nat | i < |Listed(t)| && IsSuspected(t, memory, i) :: SuspectOf(Listed(t)[i])
  }

  // ---- What becomes of a released item ----

  const PAUSED := "paused"
  const NEEDS_MANUAL := "needs-manual-dispatch"
  const READY := "ready-for-work"
  const DISPATCHED := "dispatched"

  /** The labels are those of an item that is not re-queued; re-queueing has its own. */
  datatype Restored = Restored(redispatched: bool, promote: bool, parkedAtCap: bool, labels: set<string>)

  predicate HasLabel(item: Item, name: string) {
    name in item.known && name in item.labels
  }

  /** Not to be re-queued: finished, parked, nobody's, merged or about to merge. */
  predicate StaysPut(item: Item, status: PrStatus) {
    || item.group in {"completed", "cancelled", "in_review"}
    || HasLabel(item, PAUSED) || HasLabel(item, NEEDS_MANUAL)
    || !item.hasAgent || status.Merged?
    || ((status.Passing? || status.AwaitingReview?) && status.autoMerge)
  }

  function Restore(item: Item, status: PrStatus): Restored {
    if StaysPut(item, status) then Restored(false, status.Merged?, false, item.labels)
    else if item.atCap then
      var dropped := item.labels - ({READY, DISPATCHED} * item.known);
      Restored(false, false, true, dropped + ({NEEDS_MANUAL} * item.known))
    else Restored(item.requeues, false, false, item.labels)
  }

  function RestoreAt(t: Tick, id: string, status: PrStatus): Restored {
    if id in t.items then Restore(t.items[id], status) else Restored(false, false, false, {})
  }

  /**
   * Work that is done or merging is not re-queued, an operator's parking holds, and
   * what is parked at the ceiling stays parked should it be released again.
   */
  lemma RestoreIsSafe(item: Item, status: PrStatus, later: PrStatus)
    ensures
      var r := Restore(item, status);
      && (r.redispatched ==> !r.promote && !r.parkedAtCap && !StaysPut(item, status))
      && (r.promote <==> status.Merged?)
      && (r.parkedAtCap && NEEDS_MANUAL in item.known ==>
            StaysPut(item.(labels := r.labels), later) && !HasLabel(item.(labels := r.labels), READY))
  {
    assert READY != NEEDS_MANUAL by { assert READY[0] != NEEDS_MANUAL[0]; }
  }

  // ---- The sweep's memory ----

  datatype Handled = Handled(at: nat, status: PrStatus, restored: Restored)

  function ItemAt(t: Tick, i: nat): string
    requires i < |Listed(t)|
  {
    SuspectOf(Listed(t)[i]).0
  }

  /** The ledger has one claim an item. */
  ghost predicate OneClaimAnItem(t: Tick) {
    forall i, j :: 0 <= i < j < |Listed(t)| && IsItemClaim(Listed(t)[i]) && IsItemClaim(Listed(t)[j]) ==>
                     ItemAt(t, i) != ItemAt(t, j)
  }

  function StatusIn(statuses: map<string, PrStatus>, id: string): PrStatus {
    if id in statuses then statuses[id] else Unknown
  }

  /** A sweep under way: whom it suspects, what it has released, and the fetched statuses not yet used. */
  datatype Progress = Progress(suspects: set<Suspect>, released: seq<Handled>, unused: map<string, PrStatus>)

  function Examine(t: Tick, memory: set<Suspect>, p: Progress, i: nat): Progress
    requires i < |Listed(t)|
  {
    var c := Listed(t)[i];
    var s := SuspectOf(c);
    if !JudgedExited(t, c) then p
    else if s !in memory then p.(suspects := p.suspects + {s})
    else
      match ReleaseAt(t, i)
      case Freed =>
        var status := StatusIn(p.unused, s.0);
        p.(released := p.released + [Handled(i, status, RestoreAt(t, s.0, status))],
           unused := if s.0 in t.items then p.unused - {s.0} else p.unused)
      case NotYours => p
      case Error => p.(suspects := p.suspects + {s})
  }

  function SweptTo(t: Tick, memory: set<Suspect>, statuses: map<string, PrStatus>, n: nat): Progress
    requires n <= |Listed(t)|
  {
    if n == 0 then Progress({}, [], statuses)
    else Examine(t, memory, SweptTo(t, memory, statuses, n - 1), n - 1)
  }

  function Releases(t: Tick, memory: set<Suspect>, statuses: map<string, PrStatus>): seq<Handled> {
    SweptTo(t, memory, statuses, |Listed(t)|).released
  }

  /** The suspects are those judged exited for the first time, and those whose release failed. */
  lemma {:induction false} SuspectsOfSweep(t: Tick, memory: set<Suspect>, statuses: map<string, PrStatus>, n: nat)
    requires n <= |Listed(t)|
    ensures SweptTo(t, memory, statuses, n).suspects
            == set i: nat | i < n && IsSuspected(t, memory, i) :: SuspectOf(Listed(t)[i])
  {
    if n > 0 {
      SuspectsOfSweep(t, memory, statuses, n - 1);
      hide JudgedExited, RestoreAt;
    }
  }

  ghost predicate ReleasesFreed(t: Tick, memory: set<Suspect>, released: seq<Handled>, n: nat) {
    && (forall k :: 0 <= k < |released| ==> released[k].at < n && IsFreed(t, memory, released[k].at))
    && (forall i: nat :: i < n && IsFreed(t, memory, i) ==> exists k :: 0 <= k < |released| && released[k].at == i)
    && (forall k, l :: 0 <= k < l < |released| ==> released[k].at < released[l].at)
  }

  lemma ExaminedReleases(t: Tick, memory: set<Suspect>, p: Progress, i: nat)
    requires i < |Listed(t)|
    ensures
      var now := Examine(t, memory, p, i).released;
      if IsFreed(t, memory, i)
      then |now| == |p.released| + 1 && now[..|p.released|] == p.released && now[|p.released|].at == i
      else now == p.released
  {
    hide JudgeOwner, RestoreAt;
  }

  lemma AlsoFreed(t: Tick, memory: set<Suspect>, was: seq<Handled>, now: seq<Handled>, n: nat)
    requires ReleasesFreed(t, memory, was, n)
    requires
      if IsFreed(t, memory, n) then |now| == |was| + 1 && now[..|was|] == was && now[|was|].at == n
      else now == was
    ensures ReleasesFreed(t, memory, now, n + 1)
  {
    hide IsFreed;
    assert forall k :: 0 <= k < |was| ==> now[k] == was[k];
    forall i: nat | i < n + 1 && IsFreed(t, memory, i) ensures exists k :: 0 <= k < |now| && now[k].at == i {
      if i < n {
        var k :| 0 <= k < |was| && was[k].at == i;
        assert now[k].at == i;
      } else {
        assert now[|was|].at == i;
      }
    }
  }

  lemma SweptOneMore(t: Tick, memory: set<Suspect>, statuses: map<string, PrStatus>, n: nat)
    requires 0 < n <= |Listed(t)|
    ensures SweptTo(t, memory, statuses, n) == Examine(t, memory, SweptTo(t, memory, statuses, n - 1), n - 1)
  {
  }

  /** Exactly the claims the ledger let go are released, each once, in order. */
  lemma {:induction false} ReleasesOfSweep(t: Tick, memory: set<Suspect>, statuses: map<string, PrStatus>, n: nat)
    requires n <= |Listed(t)|
    ensures ReleasesFreed(t, memory, SweptTo(t, memory, statuses, n).released, n)
  {
    hide SweptTo, Examine, IsFreed, ReleasesFreed, Listed;
    if n > 0 {
      ReleasesOfSweep(t, memory, statuses, n - 1);
      SweptOneMore(t, memory, statuses, n);
      var was := SweptTo(t, memory, statuses, n - 1);
      ExaminedReleases(t, memory, was, n - 1);
      AlsoFreed(t, memory, was.released, SweptTo(t, memory, statuses, n).released, n - 1);
    } else {
      NothingFreed(t, memory, statuses);
    }
  }

  lemma NothingFreed(t: Tick, memory: set<Suspect>, statuses: map<string, PrStatus>)
    ensures ReleasesFreed(t, memory, SweptTo(t, memory, statuses, 0).released, 0)
  {
    hide IsFreed;
  }

  ghost predicate UsesFetched(t: Tick, statuses: map<string, PrStatus>, released: seq<Handled>) {
    forall k :: 0 <= k < |released| ==>
      released[k].at < |Listed(t)|
      && var id := ItemAt(t, released[k].at);
         released[k].restored == RestoreAt(t, id, released[k].status)
         && (id in t.items ==> released[k].status == StatusIn(statuses, id))
  }

  /** With one claim an item, every readable item is restored by its own fetched status. */
  lemma {:induction false} StatusesOfSweep(t: Tick, memory: set<Suspect>, statuses: map<string, PrStatus>, n: nat)
    requires n <= |Listed(t)| && OneClaimAnItem(t)
    ensures UsesFetched(t, statuses, SweptTo(t, memory, statuses, n).released)
    ensures forall k: nat :: n <= k < |Listed(t)| && IsItemClaim(Listed(t)[k]) ==>
              StatusIn(SweptTo(t, memory, statuses, n).unused, ItemAt(t, k)) == StatusIn(statuses, ItemAt(t, k))
  {
    if n > 0 {
      StatusesOfSweep(t, memory, statuses, n - 1);
      SweptOneMore(t, memory, statuses, n);
      hide JudgeOwner, RestoreAt, SweptTo;
    }
  }

  /** What a release was restored by is a fetched status, or none. */
  ghost predicate UsesNoOther(t: Tick, statuses: map<string, PrStatus>, released: seq<Handled>) {
    forall k :: 0 <= k < |released| ==>
      released[k].at < |Listed(t)|
      && var id := ItemAt(t, released[k].at);
         released[k].restored == RestoreAt(t, id, released[k].status)
         && (released[k].status == Unknown || (id in statuses && released[k].status == statuses[id]))
  }

  ghost predicate IsPart(unused: map<string, PrStatus>, statuses: map<string, PrStatus>) {
    forall id :: id in unused ==> id in statuses && unused[id] == statuses[id]
  }

  lemma ExaminedUsesNoOther(t: Tick, memory: set<Suspect>, statuses: map<string, PrStatus>, p: Progress, i: nat)
    requires i < |Listed(t)| && UsesNoOther(t, statuses, p.released) && IsPart(p.unused, statuses)
    ensures
      var q := Examine(t, memory, p, i);
      UsesNoOther(t, statuses, q.released) && IsPart(q.unused, statuses)
  {
    hide JudgedExited, RestoreAt, ReleaseAt;
  }

  lemma {:induction false} SweepUsesNoOther(t: Tick, memory: set<Suspect>, statuses: map<string, PrStatus>, n: nat)
    requires n <= |Listed(t)|
    ensures
      var p := SweptTo(t, memory, statuses, n);
      UsesNoOther(t, statuses, p.released) && IsPart(p.unused, statuses)
  {
    if n > 0 {
      hide SweptTo, Examine, UsesNoOther, IsPart, Listed;
      SweepUsesNoOther(t, memory, statuses, n - 1);
      SweptOneMore(t, memory, statuses, n);
      ExaminedUsesNoOther(t, memory, statuses, SweptTo(t, memory, statuses, n - 1), n - 1);
    }
  }

  class SweepMemory {
    var suspects: set<Suspect>

    constructor ()
      ensures suspects == {}
    {
      suspects := {};
    }

    /** One sweep. A fetched status is used up by the first claim of its item. */
    method Sweep(t: Tick, statuses: map<string, PrStatus>) returns (released: seq<Handled>)
      modifies this
      ensures suspects == SuspectsAfter(t, old(suspects))
      ensures released == Releases(t, old(suspects), statuses)
    {
      released := [];
      if t.listing.None? {
        return;
      }
      var claims := t.listing.value;
      var memory, unused := suspects, statuses;
      var sightings: set<Suspect> := {};
      for i := 0 to |claims|
        invariant suspects == old(suspects)
        invariant Progress(sightings, released, unused) == SweptTo(t, memory, statuses, i)
      {
        var claim := claims[i];
        if claim.status != "claimed" || |claim.key| != 1 {
          continue;
        }
        if !JudgeOwner(claim.owner, claim.heartbeat, t.now, t.signs).Exited? {
          continue;
        }
        var key := (claim.key[0], claim.owner);
        if key !in memory {
          sightings := sightings + {key};
          continue;
        }
        match ReleaseAt(t, i) {
          case Freed =>
            var status := StatusIn(unused, key.0);
            released := released + [Handled(i, status, RestoreAt(t, key.0, status))];
            if key.0 in t.items {
              unused := unused - {key.0};
            }
          case NotYours =>
          case Error => sightings := sightings + {key};
        }
      }
      SuspectsOfSweep(t, memory, statuses, |claims|);
      suspects := sightings;
    }
  }

  // ---- Sweep after sweep ----

  /** What is remembered after a run of sweeps. */
  function Remembered(ticks: seq<Tick>): set<Suspect> {
    if ticks == [] then {} else SuspectsAfter(ticks[|ticks| - 1], Remembered(ticks[..|ticks| - 1]))
  }

  /** The last sweep of the run that managed to list the claims. */
  function LastListing(ticks: seq<Tick>): (n: Option<nat>)
    ensures n.Some? ==> n.value < |ticks| && ticks[n.value].listing.Some?
    ensures n.Some? ==> forall k :: n.value < k < |ticks| ==> ticks[k].listing.None?
    ensures n.None? ==> forall k :: 0 <= k < |ticks| ==> ticks[k].listing.None?
  {
    if ticks == [] then None
    else if ticks[|ticks| - 1].listing.Some? then Some(|ticks| - 1)
    else LastListing(ticks[..|ticks| - 1])
  }

  /** The sweep judged this (item, owner) exited. */
  ghost predicate Sighted(t: Tick, s: Suspect) {
    exists i: nat :: i < |Listed(t)| && JudgedExited(t, Listed(t)[i]) && SuspectOf(Listed(t)[i]) == s
  }

  /** Remembered suspects were judged exited by the last sweep that listed anything. */
  lemma {:induction false} SuspectsWereSighted(ticks: seq<Tick>, s: Suspect)
    requires s in Remembered(ticks)
    ensures LastListing(ticks).Some? && Sighted(ticks[LastListing(ticks).value], s)
  {
    var front, t := ticks[..|ticks| - 1], ticks[|ticks| - 1];
    hide JudgedExited;
    if t.listing.None? {
      SuspectsWereSighted(front, s);
    } else {
      var i: nat :| i < |Listed(t)| && IsSuspected(t, Remembered(front), i) && SuspectOf(Listed(t)[i]) == s;
      assert JudgedExited(t, Listed(t)[i]);
    }
  }

  /**
   * A claim is released only if its (item, owner) was judged exited in this sweep
   * and in the one before it that managed to list the claims.
   */
  lemma ReleasedWereSightedTwice(ticks: seq<Tick>, t: Tick, i: nat)
    requires IsFreed(t, Remembered(ticks), i)
    ensures Sighted(t, SuspectOf(Listed(t)[i]))
    ensures LastListing(ticks).Some? && Sighted(ticks[LastListing(ticks).value], SuspectOf(Listed(t)[i]))
  {
    SuspectsWereSighted(ticks, SuspectOf(Listed(t)[i]));
  }

  /** An owner judged live, or not judged at all, in between starts the confirmation over. */
  lemma AnyOtherVerdictStartsOver(ticks: seq<Tick>, between: Tick, t: Tick, i: nat)
    requires between.listing.Some? && i < |Listed(t)| && !Sighted(between, SuspectOf(Listed(t)[i]))
    ensures !Tried(t, Remembered(ticks + [between]), i)
  {
    assert LastListing(ticks + [between]) == Some(|ticks|);
    if SuspectOf(Listed(t)[i]) in Remembered(ticks + [between]) {
      SuspectsWereSighted(ticks + [between], SuspectOf(Listed(t)[i]));
    }
  }

  lemma {:induction false} FailedListingsChangeNothing(ticks: seq<Tick>, failed: seq<Tick>)
    requires forall k :: 0 <= k < |failed| ==> failed[k].listing.None?
    ensures Remembered(ticks + failed) == Remembered(ticks)
  {
    if failed == [] {
      assert ticks + failed == ticks;
    } else {
      var front := failed[..|failed| - 1];
      assert (ticks + failed)[..|ticks + failed| - 1] == ticks + front;
      FailedListingsChangeNothing(ticks, front);
    }
  }

  /** And a second sighting does release: nothing but the ledger can then keep the claim. */
  lemma {:induction false} SecondSightingReleases(ticks: seq<Tick>, first: Tick, failed: seq<Tick>, t: Tick, i: nat)
    requires first.listing.Some? && (forall k :: 0 <= k < |failed| ==> failed[k].listing.None?)
    requires i < |Listed(t)| && JudgedExited(t, Listed(t)[i]) && Sighted(first, SuspectOf(Listed(t)[i]))
    requires SuspectOf(Listed(t)[i]) !in Remembered(ticks)
    ensures IsFreed(t, Remembered(ticks + [first] + failed), i) <==> ReleaseAt(t, i).Freed?
  {
    FailedListingsChangeNothing(ticks + [first], failed);
    var s := SuspectOf(Listed(t)[i]);
    var k: nat :| k < |Listed(first)| && JudgedExited(first, Listed(first)[k]) && SuspectOf(Listed(first)[k]) == s;
    assert (ticks + [first])[..|ticks|] == ticks;
    assert IsSuspected(first, Remembered(ticks), k);
  }

  // ---- Fetching before sweeping ----

  /** The readable items the sweep is going to try to release, in order. */
  function ConfirmedExitedItems(t: Tick, memory: set<Suspect>, n: nat): seq<string>
    requires n <= |Listed(t)|
  {
    if n == 0 then []
    else
      var front := ConfirmedExitedItems(t, memory, n - 1);
      if Tried(t, memory, n - 1) && ItemAt(t, n - 1) in t.items then front + [ItemAt(t, n - 1)] else front
  }

  lemma ConfirmedOneMore(t: Tick, memory: set<Suspect>, n: nat, id: string)
    requires n < |Listed(t)|
    ensures id in ConfirmedExitedItems(t, memory, n + 1)
            <==> || id in ConfirmedExitedItems(t, memory, n)
                 || (id in t.items && Tried(t, memory, n) && ItemAt(t, n) == id)
  {
    hide Tried, ItemAt;
  }

  lemma {:induction false} ConfirmedExactly(t: Tick, memory: set<Suspect>, n: nat, id: string)
    requires n <= |Listed(t)|
    ensures id in ConfirmedExitedItems(t, memory, n)
            <==> id in t.items && exists i: nat :: i < n && Tried(t, memory, i) && ItemAt(t, i) == id
  {
    if n > 0 {
      hide ConfirmedExitedItems, Tried, ItemAt, Listed;
      ConfirmedExactly(t, memory, n - 1, id);
      ConfirmedOneMore(t, memory, n - 1, id);
    }
  }

  method FetchStatuses(ids: seq<string>, fetch: string -> PrStatus) returns (statuses: map<string, PrStatus>)
    ensures statuses == map id | id in ids :: fetch(id)
  {
    statuses := map[];
    for i := 0 to |ids|
      invariant statuses == map id | id in ids[..i] :: fetch(id)
    {
      statuses := statuses[ids[i] := fetch(ids[i])];
    }
    assert ids[..|ids|] == ids;
  }

  /**
   * The daemon's tick: it fetches with what the database says at first, and sweeps
   * with what it says then. With nothing changed in between, every readable item
   * released is restored by its own pull request's status, so none whose pull
   * request is merged, or about to be, is re-queued.
   */
  method RunSweep(memory: SweepMemory, first: Tick, t: Tick, fetch: string -> PrStatus) returns (released: seq<Handled>)
    modifies memory
    ensures memory.suspects == SuspectsAfter(t, old(memory.suspects))
    ensures ReleasesFreed(t, old(memory.suspects), released, |Listed(t)|)
    ensures forall k :: 0 <= k < |released| ==>
              released[k].at < |Listed(t)|
              && var id := ItemAt(t, released[k].at);
                 released[k].restored == RestoreAt(t, id, released[k].status)
                 && (released[k].status == Unknown || released[k].status == fetch(id))
    ensures first.(releases := t.releases) == t && OneClaimAnItem(t) ==>
              forall k :: 0 <= k < |released| ==>
                released[k].at < |Listed(t)|
                && var id := ItemAt(t, released[k].at);
                   id in t.items ==> released[k].restored == Restore(t.items[id], fetch(id))
  {
    ghost var before := memory.suspects;
    var ids := ConfirmedExitedItems(first, memory.suspects, |Listed(first)|);
    var statuses := FetchStatuses(ids, fetch);
    released := memory.Sweep(t, statuses);
    ReleasesOfSweep(t, before, statuses, |Listed(t)|);
    SweepUsesNoOther(t, before, statuses, |Listed(t)|);
    if first.(releases := t.releases) == t && OneClaimAnItem(t) {
      StatusesOfSweep(t, before, statuses, |Listed(t)|);
      ReleasedWereFetched(first, t, before, statuses, released, fetch);
    }
  }

  lemma ReleasedWereFetched(first: Tick, t: Tick, memory: set<Suspect>, statuses: map<string, PrStatus>,
                            released: seq<Handled>, fetch: string -> PrStatus)
    requires first.(releases := t.releases) == t
    requires statuses == map id | id in ConfirmedExitedItems(first, memory, |Listed(first)|) :: fetch(id)
    requires ReleasesFreed(t, memory, released, |Listed(t)|) && UsesFetched(t, statuses, released)
    ensures forall k :: 0 <= k < |released| ==>
              released[k].at < |Listed(t)|
              && var id := ItemAt(t, released[k].at);
                 id in t.items ==> released[k].restored == Restore(t.items[id], fetch(id))
  {
    forall k | 0 <= k < |released| && ItemAt(t, released[k].at) in t.items
      ensures released[k].status == fetch(ItemAt(t, released[k].at))
    {
      var i := released[k].at;
      assert IsFreed(t, memory, i);
      assert Tried(first, memory, i) && ItemAt(first, i) == ItemAt(t, i);
      ConfirmedExactly(first, memory, |Listed(first)|, ItemAt(t, i));
    }
  }
}
