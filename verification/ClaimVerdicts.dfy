/** How claim owners are told apart, and which released items are queued again, field by field. */
module ClaimVerdicts {
  import opened Wrappers
  import opened Substrings
  import opened DurationText
  import opened ClaimSweep

  // ---- Names of owners ----

  /** An owner is an agent and, behind the first colon, an instance of it. */
  lemma InstanceExactly(agent: string, instance: string)
    requires ':' !in agent
    ensures InstanceOf(agent + ":" + instance) == Some(instance)
    ensures InstanceOf(agent) == None
  {
    FirstAt(agent, ':', instance);
    NoneAt(agent, ':');
    hide Find;
  }

  /** Sixteen hexadecimal digits. */
  ghost predicate IsSuffix(s: string) {
    && |s| == 16
    && forall i :: 0 <= i < 16 ==> 48 <= s[i] as int <= 57 || 65 <= s[i] as int <= 70 || 97 <= s[i] as int <= 102
  }

  lemma {:induction false} NumberOfPrinted(n: nat)
    ensures AllDigits(PrintNat(n)) && Number(PrintNat(n)) == n
  {
    var s := PrintNat(n);
    if n >= 10 {
      NumberOfPrinted(n / 10);
      assert s[..|s| - 1] == PrintNat(n / 10);
    } else {
      assert s[..|s| - 1] == "";
    }
  }

  lemma PidOfDigits(digits: string)
    requires digits != "" && AllDigits(digits)
    ensures
      var pid := if Number(digits) < 4_294_967_296 then Some(Number(digits)) else None;
      ParsePid(digits) == pid && ParsePid("+" + digits) == pid
  {
    assert digits[0] != '+';
    hide Number, AllDigits;
    assert ("+" + digits)[0] == '+' && ("+" + digits)[1..] == digits;
  }

  lemma PidOfPrinted(n: nat, plus: bool)
    ensures ParsePid((if plus then "+" else "") + PrintNat(n)) == if n < 4_294_967_296 then Some(n) else None
  {
    NumberOfPrinted(n);
    hide *;
    PidOfDigits(PrintNat(n));
    if !plus {
      assert "" + PrintNat(n) == PrintNat(n);
    }
  }

  /** The process that an instance names: a number of 32 bits, a dash, and sixteen hexadecimal digits. */
  lemma PidExactly(n: nat, plus: bool, suffix: string)
    requires '-' !in suffix
    ensures FallbackPid((if plus then "+" else "") + PrintNat(n) + "-" + suffix)
         == if n < 4_294_967_296 && IsSuffix(suffix) then Some(n) else None
  {
    var front := (if plus then "+" else "") + PrintNat(n);
    var s := front + "-" + suffix;
    assert '-' !in front;
    FirstAt(front, '-', suffix);
    PidOfPrinted(n, plus);
    SuffixExactly(suffix);
    hide ParsePid, PrintNat, Find, IsSuffix, AllHex;
  }

  lemma SuffixExactly(s: string)
    ensures IsSuffix(s) <==> |s| == 16 && AllHex(s)
  {
  }

  /** Without a dash, or with anything but a number in front of it, an instance names no process. */
  lemma NoPid(front: string, suffix: string)
    requires '-' !in front
    ensures FallbackPid(front) == None
    ensures FallbackPid(front + "-" + suffix).Some?
            ==> IsSuffix(suffix) && front != "" && forall i :: 1 <= i < |front| ==> '0' <= front[i] <= '9'
  {
    NoneAt(front, '-');
    FirstAt(front, '-', suffix);
    SuffixExactly(suffix);
    if ParsePid(front).Some? {
      DigitsOfPid(front);
    }
    hide ParsePid, Find, IsSuffix, AllHex;
  }

  lemma DigitsOfPid(front: string)
    requires ParsePid(front).Some?
    ensures front != "" && forall i :: 1 <= i < |front| ==> '0' <= front[i] <= '9'
  {
    if front != "" && front[0] == '+' {
      assert forall i :: 1 <= i < |front| ==> front[i] == front[1..][i - 1];
    }
  }

  // ---- Verdicts ----

  /** An owner is live exactly by a job of this process, one that is queued or runs, its session, or its process. */
  lemma LiveExactly(owner: string, heartbeat: int, now: int, s: Signs)
    ensures
      var i := InstanceOf(owner);
      var ended := owner in s.sessions && s.sessions[owner].Exited?;
      JudgeOwner(owner, heartbeat, now, s).Live?
      <==> || (i.Some? && i.value in s.here)
           || (i.Some? && i.value in s.jobs && s.jobs[i.value].Queued?)
           || (i.Some? && i.value in s.jobs && s.jobs[i.value].Running? && !ended)
           || (!(i.Some? && i.value in s.jobs)
               && (|| (owner in s.sessions && s.sessions[owner].Live?)
                   || ((owner !in s.sessions || s.sessions[owner].Unverifiable?)
                       && i.Some? && FallbackPid(i.value).Some? && FallbackPid(i.value).value in s.pids)))
  {
    hide InstanceOf, FallbackPid;
  }

  /** What one sweep releases is a held item, of an owner judged exited, and was remembered. */
  lemma {:induction false} ReleasedAreItems(t: Tick, memory: set<Suspect>, statuses: map<string, PrStatus>, k: nat)
    requires k < |Releases(t, memory, statuses)|
    ensures
      var at := Releases(t, memory, statuses)[k].at;
      && at < |Listed(t)| && Listed(t)[at].status == "claimed" && |Listed(t)[at].key| == 1
      && JudgeOwner(Listed(t)[at].owner, Listed(t)[at].heartbeat, t.now, t.signs).Exited?
      && (Listed(t)[at].key[0], Listed(t)[at].owner) in memory
  {
    ReleasesOfSweep(t, memory, statuses, |Listed(t)|);
    assert IsFreed(t, memory, Releases(t, memory, statuses)[k].at);
    hide SweptTo, JudgeOwner;
  }

  // ---- Released items ----

  /** The item carries the label, which its project has. */
  ghost predicate Carries(item: Item, name: string) {
    name in item.labels && name in item.known
  }

  /** Work that is neither done nor in review, nor parked by an operator, and has an agent to do it. */
  ghost predicate IsWork(item: Item) {
    && item.group != "completed" && item.group != "cancelled" && item.group != "in_review"
    && !Carries(item, "paused") && !Carries(item, "needs-manual-dispatch") && item.hasAgent
  }

  /** The pull request is merged, or will be by itself. */
  ghost predicate IsMerging(status: PrStatus) {
    status == Merged || status == Passing(true) || status == AwaitingReview(true)
  }

  /** A released item is queued again, promoted, or parked, exactly when it is due to. */
  lemma RestoredExactly(item: Item, status: PrStatus)
    ensures
      var r := Restore(item, status);
      && (r.redispatched <==> IsWork(item) && !IsMerging(status) && !item.atCap && item.requeues)
      && (r.parkedAtCap <==> IsWork(item) && !IsMerging(status) && item.atCap)
      && (r.promote <==> status == Merged)
  {
  }

  /** Parking takes the queue's labels off and puts the operator's on, of those the project has; no other changes. */
  lemma LabelsExactly(item: Item, status: PrStatus, name: string)
    ensures
      var r := Restore(item, status);
      name in r.labels
      <==> if !r.parkedAtCap || name !in item.known then name in item.labels
           else name == "needs-manual-dispatch"
                || (name in item.labels && name != "ready-for-work" && name != "dispatched")
  {
    assert NEEDS_MANUAL != READY && NEEDS_MANUAL != DISPATCHED by {
      assert NEEDS_MANUAL[0] == 'n' && READY[0] == 'r' && DISPATCHED[0] == 'd';
    }
  }

  // ---- A whole run ----

  /** The owner's job is finished, and the ledger lets the claim go. */
  function Finished(item: Item, now: int): Tick {
    Tick(Some([Claim(["i"], "a:j", "claimed", 0)]), Signs({}, map["j" := JobState.Finished], map[], {}), now, [Freed],
         map["i" := item])
  }

  /** The second of two such sweeps releases the claim and queues the work again; the first does not. */
  lemma SecondSweepReleases(item: Item, now: int, later: int)
    requires IsWork(item) && !item.atCap && item.requeues
    ensures Releases(Finished(item, now), Remembered([]), map[]) == []
    ensures Releases(Finished(item, later), Remembered([Finished(item, now)]), map[])
         == [Handled(0, Unknown, Restored(true, false, false, item.labels))]
  {
    var first, t, c := Finished(item, now), Finished(item, later), Claim(["i"], "a:j", "claimed", 0);
    InstanceExactly("a", "j");
    assert "a:j" == "a" + ":" + "j";
    assert JudgedExited(first, c) && JudgedExited(t, c);
    assert IsSuspected(first, {}, 0);
    assert [first][..0] == [];
    assert ("i", "a:j") in Remembered([first]);
    hide JudgedExited, InstanceOf;
    assert SweptTo(first, {}, map[], 0) == Progress({}, [], map[]);
    assert SweptTo(t, Remembered([first]), map[], 0) == Progress({}, [], map[]);
    RestoredExactly(item, Unknown);
  }
}
