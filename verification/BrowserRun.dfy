/** What may be planned, letter by letter, and when a call that meets no failure carries out what was planned. */
module BrowserRun {
  import opened Wrappers
  import opened Substrings
  import opened BrowserTicket

  // ---- What may be planned ----

  ghost predicate AreDigits(s: string) {
    s != "" && forall i :: 0 <= i < |s| ==> 48 <= s[i] as int <= 57
  }

  lemma ReferenceExactly(a: string)
    ensures IsReference(a) <==> exists n: string :: a == "@e" + n && AreDigits(n)
  {
    if IsReference(a) {
      assert a == "@e" + a[2..] && AreDigits(a[2..]);
    }
    if n: string :| a == "@e" + n && AreDigits(n) {
      assert a[2..] == n;
    }
  }

  /** One element for some actions, an element and a text for others, and nothing else. */
  ghost predicate HasArgs(action: string, args: seq<string>) {
    || (action in ["click", "hover", "check", "uncheck"] && |args| == 1)
    || (action in ["fill", "type", "select"] && |args| == 2)
  }

  /** The operations that may be planned: on a reference, with no option or overlong text among the arguments. */
  lemma ValidExactly(action: string, args: seq<string>)
    ensures Valid(action, args)
            <==> && HasArgs(action, args)
                 && (exists n: string :: args[0] == "@e" + n && AreDigits(n))
                 && forall i :: 0 <= i < |args| ==> |args[i]| < 64_001 && (args[i] != "" ==> args[i][0] as int != 45)
  {
    if |args| > 0 {
      ReferenceExactly(args[0]);
    }
    hide IsReference, AreDigits;
  }

  /** The snapshot names the element in brackets. */
  lemma ShowsExactly(p: Page, n: string)
    ensures Shows(p, "@e" + n) <==> Says(p.snapshot, "[ref=e" + n + "]")
  {
    assert "[ref=" + ("@e" + n)[1..] + "]" == "[ref=e" + n + "]";
    ContainsSays(p.snapshot, "[ref=e" + n + "]");
  }

  lemma WholeExactly(p: Page)
    ensures IsWhole(p) <==> |p.snapshot| <= 999_999 && !Says(p.snapshot, "[truncated")
  {
    ContainsSays(p.snapshot, "[truncated");
  }

  lemma TicketIdExactly(name: string)
    ensures IsTicketId(name)
            <==> |name| == 32 && forall i :: 0 <= i < 32 ==>
                   || 48 <= name[i] as int <= 57 || 65 <= name[i] as int <= 70 || 97 <= name[i] as int <= 102
  {
  }

  // ---- Calls that meet no failure ----

  ghost function Next(hash: string -> string, s: State, step: Step): State {
    if Enabled(hash, s, step) then Apply(hash, s, step) else s
  }

  lemma AfterNext(hash: string -> string, s: State, steps: seq<Step>, step: Step)
    ensures After(hash, s, steps + [step]) == Next(hash, After(hash, s, steps), step)
  {
    assert (steps + [step])[..|steps|] == steps;
  }

  /** A ticket is on disk: the file is there under its own name, and its decision is written. */
  ghost predicate IsTicket(hash: string -> string, s: State, path: Path, plan: nat) {
    path in s.files && s.files[path] == plan && plan in s.plans && s.plans[plan].pc.Written?
  }

  /** Not older than five minutes, nor made later than now. */
  ghost predicate IsFresh300(created: nat, now: nat, later: nat) {
    now <= created + 300 && created <= later
  }

  /** The whole of a call that is not disturbed. */
  ghost function Undisturbed(a: nat, now: nat, later: nat, page: Page): seq<Step> {
    [Claim(a), ReadFile(a, false), RemoveFile(a, false), Check(a, now, later), Observe(a, Some(page)), Execute(a)]
  }

  lemma TakesTicket(hash: string -> string, s: State, a: nat, plan: nat) returns (t: State)
    requires a in s.acts && s.acts[a].pc.Begun? && IsTicketId(s.acts[a].token)
    requires IsTicket(hash, s, AskedPath(hash, s.acts[a]), plan)
    ensures t == Next(hash, Next(hash, Next(hash, s, Claim(a)), ReadFile(a, false)), RemoveFile(a, false))
    ensures a in t.acts && t.acts[a].pc == Removed(Some(s.plans[plan].pc.decision)) && t.acts[a].taken == Some(plan)
    ensures t.acts[a].session == s.acts[a].session && t.log == s.log && t.plans == s.plans
  {
    hide IsTicketId;
    var u := s.acts[a];
    var s1 := Next(hash, s, Claim(a));
    assert ConsumedPath(hash, u) in s1.files && s1.files[ConsumedPath(hash, u)] == plan;
    var s2 := Next(hash, s1, ReadFile(a, false));
    t := Next(hash, s2, RemoveFile(a, false));
  }

  lemma Decides(hash: string -> string, t: State, a: nat, d: Decision, now: nat, later: nat, page: Page)
    returns (w: State)
    requires a in t.acts && t.acts[a].pc == Removed(Some(d)) && t.acts[a].taken.Some? && Valid(d.action, d.args)
    ensures w == Next(hash, Next(hash, Next(hash, t, Check(a, now, later)), Observe(a, Some(page))), Execute(a))
    ensures
      var due := IsFresh300(d.created, now, later) && IsWhole(page) && Fingerprint(hash, page) == d.fingerprint;
      w.log
      == t.log + if due then [Run(a, t.acts[a].taken.value, t.acts[a].session, d.action, d.args, now, later, page)]
                 else []
  {
    hide Valid, IsWhole, Fingerprint;
    var s1 := Next(hash, t, Check(a, now, later));
    var s2 := Next(hash, s1, Observe(a, Some(page)));
    w := Next(hash, s2, Execute(a));
    assert t.log + [] == t.log;
  }

  /**
   * A call for a ticket that is on disk, if nothing disturbs it, carries out what
   * was planned exactly when the ticket is of age and the page is the one planned on.
   */
  lemma CarriedOutExactly(hash: string -> string, s: State, a: nat, plan: nat, now: nat, later: nat, page: Page)
    requires Injective(hash) && Ok(hash, s) && a in s.acts && s.acts[a].pc.Begun? && IsTicketId(s.acts[a].token)
    requires IsTicket(hash, s, AskedPath(hash, s.acts[a]), plan)
    requires '\0' !in page.url && '\0' !in s.plans[plan].pc.seen.url
    ensures
      var p, u := s.plans[plan], s.acts[a];
      After(hash, s, Undisturbed(a, now, later, page)).log
      == s.log + if IsFresh300(p.pc.decision.created, now, later) && page == p.pc.seen
                 then [Run(a, plan, u.session, p.action, p.args, now, later, page)] else []
  {
    assert plan in s.plans && s.plans[plan].pc.Written?;
    hide *;
    var t := TakesTicket(hash, s, a, plan);
    TicketWasPlanned(hash, s, plan);
    var d := s.plans[plan].pc.decision;
    var w := Decides(hash, t, a, d, now, later, page);
    SamePage(hash, s, plan, page);
    AfterSix(hash, s, a, now, later, page);
  }

  lemma TicketWasPlanned(hash: string -> string, s: State, plan: nat)
    requires Ok(hash, s) && plan in s.plans && s.plans[plan].pc.Written?
    ensures
      var p := s.plans[plan];
      var d := p.pc.decision;
      && Valid(d.action, d.args) && d.action == p.action && d.args == p.args && IsWhole(p.pc.seen)
      && d.fingerprint == Fingerprint(hash, p.pc.seen)
  {
    assert PlanOk(hash, s.plans[plan]);
    hide Ok, Valid, IsWhole, Shows, Fingerprint;
  }

  lemma SamePage(hash: string -> string, s: State, plan: nat, page: Page)
    requires Injective(hash) && Ok(hash, s) && plan in s.plans && s.plans[plan].pc.Written?
    requires '\0' !in page.url && '\0' !in s.plans[plan].pc.seen.url
    ensures IsWhole(page) && Fingerprint(hash, page) == s.plans[plan].pc.decision.fingerprint
            <==> page == s.plans[plan].pc.seen
  {
    hide Ok, IsWhole, Fingerprint, Injective;
    TicketWasPlanned(hash, s, plan);
    if Fingerprint(hash, page) == Fingerprint(hash, s.plans[plan].pc.seen) {
      FingerprintIsThePage(hash, page, s.plans[plan].pc.seen);
    }
  }

  lemma AfterSix(hash: string -> string, s: State, a: nat, now: nat, later: nat, page: Page)
    ensures After(hash, s, Undisturbed(a, now, later, page))
         == Next(hash, Next(hash, Next(hash, Next(hash, Next(hash, Next(hash, s, Claim(a)), ReadFile(a, false)),
              RemoveFile(a, false)), Check(a, now, later)), Observe(a, Some(page))), Execute(a))
  {
    hide Next, Enabled, Apply;
    var x: seq<Step> := [];
    assert After(hash, s, x) == s;
    AfterNext(hash, s, x, Claim(a));
    AfterNext(hash, s, x + [Claim(a)], ReadFile(a, false));
    var y := x + [Claim(a)] + [ReadFile(a, false)];
    AfterNext(hash, s, y, RemoveFile(a, false));
    AfterNext(hash, s, y + [RemoveFile(a, false)], Check(a, now, later));
    var z := y + [RemoveFile(a, false)] + [Check(a, now, later)];
    AfterNext(hash, s, z, Observe(a, Some(page)));
    AfterNext(hash, s, z + [Observe(a, Some(page))], Execute(a));
    assert z + [Observe(a, Some(page))] + [Execute(a)] == Undisturbed(a, now, later, page);
  }

  /**
   * A call to plan, if nothing disturbs it, leaves a ticket exactly when the operation
   * may be planned on what is seen; the ticket says what was asked for and on which page.
   */
  lemma PlannedExactly(hash: string -> string, s: State, plan: nat, page: Page, created: nat)
    requires plan in s.plans && s.plans[plan].pc.Asked? && IsTicketId(s.plans[plan].token)
    requires IsNewToken(hash, s, plan) && TicketPath(hash, s.plans[plan]) !in s.files
    ensures
      var u := s.plans[plan];
      var looked := Next(hash, s, Look(plan, Some(page)));
      var t := Next(hash, Next(hash, looked, CreateFile(plan)), WriteFile(plan, created));
      if Valid(u.action, u.args) && IsWhole(page) && Shows(page, u.args[0]) then
        && t.files == s.files[TicketPath(hash, u) := plan] && IsTicket(hash, t, TicketPath(hash, u), plan)
        && t.plans[plan].pc.seen == page
        && t.plans[plan].pc.decision == Decision(u.action, u.args, Fingerprint(hash, page), created)
      else t.files == s.files && t.plans[plan].pc.Refused?
  {
    hide IsTicketId, IsWhole, Shows, Fingerprint;
    var u := s.plans[plan];
    assert Valid(u.action, u.args) ==> u.args[0] != "";
    hide Valid;
    var s1 := Next(hash, s, Look(plan, Some(page)));
    var s2 := Next(hash, s1, CreateFile(plan));
    assert s1.plans[plan].pc.Looked? ==> IsNewToken(hash, s1, plan);
  }

  // ---- Calls that fail ----

  ghost predicate IsOver(s: State, a: nat) {
    a in s.acts && s.acts[a].pc.Over?
  }

  /** Any failure ends the call: no ticket, an error of the file system, a record that is none, no page. */
  lemma FailuresEndTheCall(hash: string -> string, s: State, a: nat)
    requires a in s.acts
    ensures
      s.acts[a].pc.Begun? && (!IsTicketId(s.acts[a].token) || AskedPath(hash, s.acts[a]) !in s.files) ==>
        IsOver(Next(hash, s, Claim(a)), a)
    ensures s.acts[a].pc.HasRead? ==> IsOver(Next(hash, s, RemoveFile(a, true)), a)
    ensures
      forall now, later :: s.acts[a].pc == Removed(None) ==> IsOver(Next(hash, s, Check(a, now, later)), a)
    ensures s.acts[a].pc.Checked? ==> IsOver(Next(hash, s, Observe(a, None)), a)
  {
    hide IsTicketId, Valid, IsWhole, Fingerprint;
  }

  /** A record that cannot be read is none. */
  lemma UnreadIsNoRecord(hash: string -> string, s: State, a: nat)
    requires a in s.acts && s.acts[a].pc.Claimed?
    ensures a in Next(hash, s, ReadFile(a, true)).acts && Next(hash, s, ReadFile(a, true)).acts[a].pc == HasRead(None)
  {
  }

  /** A call that is over carries out nothing any more. */
  lemma OverIsFinal(hash: string -> string, s: State, step: Step, a: nat)
    requires IsOver(s, a) && Enabled(hash, s, step)
    ensures IsOver(Apply(hash, s, step), a)
    ensures |Apply(hash, s, step).log| > |s.log| ==> Apply(hash, s, step).log[|s.log|].act != a
  {
    hide IsTicketId, Valid, IsWhole, Fingerprint, MayPlan;
  }

  /** Whatever happens, after a call that is over the log grows by the runs of others only. */
  lemma {:induction false} NothingAfterTheEnd(hash: string -> string, s: State, steps: seq<Step>, a: nat)
    requires IsOver(s, a)
    ensures IsOver(After(hash, s, steps), a) && s.log <= After(hash, s, steps).log
    ensures forall k :: |s.log| <= k < |After(hash, s, steps).log| ==> After(hash, s, steps).log[k].act != a
  {
    if steps != [] {
      var front, step := steps[..|steps| - 1], steps[|steps| - 1];
      NothingAfterTheEnd(hash, s, front, a);
      var w := After(hash, s, front);
      hide Enabled, Apply, IsOver;
      if Enabled(hash, w, step) {
        OverIsFinal(hash, w, step, a);
        LogGrows(hash, w, step);
      }
    }
  }

  lemma LogGrows(hash: string -> string, s: State, step: Step)
    requires Enabled(hash, s, step)
    ensures s.log <= Apply(hash, s, step).log && |Apply(hash, s, step).log| <= |s.log| + 1
  {
    hide IsTicketId, Valid, IsWhole, Fingerprint, MayPlan;
  }
}
