/**
 * One-use decisions about a browser page: planned on what was seen, and carried
 * out once, if at all, on the same page. Planners and actors interleave system
 * call by system call; one that crashes just never takes its next step.
 */
module BrowserTicket {
  import opened Wrappers
  import opened Substrings

  const MAX_AGE: nat := 300

  datatype Decision = Decision(action: string, args: seq<string>, fingerprint: string, created: nat)

  // ---- What may be decided ----

  predicate AllDigits(s: string) { forall i :: 0 <= i < |s| ==> '0' <= s[i] <= '9' }

  function ArgCount(action: string): nat {
    if action in {"click", "hover", "check", "uncheck"} then 1
    else if action in {"fill", "type", "select"} then 2
    else 0
  }

  /** An element seen in a snapshot: "@e" and a number. */
  predicate IsReference(a: string) {
    |a| > 2 && a[0] == '@' && a[1] == 'e' && AllDigits(a[2..])
  }

  predicate Valid(action: string, args: seq<string>) {
    && ArgCount(action) > 0 && |args| == ArgCount(action) && IsReference(args[0])
    && forall i :: 0 <= i < |args| ==> |args[i]| <= 64_000 && (args[i] == "" || args[i][0] != '-')
  }

  // ---- What was seen ----

  datatype Page = Page(url: string, snapshot: string)

  /** The element is among those a snapshot names. */
  predicate Shows(p: Page, reference: string)
    requires reference != ""
  {
    Contains(p.snapshot, "[ref=" + reference[1..] + "]")
  }

  /** A snapshot cut short is none. */
  predicate IsWhole(p: Page) {
    |p.snapshot| < 1_000_000 && !Contains(p.snapshot, "[truncated")
  }

  function Fingerprint(hash: string -> string, p: Page): string {
    hash(p.url + "\0" + p.snapshot)
  }

  ghost predicate Injective(hash: string -> string) {
    forall a, b :: hash(a) == hash(b) ==> a == b
  }

  lemma UrlEndsAtNul(url: string, snapshot: string)
    requires '\0' !in url
    ensures Find(url + "\0" + snapshot, "\0") == Some(|url|)
  {
    var a := url + "\0" + snapshot;
    assert At(a, "\0", |url|);
    forall j: nat | j < |url| ensures !At(a, "\0", j) {
      assert a[j..j + 1][0] == url[j];
    }
  }

  /** Equal fingerprints are equal pages, a URL having no NUL in it. */
  lemma FingerprintIsThePage(hash: string -> string, p: Page, q: Page)
    requires Injective(hash) && '\0' !in p.url && '\0' !in q.url
    requires Fingerprint(hash, p) == Fingerprint(hash, q)
    ensures p == q
  {
    var a, b := p.url + "\0" + p.snapshot, q.url + "\0" + q.snapshot;
    assert a == b;
    UrlEndsAtNul(p.url, p.snapshot);
    UrlEndsAtNul(q.url, q.snapshot);
    assert p.url == a[..|p.url|] && q.url == b[..|q.url|];
    assert p.snapshot == a[|p.url| + 1..] && q.snapshot == b[|q.url| + 1..];
  }

  // ---- Names ----

  predicate IsHex(c: char) { '0' <= c <= '9' || 'a' <= c <= 'f' || 'A' <= c <= 'F' }

  predicate IsTicketId(name: string) {
    |name| == 32 && forall i :: 0 <= i < |name| ==> IsHex(name[i])
  }

  function ConsumedName(token: string, random: string): string {
    token + "." + random + ".consumed"
  }

  /** What is consumed cannot be asked for again by the name it then has. */
  lemma ConsumedIsNoTicket(token: string, random: string)
    ensures !IsTicketId(ConsumedName(token, random))
  {
    assert ConsumedName(token, random)[|token|] == '.';
  }

  // ---- The machine ----

  /** A session's directory, and a name in it. */
  type Path = (string, string)

  datatype PlanPc =
    | Asked
    | Looked(seen: Page)                       // at a whole page that shows the target
    | Opened(seen: Page)                       // the file is there, and empty
    | Written(seen: Page, decision: Decision)
    | Refused

  /** One call to plan. */
  datatype Plan = Plan(session: string, token: string, action: string, args: seq<string>, pc: PlanPc) {
    predicate HasFile() { pc.Opened? || pc.Written? }
  }

  datatype Pc =
    | Begun
    | Claimed                        // the file is renamed
    | HasRead(raw: Option<Decision>) // none if it cannot be read or is no decision
    | Removed(raw: Option<Decision>)
    | Checked(decision: Decision, now: nat, later: nat)           // valid and of age
    | Ready(decision: Decision, now: nat, later: nat, page: Page) // the page is the one planned on
    | Over

  /** One call to act; `taken` is the plan whose file it renamed. */
  datatype Act = Act(session: string, token: string, random: string, taken: Option<nat>, pc: Pc)

  /** An action carried out, and what it was carried out on. */
  datatype Run = Run(act: nat, plan: nat, session: string, action: string, args: seq<string>,
                     now: nat, later: nat, page: Page)

  datatype State = State(plans: map<nat, Plan>, files: map<Path, nat>, acts: map<nat, Act>, log: seq<Run>)

  datatype Step =
    | Look(plan: nat, found: Option<Page>)
    | CreateFile(plan: nat)
    | WriteFile(plan: nat, created: nat)
    | Claim(act: nat)
    | ReadFile(act: nat, fails: bool)
    | RemoveFile(act: nat, fails: bool)
    | Check(act: nat, now: nat, later: nat)
    | Observe(act: nat, page: Option<Page>)
    | Execute(act: nat)

  function TicketPath(hash: string -> string, p: Plan): Path {
    (hash(p.session), p.token)
  }

  function AskedPath(hash: string -> string, a: Act): Path {
    (hash(a.session), a.token)
  }

  function ConsumedPath(hash: string -> string, a: Act): Path {
    (hash(a.session), ConsumedName(a.token, a.random))
  }

  /** Tokens are drawn from 128 random bits: none comes twice in a directory. */
  ghost predicate IsNewToken(hash: string -> string, s: State, plan: nat)
    requires plan in s.plans
  {
    forall p :: p in s.plans && s.plans[p].HasFile() ==> TicketPath(hash, s.plans[p]) != TicketPath(hash, s.plans[plan])
  }

  ghost predicate Enabled(hash: string -> string, s: State, step: Step) {
    match step
    case Look(p, _) => p in s.plans && s.plans[p].pc.Asked?
    case CreateFile(p) =>
      p in s.plans && s.plans[p].pc.Looked? && IsTicketId(s.plans[p].token) && IsNewToken(hash, s, p)
    case WriteFile(p, _) => p in s.plans && s.plans[p].pc.Opened?
    case Claim(a) => a in s.acts && s.acts[a].pc.Begun?
    case ReadFile(a, _) => a in s.acts && s.acts[a].pc.Claimed?
    case RemoveFile(a, _) => a in s.acts && s.acts[a].pc.HasRead?
    case Check(a, _, _) => a in s.acts && s.acts[a].pc.Removed?
    case Observe(a, _) => a in s.acts && s.acts[a].pc.Checked?
    case Execute(a) => a in s.acts && s.acts[a].pc.Ready? && s.acts[a].taken.Some?
  }

  function Proceed(s: State, p: nat, u: Plan, pc: PlanPc): State {
    s.(plans := s.plans[p := u.(pc := pc)])
  }

  /** What is planned is an operation that may be, on an element that the page shows. */
  predicate MayPlan(action: string, args: seq<string>, page: Page) {
    Valid(action, args) && IsWhole(page) && Shows(page, args[0])
  }

  function Go(s: State, a: nat, u: Act, pc: Pc): State {
    s.(acts := s.acts[a := u.(pc := pc)])
  }

  /** Too old by the first look at the clock, or made after the second. */
  predicate IsExpired(created: nat, now: nat, later: nat) {
    (now > created && now - created > MAX_AGE) || created > later
  }

  function Ran(a: nat, u: Act): Run
    requires u.pc.Ready? && u.taken.Some?
  {
    Run(a, u.taken.value, u.session, u.pc.decision.action, u.pc.decision.args, u.pc.now, u.pc.later, u.pc.page)
  }

  ghost function Apply(hash: string -> string, s: State, step: Step): State
    requires Enabled(hash, s, step)
  {
    match step
    case Look(p, found) =>
      var u := s.plans[p];
      Proceed(s, p, u, if found.Some? && MayPlan(u.action, u.args, found.value) then Looked(found.value) else Refused)
    case CreateFile(p) =>
      var u := s.plans[p];
      if TicketPath(hash, u) in s.files then Proceed(s, p, u, Refused)
      else Proceed(s, p, u, Opened(u.pc.seen)).(files := s.files[TicketPath(hash, u) := p])
    case WriteFile(p, created) =>
      var u := s.plans[p];
      Proceed(s, p, u, Written(u.pc.seen, Decision(u.action, u.args, Fingerprint(hash, u.pc.seen), created)))
    case Claim(a) =>
      var u := s.acts[a];
      var from, to := AskedPath(hash, u), ConsumedPath(hash, u);
      if !IsTicketId(u.token) || from !in s.files then Go(s, a, u, Over)
      else Go(s, a, u.(taken := Some(s.files[from])), Claimed).(files := (s.files - {from})[to := s.files[from]])
    case ReadFile(a, fails) =>
      var u := s.acts[a];
      var path := ConsumedPath(hash, u);
      var readable := !fails && path in s.files && s.files[path] in s.plans && s.plans[s.files[path]].pc.Written?;
      Go(s, a, u, HasRead(if readable then Some(s.plans[s.files[path]].pc.decision) else None))
    case RemoveFile(a, fails) =>
      var u := s.acts[a];
      var path := ConsumedPath(hash, u);
      if fails || path !in s.files then Go(s, a, u, Over)
      else Go(s, a, u, Removed(u.pc.raw)).(files := s.files - {path})
    case Check(a, now, later) =>
      var u := s.acts[a];
      var ok := u.pc.raw.Some? && Valid(u.pc.raw.value.action, u.pc.raw.value.args)
                && !IsExpired(u.pc.raw.value.created, now, later);
      Go(s, a, u, if ok then Checked(u.pc.raw.value, now, later) else Over)
    case Observe(a, page) =>
      var u := s.acts[a];
      var same := page.Some? && IsWhole(page.value) && Fingerprint(hash, page.value) == u.pc.decision.fingerprint;
      Go(s, a, u, if same then Ready(u.pc.decision, u.pc.now, u.pc.later, page.value) else Over)
    case Execute(a) =>
      var u := s.acts[a];
      Go(s, a, u, Over).(log := s.log + [Ran(a, u)])
  }

  // ---- What every step keeps ----

  /** A file named like a ticket is that of its plan, under its own name. */
  ghost predicate FileOk(hash: string -> string, s: State, path: Path)
    requires path in s.files
  {
    && s.files[path] in s.plans && s.plans[s.files[path]].HasFile()
    && (IsTicketId(path.1) ==> path == TicketPath(hash, s.plans[s.files[path]]))
  }

  /** The page seen is the one planned on, at an age that is allowed, for an operation that is. */
  ghost predicate Due(hash: string -> string, d: Decision, now: nat, later: nat, page: Page) {
    Valid(d.action, d.args) && !IsExpired(d.created, now, later) && Fingerprint(hash, page) == d.fingerprint
  }

  ghost predicate PcOk(hash: string -> string, pc: Pc, p: PlanPc) {
    match pc
    case Begun | Claimed | Over => true
    case HasRead(raw) => raw.Some? ==> p.Written? && raw.value == p.decision
    case Removed(raw) => raw.Some? ==> p.Written? && raw.value == p.decision
    case Checked(d, now, later) =>
      p.Written? && d == p.decision && Valid(d.action, d.args) && !IsExpired(d.created, now, later)
    case Ready(d, now, later, page) => p.Written? && d == p.decision && Due(hash, d, now, later, page)
  }

  /** A plan that went on saw what it has to see, and writes down just that. */
  ghost predicate PlanOk(hash: string -> string, u: Plan) {
    match u.pc
    case Asked | Refused => true
    case Looked(page) => MayPlan(u.action, u.args, page)
    case Opened(page) => MayPlan(u.action, u.args, page)
    case Written(page, d) =>
      && MayPlan(u.action, u.args, page)
      && d.action == u.action && d.args == u.args && d.fingerprint == Fingerprint(hash, page)
  }

  /** What was taken is taken for good: its name never comes back. */
  ghost predicate ActOk(hash: string -> string, s: State, a: nat)
    requires a in s.acts
  {
    var u := s.acts[a];
    && (u.taken.None? ==> u.pc.Begun? || u.pc.Over?)
    && (u.pc.Begun? ==> u.taken.None?)
    && (u.taken.Some? ==>
          && u.taken.value in s.plans && s.plans[u.taken.value].HasFile()
          && IsTicketId(u.token) && AskedPath(hash, u) == TicketPath(hash, s.plans[u.taken.value])
          && AskedPath(hash, u) !in s.files
          && (ConsumedPath(hash, u) in s.files && (u.pc.Claimed? || u.pc.HasRead?) ==>
                s.files[ConsumedPath(hash, u)] == u.taken.value)
          && PcOk(hash, u.pc, s.plans[u.taken.value].pc))
  }

  ghost predicate TookApart(s: State, a: nat, b: nat)
    requires a in s.acts && b in s.acts
  {
    a != b && s.acts[a].taken.Some? ==> s.acts[a].taken != s.acts[b].taken
  }

  ghost predicate PlannedApart(hash: string -> string, s: State, p: nat, q: nat)
    requires p in s.plans && q in s.plans
  {
    p != q && s.plans[p].HasFile() && s.plans[q].HasFile() ==>
      TicketPath(hash, s.plans[p]) != TicketPath(hash, s.plans[q])
  }

  ghost predicate RunOk(hash: string -> string, s: State, r: Run) {
    && r.act in s.acts && s.acts[r.act].pc.Over? && s.acts[r.act].taken == Some(r.plan)
    && s.acts[r.act].session == r.session
    && r.plan in s.plans && s.plans[r.plan].pc.Written?
    && var d := s.plans[r.plan].pc.decision;
       r.action == d.action && r.args == d.args && Due(hash, d, r.now, r.later, r.page)
  }

  ghost predicate Ok(hash: string -> string, s: State) {
    && (forall p :: p in s.plans ==> PlanOk(hash, s.plans[p]))
    && (forall path :: path in s.files ==> FileOk(hash, s, path))
    && (forall a :: a in s.acts ==> ActOk(hash, s, a))
    && (forall a, b :: a in s.acts && b in s.acts ==> TookApart(s, a, b))
    && (forall p, q :: p in s.plans && q in s.plans ==> PlannedApart(hash, s, p, q))
    && (forall k :: 0 <= k < |s.log| ==> RunOk(hash, s, s.log[k]))
    && (forall j, k :: 0 <= j < k < |s.log| ==> s.log[j].act != s.log[k].act)
  }

  ghost predicate IsFresh(s: State) {
    && s.files == map[] && s.log == []
    && (forall p :: p in s.plans ==> s.plans[p].pc.Asked?)
    && (forall a :: a in s.acts ==> s.acts[a].pc.Begun? && s.acts[a].taken.None?)
  }

  lemma FreshIsOk(hash: string -> string, s: State)
    requires IsFresh(s)
    ensures Ok(hash, s)
  {
  }

  lemma ConsumedPathsDiffer(hash: string -> string, u: Act, v: Act)
    requires |u.token| == |v.token| && AskedPath(hash, u) != AskedPath(hash, v)
    ensures ConsumedPath(hash, u) != ConsumedPath(hash, v)
  {
    assert ConsumedName(u.token, u.random)[..|u.token|] == u.token;
    assert ConsumedName(v.token, v.random)[..|v.token|] == v.token;
  }

  /** The plan is as it was, or further on; once written, it is as it was. */
  ghost predicate SamePlan(s: State, t: State, p: nat) {
    p in s.plans ==>
      && p in t.plans && (s.plans[p].HasFile() ==> t.plans[p].HasFile())
      && t.plans[p].session == s.plans[p].session && t.plans[p].token == s.plans[p].token
      && (s.plans[p].pc.Written? ==> t.plans[p] == s.plans[p])
  }

  /** What a call has to do with the disk is as it was, or gone. */
  ghost predicate SameFiles(hash: string -> string, s: State, t: State, u: Act) {
    && (AskedPath(hash, u) !in s.files ==> AskedPath(hash, u) !in t.files)
    && (ConsumedPath(hash, u) in t.files ==>
          ConsumedPath(hash, u) in s.files && t.files[ConsumedPath(hash, u)] == s.files[ConsumedPath(hash, u)])
  }

  lemma PcStays(hash: string -> string, pc: Pc, p: PlanPc, q: PlanPc)
    requires PcOk(hash, pc, p) && (p.Written? ==> q == p)
    ensures PcOk(hash, pc, q)
  {
    hide Valid, Due;
  }

  lemma OtherActKeeps(hash: string -> string, s: State, t: State, a: nat)
    requires a in s.acts && a in t.acts && s.acts[a] == t.acts[a] && ActOk(hash, s, a)
    requires forall p :: SamePlan(s, t, p)
    requires s.acts[a].taken.Some? ==> SameFiles(hash, s, t, s.acts[a])
    ensures ActOk(hash, t, a)
  {
    hide Valid, IsTicketId, PcOk, Due;
    var u := s.acts[a];
    if u.taken.Some? {
      assert SamePlan(s, t, u.taken.value);
      PcStays(hash, u.pc, s.plans[u.taken.value].pc, t.plans[u.taken.value].pc);
    }
  }

  lemma OtherRunKeeps(hash: string -> string, s: State, t: State, r: Run)
    requires RunOk(hash, s, r) && SamePlan(s, t, r.plan)
    requires r.act in t.acts && t.acts[r.act] == s.acts[r.act]
    ensures RunOk(hash, t, r)
  {
    hide Due;
  }

  /** A plan's step: acts and log are as they were. */
  lemma PlanStepKeeps(hash: string -> string, s: State, t: State)
    requires Ok(hash, s) && t.acts == s.acts && t.log == s.log
    requires (forall p :: SamePlan(s, t, p)) && t.plans.Keys == s.plans.Keys
    requires forall p :: p in t.plans ==> PlanOk(hash, t.plans[p])
    requires forall p, q :: p in t.plans && q in t.plans ==> PlannedApart(hash, t, p, q)
    requires forall path :: path in t.files ==> FileOk(hash, t, path)
    requires forall a :: a in s.acts && s.acts[a].taken.Some? ==> SameFiles(hash, s, t, s.acts[a])
    ensures Ok(hash, t)
  {
    hide FileOk, PlannedApart, SameFiles;
    forall a | a in t.acts ensures ActOk(hash, t, a) { assert ActOk(hash, s, a); OtherActKeeps(hash, s, t, a); }
    forall k | 0 <= k < |t.log| ensures RunOk(hash, t, t.log[k]) {
      assert RunOk(hash, s, s.log[k]);
      OtherRunKeeps(hash, s, t, s.log[k]);
    }
    forall a, b | a in t.acts && b in t.acts ensures TookApart(t, a, b) { assert TookApart(s, a, b); }
  }

  /** A plan goes on, its file there as before. */
  lemma PlanGoesOn(hash: string -> string, s: State, p: nat, pc: PlanPc)
    requires Ok(hash, s) && p in s.plans && !s.plans[p].pc.Written?
    requires PlanOk(hash, s.plans[p].(pc := pc)) && (s.plans[p].HasFile() <==> s.plans[p].(pc := pc).HasFile())
    ensures Ok(hash, Proceed(s, p, s.plans[p], pc))
  {
    hide Valid, IsTicketId, PcOk, Due, RunOk, ActOk, PlanOk, IsWhole, Shows;
    var t := Proceed(s, p, s.plans[p], pc);
    forall q | q in t.files ensures FileOk(hash, t, q) { assert FileOk(hash, s, q); }
    forall q, r | q in t.plans && r in t.plans ensures PlannedApart(hash, t, q, r) {
      assert PlannedApart(hash, s, q, r);
    }
    forall q ensures SamePlan(s, t, q) {}
    PlanStepKeeps(hash, s, t);
  }

  lemma LookKeeps(hash: string -> string, s: State, p: nat, found: Option<Page>)
    requires Ok(hash, s) && Enabled(hash, s, Look(p, found))
    ensures Ok(hash, Apply(hash, s, Look(p, found)))
  {
    hide Ok, MayPlan;
    var u := s.plans[p];
    var fits := found.Some? && MayPlan(u.action, u.args, found.value);
    PlanGoesOn(hash, s, p, if fits then Looked(found.value) else Refused);
  }

  lemma NoNewFiles(hash: string -> string, s: State, t: State, path: Path, p: nat, u: Act)
    requires t.files == s.files[path := p] && AskedPath(hash, u) != path && ConsumedPath(hash, u) != path
    ensures SameFiles(hash, s, t, u)
  {
  }

  lemma CreateKeeps(hash: string -> string, s: State, p: nat)
    requires Ok(hash, s) && Enabled(hash, s, CreateFile(p))
    ensures Ok(hash, Apply(hash, s, CreateFile(p)))
  {
    hide Valid, IsTicketId, PcOk, Due, RunOk, IsWhole, Shows, MayPlan;
    var t := Apply(hash, s, CreateFile(p));
    var path := TicketPath(hash, s.plans[p]);
    assert PlanOk(hash, s.plans[p]);
    if path in s.files {
      hide Ok;
      PlanGoesOn(hash, s, p, Refused);
    } else {
      forall a | a in s.acts && s.acts[a].taken.Some? ensures SameFiles(hash, s, t, s.acts[a]) {
        var u := s.acts[a];
        assert ActOk(hash, s, a);
        ConsumedIsNoTicket(u.token, u.random);
        NoNewFiles(hash, s, t, path, p, u);
      }
      hide ActOk, SameFiles;
      forall q | q in t.files ensures FileOk(hash, t, q) {
        if q in s.files { assert FileOk(hash, s, q); }
      }
      forall q, r | q in t.plans && r in t.plans ensures PlannedApart(hash, t, q, r) {
        assert PlannedApart(hash, s, q, r);
      }
      forall q ensures SamePlan(s, t, q) {}
      PlanStepKeeps(hash, s, t);
    }
  }

  lemma WriteKeeps(hash: string -> string, s: State, p: nat, created: nat)
    requires Ok(hash, s) && Enabled(hash, s, WriteFile(p, created))
    ensures Ok(hash, Apply(hash, s, WriteFile(p, created)))
  {
    var u := s.plans[p];
    assert PlanOk(hash, u);
    hide Ok, MayPlan, Fingerprint;
    PlanGoesOn(hash, s, p, Written(u.pc.seen, Decision(u.action, u.args, Fingerprint(hash, u.pc.seen), created)));
  }

  /** A call's step: plans are as they were, and so are the other calls. */
  lemma ActStepKeeps(hash: string -> string, s: State, t: State, a: nat)
    requires Ok(hash, s) && t.plans == s.plans
    requires a in s.acts && !s.acts[a].pc.Over? && t.acts.Keys == s.acts.Keys
    requires forall b :: b in s.acts && b != a ==> t.acts[b] == s.acts[b]
    requires forall path :: path in t.files ==> FileOk(hash, t, path)
    requires ActOk(hash, t, a) && forall b :: b in t.acts ==> TookApart(t, a, b) && TookApart(t, b, a)
    requires forall b :: b in s.acts && b != a && s.acts[b].taken.Some? ==> SameFiles(hash, s, t, s.acts[b])
    requires t.log == s.log || (|t.log| == |s.log| + 1 && t.log[..|s.log|] == s.log && t.log[|s.log|].act == a
                                && RunOk(hash, t, t.log[|s.log|]))
    ensures Ok(hash, t)
  {
    hide FileOk, PlannedApart, SameFiles, TookApart;
    forall b | b in t.acts ensures ActOk(hash, t, b) {
      if b != a { assert ActOk(hash, s, b); OtherActKeeps(hash, s, t, b); }
    }
    forall b, c | b in t.acts && c in t.acts ensures TookApart(t, b, c) {
      if b != a && c != a { OthersTookApart(s, t, b, c); }
    }
    forall p, q | p in t.plans && q in t.plans ensures PlannedApart(hash, t, p, q) {
      StillPlannedApart(hash, s, t, p, q);
    }
    LogKeeps(hash, s, t, a);
  }

  lemma OthersTookApart(s: State, t: State, b: nat, c: nat)
    requires b in s.acts && c in s.acts && b in t.acts && c in t.acts
    requires s.acts[b] == t.acts[b] && s.acts[c] == t.acts[c]
    requires TookApart(s, b, c)
    ensures TookApart(t, b, c)
  {
  }

  lemma StillPlannedApart(hash: string -> string, s: State, t: State, p: nat, q: nat)
    requires t.plans == s.plans && p in s.plans && q in s.plans && PlannedApart(hash, s, p, q)
    ensures PlannedApart(hash, t, p, q)
  {
  }

  lemma LogKeeps(hash: string -> string, s: State, t: State, a: nat)
    requires t.plans == s.plans && a in s.acts && !s.acts[a].pc.Over? && t.acts.Keys == s.acts.Keys
    requires forall b :: b in s.acts && b != a ==> t.acts[b] == s.acts[b]
    requires forall k :: 0 <= k < |s.log| ==> RunOk(hash, s, s.log[k])
    requires forall j, k :: 0 <= j < k < |s.log| ==> s.log[j].act != s.log[k].act
    requires t.log == s.log || (|t.log| == |s.log| + 1 && t.log[..|s.log|] == s.log && t.log[|s.log|].act == a
                                && RunOk(hash, t, t.log[|s.log|]))
    ensures forall k :: 0 <= k < |t.log| ==> RunOk(hash, t, t.log[k])
    ensures forall j, k :: 0 <= j < k < |t.log| ==> t.log[j].act != t.log[k].act
  {
    forall k | 0 <= k < |s.log| ensures RunOk(hash, t, s.log[k]) && s.log[k].act != a {
      OtherRunKeeps(hash, s, t, s.log[k]);
    }
    assert forall k :: 0 <= k < |s.log| ==> t.log[k] == s.log[k];
  }

  lemma TookApartStill(s: State, t: State, a: nat, b: nat)
    requires a in s.acts && b in s.acts && t.acts.Keys == s.acts.Keys
    requires TookApart(s, a, b) && TookApart(s, b, a)
    requires t.acts[a].taken == s.acts[a].taken && t.acts[b].taken == s.acts[b].taken
    ensures TookApart(t, a, b) && TookApart(t, b, a)
  {
  }

  /** A call goes on with what it has taken; files only go. */
  lemma ActGoesOn(hash: string -> string, s: State, t: State, a: nat)
    requires Ok(hash, s) && a in s.acts && !s.acts[a].pc.Over? && t.plans == s.plans
    requires a in t.acts && t.acts == s.acts[a := t.acts[a]] && t.acts[a].taken == s.acts[a].taken
    requires t.files.Keys <= s.files.Keys && forall path :: path in t.files ==> t.files[path] == s.files[path]
    requires ActOk(hash, t, a)
    requires t.log == s.log || (|t.log| == |s.log| + 1 && t.log[..|s.log|] == s.log && t.log[|s.log|].act == a
                                && RunOk(hash, t, t.log[|s.log|]))
    ensures Ok(hash, t)
  {
    hide ActOk, RunOk, PlanOk, TicketPath, IsTicketId, PlannedApart, AskedPath, ConsumedPath;
    forall path | path in t.files ensures FileOk(hash, t, path) { assert FileOk(hash, s, path); }
    forall b | b in t.acts ensures TookApart(t, a, b) && TookApart(t, b, a) {
      assert TookApart(s, a, b) && TookApart(s, b, a);
      TookApartStill(s, t, a, b);
    }
    forall b | b in s.acts ensures SameFiles(hash, s, t, s.acts[b]) {}
    hide Ok, FileOk, TookApart, SameFiles;
    ActStepKeeps(hash, s, t, a);
  }

  lemma QuietActOk(hash: string -> string, s: State, step: Step)
    requires Enabled(hash, s, step) && (step.ReadFile? || step.Check? || step.Observe?) && ActOk(hash, s, step.act)
    ensures ActOk(hash, Apply(hash, s, step), step.act)
  {
    hide Valid, IsTicketId, IsWhole, IsExpired, ConsumedName, TicketPath;
  }

  /** Steps that only read, check or give up. */
  lemma QuietStepKeeps(hash: string -> string, s: State, step: Step)
    requires Ok(hash, s) && Enabled(hash, s, step) && (step.ReadFile? || step.Check? || step.Observe?)
    ensures Ok(hash, Apply(hash, s, step))
  {
    QuietActOk(hash, s, step);
    hide Ok, ActOk;
    ActGoesOn(hash, s, Apply(hash, s, step), step.act);
  }

  lemma RemoveKeeps(hash: string -> string, s: State, a: nat, fails: bool)
    requires Ok(hash, s) && Enabled(hash, s, RemoveFile(a, fails))
    ensures Ok(hash, Apply(hash, s, RemoveFile(a, fails)))
  {
    hide Valid, IsTicketId, TicketPath, ConsumedName;
    var t := Apply(hash, s, RemoveFile(a, fails));
    assert ActOk(hash, s, a);
    hide Ok;
    assert ActOk(hash, t, a);
    hide ActOk;
    ActGoesOn(hash, s, t, a);
  }

  lemma ExecuteKeeps(hash: string -> string, s: State, a: nat)
    requires Ok(hash, s) && Enabled(hash, s, Execute(a))
    ensures Ok(hash, Apply(hash, s, Execute(a)))
  {
    hide Valid, IsTicketId, Due, TicketPath, ConsumedName;
    var t := Apply(hash, s, Execute(a));
    assert ActOk(hash, s, a);
    hide Ok;
    assert ActOk(hash, t, a) && RunOk(hash, t, t.log[|s.log|]);
    hide ActOk, RunOk;
    ActGoesOn(hash, s, t, a);
  }

  lemma TakenByNone(hash: string -> string, s: State, a: nat, b: nat)
    requires a in s.acts && IsTicketId(s.acts[a].token) && AskedPath(hash, s.acts[a]) in s.files
    requires b in s.acts && s.acts[b].taken.Some? && ActOk(hash, s, b) && FileOk(hash, s, AskedPath(hash, s.acts[a]))
    ensures s.acts[b].taken != Some(s.files[AskedPath(hash, s.acts[a])])
    ensures ConsumedPath(hash, s.acts[b]) != ConsumedPath(hash, s.acts[a])
    ensures ConsumedPath(hash, s.acts[b]) != AskedPath(hash, s.acts[a])
  {
    hide PcOk;
    ConsumedPathsDiffer(hash, s.acts[b], s.acts[a]);
    ConsumedIsNoTicket(s.acts[b].token, s.acts[b].random);
  }

  /** What a call takes, no other call has taken, or ever will. */
  lemma ClaimTakes(hash: string -> string, s: State, a: nat)
    requires Ok(hash, s) && Enabled(hash, s, Claim(a))
    requires IsTicketId(s.acts[a].token) && AskedPath(hash, s.acts[a]) in s.files
    ensures
      var from, p := AskedPath(hash, s.acts[a]), s.files[AskedPath(hash, s.acts[a])];
      && p in s.plans && s.plans[p].HasFile() && from == TicketPath(hash, s.plans[p])
      && forall b :: b in s.acts && s.acts[b].taken.Some? ==>
           s.acts[b].taken != Some(p) && ConsumedPath(hash, s.acts[b]) != ConsumedPath(hash, s.acts[a])
           && ConsumedPath(hash, s.acts[b]) != from
  {
    hide PcOk, RunOk, IsTicketId, AskedPath, ConsumedPath, ActOk;
    var from, p := AskedPath(hash, s.acts[a]), s.files[AskedPath(hash, s.acts[a])];
    assert FileOk(hash, s, from);
    assert from.1 == s.acts[a].token by { AskedByToken(hash, s.acts[a]); }
    forall b | b in s.acts && s.acts[b].taken.Some?
      ensures s.acts[b].taken != Some(p) && ConsumedPath(hash, s.acts[b]) != ConsumedPath(hash, s.acts[a])
              && ConsumedPath(hash, s.acts[b]) != from
    {
      assert ActOk(hash, s, b);
      TakenByNone(hash, s, a, b);
    }
  }

  lemma AskedByToken(hash: string -> string, u: Act)
    ensures AskedPath(hash, u).1 == u.token
  {
  }

  lemma ClaimActOk(hash: string -> string, s: State, a: nat)
    requires Ok(hash, s) && Enabled(hash, s, Claim(a))
    ensures ActOk(hash, Apply(hash, s, Claim(a)), a)
  {
    var u := s.acts[a];
    assert ActOk(hash, s, a);
    if IsTicketId(u.token) && AskedPath(hash, u) in s.files {
      ConsumedIsNoTicket(u.token, u.random);
      ClaimTakes(hash, s, a);
    }
    hide Ok, Valid, IsTicketId, ConsumedName;
  }

  lemma ClaimFilesOk(hash: string -> string, s: State, a: nat, path: Path)
    requires Ok(hash, s) && Enabled(hash, s, Claim(a)) && path in Apply(hash, s, Claim(a)).files
    ensures FileOk(hash, Apply(hash, s, Claim(a)), path)
  {
    var u := s.acts[a];
    ConsumedIsNoTicket(u.token, u.random);
    if path in s.files { assert FileOk(hash, s, path); }
    if AskedPath(hash, u) in s.files { assert FileOk(hash, s, AskedPath(hash, u)); }
    hide Ok, IsTicketId, ConsumedName;
  }

  lemma ClaimTookApart(hash: string -> string, s: State, a: nat, b: nat)
    requires Ok(hash, s) && Enabled(hash, s, Claim(a)) && b in s.acts
    ensures TookApart(Apply(hash, s, Claim(a)), a, b) && TookApart(Apply(hash, s, Claim(a)), b, a)
  {
    var u := s.acts[a];
    assert TookApart(s, a, b) && TookApart(s, b, a);
    if IsTicketId(u.token) && AskedPath(hash, u) in s.files {
      ClaimTakes(hash, s, a);
    }
    hide Ok, IsTicketId, ConsumedPath, AskedPath;
  }

  lemma ClaimSameFiles(hash: string -> string, s: State, a: nat, b: nat)
    requires Ok(hash, s) && Enabled(hash, s, Claim(a)) && b in s.acts && b != a && s.acts[b].taken.Some?
    ensures SameFiles(hash, s, Apply(hash, s, Claim(a)), s.acts[b])
  {
    var u := s.acts[a];
    if IsTicketId(u.token) && AskedPath(hash, u) in s.files {
      ClaimTakes(hash, s, a);
      assert ActOk(hash, s, b);
      ConsumedIsNoTicket(u.token, u.random);
    }
    hide Ok, ConsumedPath, AskedPath, IsTicketId;
    ConsumedIsNotAsked(hash, u, s.acts[b]);
  }

  lemma ConsumedIsNotAsked(hash: string -> string, u: Act, v: Act)
    ensures IsTicketId(v.token) ==> ConsumedPath(hash, u) != AskedPath(hash, v)
  {
    ConsumedIsNoTicket(u.token, u.random);
  }

  lemma ClaimKeeps(hash: string -> string, s: State, a: nat)
    requires Ok(hash, s) && Enabled(hash, s, Claim(a))
    ensures Ok(hash, Apply(hash, s, Claim(a)))
  {
    hide Ok, FileOk, ActOk, TookApart, SameFiles, ConsumedPath, AskedPath, IsTicketId;
    var t := Apply(hash, s, Claim(a));
    ClaimActOk(hash, s, a);
    forall path | path in t.files ensures FileOk(hash, t, path) { ClaimFilesOk(hash, s, a, path); }
    forall b | b in t.acts ensures TookApart(t, a, b) && TookApart(t, b, a) { ClaimTookApart(hash, s, a, b); }
    forall b | b in s.acts && b != a && s.acts[b].taken.Some? ensures SameFiles(hash, s, t, s.acts[b]) {
      ClaimSameFiles(hash, s, a, b);
    }
    ActStepKeeps(hash, s, t, a);
  }

  // ---- Whole runs ----

  ghost function After(hash: string -> string, o: State, steps: seq<Step>): State {
    if steps == [] then o
    else
      var s, step := After(hash, o, steps[..|steps| - 1]), steps[|steps| - 1];
      if Enabled(hash, s, step) then Apply(hash, s, step) else s
  }

  lemma StepKeeps(hash: string -> string, s: State, step: Step)
    requires Ok(hash, s) && Enabled(hash, s, step)
    ensures Ok(hash, Apply(hash, s, step))
  {
    hide Ok, Apply, Enabled;
    match step
    case CreateFile(p) => CreateKeeps(hash, s, p);
    case Look(p, found) => LookKeeps(hash, s, p, found);
    case WriteFile(p, created) => WriteKeeps(hash, s, p, created);
    case Claim(a) => ClaimKeeps(hash, s, a);
    case RemoveFile(a, fails) => RemoveKeeps(hash, s, a, fails);
    case Execute(a) => ExecuteKeeps(hash, s, a);
    case _ => QuietStepKeeps(hash, s, step);
  }

  lemma {:induction false} EveryRunIsOk(hash: string -> string, o: State, steps: seq<Step>)
    requires IsFresh(o)
    ensures Ok(hash, After(hash, o, steps))
  {
    hide Ok, Apply, Enabled, IsFresh;
    if steps == [] {
      FreshIsOk(hash, o);
    } else {
      var s, step := After(hash, o, steps[..|steps| - 1]), steps[|steps| - 1];
      EveryRunIsOk(hash, o, steps[..|steps| - 1]);
      if Enabled(hash, s, step) { StepKeeps(hash, s, step); }
    }
  }

  /** In every interleaving, with whatever failures and crashes, no ticket's action is carried out twice. */
  lemma AtMostOnceATicket(hash: string -> string, o: State, steps: seq<Step>, j: nat, k: nat)
    requires IsFresh(o) && j < k < |After(hash, o, steps).log|
    ensures After(hash, o, steps).log[j].plan != After(hash, o, steps).log[k].plan
  {
    EveryRunIsOk(hash, o, steps);
    var s := After(hash, o, steps);
    hide After, Due;
    assert RunOk(hash, s, s.log[j]) && RunOk(hash, s, s.log[k]);
    assert TookApart(s, s.log[j].act, s.log[k].act);
  }

  /**
   * What is carried out is what was planned: in the planning session, a valid
   * operation on an element that the page planned on shows, no older than five
   * minutes, on a whole page of the same fingerprint.
   */
  lemma OnlyWhatWasPlanned(hash: string -> string, o: State, steps: seq<Step>, k: nat)
    requires Injective(hash) && IsFresh(o) && k < |After(hash, o, steps).log|
    ensures
      var s := After(hash, o, steps);
      var r := s.log[k];
      && r.plan in s.plans && s.plans[r.plan].pc.Written?
      && var p := s.plans[r.plan];
         && r.session == p.session && r.action == p.action && r.args == p.args
         && Valid(r.action, r.args) && IsWhole(p.pc.seen) && Shows(p.pc.seen, r.args[0])
         && r.now <= p.pc.decision.created + MAX_AGE && p.pc.decision.created <= r.later
         && Fingerprint(hash, r.page) == Fingerprint(hash, p.pc.seen)
  {
    hide After, Ok, IsFresh;
    EveryRunIsOk(hash, o, steps);
    LoggedIsPlanned(hash, After(hash, o, steps), k);
  }

  lemma LoggedIsPlanned(hash: string -> string, s: State, k: nat)
    requires Injective(hash) && Ok(hash, s) && k < |s.log|
    ensures
      var r := s.log[k];
      && r.plan in s.plans && s.plans[r.plan].pc.Written?
      && var p := s.plans[r.plan];
         && r.session == p.session && r.action == p.action && r.args == p.args
         && Valid(r.action, r.args) && IsWhole(p.pc.seen) && Shows(p.pc.seen, r.args[0])
         && r.now <= p.pc.decision.created + MAX_AGE && p.pc.decision.created <= r.later
         && Fingerprint(hash, r.page) == Fingerprint(hash, p.pc.seen)
  {
    var r := s.log[k];
    assert RunOk(hash, s, r);
    assert ActOk(hash, s, r.act);
    assert PlanOk(hash, s.plans[r.plan]);
    hide Ok, Valid, IsWhole, Shows, PcOk, IsTicketId, Fingerprint;
  }

  /** So the page is the one planned on, and shows the element, no URL having a NUL in it. */
  lemma OnThePagePlanned(hash: string -> string, o: State, steps: seq<Step>, k: nat)
    requires Injective(hash) && IsFresh(o) && k < |After(hash, o, steps).log|
    ensures
      var s := After(hash, o, steps);
      var r := s.log[k];
      && r.plan in s.plans && s.plans[r.plan].pc.Written? && r.args != [] && r.args[0] != ""
      && ('\0' !in r.page.url && '\0' !in s.plans[r.plan].pc.seen.url ==>
            r.page == s.plans[r.plan].pc.seen && Shows(r.page, r.args[0]))
  {
    OnlyWhatWasPlanned(hash, o, steps, k);
    var s := After(hash, o, steps);
    var r := s.log[k];
    hide After, Shows, Fingerprint;
    if '\0' !in r.page.url && '\0' !in s.plans[r.plan].pc.seen.url {
      FingerprintIsThePage(hash, r.page, s.plans[r.plan].pc.seen);
    }
  }
}
