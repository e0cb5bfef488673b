/**
 * Chat turns on their own threads, interleaved in any order. A panic may end a
 * turn at any point; its locks and its slot are released and no lock stays
 * poisoned. The vault holds the map of sessions; one read or write of it is a step.
 */
module ChatSessions {
  import opened Wrappers

  const MAX_CONCURRENT_CHAT_TURNS: nat := 8

  type Chat = string
  type Session = string
  type Sessions = map<Chat, Session>

  /** How far the read-modify-write of the session map has come. */
  datatype Stage = Wanted | Locked | Loaded(sessions: Sessions) | Written

  datatype Pc =
    | Waiting                  // for the chat's lock
    | Holding                  // the chat's lock
    | Running                  // the agent, on what was loaded
    | Removing(stage: Stage)   // the dead session
    | Retrying                 // the agent, afresh
    | Saving(stage: Stage)     // the session the agent answered with
    | Replying
    | Leaving                  // the chat's lock is free again
  {
    predicate HoldsChat() { !Waiting? && !Leaving? }
    predicate HasLoaded() { HoldsChat() && !Holding? }
    predicate InStage(stage: Stage) { (Removing? || Saving?) && this.stage == stage }
    predicate HoldsWrite() { (Removing? || Saving?) && !stage.Wanted? }
  }

  /** How an agent run ends. A stale session is reported as a failure. */
  datatype Outcome = Answered(session: Option<Session>) | Stale | Failed

  /** A turn and its local variables; how its agent runs ended; and, in `dropped` and `saved`, what it has written. */
  datatype Turn = Turn(chat: Chat, pc: Pc, loaded: Option<Session>, resumed: Option<Session>,
                       outcomes: seq<Outcome>, dropped: bool, answer: Option<Session>, saved: bool)
  {
    /** What the turn has left for its chat so far. */
    function Left(): Option<Session> {
      if saved then answer else if dropped then None else loaded
    }
  }

  datatype Event =
    | Started(chat: Chat, id: nat, resumed: Option<Session>, supported: bool)
    | Ended(chat: Chat, id: nat, turn: Turn, panicked: bool)

  datatype State = State(turns: map<nat, Turn>, vault: Sessions, chats: map<Chat, nat>,
                         writer: Option<nat>, slots: int, log: seq<Event>)

  datatype Step =
    | Dispatch(id: nat, chat: Chat)
    | LockChat(id: nat)
    | LoadSessions(id: nat, supported: bool)
    | AgentEnds(id: nat, outcome: Outcome)
    | LockWrite(id: nat)
    | Reload(id: nat)
    | Write(id: nat)
    | UnlockWrite(id: nat)
    | Reply(id: nat)
    | Finish(id: nat)
    | Panic(id: nat)

  function Get(m: Sessions, c: Chat): Option<Session> {
    if c in m then Some(m[c]) else None
  }

  function Begin(vault: Sessions): State {
    State(map[], vault, map[], None, 0, [])
  }

  // ---- The steps ----

  function With(s: State, id: nat, u: Turn): State {
    s.(turns := s.turns[id := u])
  }

  /** A free slot, or a busy reply. */
  function Dispatched(s: State, id: nat, chat: Chat): State {
    if s.slots < MAX_CONCURRENT_CHAT_TURNS
    then With(s, id, Turn(chat, Waiting, None, None, [], false, None, false)).(slots := s.slots + 1)
    else s
  }

  function Agent(u: Turn, outcome: Outcome): Turn {
    match outcome
    case Answered(Some(session)) => u.(answer := Some(session), pc := Saving(Wanted))
    case Answered(None) => u.(pc := Replying)
    case Stale => if u.pc.Running? && u.resumed.Some? then u.(pc := Removing(Wanted)) else u.(pc := Replying)
    case Failed => u.(pc := Replying)
  }

  function AtStage(u: Turn, stage: Stage): Turn {
    if u.pc.Removing? then u.(pc := Removing(stage)) else u.(pc := Saving(stage))
  }

  /** The whole map goes back as it was loaded, but for this chat; removing nothing writes nothing. */
  function Wrote(s: State, id: nat, u: Turn, loaded: Sessions): State
    requires u.pc.Removing? || (u.pc.Saving? && u.answer.Some?)
  {
    if u.pc.Saving? then
      With(s, id, AtStage(u, Written).(saved := true)).(vault := loaded[u.chat := u.answer.value])
    else if u.chat in loaded then
      With(s, id, AtStage(u, Written).(dropped := true)).(vault := loaded - {u.chat})
    else
      With(s, id, AtStage(u, Written).(dropped := true))
  }

  /** Out of the chat's critical section, which the log records if the turn ever loaded. */
  function LeftChat(s: State, id: nat, u: Turn, panicked: bool): State {
    With(s, id, u.(pc := Leaving)).(
      chats := if u.pc.HoldsChat() then s.chats - {u.chat} else s.chats,
      writer := if u.pc.HoldsWrite() then None else s.writer,
      log := if u.pc.HasLoaded() then s.log + [Ended(u.chat, id, u, panicked)] else s.log)
  }

  predicate Enabled(s: State, step: Step) {
    if step.Dispatch? then step.id !in s.turns
    else
      && step.id in s.turns
      && var u := s.turns[step.id];
         match step
         case LockChat(_) => u.pc.Waiting? && u.chat !in s.chats
         case LoadSessions(_, _) => u.pc.Holding?
         case AgentEnds(_, _) => u.pc.Running? || u.pc.Retrying?
         case LockWrite(_) => u.pc.InStage(Wanted) && s.writer.None?
         case Reload(_) => u.pc.InStage(Locked)
         case Write(_) => (u.pc.Removing? || (u.pc.Saving? && u.answer.Some?)) && u.pc.stage.Loaded?
         case UnlockWrite(_) => u.pc.InStage(Written)
         case Reply(_) => u.pc.Replying?
         case Finish(_) => u.pc.Leaving?
         case Panic(_) => !u.pc.Leaving?
  }

  function Apply(s: State, step: Step): State
    requires Enabled(s, step)
  {
    if step.Dispatch? then Dispatched(s, step.id, step.chat)
    else
      var id, u := step.id, s.turns[step.id];
      match step
      case LockChat(_) => With(s, id, u.(pc := Holding)).(chats := s.chats[u.chat := id])
      case LoadSessions(_, supported) =>
        var loaded := Get(s.vault, u.chat);
        var resumed := if supported then loaded else None;
        With(s, id, u.(pc := Running, loaded := loaded, resumed := resumed)).(
          log := s.log + [Started(u.chat, id, resumed, supported)])
      case AgentEnds(_, outcome) => With(s, id, Agent(u.(outcomes := u.outcomes + [outcome]), outcome))
      case LockWrite(_) => With(s, id, AtStage(u, Locked)).(writer := Some(id))
      case Reload(_) => With(s, id, AtStage(u, Loaded(s.vault)))
      case Write(_) => Wrote(s, id, u, u.pc.stage.sessions)
      case UnlockWrite(_) => With(s, id, u.(pc := if u.pc.Removing? then Retrying else Replying)).(writer := None)
      case Reply(_) => LeftChat(s, id, u, false)
      case Finish(_) => s.(turns := s.turns - {id}, slots := s.slots - 1)
      case Panic(_) => LeftChat(s, id, u, true)
  }

  /** A turn's outcomes are those of its agent runs, in order. */
  lemma OutcomesAreTheAgents(s: State, step: Step, id: nat)
    requires Enabled(s, step) && id in s.turns && id in Apply(s, step).turns
    ensures
      Apply(s, step).turns[id].outcomes
      == if step.AgentEnds? && step.id == id then s.turns[id].outcomes + [step.outcome] else s.turns[id].outcomes
  {
  }

  // ---- What every step keeps ----

  /** What the chat's latest finished turn left; before any, what the vault began with. */
  function Handed(vault: Sessions, log: seq<Event>, c: Chat): Option<Session> {
    if log == [] then Get(vault, c)
    else
      var e := log[|log| - 1];
      if e.Ended? && e.chat == c then e.turn.Left() else Handed(vault, log[..|log| - 1], c)
  }

  /** What the chat's latest turn to start resumes. */
  function Resumed(log: seq<Event>, c: Chat): Option<Session> {
    if log == [] then None
    else
      var e := log[|log| - 1];
      if e.Started? && e.chat == c then e.resumed else Resumed(log[..|log| - 1], c)
  }

  /** A second run exactly behind a first that was to resume a session, and found it dead. */
  predicate RunsOk(resumed: Option<Session>, outcomes: seq<Outcome>) {
    1 <= |outcomes| <= 2 && (|outcomes| == 2 <==> resumed.Some? && outcomes[0] == Stale)
  }

  function SessionOf(outcome: Outcome): Option<Session> {
    if outcome.Answered? then outcome.session else None
  }

  /** A finished turn left what its agent runs call for. */
  ghost predicate LeftAsCalledFor(u: Turn) {
    && RunsOk(u.resumed, u.outcomes) && (u.resumed.Some? ==> u.resumed == u.loaded)
    && var session := SessionOf(u.outcomes[|u.outcomes| - 1]);
       u.Left() == if session.Some? then session else if |u.outcomes| == 2 then None else u.loaded
  }

  /** A turn starts from what the one before left; one that did not panic leaves what its agent runs call for. */
  ghost predicate EventOk(vault: Sessions, before: seq<Event>, e: Event) {
    match e
    case Started(c, _, resumed, supported) => resumed == if supported then Handed(vault, before, c) else None
    case Ended(_, _, u, panicked) =>
      && u.loaded == Handed(vault, before, e.chat) && u.resumed == Resumed(before, e.chat)
      && (!panicked ==> LeftAsCalledFor(u))
  }

  ghost predicate LogOk(vault: Sessions, log: seq<Event>) {
    log == [] || (LogOk(vault, log[..|log| - 1]) && EventOk(vault, log[..|log| - 1], log[|log| - 1]))
  }

  /** The locks name their holders, and the holder of the write lock works on the vault's own map. */
  ghost predicate TurnOk(s: State, id: nat)
    requires id in s.turns
  {
    var u := s.turns[id];
    && (u.pc.HoldsChat() <==> u.chat in s.chats && s.chats[u.chat] == id)
    && (u.pc.HoldsWrite() <==> s.writer == Some(id))
    && ((u.pc.Removing? || u.pc.Saving?) && u.pc.stage.Loaded? ==> u.pc.stage.sessions == s.vault)
    && LocalsOk(u)
  }

  predicate LocalsOk(u: Turn) {
    && (u.resumed.Some? ==> u.resumed == u.loaded)
    && match u.pc
       case Waiting | Holding | Running => !u.dropped && !u.saved && u.answer.None? && u.outcomes == []
       case Removing(stage) =>
         u.answer.None? && !u.saved && (u.dropped <==> stage.Written?) && u.resumed.Some? && u.outcomes == [Stale]
       case Retrying => u.answer.None? && !u.saved && u.dropped && u.resumed.Some? && u.outcomes == [Stale]
       case Saving(stage) => u.answer.Some? && (u.saved <==> stage.Written?) && AnswerOk(u)
       case Replying => (u.answer.Some? <==> u.saved) && AnswerOk(u)
       case Leaving => true
  }

  /** The agent runs are over; the last one's session is the answer. */
  predicate AnswerOk(u: Turn) {
    && RunsOk(u.resumed, u.outcomes)
    && u.answer == SessionOf(u.outcomes[|u.outcomes| - 1])
    && (u.dropped <==> |u.outcomes| == 2)
  }

  /** A chat's lock is held by one of its turns; what the vault has for the chat is what that turn left so far. */
  ghost predicate ChatOk(vault: Sessions, s: State, c: Chat) {
    if c in s.chats && s.chats[c] in s.turns && s.turns[s.chats[c]].pc.HasLoaded() then
      var u := s.turns[s.chats[c]];
      && u.chat == c && Get(s.vault, c) == u.Left()
      && u.loaded == Handed(vault, s.log, c) && u.resumed == Resumed(s.log, c)
    else
      Get(s.vault, c) == Handed(vault, s.log, c)
  }

  ghost predicate LockOk(s: State, c: Chat)
    requires c in s.chats
  {
    s.chats[c] in s.turns && s.turns[s.chats[c]].chat == c && s.turns[s.chats[c]].pc.HoldsChat()
  }

  ghost predicate WriterOk(s: State) {
    s.writer.Some? ==> s.writer.value in s.turns && s.turns[s.writer.value].pc.HoldsWrite()
  }

  ghost predicate Ok(vault: Sessions, s: State) {
    && (forall id :: id in s.turns ==> TurnOk(s, id))
    && (forall c :: c in s.chats ==> LockOk(s, c))
    && (forall c :: ChatOk(vault, s, c))
    && WriterOk(s)
    && s.slots == |s.turns| <= MAX_CONCURRENT_CHAT_TURNS
    && LogOk(vault, s.log)
  }

  // ---- One lemma a kind of step ----

  /** What a step by turn `id` of chat `c` leaves alone: other turns, other chats, and who holds what among them. */
  ghost predicate Elsewhere(vault: Sessions, s: State, t: State, id: nat, c: Chat) {
    && (forall i :: i != id ==> SameTurn(s, t, i))
    && (forall d :: d != c ==> SameChat(vault, s, t, d))
    && (c in s.chats && s.chats[c] != id <==> c in t.chats && t.chats[c] != id)
    && (c in s.chats && s.chats[c] != id ==> t.chats[c] == s.chats[c])
    && (t.vault == s.vault || s.writer == Some(id))
  }

  ghost predicate SameTurn(s: State, t: State, i: nat) {
    && (i in s.turns <==> i in t.turns)
    && (i in s.turns ==> s.turns[i] == t.turns[i])
    && (s.writer == Some(i) <==> t.writer == Some(i))
  }

  ghost predicate SameChat(vault: Sessions, s: State, t: State, d: Chat) {
    && (d in s.chats <==> d in t.chats)
    && (d in s.chats ==> s.chats[d] == t.chats[d])
    && Get(s.vault, d) == Get(t.vault, d)
    && Handed(vault, s.log, d) == Handed(vault, t.log, d)
    && Resumed(s.log, d) == Resumed(t.log, d)
  }

  lemma OtherTurnKeeps(vault: Sessions, s: State, t: State, id: nat, c: Chat, i: nat)
    requires Elsewhere(vault, s, t, id, c) && i != id && i in s.turns && i in t.turns && TurnOk(s, i)
    ensures TurnOk(t, i)
  {
    hide LocalsOk, Handed;
    assert SameTurn(s, t, i);
    var d := s.turns[i].chat;
    if d != c { assert SameChat(vault, s, t, d); }
  }

  lemma OtherChatKeeps(vault: Sessions, s: State, t: State, id: nat, c: Chat, d: Chat)
    requires Elsewhere(vault, s, t, id, c) && d != c && ChatOk(vault, s, d)
    requires id in s.turns ==> s.turns[id].chat == c
    requires d in s.chats ==> LockOk(s, d)
    ensures ChatOk(vault, t, d)
    ensures d in t.chats ==> LockOk(t, d)
  {
    hide Handed;
    assert SameChat(vault, s, t, d);
    if d in s.chats {
      assert SameTurn(s, t, s.chats[d]);
    }
  }

  /** Everything elsewhere being left alone, only the turn's own affairs need a look. */
  lemma KeepsElsewhere(vault: Sessions, s: State, t: State, id: nat, c: Chat)
    requires Ok(vault, s) && Elsewhere(vault, s, t, id, c)
    requires id in s.turns ==> s.turns[id].chat == c
    requires id in t.turns ==> TurnOk(t, id)
    requires ChatOk(vault, t, c) && (c in t.chats ==> LockOk(t, c))
    requires WriterOk(t) && LogOk(vault, t.log)
    requires t.slots == |t.turns| <= MAX_CONCURRENT_CHAT_TURNS
    ensures Ok(vault, t)
  {
    hide Handed, LogOk, TurnOk, ChatOk, LockOk, WriterOk;
    forall i | i in t.turns ensures TurnOk(t, i) {
      if i != id {
        assert SameTurn(s, t, i);
        OtherTurnKeeps(vault, s, t, id, c, i);
      }
    }
    forall d ensures ChatOk(vault, t, d) && (d in t.chats ==> LockOk(t, d)) {
      if d != c {
        OtherChatKeeps(vault, s, t, id, c, d);
      }
    }
  }

  /** Changing one turn where nothing is shared. */
  lemma WithIsElsewhere(vault: Sessions, s: State, id: nat, v: Turn)
    ensures Elsewhere(vault, s, With(s, id, v), id, v.chat)
  {
    hide Handed;
    var t := With(s, id, v);
    forall d | d != v.chat ensures SameChat(vault, s, t, d) {}
    forall i | i != id ensures SameTurn(s, t, i) {}
  }

  lemma SameTurnCount(s: State, id: nat, v: Turn)
    ensures |With(s, id, v).turns| == if id in s.turns then |s.turns| else |s.turns| + 1
  {
    var t := With(s, id, v).turns;
    assert t.Keys == s.turns.Keys + {id};
    assert |t| == |t.Keys| && |s.turns| == |s.turns.Keys|;
  }

  lemma DispatchIsElsewhere(vault: Sessions, s: State, id: nat, chat: Chat)
    requires id !in s.turns && s.slots < MAX_CONCURRENT_CHAT_TURNS
    ensures Elsewhere(vault, s, Dispatched(s, id, chat), id, chat)
  {
    hide Handed, Resumed, LocalsOk;
    var t := Dispatched(s, id, chat);
    forall d | d != chat ensures SameChat(vault, s, t, d) {}
    forall i | i != id ensures SameTurn(s, t, i) {}
  }

  lemma DispatchedIsOk(vault: Sessions, s: State, id: nat, chat: Chat)
    requires id !in s.turns && s.slots < MAX_CONCURRENT_CHAT_TURNS && s.slots == |s.turns| && WriterOk(s)
    requires ChatOk(vault, s, chat) && (chat in s.chats ==> LockOk(s, chat))
    ensures
      var t := Dispatched(s, id, chat);
      && WriterOk(t) && ChatOk(vault, t, chat) && (chat in t.chats ==> LockOk(t, chat))
      && t.slots == |t.turns| <= MAX_CONCURRENT_CHAT_TURNS && t.log == s.log
  {
    hide Handed, Resumed, LocalsOk;
    SameTurnCount(s, id, Turn(chat, Waiting, None, None, [], false, None, false));
  }

  lemma DispatchedTurnIsOk(s: State, id: nat, chat: Chat)
    requires id !in s.turns && s.slots < MAX_CONCURRENT_CHAT_TURNS && WriterOk(s)
    requires chat in s.chats ==> LockOk(s, chat)
    ensures id in Dispatched(s, id, chat).turns && TurnOk(Dispatched(s, id, chat), id)
  {
  }

  lemma ChatFacts(vault: Sessions, s: State, chat: Chat)
    requires Ok(vault, s)
    ensures ChatOk(vault, s, chat) && (chat in s.chats ==> LockOk(s, chat)) && WriterOk(s) && LogOk(vault, s.log)
    ensures s.slots == |s.turns|
  {
    hide LogOk, Handed, ChatOk, TurnOk, LockOk, WriterOk;
  }

  lemma DispatchKeeps(vault: Sessions, s: State, id: nat, chat: Chat)
    requires Ok(vault, s) && id !in s.turns
    ensures Ok(vault, Dispatched(s, id, chat))
  {
    hide LogOk, Handed, Ok, ChatOk, TurnOk, LockOk, WriterOk, Elsewhere;
    if s.slots < MAX_CONCURRENT_CHAT_TURNS {
      ChatFacts(vault, s, chat);
      DispatchIsElsewhere(vault, s, id, chat);
      DispatchedIsOk(vault, s, id, chat);
      DispatchedTurnIsOk(s, id, chat);
      KeepsElsewhere(vault, s, Dispatched(s, id, chat), id, chat);
    }
  }

  /** A turn's step: what is left to check is the turn, its chat, and the writer. */
  lemma TurnStepKeeps(vault: Sessions, s: State, t: State, id: nat)
    requires Ok(vault, s) && id in s.turns && Elsewhere(vault, s, t, id, s.turns[id].chat)
    requires t.turns.Keys == s.turns.Keys && t.slots == s.slots
    requires TurnOk(t, id) && ChatOk(vault, t, s.turns[id].chat) && WriterOk(t) && LogOk(vault, t.log)
    requires s.turns[id].chat in t.chats ==> LockOk(t, s.turns[id].chat)
    ensures Ok(vault, t)
  {
    hide LogOk, Handed, ChatOk, TurnOk, LockOk, WriterOk, Elsewhere;
    assert |t.turns| == |t.turns.Keys| == |s.turns.Keys| == |s.turns|;
    KeepsElsewhere(vault, s, t, id, s.turns[id].chat);
  }

  lemma OwnFacts(vault: Sessions, s: State, id: nat)
    requires Ok(vault, s) && id in s.turns
    ensures TurnOk(s, id) && ChatOk(vault, s, s.turns[id].chat)
    ensures s.turns[id].chat in s.chats ==> LockOk(s, s.turns[id].chat)
    ensures WriterOk(s) && LogOk(vault, s.log)
  {
  }

  lemma LockChatKeeps(vault: Sessions, s: State, id: nat)
    requires Ok(vault, s) && Enabled(s, LockChat(id))
    ensures Ok(vault, Apply(s, LockChat(id)))
  {
    hide LogOk, Handed, Ok;
    var u := s.turns[id];
    var v := u.(pc := Holding);
    var t := Apply(s, LockChat(id));
    OwnFacts(vault, s, id);
    WithIsElsewhere(vault, s, id, v);
    forall d | d != u.chat ensures SameChat(vault, s, t, d) { assert SameChat(vault, s, With(s, id, v), d); }
    assert forall i :: i != id ==> SameTurn(s, With(s, id, v), i) && SameTurn(s, t, i);
    assert t.turns.Keys == s.turns.Keys;
    TurnStepKeeps(vault, s, t, id);
  }

  /** The turn goes on with its local variables, within its critical sections. */
  lemma LocalKeeps(vault: Sessions, s: State, id: nat, v: Turn)
    requires Ok(vault, s) && id in s.turns && LocalsOk(v)
    requires
      var u := s.turns[id];
      && v.chat == u.chat && v.Left() == u.Left() && v.loaded == u.loaded && v.resumed == u.resumed
      && u.pc.HasLoaded() && v.pc.HasLoaded() && (v.pc.HoldsWrite() <==> u.pc.HoldsWrite())
      && ((v.pc.Removing? || v.pc.Saving?) && v.pc.stage.Loaded? ==> v.pc.stage.sessions == s.vault)
    ensures Ok(vault, With(s, id, v))
  {
    hide LogOk, Handed, Ok, LocalsOk;
    OwnFacts(vault, s, id);
    WithIsElsewhere(vault, s, id, v);
    var t := With(s, id, v);
    assert t.turns.Keys == s.turns.Keys;
    TurnStepKeeps(vault, s, t, id);
  }

  lemma AgentKeeps(vault: Sessions, s: State, id: nat, outcome: Outcome)
    requires Ok(vault, s) && Enabled(s, AgentEnds(id, outcome))
    ensures Ok(vault, Apply(s, AgentEnds(id, outcome)))
  {
    hide Ok, Handed;
    OwnFacts(vault, s, id);
    var u := s.turns[id];
    var v := Agent(u.(outcomes := u.outcomes + [outcome]), outcome);
    assert LocalsOk(v);
    LocalKeeps(vault, s, id, v);
  }

  lemma LockWriteKeeps(vault: Sessions, s: State, id: nat)
    requires Ok(vault, s) && Enabled(s, LockWrite(id))
    ensures Ok(vault, Apply(s, LockWrite(id)))
  {
    hide LogOk, Handed, Ok;
    var v := AtStage(s.turns[id], Locked);
    var t := Apply(s, LockWrite(id));
    OwnFacts(vault, s, id);
    WithIsElsewhere(vault, s, id, v);
    assert forall i :: i != id ==> SameTurn(s, With(s, id, v), i) && SameTurn(s, t, i);
    assert forall d :: d != v.chat ==> SameChat(vault, s, With(s, id, v), d) && SameChat(vault, s, t, d);
    assert t.turns.Keys == s.turns.Keys;
    TurnStepKeeps(vault, s, t, id);
  }

  lemma UnlockWriteKeeps(vault: Sessions, s: State, id: nat)
    requires Ok(vault, s) && Enabled(s, UnlockWrite(id))
    ensures Ok(vault, Apply(s, UnlockWrite(id)))
  {
    hide LogOk, Handed, Ok;
    var t := Apply(s, UnlockWrite(id));
    var v := t.turns[id];
    OwnFacts(vault, s, id);
    WithIsElsewhere(vault, s, id, v);
    assert forall i :: i != id ==> SameTurn(s, With(s, id, v), i) && SameTurn(s, t, i);
    assert forall d :: d != v.chat ==> SameChat(vault, s, With(s, id, v), d) && SameChat(vault, s, t, d);
    assert t.turns.Keys == s.turns.Keys;
    TurnStepKeeps(vault, s, t, id);
  }

  lemma WriteIsElsewhere(vault: Sessions, s: State, id: nat)
    requires Enabled(s, Write(id)) && s.turns[id].pc.stage.sessions == s.vault && s.writer == Some(id)
    ensures
      var t := Apply(s, Write(id));
      && Elsewhere(vault, s, t, id, s.turns[id].chat) && t.turns.Keys == s.turns.Keys && id in t.turns
      && t.chats == s.chats && t.writer == s.writer && t.slots == s.slots && t.log == s.log
  {
    hide Handed;
    var t := Apply(s, Write(id));
    forall i | i != id ensures SameTurn(s, t, i) {}
    forall d | d != s.turns[id].chat ensures SameChat(vault, s, t, d) {}
    assert t.turns.Keys == s.turns.Keys;
  }

  lemma WriteIsOwn(vault: Sessions, s: State, id: nat)
    requires Enabled(s, Write(id)) && TurnOk(s, id) && ChatOk(vault, s, s.turns[id].chat)
    ensures
      var t := Apply(s, Write(id));
      id in t.turns && t.turns[id].chat == s.turns[id].chat && TurnOk(t, id) && ChatOk(vault, t, s.turns[id].chat)
      && t.turns[id].pc.HoldsChat() && t.turns[id].pc.HoldsWrite()
  {
    hide Handed;
  }

  /** The write puts back what the vault holds, so no other chat's session is lost. */
  lemma WriteKeeps(vault: Sessions, s: State, id: nat)
    requires Ok(vault, s) && Enabled(s, Write(id))
    ensures Ok(vault, Apply(s, Write(id)))
  {
    OwnFacts(vault, s, id);
    hide LogOk, Handed, Ok;
    var t := Apply(s, Write(id));
    assert s.turns[id].pc.stage.sessions == s.vault && s.writer == Some(id);
    WriteIsElsewhere(vault, s, id);
    WriteIsOwn(vault, s, id);
    hide Apply, Enabled, Elsewhere, ChatOk;
    TurnStepKeeps(vault, s, t, id);
  }

  lemma LogGrows(vault: Sessions, log: seq<Event>, e: Event)
    requires LogOk(vault, log) && EventOk(vault, log, e)
    ensures LogOk(vault, log + [e])
    ensures forall c :: Handed(vault, log + [e], c)
                        == if e.Ended? && e.chat == c then e.turn.Left() else Handed(vault, log, c)
    ensures forall c :: Resumed(log + [e], c) == if e.Started? && e.chat == c then e.resumed else Resumed(log, c)
  {
    assert (log + [e])[..|log|] == log;
  }

  lemma LoadIsElsewhere(vault: Sessions, s: State, id: nat, supported: bool)
    requires Enabled(s, LoadSessions(id, supported))
    ensures Elsewhere(vault, s, Apply(s, LoadSessions(id, supported)), id, s.turns[id].chat)
    ensures Apply(s, LoadSessions(id, supported)).turns.Keys == s.turns.Keys
  {
    hide Handed, Resumed, LocalsOk;
    var c, t := s.turns[id].chat, Apply(s, LoadSessions(id, supported));
    forall d | d != c ensures SameChat(vault, s, t, d) {
      OthersUnmoved(vault, s.log, t.log[|s.log|], d);
    }
    assert forall i :: i != id ==> SameTurn(s, t, i);
  }

  /** What it resumes is what the turn before handed over. */
  lemma LoadedIsOk(vault: Sessions, s: State, id: nat, supported: bool)
    requires Enabled(s, LoadSessions(id, supported)) && TurnOk(s, id) && ChatOk(vault, s, s.turns[id].chat)
    requires s.turns[id].chat in s.chats ==> LockOk(s, s.turns[id].chat)
    requires WriterOk(s) && LogOk(vault, s.log)
    ensures
      var c, t := s.turns[id].chat, Apply(s, LoadSessions(id, supported));
      && TurnOk(t, id) && ChatOk(vault, t, c) && WriterOk(t) && LogOk(vault, t.log)
      && t.slots == s.slots && (c in t.chats ==> LockOk(t, c))
  {
    hide LogOk, Handed, Resumed;
    var t := Apply(s, LoadSessions(id, supported));
    LogGrows(vault, s.log, Started(t.turns[id].chat, id, t.turns[id].resumed, supported));
  }

  lemma LoadKeeps(vault: Sessions, s: State, id: nat, supported: bool)
    requires Ok(vault, s) && Enabled(s, LoadSessions(id, supported))
    ensures Ok(vault, Apply(s, LoadSessions(id, supported)))
  {
    hide LogOk, Handed, Ok, ChatOk, TurnOk, LockOk, WriterOk, Elsewhere, Apply;
    OwnFacts(vault, s, id);
    LoadIsElsewhere(vault, s, id, supported);
    LoadedIsOk(vault, s, id, supported);
    TurnStepKeeps(vault, s, Apply(s, LoadSessions(id, supported)), id);
  }

  lemma LeftElsewhere(vault: Sessions, s: State, id: nat, panicked: bool)
    requires id in s.turns && TurnOk(s, id)
    ensures Elsewhere(vault, s, LeftChat(s, id, s.turns[id], panicked), id, s.turns[id].chat)
    ensures LeftChat(s, id, s.turns[id], panicked).turns.Keys == s.turns.Keys
  {
    hide Handed, Resumed, LocalsOk;
    var u, t := s.turns[id], LeftChat(s, id, s.turns[id], panicked);
    forall d | d != u.chat
      ensures Handed(vault, s.log, d) == Handed(vault, t.log, d) && Resumed(s.log, d) == Resumed(t.log, d)
    {
      if u.pc.HasLoaded() { OthersUnmoved(vault, s.log, Ended(u.chat, id, u, panicked), d); }
    }
    assert forall i :: i != id ==> SameTurn(s, t, i);
    assert forall d :: d != u.chat ==> SameChat(vault, s, t, d);
  }

  lemma OthersUnmoved(vault: Sessions, log: seq<Event>, e: Event, d: Chat)
    requires e.chat != d
    ensures Handed(vault, log + [e], d) == Handed(vault, log, d) && Resumed(log + [e], d) == Resumed(log, d)
  {
    assert (log + [e])[..|log|] == log;
  }

  /** What it leaves is what it hands over. */
  lemma LeftIsHanded(vault: Sessions, s: State, id: nat, panicked: bool)
    requires id in s.turns && TurnOk(s, id) && ChatOk(vault, s, s.turns[id].chat)
    requires s.turns[id].chat in s.chats ==> LockOk(s, s.turns[id].chat)
    ensures ChatOk(vault, LeftChat(s, id, s.turns[id], panicked), s.turns[id].chat)
  {
    hide LocalsOk, Resumed;
    var u, t := s.turns[id], LeftChat(s, id, s.turns[id], panicked);
    if u.pc.HasLoaded() {
      assert t.log[..|t.log| - 1] == s.log;
    }
  }

  lemma LeftLogIsOk(vault: Sessions, s: State, id: nat, panicked: bool)
    requires id in s.turns && TurnOk(s, id) && ChatOk(vault, s, s.turns[id].chat) && LogOk(vault, s.log)
    requires panicked || s.turns[id].pc.Replying?
    ensures LogOk(vault, LeftChat(s, id, s.turns[id], panicked).log)
  {
    hide LogOk, Handed, Resumed;
    var u := s.turns[id];
    if u.pc.HasLoaded() {
      LogGrows(vault, s.log, Ended(u.chat, id, u, panicked));
    }
  }

  lemma LeftTurnIsOk(s: State, id: nat, panicked: bool)
    requires id in s.turns && TurnOk(s, id) && WriterOk(s)
    ensures
      var u, t := s.turns[id], LeftChat(s, id, s.turns[id], panicked);
      && TurnOk(t, id) && WriterOk(t) && t.slots == s.slots
      && (u.chat in s.chats && LockOk(s, u.chat) && u.chat in t.chats ==> LockOk(t, u.chat))
  {
  }

  /** Leaving the chat, by reply or by panic, hands over what the vault has for it. */
  lemma LeaveKeeps(vault: Sessions, s: State, id: nat, panicked: bool)
    requires Ok(vault, s) && id in s.turns && !s.turns[id].pc.Leaving? && (panicked || s.turns[id].pc.Replying?)
    ensures Ok(vault, LeftChat(s, id, s.turns[id], panicked))
  {
    hide Ok, LogOk, ChatOk, TurnOk, LockOk, WriterOk, Elsewhere, Handed;
    OwnFacts(vault, s, id);
    LeftElsewhere(vault, s, id, panicked);
    LeftIsHanded(vault, s, id, panicked);
    LeftLogIsOk(vault, s, id, panicked);
    LeftTurnIsOk(s, id, panicked);
    TurnStepKeeps(vault, s, LeftChat(s, id, s.turns[id], panicked), id);
  }

  lemma FinishKeeps(vault: Sessions, s: State, id: nat)
    requires Ok(vault, s) && Enabled(s, Finish(id))
    ensures Ok(vault, Apply(s, Finish(id)))
  {
    hide LogOk, Handed, Ok;
    var c, t := s.turns[id].chat, Apply(s, Finish(id));
    OwnFacts(vault, s, id);
    assert forall d :: d != c ==> SameChat(vault, s, t, d);
    assert forall i :: i != id ==> SameTurn(s, t, i);
    assert t.turns.Keys == s.turns.Keys - {id};
    assert |t.turns| == |t.turns.Keys| && |s.turns| == |s.turns.Keys|;
    assert t.slots == |t.turns| <= MAX_CONCURRENT_CHAT_TURNS by { SlotFacts(vault, s); }
    KeepsElsewhere(vault, s, t, id, c);
  }

  lemma SlotFacts(vault: Sessions, s: State)
    requires Ok(vault, s)
    ensures s.slots == |s.turns| <= MAX_CONCURRENT_CHAT_TURNS
  {
  }

  // ---- Whole runs ----

  lemma StepKeeps(vault: Sessions, s: State, step: Step)
    requires Ok(vault, s) && Enabled(s, step)
    ensures Ok(vault, Apply(s, step))
  {
    hide Ok, LogOk, Handed;
    match step
    case Dispatch(id, chat) => DispatchKeeps(vault, s, id, chat);
    case LockChat(id) => LockChatKeeps(vault, s, id);
    case LoadSessions(id, supported) => LoadKeeps(vault, s, id, supported);
    case AgentEnds(id, outcome) =>
      AgentKeeps(vault, s, id, outcome);
    case LockWrite(id) => LockWriteKeeps(vault, s, id);
    case Reload(id) =>
      OwnFacts(vault, s, id);
      LocalKeeps(vault, s, id, AtStage(s.turns[id], Loaded(s.vault)));
    case Write(id) => WriteKeeps(vault, s, id);
    case UnlockWrite(id) => UnlockWriteKeeps(vault, s, id);
    case Reply(id) => LeaveKeeps(vault, s, id, false);
    case Finish(id) => FinishKeeps(vault, s, id);
    case Panic(id) => LeaveKeeps(vault, s, id, true);
  }

  /** Any interleaving of any turns; what is not enabled does not happen. */
  function After(vault: Sessions, steps: seq<Step>): State {
    if steps == [] then Begin(vault)
    else
      var s := After(vault, steps[..|steps| - 1]);
      var step := steps[|steps| - 1];
      if Enabled(s, step) then Apply(s, step) else s
  }

  lemma {:induction false} EveryRunIsOk(vault: Sessions, steps: seq<Step>)
    ensures Ok(vault, After(vault, steps))
  {
    if steps == [] {
      assert forall c :: ChatOk(vault, Begin(vault), c);
    } else {
      var s, step := After(vault, steps[..|steps| - 1]), steps[|steps| - 1];
      EveryRunIsOk(vault, steps[..|steps| - 1]);
      hide Ok, Enabled, Apply;
      if Enabled(s, step) {
        StepKeeps(vault, s, step);
      }
    }
  }

  lemma LogIsOk(vault: Sessions, steps: seq<Step>)
    ensures LogOk(vault, After(vault, steps).log)
  {
    EveryRunIsOk(vault, steps);
  }

  lemma {:induction false} EveryEventIsOk(vault: Sessions, log: seq<Event>, k: nat)
    requires LogOk(vault, log) && k < |log|
    ensures EventOk(vault, log[..k], log[k])
  {
    if k < |log| - 1 {
      var front := log[..|log| - 1];
      EveryEventIsOk(vault, front, k);
      assert front[..k] == log[..k];
    }
  }

  /**
   * In every run, each turn resumes exactly what its chat's previous turn left.
   * A turn that did not panic ran its agent once more exactly if that was to
   * resume a session and found it dead; and it left the session the last run
   * answered with, else none after a dead one, else what it had found.
   */
  lemma EachTurnStartsFromThePrevious(vault: Sessions, steps: seq<Step>, k: nat)
    requires k < |After(vault, steps).log|
    ensures
      var log := After(vault, steps).log;
      match log[k]
      case Started(c, _, resumed, supported) =>
        resumed == if supported then Handed(vault, log[..k], c) else None
      case Ended(c, _, u, panicked) =>
        && u.loaded == Handed(vault, log[..k], c) && u.resumed == Resumed(log[..k], c)
        && (!panicked ==>
              && |u.outcomes| == (if u.resumed.Some? && [Stale] <= u.outcomes then 2 else 1)
              && u.Left() == match u.outcomes[|u.outcomes| - 1]
                             case Answered(Some(session)) => Some(session)
                             case _ => if |u.outcomes| == 2 then None else u.loaded)
  {
    hide After, Handed, Resumed, LogOk, Ok;
    LogIsOk(vault, steps);
    EveryEventIsOk(vault, After(vault, steps).log, k);
  }

  /**
   * A turn that did not panic leaves its chat's session as it found it exactly
   * when its agent neither found that dead nor answered with another.
   */
  lemma LeavesAsFoundExactly(vault: Sessions, steps: seq<Step>, k: nat)
    requires k < |After(vault, steps).log| && After(vault, steps).log[k].Ended?
    requires !After(vault, steps).log[k].panicked
    ensures
      var u := After(vault, steps).log[k].turn;
      u.outcomes != []
      && (u.Left() == u.loaded
          <==> match u.outcomes[|u.outcomes| - 1]
               case Answered(Some(session)) => u.loaded == Some(session)
               case _ => !(u.resumed.Some? && u.outcomes[0] == Stale))
  {
    hide After, Handed, Resumed, LogOk, Ok;
    LogIsOk(vault, steps);
    EveryEventIsOk(vault, After(vault, steps).log, k);
  }

  /** No turn of the chat ends in `log[k..j]`. */
  ghost predicate NoneEnds(log: seq<Event>, c: Chat, k: nat, j: nat)
    requires k <= j <= |log|
  {
    forall i :: k <= i < j ==> !(log[i].Ended? && log[i].chat == c)
  }

  lemma {:induction false} HandedOver(vault: Sessions, log: seq<Event>, c: Chat, k: nat, j: nat)
    requires k < j <= |log| && log[k].Ended? && log[k].chat == c && NoneEnds(log, c, k + 1, j)
    ensures Handed(vault, log[..j], c) == log[k].turn.Left()
    decreases j
  {
    assert log[..j][..j - 1] == log[..j - 1];
    if k < j - 1 {
      HandedOver(vault, log, c, k, j - 1);
    }
  }

  /**
   * After a turn whose agent found its session dead, the chat's next turn resumes
   * what the second run answered with, or nothing: never the dead session.
   */
  lemma DeadSessionIsDropped(vault: Sessions, steps: seq<Step>, c: Chat, k: nat, j: nat)
    requires k < j < |After(vault, steps).log|
    requires
      var log := After(vault, steps).log;
      && log[k].Ended? && log[k].chat == c && !log[k].panicked
      && log[k].turn.resumed.Some? && [Stale] <= log[k].turn.outcomes
      && NoneEnds(log, c, k + 1, j) && log[j].Started? && log[j].chat == c
    ensures
      var log := After(vault, steps).log;
      && |log[k].turn.outcomes| == 2
      && log[j].resumed == match log[k].turn.outcomes[1]
                           case Answered(Some(session)) => if log[j].supported then Some(session) else None
                           case _ => None
  {
    hide After, Handed, Resumed, LogOk, Ok;
    LogIsOk(vault, steps);
    var log := After(vault, steps).log;
    EveryEventIsOk(vault, log, k);
    EveryEventIsOk(vault, log, j);
    HandedOver(vault, log, c, k, j);
  }

  /** In every run, once no turn of a chat is past its load, the vault has what the chat's latest turn left. */
  lemma NoSaveIsLost(vault: Sessions, steps: seq<Step>, c: Chat)
    requires forall id :: id in After(vault, steps).turns && After(vault, steps).turns[id].chat == c
                          ==> !After(vault, steps).turns[id].pc.HasLoaded()
    ensures Get(After(vault, steps).vault, c) == Handed(vault, After(vault, steps).log, c)
  {
    EveryRunIsOk(vault, steps);
    var s := After(vault, steps);
    assert ChatOk(vault, s, c);
    hide Handed, After;
    if c in s.chats { assert LockOk(s, c); }
  }

  /** In every run, no two turns of a chat are inside at once, and neither are two writers. */
  lemma OneTurnAChat(vault: Sessions, steps: seq<Step>, i: nat, j: nat)
    requires
      var turns := After(vault, steps).turns;
      && i in turns && j in turns
      && ((turns[i].chat == turns[j].chat && turns[i].pc.HoldsChat() && turns[j].pc.HoldsChat())
          || (turns[i].pc.HoldsWrite() && turns[j].pc.HoldsWrite()))
    ensures i == j
  {
    EveryRunIsOk(vault, steps);
    var s := After(vault, steps);
    assert TurnOk(s, i) && TurnOk(s, j);
  }

  /** In every run, the slot counter counts the turns in flight, which never exceed the cap. */
  lemma SlotsCountTurns(vault: Sessions, steps: seq<Step>)
    ensures After(vault, steps).slots == |After(vault, steps).turns| <= MAX_CONCURRENT_CHAT_TURNS
  {
    EveryRunIsOk(vault, steps);
  }

  /** The next step of a turn, its agent permitting. */
  function NextStep(id: nat, pc: Pc): Step {
    match pc
    case Waiting => LockChat(id)
    case Holding => LoadSessions(id, true)
    case Running | Retrying => AgentEnds(id, Failed)
    case Removing(_) | Saving(_) =>
      (match pc.stage
       case Wanted => LockWrite(id)
       case Locked => Reload(id)
       case Loaded(_) => Write(id)
       case Written => UnlockWrite(id))
    case Replying => Reply(id)
    case Leaving => Finish(id)
  }

  /** A turn can go on unless another holds the lock it wants. */
  lemma CanGoOn(s: State, id: nat)
    requires id in s.turns && TurnOk(s, id)
    requires s.turns[id].pc.Waiting? ==> s.turns[id].chat !in s.chats
    requires s.turns[id].pc.InStage(Wanted) ==> s.writer.None?
    ensures Enabled(s, NextStep(id, s.turns[id].pc))
  {
  }

  /** No run deadlocks: with a turn in flight, some turn can go on, without a panic. */
  lemma NeverStuck(vault: Sessions, steps: seq<Step>, id: nat)
    requires id in After(vault, steps).turns
    ensures exists i: nat :: i in After(vault, steps).turns
                             && Enabled(After(vault, steps), NextStep(i, After(vault, steps).turns[i].pc))
  {
    EveryRunIsOk(vault, steps);
    var s := After(vault, steps);
    hide After, Handed, LogOk, Ok, Enabled, NextStep;
    OwnFacts(vault, s, id);
    var holder := if s.turns[id].pc.Waiting? && s.turns[id].chat in s.chats then s.chats[s.turns[id].chat] else id;
    OwnFacts(vault, s, holder);
    var i := if s.turns[holder].pc.InStage(Wanted) && s.writer.Some? then s.writer.value else holder;
    OwnFacts(vault, s, i);
    CanGoOn(s, i);
  }

  // ---- What can happen ----

  lemma AfterSnoc(vault: Sessions, steps: seq<Step>, step: Step)
    ensures
      var s := After(vault, steps);
      After(vault, steps + [step]) == if Enabled(s, step) then Apply(s, step) else s
  {
    assert (steps + [step])[..|steps|] == steps;
  }

  /** In every run, a message is taken on exactly when fewer than eight turns are in flight. */
  lemma DispatchedExactly(vault: Sessions, steps: seq<Step>, id: nat, chat: Chat)
    requires id !in After(vault, steps).turns
    ensures
      var s, t := After(vault, steps), After(vault, steps + [Dispatch(id, chat)]);
      && (id in t.turns <==> |s.turns| < 8)
      && (id in t.turns ==> t.turns[id].chat == chat && t.turns[id].pc == Waiting)
  {
    SlotsCountTurns(vault, steps);
    AfterSnoc(vault, steps, Dispatch(id, chat));
    hide After;
  }

  /** In every run, a turn waits for no other chat's turns: it can go in exactly when no turn of its own chat is. */
  lemma WaitsForItsChatOnly(vault: Sessions, steps: seq<Step>, id: nat)
    requires id in After(vault, steps).turns && After(vault, steps).turns[id].pc.Waiting?
    ensures
      var s := After(vault, steps);
      Enabled(s, LockChat(id))
      <==> forall j :: j in s.turns && s.turns[j].chat == s.turns[id].chat ==> !s.turns[j].pc.HoldsChat()
  {
    EveryRunIsOk(vault, steps);
    var s := After(vault, steps);
    var c := s.turns[id].chat;
    hide After, LogOk, Handed, Resumed;
    assert c in s.chats ==> LockOk(s, c);
    forall j | j in s.turns && s.turns[j].chat == c && s.turns[j].pc.HoldsChat() ensures c in s.chats {
      assert TurnOk(s, j);
    }
  }

  /** A turn loads whether or not sessions are supported, its agent may end in any way, and it may panic anywhere. */
  lemma AnythingMayHappen(s: State, id: nat, supported: bool, outcome: Outcome)
    requires id in s.turns
    ensures s.turns[id].pc.Holding? ==> Enabled(s, LoadSessions(id, supported))
    ensures s.turns[id].pc.Running? || s.turns[id].pc.Retrying? ==> Enabled(s, AgentEnds(id, outcome))
    ensures !s.turns[id].pc.Leaving? ==> Enabled(s, Panic(id))
  {
  }

  lemma Take(vault: Sessions, steps: seq<Step>, s: State, step: Step) returns (longer: seq<Step>, t: State)
    requires s == After(vault, steps) && Enabled(s, step)
    ensures longer == steps + [step] && t == Apply(s, step) == After(vault, longer)
  {
    longer, t := steps + [step], Apply(s, step);
    AfterSnoc(vault, steps, step);
  }

  /** A turn alone, up to its agent. */
  lemma TurnStarts(vault: Sessions, c: Chat) returns (steps: seq<Step>, s: State)
    ensures s == After(vault, steps) && s.log == [Started(c, 0, Get(vault, c), true)]
    ensures s == State(map[0 := Turn(c, Running, Get(vault, c), Get(vault, c), [], false, None, false)],
                       vault, map[c := 0], None, 1, s.log)
  {
    steps, s := [], Begin(vault);
    hide After;
    assert s == After(vault, steps) by { Unstarted(vault); }
    steps, s := Take(vault, steps, s, Dispatch(0, c));
    steps, s := Take(vault, steps, s, LockChat(0));
    steps, s := Take(vault, steps, s, LoadSessions(0, true));
  }

  lemma Unstarted(vault: Sessions)
    ensures After(vault, []) == Begin(vault)
  {
  }

  /** It can write, once its agent has ended so that it should. */
  lemma TurnWrites(vault: Sessions, steps0: seq<Step>, s0: State) returns (steps: seq<Step>, s: State)
    requires s0 == After(vault, steps0) && 0 in s0.turns && s0.writer.None?
    requires
      var u := s0.turns[0];
      u.pc == Saving(Wanted) || u.pc == Removing(Wanted)
    requires s0.turns[0].pc.Saving? ==> s0.turns[0].answer.Some?
    ensures s == After(vault, steps)
    ensures
      var u := s0.turns[0];
      && s.vault == (if u.pc.Saving? then s0.vault[u.chat := u.answer.value] else s0.vault - {u.chat})
      && s.turns == s0.turns[0 := if u.pc.Saving? then u.(pc := Replying, saved := true)
                                  else u.(pc := Retrying, dropped := true)]
      && s == s0.(vault := s.vault, turns := s.turns)
  {
    hide After, Apply, Enabled;
    steps, s := TurnLoads(vault, steps0, s0);
    steps, s := TurnStores(vault, steps, s, s0.turns[0]);
    assert s.turns == s0.turns[0 := s.turns[0]];
  }

  /** It takes the writers' lock and reads the file again... */
  lemma TurnLoads(vault: Sessions, steps0: seq<Step>, s0: State) returns (steps: seq<Step>, s: State)
    requires s0 == After(vault, steps0) && 0 in s0.turns && s0.writer.None?
    requires s0.turns[0].pc == Saving(Wanted) || s0.turns[0].pc == Removing(Wanted)
    ensures s == After(vault, steps)
    ensures s == s0.(turns := s0.turns[0 := AtStage(s0.turns[0], Loaded(s0.vault))], writer := Some(0))
  {
    hide After;
    steps, s := Take(vault, steps0, s0, LockWrite(0));
    steps, s := Take(vault, steps, s, Reload(0));
    assert s.turns == s0.turns[0 := s.turns[0]];
  }

  /** ...and writes it back with its own chat changed. */
  lemma TurnStores(vault: Sessions, steps0: seq<Step>, s0: State, u: Turn) returns (steps: seq<Step>, s: State)
    requires s0 == After(vault, steps0) && 0 in s0.turns && s0.writer == Some(0)
    requires u.pc.Saving? || u.pc.Removing?
    requires s0.turns[0] == AtStage(u, Loaded(s0.vault)) && (u.pc.Saving? ==> u.answer.Some?)
    ensures s == After(vault, steps)
    ensures s.vault == if u.pc.Saving? then s0.vault[u.chat := u.answer.value] else s0.vault - {u.chat}
    ensures s.turns == s0.turns[0 := if u.pc.Saving? then u.(pc := Replying, saved := true)
                                     else u.(pc := Retrying, dropped := true)]
    ensures s == s0.(vault := s.vault, turns := s.turns, writer := None)
  {
    hide After;
    steps, s := Take(vault, steps0, s0, Write(0));
    steps, s := Take(vault, steps, s, UnlockWrite(0));
    assert s.vault == if u.pc.Saving? then s0.vault[u.chat := u.answer.value] else s0.vault - {u.chat};
  }

  /** It ends, and nothing of it is left but its log. */
  lemma TurnEnds(vault: Sessions, steps0: seq<Step>, s0: State, c: Chat) returns (steps: seq<Step>, s: State)
    requires s0 == After(vault, steps0) && s0.turns.Keys == {0} && s0.turns[0].pc.Replying? && s0.turns[0].chat == c
    requires s0.chats == map[c := 0] && s0.slots == 1 && s0.writer.None?
    ensures s == After(vault, steps)
    ensures s == State(map[], s0.vault, map[], None, 0, s0.log + [Ended(c, 0, s0.turns[0], false)])
  {
    hide After;
    steps, s := Take(vault, steps0, s0, Reply(0));
    steps, s := Take(vault, steps, s, Finish(0));
    assert s.turns.Keys == {};
  }

  /** Alone, a turn whose agent answers with a session leaves that in the vault, and every lock and slot free. */
  lemma AnsweredTurn(vault: Sessions, c: Chat, session: Session) returns (steps: seq<Step>)
    ensures
      var s := After(vault, steps);
      s.vault == vault[c := session] && s == State(map[], s.vault, map[], None, 0, s.log) && |s.log| == 2
      && s.log[0] == Started(c, 0, Get(vault, c), true)
  {
    hide After;
    var s;
    steps, s := TurnStarts(vault, c);
    steps, s := Take(vault, steps, s, AgentEnds(0, Answered(Some(session))));
    steps, s := TurnWrites(vault, steps, s);
    steps, s := TurnEnds(vault, steps, s, c);
  }

  /** Alone, a turn that finds its session dead drops it, and runs its agent again. */
  lemma StaleTurn(vault: Sessions, c: Chat, outcome: Outcome) returns (steps: seq<Step>)
    requires c in vault && SessionOf(outcome).None?
    ensures
      var s := After(vault, steps);
      s.vault == vault - {c} && s == State(map[], s.vault, map[], None, 0, s.log) && |s.log| == 2
      && s.log[0] == Started(c, 0, Some(vault[c]), true)
      && s.log[1].Ended? && s.log[1].turn.outcomes == [Stale, outcome]
  {
    hide After;
    var s;
    steps, s := TurnStarts(vault, c);
    steps, s := Take(vault, steps, s, AgentEnds(0, Stale));
    steps, s := TurnWrites(vault, steps, s);
    steps, s := Take(vault, steps, s, AgentEnds(0, outcome));
    steps, s := TurnEnds(vault, steps, s, c);
  }
}
