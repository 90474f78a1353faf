/** Takes part in DKG sessions, and keeps the messages of those that have not started yet
    (src/dkg/voter.rs).
 */
module DkgVoterModel {
  import opened Wrappers
  import opened Prefixes
  import opened Messaging
  import opened DkgFailures
  import opened DkgSession
  import opened Steps
  import opened BacklogModel

  datatype VoterState = VoterState(sessions: map<DkgKey, SessionState>, queue: seq<Queued>)

  type VoterResult = Result<VoterState, Command>

  function MessageOf(queued: Queued): Reaction {
    queued.message
  }

  function Messages(queue: seq<Queued>): seq<Reaction> {
    Mapped(MessageOf, queue)
  }

  function Retained(sessions: map<DkgKey, SessionState>, generation: nat): map<DkgKey, SessionState> {
    map key | key in sessions && key.generation >= generation :: sessions[key]
  }

  /** `initial` is the key generator's first message, or `None` if it fails to initialise; `solo` is
      the key set drawn when there is only one participant. */
  function StartedVoter(v: VoterState, name: Name, key: DkgKey, elders: set<Name>, initial: Option<Reaction>, solo: Key)
    : VoterResult
  {
    if key in v.sessions || name !in elders then Result(v, [])
    else if |elders| == 1 then Result(v, [HandleOutcome(solo)])
    else match initial
      case None => Result(v, [])
      case Some(r) => LaunchedVoter(v, name, key, elders, r)
  }

  /** A new session broadcasts its first message and processes what waited for it; older sessions and
      messages go. */
  function LaunchedVoter(v: VoterState, name: Name, key: DkgKey, elders: set<Name>, first: Reaction): VoterResult {
    var ready := OpenedSession(name, key, elders, first, OfKey(v.queue, key));
    Result(
      VoterState(Retained(v.sessions[key := ready.state], key.generation),
                 NotOlder(NotOfKey(v.queue, key), key.generation)),
      ready.commands)
  }

  function OpenedSession(name: Name, key: DkgKey, elders: set<Name>, first: Reaction, waiting: seq<Queued>): SessionResult {
    var broadcast := Broadcast(NewSession(name, key, elders), first);
    var replayed := StepAll(ProcessedMessage, broadcast.state, Messages(waiting));
    Result(replayed.state, broadcast.commands + replayed.commands)
  }

  function VoterProcessed(v: VoterState, capacity: nat, key: DkgKey, message: Reaction): VoterResult {
    if key in v.sessions then
      var processed := ProcessedMessage(v.sessions[key], message);
      Result(v.(sessions := v.sessions[key := processed.state]), processed.commands)
    else Result(v.(queue := Enqueued(v.queue, capacity, Queued(key, message))), [])
  }

  /** `key` is the session found to have `token`. */
  function VoterTimedOut(v: VoterState, key: DkgKey, token: nat, transition: Transition): VoterResult {
    if key in v.sessions && v.sessions[key].timerToken == token then
      var after := TimedOut(v.sessions[key], transition);
      Result(v.(sessions := v.sessions[key := after.state]), after.commands)
    else Result(v, [])
  }

  function VoterProcessedFailure(v: VoterState, key: DkgKey, signed: FailureSigned, named: set<Name>): VoterResult {
    if key in v.sessions then
      var after := ProcessedFailure(v.sessions[key], signed, named);
      Result(v.(sessions := v.sessions[key := after.state]), after.commands)
    else Result(v, [])
  }

  class DkgVoter {
    var sessions: map<DkgKey, Session>
    const backlog: Backlog

    constructor (capacity: nat)
      requires capacity >= BACKLOG_CAPACITY
      ensures Valid() && State() == VoterState(map[], []) && sessions == map[]
      ensures fresh(backlog) && backlog.capacity == capacity
    {
      sessions := map[];
      backlog := new Backlog(capacity);
    }

    /** The voter's sessions and their reports. */
    ghost function Owned(): set<object>
      reads this, sessions.Values
    {
      sessions.Values + set session | session in sessions.Values :: session.failures
    }

    /** No two sessions share anything. */
    ghost predicate Valid()
      reads this, sessions.Values
    {
      forall j, k :: j in sessions && k in sessions && j != k ==>
        sessions[j] != sessions[k] && sessions[j].failures != sessions[k].failures
    }

    ghost function SessionStates(): map<DkgKey, SessionState>
      reads this, Owned()
    {
      map k | k in sessions :: sessions[k].State()
    }

    ghost function State(): VoterState
      reads this, Owned(), backlog
    {
      VoterState(SessionStates(), backlog.queue)
    }

    method Start(name: Name, key: DkgKey, elders: set<Name>, initial: Option<Reaction>, solo: Key)
      returns (commands: seq<Command>)
      requires Valid()
      modifies this, backlog
      ensures Valid()
      ensures Result(State(), commands) == StartedVoter(old(State()), name, key, elders, initial, solo)
    {
      if key in sessions {
        return [];
      }
      if name !in elders {
        return [];
      }
      if |elders| == 1 {
        return [HandleOutcome(solo)];
      }
      if initial.None? {
        return [];
      }
      commands := Launch(name, key, elders, initial.value);
    }

    method Launch(name: Name, key: DkgKey, elders: set<Name>, first: Reaction) returns (commands: seq<Command>)
      requires Valid() && key !in sessions
      modifies this, backlog
      ensures Valid()
      ensures Result(State(), commands) == LaunchedVoter(old(State()), name, key, elders, first)
    {
      var session;
      session, commands := Open(name, key, elders, first);
      assert SessionStates() == old(SessionStates());
      Settle(key, session);
    }

    /** A new session broadcasts its first message and processes what waited for it. */
    method Open(name: Name, key: DkgKey, elders: set<Name>, first: Reaction)
      returns (session: Session, commands: seq<Command>)
      modifies backlog
      ensures fresh(session) && fresh(session.failures)
      ensures Result(session.State(), commands) == OpenedSession(name, key, elders, first, OfKey(old(backlog.queue), key))
      ensures backlog.queue == NotOfKey(old(backlog.queue), key)
    {
      session := new Session(name, key, elders);
      commands := session.BroadcastMessage(first);
      var waiting := backlog.Take(key);
      var replayed := Replay(session, waiting);
      commands := commands + replayed;
    }

    /** The new session joins the others; older sessions and messages go. */
    method Settle(key: DkgKey, session: Session)
      requires Valid() && key !in sessions
      requires forall k :: k in sessions ==> sessions[k] != session && sessions[k].failures != session.failures
      modifies this, backlog
      ensures Valid()
      ensures SessionStates() == Retained(old(SessionStates())[key := session.State()], key.generation)
      ensures backlog.queue == NotOlder(old(backlog.queue), key.generation)
    {
      Add(key, session);
      Retire(key.generation);
      ghost var states := SessionStates();
      assert backlog !in Owned();
      backlog.Prune(key.generation);
      assert SessionStates() == states;
    }

    method Add(key: DkgKey, session: Session)
      modifies `sessions
      ensures sessions == old(sessions)[key := session]
      ensures SessionStates() == old(SessionStates())[key := session.State()]
    {
      sessions := sessions[key := session];
    }

    method Retire(generation: nat)
      modifies `sessions
      ensures sessions == map k | k in old(sessions) && k.generation >= generation :: old(sessions)[k]
      ensures SessionStates() == Retained(old(SessionStates()), generation)
    {
      sessions := map k | k in sessions && k.generation >= generation :: sessions[k];
    }

    /** The session found to have the token moves on; `transitions` is how each session's key generator
        would. */
    method HandleTimeout(token: nat, transitions: DkgKey -> Transition) returns (commands: seq<Command>)
      requires Valid()
      modifies Owned()
      ensures Valid() && sessions == old(sessions)
      ensures if forall key :: key in old(SessionStates()) ==> old(SessionStates())[key].timerToken != token
              then Result(State(), commands) == Result(old(State()), [])
              else exists key :: key in old(SessionStates()) && old(SessionStates())[key].timerToken == token
                                 && Result(State(), commands) == VoterTimedOut(old(State()), key, token, transitions(key))
    {
      if key :| key in sessions && sessions[key].timerToken == token {
        commands := sessions[key].HandleTimeout(transitions(key));
        assert SessionStates() == old(SessionStates())[key := sessions[key].State()];
        assert Result(State(), commands) == VoterTimedOut(old(State()), key, token, transitions(key));
      } else {
        commands := [];
      }
    }

    method ProcessMessage(key: DkgKey, message: Reaction) returns (commands: seq<Command>)
      requires Valid()
      modifies Owned(), backlog
      ensures Valid() && sessions == old(sessions)
      ensures Result(State(), commands) == VoterProcessed(old(State()), backlog.capacity, key, message)
    {
      if key in sessions {
        commands := sessions[key].ProcessMessage(message);
        assert SessionStates() == old(SessionStates())[key := sessions[key].State()];
      } else {
        assert backlog !in Owned();
        backlog.Push(key, message);
        commands := [];
        assert SessionStates() == old(SessionStates());
      }
    }

    method ProcessFailure(key: DkgKey, signed: FailureSigned, named: set<Name>) returns (commands: seq<Command>)
      requires Valid()
      modifies Owned()
      ensures Valid() && sessions == old(sessions)
      ensures Result(State(), commands) == VoterProcessedFailure(old(State()), key, signed, named)
    {
      if key !in sessions {
        return [];
      }
      commands := sessions[key].ProcessFailure(signed, named);
      assert SessionStates() == old(SessionStates())[key := sessions[key].State()];
    }
  }

  /** The session processes the messages that waited for it. */
  method Replay(session: Session, taken: seq<Queued>) returns (commands: seq<Command>)
    modifies session, session.failures
    ensures Result(session.State(), commands) == StepAll(ProcessedMessage, old(session.State()), Messages(taken))
    ensures session.failures == old(session.failures) || fresh(session.failures)
  {
    commands := [];
    ghost var start := session.State();
    for i := 0 to |taken|
      invariant Result(session.State(), commands) == StepAll(ProcessedMessage, start, Messages(taken[..i]))
      invariant session.failures == old(session.failures) || fresh(session.failures)
    {
      StepThen(ProcessedMessage, start, Messages(taken[..i]), taken[i].message);
      assert taken[..i + 1][..i] == taken[..i];
      var more := session.ProcessMessage(taken[i].message);
      commands := commands + more;
    }
    assert taken[..|taken|] == taken;
  }
}
