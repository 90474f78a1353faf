/** The sessions of a voter, each followed from its start to its end: what is proved of the runs of one
    session holds of every session a voter ever starts.
 */
module DkgLifetimes {
  import opened Prefixes
  import opened DkgFailures
  import opened DkgSession
  import opened DkgSessionLaws
  import opened Steps
  import opened BacklogModel
  import opened DkgVoterModel
  import opened DkgVoterLaws

  /** One session: what it was started with, what it handled, where it is and what it commanded. */
  datatype Lifetime = Lifetime(
    name: Name, key: DkgKey, elders: set<Name>, events: seq<Event>, state: SessionState, commands: seq<Command>)

  /** All sessions ever started, which of them are live, and the outcomes of those who were alone. */
  datatype Book = Book(voter: VoterState, lifetimes: seq<Lifetime>, live: map<DkgKey, nat>, alone: seq<Command>)

  const NEW_BOOK: Book := Book(VoterState(map[], []), [], map[], [])

  /** The session's part of an event. */
  function AsSessionEvent(event: VoterEvent): Event
    requires !event.VoterStart?
  {
    match event
    case VoterMessage(queued) => Received(queued.message)
    case VoterTimeout(_, _, transition) => Timeout(transition)
    case VoterFailure(_, signed, named) => FailureReport(signed, named)
  }

  function KeyOf(event: VoterEvent): DkgKey {
    if event.VoterMessage? then event.queued.key else event.key
  }

  predicate Reaches(v: VoterState, event: VoterEvent) {
    && !event.VoterStart? && KeyOf(event) in v.sessions
    && (event.VoterTimeout? ==> v.sessions[event.key].timerToken == event.token)
  }

  function Began(v: VoterState, event: VoterEvent): Lifetime
    requires Creates(v, event)
  {
    var waiting := OfKey(v.queue, event.key);
    var begun := OpenedSession(event.name, event.key, event.elders, event.initial.value, waiting);
    Lifetime(event.name, event.key, event.elders, ReplayEvents(event.initial.value, waiting), begun.state, begun.commands)
  }

  function Continued(l: Lifetime, event: Event): Lifetime {
    var after := Handle(l.state, event);
    l.(events := l.events + [event], state := after.state, commands := l.commands + after.commands)
  }

  function BookStep(b: Book, capacity: nat, event: VoterEvent): Book {
    var after := VoterHandle(b.voter, capacity, event);
    if Creates(b.voter, event) then
      var live := b.live[event.key := |b.lifetimes|];
      Book(after.state, b.lifetimes + [Began(b.voter, event)],
           map k | k in live && k.generation >= event.key.generation :: live[k], b.alone)
    else if Reaches(b.voter, event) && KeyOf(event) in b.live && b.live[KeyOf(event)] < |b.lifetimes| then
      var i := b.live[KeyOf(event)];
      Book(after.state, b.lifetimes[i := Continued(b.lifetimes[i], AsSessionEvent(event))], b.live, b.alone)
    else Book(after.state, b.lifetimes, b.live, b.alone + after.commands)
  }

  function BookRun(capacity: nat, events: seq<VoterEvent>): Book {
    if events == [] then NEW_BOOK
    else BookStep(BookRun(capacity, events[..|events| - 1]), capacity, events[|events| - 1])
  }

  /** The session had a place, and is where a run of it leads and commanded what a run of it commands. */
  ghost predicate IsRun(l: Lifetime) {
    l.name in l.elders && Result(l.state, l.commands) == Run(NewSession(l.name, l.key, l.elders), l.events)
  }

  /** Every session is a run, and the live ones are where the voter has them. */
  ghost predicate Tracks(b: Book) {
    TracksWith(b, IsRun)
  }

  ghost predicate TracksWith(b: Book, good: Lifetime -> bool) {
    && b.live.Keys == b.voter.sessions.Keys
    && (forall i :: 0 <= i < |b.lifetimes| ==> good(b.lifetimes[i]))
    && (forall k :: k in b.live ==>
          b.live[k] < |b.lifetimes| && b.lifetimes[b.live[k]].key == k && b.lifetimes[b.live[k]].state == b.voter.sessions[k])
  }

  lemma BeganIsRun(v: VoterState, capacity: nat, event: VoterEvent)
    requires Creates(v, event)
    ensures var after, l := VoterHandle(v, capacity, event), Began(v, event);
            && IsRun(l) && l.commands == after.commands
            && after.state.sessions == Retained(v.sessions[event.key := l.state], event.key.generation)
  {
    ReplayIsRun(NewSession(event.name, event.key, event.elders), event.initial.value, OfKey(v.queue, event.key));
  }

  lemma ContinuedIsRun(l: Lifetime, event: Event)
    requires IsRun(l)
    ensures IsRun(Continued(l, event))
  {
    StepThen(Handle, NewSession(l.name, l.key, l.elders), l.events, event);
  }

  lemma ReachedHandles(v: VoterState, capacity: nat, event: VoterEvent)
    requires Reaches(v, event)
    ensures var after := Handle(v.sessions[KeyOf(event)], AsSessionEvent(event));
            && VoterHandle(v, capacity, event).commands == after.commands
            && VoterHandle(v, capacity, event).state.sessions == v.sessions[KeyOf(event) := after.state]
  {
  }

  lemma OthersChangeNothing(v: VoterState, capacity: nat, event: VoterEvent)
    requires !Creates(v, event) && !Reaches(v, event)
    ensures VoterHandle(v, capacity, event).state.sessions == v.sessions
    ensures VoterHandle(v, capacity, event).commands ==
            if event.VoterStart? && event.key !in v.sessions && event.name in event.elders && |event.elders| == 1
            then [HandleOutcome(event.solo)] else []
  {
  }

  lemma BeganTracks(b: Book, l: Lifetime, generation: nat, queue: seq<Queued>, good: Lifetime -> bool)
    requires TracksWith(b, good) && good(l)
    ensures var live := b.live[l.key := |b.lifetimes|];
            TracksWith(Book(VoterState(Retained(b.voter.sessions[l.key := l.state], generation), queue), b.lifetimes + [l],
                            map k | k in live && k.generation >= generation :: live[k], b.alone), good)
  {
  }

  lemma ContinuedTracks(b: Book, l: Lifetime, queue: seq<Queued>, good: Lifetime -> bool)
    requires TracksWith(b, good) && l.key in b.live && good(l)
    ensures TracksWith(Book(VoterState(b.voter.sessions[l.key := l.state], queue), b.lifetimes[b.live[l.key] := l],
                            b.live, b.alone), good)
  {
  }

  lemma BookTracks(b: Book, capacity: nat, event: VoterEvent)
    requires Tracks(b)
    ensures Tracks(BookStep(b, capacity, event))
  {
    var queue := VoterHandle(b.voter, capacity, event).state.queue;
    if Creates(b.voter, event) {
      BeganIsRun(b.voter, capacity, event);
      BeganTracks(b, Began(b.voter, event), event.key.generation, queue, IsRun);
    } else if Reaches(b.voter, event) {
      var l := b.lifetimes[b.live[KeyOf(event)]];
      ReachedHandles(b.voter, capacity, event);
      ContinuedIsRun(l, AsSessionEvent(event));
      ContinuedTracks(b, Continued(l, AsSessionEvent(event)), queue, IsRun);
    } else {
      OthersChangeNothing(b.voter, capacity, event);
    }
  }

  /** Everything the sessions commanded. */
  ghost function CommandsOf(lifetimes: seq<Lifetime>): multiset<Command> {
    if lifetimes == [] then multiset{}
    else CommandsOf(lifetimes[..|lifetimes| - 1]) + multiset(lifetimes[|lifetimes| - 1].commands)
  }

  lemma {:induction false} CommandsContinue(lifetimes: seq<Lifetime>, i: nat, l: Lifetime, more: seq<Command>)
    requires i < |lifetimes| && l.commands == lifetimes[i].commands + more
    ensures CommandsOf(lifetimes[i := l]) == CommandsOf(lifetimes) + multiset(more)
  {
    var n := |lifetimes| - 1;
    var front := lifetimes[..n];
    assert lifetimes[i := l][..n] == if i < n then front[i := l] else front;
    if i < n {
      CommandsContinue(front, i, l, more);
      Swapped(CommandsOf(front), multiset(more), multiset(lifetimes[n].commands));
    } else {
      assert multiset(l.commands) == multiset(lifetimes[n].commands) + multiset(more);
    }
  }

  lemma Swapped(a: multiset<Command>, b: multiset<Command>, c: multiset<Command>)
    ensures a + b + c == a + c + b
  {
  }

  ghost predicate Accounts(b: Book, commands: seq<Command>) {
    multiset(commands) == CommandsOf(b.lifetimes) + multiset(b.alone)
  }

  lemma BookAccounts(b: Book, capacity: nat, event: VoterEvent, commands: seq<Command>)
    requires Tracks(b) && Accounts(b, commands)
    ensures Accounts(BookStep(b, capacity, event), commands + VoterHandle(b.voter, capacity, event).commands)
  {
    var more := VoterHandle(b.voter, capacity, event).commands;
    assert multiset(commands + more) == multiset(commands) + multiset(more);
    if Creates(b.voter, event) {
      BeganIsRun(b.voter, capacity, event);
      CommandsBegin(b.lifetimes, Began(b.voter, event));
    } else if Reaches(b.voter, event) {
      ReachedAccounts(b, capacity, event);
    } else {
      assert multiset(b.alone + more) == multiset(b.alone) + multiset(more);
    }
  }

  lemma CommandsBegin(lifetimes: seq<Lifetime>, l: Lifetime)
    ensures CommandsOf(lifetimes + [l]) == CommandsOf(lifetimes) + multiset(l.commands)
  {
    assert (lifetimes + [l])[..|lifetimes|] == lifetimes;
  }

  lemma ReachedAccounts(b: Book, capacity: nat, event: VoterEvent)
    requires Tracks(b) && Reaches(b.voter, event)
    ensures CommandsOf(BookStep(b, capacity, event).lifetimes) ==
            CommandsOf(b.lifetimes) + multiset(VoterHandle(b.voter, capacity, event).commands)
  {
    var i, more := b.live[KeyOf(event)], VoterHandle(b.voter, capacity, event).commands;
    ReachedHandles(b.voter, capacity, event);
    CommandsContinue(b.lifetimes, i, Continued(b.lifetimes[i], AsSessionEvent(event)), more);
  }

  /** The run asked to start a session of `key` among `elders`. */
  ghost predicate StartedIn(events: seq<VoterEvent>, key: DkgKey, elders: set<Name>) {
    exists event :: event in events && event.VoterStart? && event.key == key && event.elders == elders
  }

  function StartCount(events: seq<VoterEvent>): nat {
    if events == [] then 0
    else StartCount(events[..|events| - 1]) + if events[|events| - 1].VoterStart? then 1 else 0
  }

  /** Every session and every outcome of someone alone goes back to a start of its own. */
  ghost predicate StartsSuffice(b: Book, events: seq<VoterEvent>) {
    && |b.lifetimes| + |b.alone| <= StartCount(events)
    && (forall i :: 0 <= i < |b.lifetimes| ==> StartedIn(events, b.lifetimes[i].key, b.lifetimes[i].elders))
    && (forall c :: c in b.alone ==> c.HandleOutcome?)
  }

  lemma StartsStep(b: Book, capacity: nat, event: VoterEvent, events: seq<VoterEvent>)
    requires Tracks(b) && StartsSuffice(b, events)
    ensures StartsSuffice(BookStep(b, capacity, event), events + [event])
  {
    assert (events + [event])[..|events|] == events;
    if !Creates(b.voter, event) && !Reaches(b.voter, event) {
      OthersChangeNothing(b.voter, capacity, event);
    }
    forall key, elders | StartedIn(events, key, elders) ensures StartedIn(events + [event], key, elders) {
      StartedWithMore(events, event, key, elders);
    }
    assert event in events + [event];
  }

  lemma StartedWithMore(events: seq<VoterEvent>, event: VoterEvent, key: DkgKey, elders: set<Name>)
    requires StartedIn(events, key, elders)
    ensures StartedIn(events + [event], key, elders)
  {
    var e :| e in events && e.VoterStart? && e.key == key && e.elders == elders;
    assert e in events + [event];
  }

  /** The session yields at most one outcome and none after a failure agreement, and every failure
      agreement of it is a proper one. */
  ghost predicate Behaves(l: Lifetime) {
    && Orderly(false, l.commands, l.state.complete)
    && (forall i, j :: 0 <= i < j < |l.commands| ==> !(l.commands[i].HandleOutcome? && l.commands[j].HandleOutcome?))
    && AgreementsProper(l.commands, l.elders, l.key)
  }

  lemma RunsBehave(l: Lifetime)
    requires IsRun(l)
    ensures Behaves(l)
  {
    var s := NewSession(l.name, l.key, l.elders);
    NewSessionIsPending(l.name, l.key, l.elders);
    RunsAreOrderly(s, l.events);
    RunsCommandProperAgreements(s, l.events);
  }

  lemma {:induction false} BookFollowsVoter(capacity: nat, events: seq<VoterEvent>)
    ensures var b, t := BookRun(capacity, events), TracedRun(capacity, events);
            b.voter == t.voter && Tracks(b) && Accounts(b, t.commands) && StartsSuffice(b, events)
  {
    if events != [] {
      var front, event := events[..|events| - 1], events[|events| - 1];
      var b, t := BookRun(capacity, front), TracedRun(capacity, front);
      assert events == front + [event];
      BookFollowsVoter(capacity, front);
      BookTracks(b, capacity, event);
      BookAccounts(b, capacity, event, t.commands);
      StartsStep(b, capacity, event, front);
    }
  }

  /** Over any run of a voter every command is one of a session or the outcome of someone alone, each with
      a start of its own; and every session ever started, live or gone, yields at most one outcome, none
      after a failure agreement, and only proper failure agreements. */
  lemma VoterSessionsBehave(capacity: nat, events: seq<VoterEvent>)
    ensures var b, t := BookRun(capacity, events), TracedRun(capacity, events);
            && multiset(t.commands) == CommandsOf(b.lifetimes) + multiset(b.alone)
            && StartsSuffice(b, events)
            && b.live.Keys == t.voter.sessions.Keys
            && (forall i :: 0 <= i < |b.lifetimes| ==> Behaves(b.lifetimes[i]))
  {
    BookFollowsVoter(capacity, events);
    var b := BookRun(capacity, events);
    forall i | 0 <= i < |b.lifetimes| ensures Behaves(b.lifetimes[i]) {
      RunsBehave(b.lifetimes[i]);
    }
  }

  lemma {:induction false} CommandHasLifetime(lifetimes: seq<Lifetime>, c: Command) returns (i: nat)
    requires c in CommandsOf(lifetimes)
    ensures i < |lifetimes| && c in lifetimes[i].commands
  {
    if c in lifetimes[|lifetimes| - 1].commands {
      i := |lifetimes| - 1;
    } else {
      i := CommandHasLifetime(lifetimes[..|lifetimes| - 1], c);
    }
  }

  lemma AgreementHasLifetime(b: Book, commands: seq<Command>, c: Command) returns (i: nat)
    requires Accounts(b, commands) && (forall x :: x in b.alone ==> x.HandleOutcome?)
    requires c in commands && c.HandleFailureAgreement?
    ensures i < |b.lifetimes| && c in b.lifetimes[i].commands
  {
    assert c !in b.alone;
    assert c in multiset(commands) && c !in multiset(b.alone);
    i := CommandHasLifetime(b.lifetimes, c);
  }

  /** So every failure agreement a voter commands has exactly enough reports, valid for a session the run
      started and from different candidates of it. */
  lemma VoterRunsCommandProperAgreements(capacity: nat, events: seq<VoterEvent>, c: Command)
    requires c in TracedRun(capacity, events).commands && c.HandleFailureAgreement?
    ensures exists key, elders ::
              StartedIn(events, key, elders) && IsAgreement(c.failures, elders) && ReportsValid(c.failures, key)
  {
    VoterSessionsBehave(capacity, events);
    var b := BookRun(capacity, events);
    var i := AgreementHasLifetime(b, TracedRun(capacity, events).commands, c);
    assert Behaves(b.lifetimes[i]) && StartedIn(events, b.lifetimes[i].key, b.lifetimes[i].elders);
  }
}
