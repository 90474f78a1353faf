/** What holds over every run of a voter: where each received message is, and what its sessions are
    allowed to command.
 */
module DkgVoterLaws {
  import opened Wrappers
  import opened Prefixes
  import opened Messaging
  import opened DkgFailures
  import opened DkgSession
  import opened DkgSessionLaws
  import opened Sequences
  import opened Steps
  import opened BacklogModel
  import opened DkgVoterModel

  datatype VoterEvent =
    | VoterStart(name: Name, key: DkgKey, elders: set<Name>, initial: Option<Reaction>, solo: Key)
    | VoterMessage(queued: Queued)
    | VoterTimeout(key: DkgKey, token: nat, transition: Transition)
    | VoterFailure(key: DkgKey, signed: FailureSigned, named: set<Name>)

  function VoterHandle(v: VoterState, capacity: nat, event: VoterEvent): VoterResult {
    match event
    case VoterStart(name, key, elders, initial, solo) => StartedVoter(v, name, key, elders, initial, solo)
    case VoterMessage(queued) => VoterProcessed(v, capacity, queued.key, queued.message)
    case VoterTimeout(key, token, transition) => VoterTimedOut(v, key, token, transition)
    case VoterFailure(key, signed, named) => VoterProcessedFailure(v, key, signed, named)
  }

  /** Everything received so far, and of it what reached a session, what was pushed out of the full
      queue and what was dropped as too old, each in order. */
  datatype Ledger = Ledger(received: seq<Queued>, delivered: seq<Queued>, evicted: seq<Queued>, pruned: seq<Queued>)

  datatype Traced = Traced(voter: VoterState, ledger: Ledger, commands: seq<Command>)

  const NEW_VOTER: Traced := Traced(VoterState(map[], []), Ledger([], [], [], []), [])

  /** The start creates a session. */
  predicate Creates(v: VoterState, event: VoterEvent) {
    && event.VoterStart? && event.key !in v.sessions && event.name in event.elders
    && |event.elders| != 1 && event.initial.Some?
  }

  function Entered(v: VoterState, capacity: nat, ledger: Ledger, event: VoterEvent): Ledger {
    if event.VoterMessage? then
      var received := ledger.received + [event.queued];
      if event.queued.key in v.sessions
      then ledger.(received := received, delivered := ledger.delivered + [event.queued])
      else ledger.(received := received, evicted := ledger.evicted + Evicted(v.queue, capacity))
    else if Creates(v, event) then
      ledger.(delivered := ledger.delivered + OfKey(v.queue, event.key),
              pruned := ledger.pruned + Older(NotOfKey(v.queue, event.key), event.key.generation))
    else ledger
  }

  function TracedStep(t: Traced, capacity: nat, event: VoterEvent): Traced {
    var after := VoterHandle(t.voter, capacity, event);
    Traced(after.state, Entered(t.voter, capacity, t.ledger, event), t.commands + after.commands)
  }

  function TracedRun(capacity: nat, events: seq<VoterEvent>): Traced {
    if events == [] then NEW_VOTER
    else TracedStep(TracedRun(capacity, events[..|events| - 1]), capacity, events[|events| - 1])
  }

  /** No message waits for a session that is there. */
  ghost predicate NoneWaitsForSession(v: VoterState) {
    forall q :: q in v.queue ==> q.key !in v.sessions
  }

  ghost predicate Conserved(t: Traced) {
    multiset(t.ledger.received) ==
    multiset(t.ledger.delivered) + multiset(t.voter.queue) + multiset(t.ledger.evicted) + multiset(t.ledger.pruned)
  }

  lemma NoneWaitsAfter(v: VoterState, capacity: nat, event: VoterEvent)
    requires NoneWaitsForSession(v)
    ensures NoneWaitsForSession(VoterHandle(v, capacity, event).state)
  {
    match event
    case VoterStart(name, key, elders, initial, solo) =>
    case VoterMessage(queued) =>
      assert forall q :: q in Enqueued(v.queue, capacity, queued) ==> q in v.queue || q == queued;
    case _ =>
  }

  lemma QueueAfter(v: VoterState, capacity: nat, event: VoterEvent)
    ensures VoterHandle(v, capacity, event).state.queue ==
            if event.VoterMessage? && event.queued.key !in v.sessions then Enqueued(v.queue, capacity, event.queued)
            else if Creates(v, event) then NotOlder(NotOfKey(v.queue, event.key), event.key.generation)
            else v.queue
  {
  }

  lemma ConservedByStart(ledger: Ledger, queue: seq<Queued>, key: DkgKey)
    requires Conserved(Traced(VoterState(map[], queue), ledger, []))
    ensures var rest := NotOfKey(queue, key);
            multiset(ledger.received) ==
            multiset(ledger.delivered + OfKey(queue, key)) + multiset(NotOlder(rest, key.generation))
            + multiset(ledger.evicted) + multiset(ledger.pruned + Older(rest, key.generation))
  {
    var rest := NotOfKey(queue, key);
    FilterPartitions(queue, HasKey(key));
    FilterPartitions(rest, OfGeneration(key.generation));
    Regroup(multiset(ledger.delivered), multiset(ledger.evicted), multiset(ledger.pruned),
            multiset(OfKey(queue, key)), multiset(NotOlder(rest, key.generation)), multiset(Older(rest, key.generation)));
  }

  lemma Regroup(d: multiset<Queued>, e: multiset<Queued>, p: multiset<Queued>, a: multiset<Queued>, b: multiset<Queued>, c: multiset<Queued>)
    ensures d + (a + (b + c)) + e + p == (d + a) + b + e + (p + c)
  {
  }

  lemma ConservedByPush(ledger: Ledger, queue: seq<Queued>, capacity: nat, queued: Queued)
    requires Conserved(Traced(VoterState(map[], queue), ledger, []))
    ensures multiset(ledger.received + [queued]) ==
            multiset(ledger.delivered) + multiset(Enqueued(queue, capacity, queued))
            + multiset(ledger.evicted + Evicted(queue, capacity)) + multiset(ledger.pruned)
  {
    PushConserves(queue, capacity, queued);
    var d, e, p := multiset(ledger.delivered), multiset(ledger.evicted), multiset(ledger.pruned);
    var after, out := multiset(Enqueued(queue, capacity, queued)), multiset(Evicted(queue, capacity));
    calc {
      multiset(ledger.received + [queued]);
      d + multiset(queue) + e + p + multiset{queued};
      d + (multiset(queue) + multiset{queued}) + e + p;
      d + (after + out) + e + p;
      d + after + (e + out) + p;
    }
  }

  lemma ConservedAfter(t: Traced, capacity: nat, event: VoterEvent)
    requires Conserved(t)
    ensures Conserved(TracedStep(t, capacity, event))
  {
    QueueAfter(t.voter, capacity, event);
    if event.VoterMessage? {
      if event.queued.key in t.voter.sessions {
        assert multiset(t.ledger.received + [event.queued]) == multiset(t.ledger.received) + multiset{event.queued};
        assert multiset(t.ledger.delivered + [event.queued]) == multiset(t.ledger.delivered) + multiset{event.queued};
      } else {
        ConservedByPush(t.ledger, t.voter.queue, capacity, event.queued);
      }
    } else if Creates(t.voter, event) {
      ConservedByStart(t.ledger, t.voter.queue, event.key);
    }
  }

  /** What was pushed out and what is waiting, in the order they arrived: whatever was pushed out arrived
      before everything that is still waiting. */
  ghost predicate InArrivalOrder(t: Traced) {
    IsSubsequence(t.ledger.evicted + t.voter.queue, t.ledger.received)
  }

  lemma OrderAfter(t: Traced, capacity: nat, event: VoterEvent)
    requires InArrivalOrder(t)
    ensures InArrivalOrder(TracedStep(t, capacity, event))
  {
    var evicted, queue, received := t.ledger.evicted, t.voter.queue, t.ledger.received;
    QueueAfter(t.voter, capacity, event);
    if event.VoterMessage? {
      SubsequenceGrows(evicted + queue, received, event.queued);
      PushedOutFirst(evicted, queue, capacity, event.queued);
    } else if Creates(t.voter, event) {
      var rest := NotOfKey(queue, event.key);
      var left := NotOlder(rest, event.key.generation);
      FilterIsSubsequence(queue, Not(HasKey(event.key)));
      FilterIsSubsequence(rest, OfGeneration(event.key.generation));
      SubsequenceTransitive(left, rest, queue);
      SubsequenceAfter(evicted, left, queue);
      SubsequenceTransitive(evicted + left, evicted + queue, received);
    }
  }

  lemma PushedOutFirst(evicted: seq<Queued>, queue: seq<Queued>, capacity: nat, queued: Queued)
    ensures (evicted + Evicted(queue, capacity)) + Enqueued(queue, capacity, queued) == (evicted + queue) + [queued]
  {
  }

  /** Every pruned message is of an older generation than some session the run asked to start. */
  ghost predicate PrunedAreOlder(t: Traced, events: seq<VoterEvent>) {
    forall q :: q in t.ledger.pruned ==>
      exists event :: event in events && event.VoterStart? && q.key.generation < event.key.generation
  }

  /** A start that creates a session keeps exactly the waiting messages that are for other sessions and not
      of an older generation. */
  lemma StartKeepsIff(v: VoterState, capacity: nat, event: VoterEvent, q: Queued)
    requires Creates(v, event) && q in v.queue
    ensures q in VoterHandle(v, capacity, event).state.queue <==>
            q.key != event.key && q.key.generation >= event.key.generation
  {
  }

  lemma PrunedAfter(t: Traced, capacity: nat, event: VoterEvent, events: seq<VoterEvent>)
    requires PrunedAreOlder(t, events)
    ensures PrunedAreOlder(TracedStep(t, capacity, event), events + [event])
  {
    var after := TracedStep(t, capacity, event);
    forall q | q in after.ledger.pruned
      ensures exists e :: e in events + [event] && e.VoterStart? && q.key.generation < e.key.generation
    {
      if q in t.ledger.pruned {
        var e :| e in events && e.VoterStart? && q.key.generation < e.key.generation;
        assert e in events + [event];
      } else {
        assert event in events + [event] && q in Older(NotOfKey(t.voter.queue, event.key), event.key.generation);
      }
    }
  }

  /** Over any run no message waits for a session that is there; every message received is in exactly
      one place, delivered, waiting, evicted or pruned; the waiting ones are in arrival order and arrived
      after all evicted ones; and the pruned ones are of an older generation than a session started. */
  lemma {:induction false} VoterRunsKeepTrack(capacity: nat, events: seq<VoterEvent>)
    ensures var t := TracedRun(capacity, events);
            NoneWaitsForSession(t.voter) && Conserved(t) && InArrivalOrder(t) && PrunedAreOlder(t, events)
  {
    if events != [] {
      var front, event := events[..|events| - 1], events[|events| - 1];
      var before := TracedRun(capacity, front);
      assert events == front + [event];
      VoterRunsKeepTrack(capacity, front);
      NoneWaitsAfter(before.voter, capacity, event);
      ConservedAfter(before, capacity, event);
      OrderAfter(before, capacity, event);
      PrunedAfter(before, capacity, event, front);
    }
  }

  /** The queue never outgrows its capacity. */
  lemma {:induction false} QueueStaysBounded(capacity: nat, events: seq<VoterEvent>)
    requires capacity >= BACKLOG_CAPACITY
    ensures |TracedRun(capacity, events).voter.queue| <= capacity
  {
    if events != [] {
      var before, event := TracedRun(capacity, events[..|events| - 1]), events[|events| - 1];
      QueueStaysBounded(capacity, events[..|events| - 1]);
      QueueAfter(before.voter, capacity, event);
      if event.VoterStart? {
        FilterIsShorter(before.voter.queue, Not(HasKey(event.key)));
        FilterIsShorter(NotOfKey(before.voter.queue, event.key), OfGeneration(event.key.generation));
      }
    }
  }

  /** A start replays exactly the waiting messages of its key, in arrival order, right after its own
      first broadcast, and leaves none of them behind. */
  lemma StartReplaysWaiting(t: Traced, capacity: nat, event: VoterEvent)
    requires Creates(t.voter, event) && InArrivalOrder(t)
    ensures var waiting := OfKey(t.voter.queue, event.key);
            var after := TracedStep(t, capacity, event);
            && IsSubsequence(waiting, t.ledger.received)
            && after.ledger.delivered == t.ledger.delivered + waiting
            && (forall q :: q in waiting <==> q in t.voter.queue && q.key == event.key)
            && (forall q :: q in after.voter.queue ==> q.key != event.key)
            && event.key in after.voter.sessions
            && var run := Run(NewSession(event.name, event.key, event.elders), ReplayEvents(event.initial.value, waiting));
               after.voter.sessions[event.key] == run.state && after.commands == t.commands + run.commands
  {
    var waiting := OfKey(t.voter.queue, event.key);
    FilterIsSubsequence(t.voter.queue, HasKey(event.key));
    BackIsSubsequence(t.ledger.evicted, t.voter.queue);
    SubsequenceTransitive(t.voter.queue, t.ledger.evicted + t.voter.queue, t.ledger.received);
    SubsequenceTransitive(waiting, t.voter.queue, t.ledger.received);
    ReplayIsRun(NewSession(event.name, event.key, event.elders), event.initial.value, waiting);
  }

  function AsReceived(message: Reaction): Event {
    Received(message)
  }

  /** A session's first broadcast followed by the given messages. */
  function ReplayEvents(initial: Reaction, waiting: seq<Queued>): seq<Event> {
    [Started(initial)] + Mapped(AsReceived, Messages(waiting))
  }

  lemma ReplayIsRun(s: SessionState, initial: Reaction, waiting: seq<Queued>)
    ensures var broadcast := Broadcast(s, initial);
            var replayed := StepAll(ProcessedMessage, broadcast.state, Messages(waiting));
            Run(s, ReplayEvents(initial, waiting)) == Result(replayed.state, broadcast.commands + replayed.commands)
  {
    StepOnce(Handle, s, Started(initial));
    StepAppend(Handle, s, [Started(initial)], Mapped(AsReceived, Messages(waiting)));
    StepMapped(Handle, ProcessedMessage, AsReceived, Broadcast(s, initial).state, Messages(waiting));
  }
}
