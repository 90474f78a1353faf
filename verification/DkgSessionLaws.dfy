/** What holds over every run of a DKG session. The nested broadcasts of a run amount to one flat
    sequence of simple acts; what every act keeps, every run keeps.
 */
module DkgSessionLaws {
  import opened Prefixes
  import opened Messaging
  import opened Quorum
  import opened DkgFailures
  import opened DkgSession
  import opened Steps

  datatype Act =
    | ResetTimer(token: nat)
    | Announce(message: nat)
    | AnnounceTimer(token: nat)
    | CheckKeys(view: KeyGenView)
    | Report(nonParticipants: set<Name>)
    | Receive(signed: FailureSigned, named: set<Name>)

  function Perform(s: SessionState, act: Act): SessionResult {
    match act
    case ResetTimer(token) => Result(s.(timerToken := token), [])
    case Announce(message) => Result(s, if Recipients(s) == {} then [] else [SendMessage(Recipients(s), message)])
    case AnnounceTimer(token) => Result(s, [ScheduleTimeout(token)])
    case CheckKeys(view) => Checked(s, view)
    case Report(nonParticipants) => ReportedFailure(s, nonParticipants)
    case Receive(signed, named) => ProcessedFailure(s, signed, named)
  }

  function PerformAll(s: SessionState, acts: seq<Act>): SessionResult {
    StepAll(Perform, s, acts)
  }

  // A message with all it sets off, as one sequence of acts.

  function MessageActs(r: Reaction): seq<Act>
    decreases r, 0
  {
    (if r.responses == [] then [] else [ResetTimer(r.token)])
    + BroadcastsActs(r.responses)
    + (if r.responses == [] then [] else [AnnounceTimer(r.token)])
    + [CheckKeys(r.view)]
  }

  function BroadcastActs(r: Reaction): seq<Act>
    decreases r, 1
  {
    [Announce(r.message)] + MessageActs(r)
  }

  function BroadcastsActs(rs: seq<Reaction>): seq<Act>
    decreases rs, 0
  {
    if rs == [] then [] else BroadcastsActs(rs[..|rs| - 1]) + BroadcastActs(rs[|rs| - 1])
  }

  datatype Event =
    | Started(initial: Reaction)
    | Received(message: Reaction)
    | Timeout(transition: Transition)
    | FailureReport(signed: FailureSigned, named: set<Name>)

  function Handle(s: SessionState, event: Event): SessionResult {
    match event
    case Started(initial) => Broadcast(s, initial)
    case Received(message) => ProcessedMessage(s, message)
    case Timeout(transition) => TimedOut(s, transition)
    case FailureReport(signed, named) => ProcessedFailure(s, signed, named)
  }

  /** A run of a session: its state and everything it commanded. */
  function Run(s: SessionState, events: seq<Event>): SessionResult {
    StepAll(Handle, s, events)
  }

  function TransitionActs(transition: Transition): seq<Act> {
    match transition
    case TransitionFailed => [Report({})]
    case Moved(messages, token, view) =>
      BroadcastsActs(messages) + [ResetTimer(token)] + [AnnounceTimer(token)] + [CheckKeys(view)]
  }

  function EventActs(s: SessionState, event: Event): seq<Act> {
    match event
    case Started(initial) => BroadcastActs(initial)
    case Received(message) => MessageActs(message)
    case Timeout(transition) => if s.complete then [] else TransitionActs(transition)
    case FailureReport(signed, named) => [Receive(signed, named)]
  }

  lemma {:induction false} MessageIsActs(s: SessionState, r: Reaction)
    ensures ProcessedMessage(s, r) == PerformAll(s, MessageActs(r))
    decreases r, 0
  {
    if r.responses == [] {
      SilentMessageIsActs(s, r);
    } else {
      var started := s.(timerToken := r.token);
      BroadcastsAreActs(started, r.responses);
      assert PerformAll(s, [ResetTimer(r.token)] + BroadcastsActs(r.responses)) == BroadcastAll(started, r.responses) by {
        ResetFirst(s, r.token, BroadcastsActs(r.responses));
      }
      ThenTimerAndCheck(s, [ResetTimer(r.token)] + BroadcastsActs(r.responses), r.token, r.view);
    }
  }

  lemma SilentMessageIsActs(s: SessionState, r: Reaction)
    requires r.responses == []
    ensures ProcessedMessage(s, r) == PerformAll(s, MessageActs(r))
  {
    assert MessageActs(r) == [CheckKeys(r.view)];
    StepOnce(Perform, s, CheckKeys(r.view));
  }

  lemma ResetFirst(s: SessionState, token: nat, acts: seq<Act>)
    ensures PerformAll(s, [ResetTimer(token)] + acts) == PerformAll(s.(timerToken := token), acts)
  {
    StepOnce(Perform, s, ResetTimer(token));
    StepAppend(Perform, s, [ResetTimer(token)], acts);
  }

  lemma ThenTimerAndCheck(s: SessionState, acts: seq<Act>, token: nat, view: KeyGenView)
    ensures var before := PerformAll(s, acts);
            var checked := Checked(before.state, view);
            PerformAll(s, acts + [AnnounceTimer(token)] + [CheckKeys(view)]) ==
            Result(checked.state, before.commands + [ScheduleTimeout(token)] + checked.commands)
  {
    StepThen(Perform, s, acts, AnnounceTimer(token));
    StepThen(Perform, s, acts + [AnnounceTimer(token)], CheckKeys(view));
  }

  lemma {:induction false} BroadcastIsActs(s: SessionState, r: Reaction)
    ensures Broadcast(s, r) == PerformAll(s, BroadcastActs(r))
    decreases r, 1
  {
    MessageIsActs(s, r);
    StepOnce(Perform, s, Announce(r.message));
    StepAppend(Perform, s, [Announce(r.message)], MessageActs(r));
  }

  lemma {:induction false} BroadcastsAreActs(s: SessionState, rs: seq<Reaction>)
    ensures BroadcastAll(s, rs) == PerformAll(s, BroadcastsActs(rs))
    decreases rs, 0
  {
    if rs != [] {
      var front, last := rs[..|rs| - 1], rs[|rs| - 1];
      BroadcastsAreActs(s, front);
      BroadcastIsActs(BroadcastAll(s, front).state, last);
      StepAppend(Perform, s, BroadcastsActs(front), BroadcastActs(last));
    }
  }

  lemma TransitionIsActs(s: SessionState, transition: Transition)
    requires !s.complete
    ensures TimedOut(s, transition) == PerformAll(s, TransitionActs(transition))
  {
    match transition
    case TransitionFailed => StepOnce(Perform, s, Report({}));
    case Moved(messages, token, view) =>
      BroadcastsAreActs(s, messages);
      StepThen(Perform, s, BroadcastsActs(messages), ResetTimer(token));
      ThenTimerAndCheck(s, BroadcastsActs(messages) + [ResetTimer(token)], token, view);
  }

  /** Handling an event, however deep its broadcasts nest, is performing a flat sequence of acts. */
  lemma EventIsActs(s: SessionState, event: Event)
    ensures Handle(s, event) == PerformAll(s, EventActs(s, event))
  {
    match event
    case Started(initial) => BroadcastIsActs(s, initial);
    case Received(message) => MessageIsActs(s, message);
    case Timeout(transition) => if !s.complete { TransitionIsActs(s, transition); }
    case FailureReport(signed, named) => StepOnce(Perform, s, Receive(signed, named));
  }

  // Completion.

  predicate Concludes(command: Command) {
    command.HandleOutcome? || command.HandleFailureAgreement?
  }

  /** Commands issued while completion went from `before` to `after`: once complete the session stays
      so, what concludes it completes it and nothing else does, and no outcome follows a conclusion. */
  ghost predicate Orderly(before: bool, commands: seq<Command>, after: bool) {
    && (before ==> after)
    && (!before && after ==> exists c :: c in commands && Concludes(c))
    && (before ==> forall c :: c in commands ==> !c.HandleOutcome?)
    && (forall c :: c in commands && Concludes(c) ==> after)
    && (forall i, j :: 0 <= i < j < |commands| && Concludes(commands[i]) ==> !commands[j].HandleOutcome?)
  }

  lemma OrderlyAppend(a: bool, xs: seq<Command>, b: bool, ys: seq<Command>, c: bool)
    requires Orderly(a, xs, b) && Orderly(b, ys, c)
    ensures Orderly(a, xs + ys, c)
  {
  }

  lemma ActIsOrderly(s: SessionState, act: Act)
    ensures Orderly(s.complete, Perform(s, act).commands, Perform(s, act).state.complete)
  {
    var commands := Perform(s, act).commands;
    assert commands != [] ==> commands[0] in commands;
  }

  lemma {:induction false} ActsAreOrderly(s: SessionState, acts: seq<Act>)
    ensures Orderly(s.complete, PerformAll(s, acts).commands, PerformAll(s, acts).state.complete)
  {
    if acts != [] {
      var front := PerformAll(s, acts[..|acts| - 1]);
      var last := Perform(front.state, acts[|acts| - 1]);
      ActsAreOrderly(s, acts[..|acts| - 1]);
      ActIsOrderly(front.state, acts[|acts| - 1]);
      OrderlyAppend(s.complete, front.commands, front.state.complete, last.commands, last.state.complete);
    }
  }

  /** Over any run a session yields at most one outcome and none after a failure agreement; it completes
      only with one of the two, and once complete it stays complete. */
  lemma {:induction false} RunsAreOrderly(s: SessionState, events: seq<Event>)
    ensures Orderly(s.complete, Run(s, events).commands, Run(s, events).state.complete)
    ensures forall i, j :: 0 <= i < j < |Run(s, events).commands| ==>
              !(Run(s, events).commands[i].HandleOutcome? && Run(s, events).commands[j].HandleOutcome?)
  {
    if events != [] {
      var front, event := Run(s, events[..|events| - 1]), events[|events| - 1];
      var last := Handle(front.state, event);
      RunsAreOrderly(s, events[..|events| - 1]);
      EventIsActs(front.state, event);
      ActsAreOrderly(front.state, EventActs(front.state, event));
      OrderlyAppend(s.complete, front.commands, front.state.complete, last.commands, last.state.complete);
    }
  }

  // Failure agreements.

  /** The session has a place among at least one candidate and has not yet enough reports; those it
      has are valid and from different candidates. */
  ghost predicate Pending(s: SessionState) {
    && s.name in s.elders
    && |s.failures.signeds| <= |s.elders| - Supermajority(|s.elders|)
    && DistinctSigners(s.failures) && Signers(s.failures) <= s.elders
    && ReportsValid(s.failures, s.dkgKey)
  }

  ghost predicate ReportsValid(failures: FailureSet, dkgKey: DkgKey) {
    forall signed :: signed in failures.signeds ==>
      FailureVerifies(signed, dkgKey, signed.signature.nonParticipants)
  }

  /** Every failure agreement commanded is a proper one. */
  ghost predicate AgreementsProper(commands: seq<Command>, elders: set<Name>, dkgKey: DkgKey) {
    forall c :: c in commands && c.HandleFailureAgreement? ==>
      IsAgreement(c.failures, elders) && ReportsValid(c.failures, dkgKey)
  }

  lemma InsertedStaysPending(s: SessionState, signed: FailureSigned, named: set<Name>)
    requires Pending(s) && signed.publicKey in s.elders && FailureVerifies(signed, s.dkgKey, named)
    ensures var after := s.(failures := WithFailure(s.failures, signed, named));
            if HasSigner(s.failures, signed.publicKey) then Pending(after)
            else
              var checked := CheckedAgreement(after);
              Pending(checked.state) && AgreementsProper(checked.commands, s.elders, s.dkgKey)
  {
  }

  /** Every act keeps the session's place and its pending reports, and commands only proper
      agreements. */
  lemma ActKeepsPending(s: SessionState, act: Act)
    requires Pending(s)
    ensures var after := Perform(s, act);
            && Pending(after.state) && AgreementsProper(after.commands, s.elders, s.dkgKey)
            && after.state.elders == s.elders && after.state.dkgKey == s.dkgKey && after.state.name == s.name
  {
    match act
    case CheckKeys(view) => CheckKeepsPending(s, view);
    case Report(nonParticipants) => ReportKeepsPending(s, nonParticipants);
    case Receive(signed, named) =>
      if signed.publicKey in s.elders && FailureVerifies(signed, s.dkgKey, named) {
        InsertedStaysPending(s, signed, named);
      }
    case _ =>
  }

  lemma CheckKeepsPending(s: SessionState, view: KeyGenView)
    requires Pending(s)
    ensures var after := Checked(s, view);
            && Pending(after.state) && AgreementsProper(after.commands, s.elders, s.dkgKey)
            && after.state.elders == s.elders && after.state.dkgKey == s.dkgKey && after.state.name == s.name
  {
    if view.Keys? {
      ReportKeepsPending(s, if view.participants != s.elders then s.elders - view.participants else {});
    }
  }

  lemma ReportKeepsPending(s: SessionState, named: set<Name>)
    requires Pending(s)
    ensures var after := ReportedFailure(s, named);
            && Pending(after.state) && AgreementsProper(after.commands, s.elders, s.dkgKey)
            && after.state.elders == s.elders && after.state.dkgKey == s.dkgKey && after.state.name == s.name
  {
    InsertedStaysPending(s, SignFailure(s.name, named, s.dkgKey), named);
  }

  lemma {:induction false} ActsKeepPending(s: SessionState, acts: seq<Act>)
    requires Pending(s)
    ensures var after := PerformAll(s, acts);
            && Pending(after.state) && AgreementsProper(after.commands, s.elders, s.dkgKey)
            && after.state.elders == s.elders && after.state.dkgKey == s.dkgKey && after.state.name == s.name
  {
    if acts != [] {
      ActsKeepPending(s, acts[..|acts| - 1]);
      ActKeepsPending(PerformAll(s, acts[..|acts| - 1]).state, acts[|acts| - 1]);
    }
  }

  lemma NewSessionIsPending(name: Name, dkgKey: DkgKey, elders: set<Name>)
    requires name in elders
    ensures Pending(NewSession(name, dkgKey, elders))
  {
  }

  /** Over any run of a session that starts with a place among its candidates, every failure agreement
      carries exactly `n - supermajority(n) + 1` valid reports from different candidates, and so
      shares a candidate with every supermajority of them. */
  lemma {:induction false} RunsCommandProperAgreements(s: SessionState, events: seq<Event>)
    requires Pending(s)
    ensures var after := Run(s, events);
            && Pending(after.state) && AgreementsProper(after.commands, s.elders, s.dkgKey)
            && after.state.elders == s.elders && after.state.dkgKey == s.dkgKey && after.state.name == s.name
    ensures forall c, majority | c in Run(s, events).commands && c.HandleFailureAgreement? ::
              majority <= s.elders && |majority| >= Supermajority(|s.elders|) ==> Signers(c.failures) * majority != {}
  {
    if events != [] {
      var front, event := Run(s, events[..|events| - 1]), events[|events| - 1];
      RunsCommandProperAgreements(s, events[..|events| - 1]);
      EventIsActs(front.state, event);
      ActsKeepPending(front.state, EventActs(front.state, event));
    }
    forall c, majority | c in Run(s, events).commands && c.HandleFailureAgreement?
      && majority <= s.elders && |majority| >= Supermajority(|s.elders|)
      ensures Signers(c.failures) * majority != {}
    {
      AgreementBlocksSupermajority(c.failures, s.elders, majority);
    }
  }

  // Verification of agreements elsewhere.

  /** Every report names `named`: those already in the set and the one the set stands for. */
  ghost predicate AllName(failures: FailureSet, named: set<Name>) {
    && (forall signed :: signed in failures.signeds ==> signed.signature.nonParticipants == named)
    && (failures.nonParticipants == named || (failures.nonParticipants == {} && failures.signeds == []))
  }

  /** Of the reports the act makes, and of those it brings that are valid and from a candidate, none
      names anyone but `named`. */
  ghost predicate ActNames(s: SessionState, act: Act, named: set<Name>) {
    match act
    case CheckKeys(view) =>
      !s.complete && view.Keys? ==>
        if view.participants != s.elders then s.elders - view.participants == named
        else view.shareMatches || named == {}
    case Report(nonParticipants) => nonParticipants == named
    case Receive(signed, other) =>
      signed.publicKey in s.elders && FailureVerifies(signed, s.dkgKey, other) ==> other == named
    case _ => true
  }

  /** The agreement carries what every one of its reports names. */
  ghost predicate Unanimous(failures: FailureSet) {
    forall signed :: signed in failures.signeds ==> signed.signature.nonParticipants == failures.nonParticipants
  }

  ghost predicate AllUnanimous(commands: seq<Command>) {
    forall c :: c in commands && c.HandleFailureAgreement? ==> Unanimous(c.failures)
  }

  lemma ActKeepsNames(s: SessionState, act: Act, named: set<Name>)
    requires AllName(s.failures, named) && ActNames(s, act, named)
    ensures AllName(Perform(s, act).state.failures, named) && AllUnanimous(Perform(s, act).commands)
  {
  }

  ghost predicate ActsName(s: SessionState, acts: seq<Act>, named: set<Name>) {
    || acts == []
    || (&& ActsName(s, acts[..|acts| - 1], named)
        && ActNames(PerformAll(s, acts[..|acts| - 1]).state, acts[|acts| - 1], named))
  }

  ghost predicate EventNames(s: SessionState, event: Event, named: set<Name>) {
    ActsName(s, EventActs(s, event), named)
  }

  lemma {:induction false} ActsKeepNames(s: SessionState, acts: seq<Act>, named: set<Name>)
    requires AllName(s.failures, named) && ActsName(s, acts, named)
    ensures AllName(PerformAll(s, acts).state.failures, named) && AllUnanimous(PerformAll(s, acts).commands)
  {
    if acts != [] {
      ActsKeepNames(s, acts[..|acts| - 1], named);
      ActKeepsNames(PerformAll(s, acts[..|acts| - 1]).state, acts[|acts| - 1], named);
    }
  }

  ghost predicate RunNames(s: SessionState, events: seq<Event>, named: set<Name>) {
    || events == []
    || (&& RunNames(s, events[..|events| - 1], named)
        && EventNames(Run(s, events[..|events| - 1]).state, events[|events| - 1], named))
  }

  lemma {:induction false} RunKeepsNames(s: SessionState, events: seq<Event>, named: set<Name>)
    requires AllName(s.failures, named) && RunNames(s, events, named)
    ensures AllName(Run(s, events).state.failures, named) && AllUnanimous(Run(s, events).commands)
  {
    if events != [] {
      var front, event := events[..|events| - 1], events[|events| - 1];
      var before := Run(s, front).state;
      RunKeepsNames(s, front, named);
      EventIsActs(before, event);
      ActsKeepNames(before, EventActs(before, event), named);
    }
  }

  /** A failure agreement that a run commands passes verification at an elder with the same candidates and
      generation exactly when each of its reports names the non-participants it carries. */
  lemma CommandedVerifiesIff(name: Name, candidates: ElderCandidates, generation: nat, events: seq<Event>, c: Command)
    requires name in candidates.elders
    requires c in Run(NewSession(name, KeyFor(candidates, generation), candidates.elders.Keys), events).commands
    requires c.HandleFailureAgreement?
    ensures VerifyFailures(c.failures, candidates, generation) <==> Unanimous(c.failures)
  {
    var s := NewSession(name, KeyFor(candidates, generation), candidates.elders.Keys);
    NewSessionIsPending(name, s.dkgKey, s.elders);
    RunsCommandProperAgreements(s, events);
    AgreementVerifiesIff(c.failures, candidates, generation);
  }

  /** So if all reports of a run that count name the same non-participants, every failure agreement it
      commands passes verification. */
  lemma AgreementsVerifyElsewhere(
      name: Name, candidates: ElderCandidates, generation: nat, events: seq<Event>, named: set<Name>, c: Command)
    requires name in candidates.elders
    requires var s := NewSession(name, KeyFor(candidates, generation), candidates.elders.Keys);
             RunNames(s, events, named) && c in Run(s, events).commands && c.HandleFailureAgreement?
    ensures VerifyFailures(c.failures, candidates, generation)
  {
    RunKeepsNames(NewSession(name, KeyFor(candidates, generation), candidates.elders.Keys), events, named);
    CommandedVerifiesIff(name, candidates, generation, events, c);
  }

  // One candidate spoils an agreement.

  function ReportOf(dkgKey: DkgKey, reporter: Name, named: set<Name>): Event {
    FailureReport(SignFailure(reporter, named, dkgKey), named)
  }

  /** The reports that each of `reporters` makes without naming anyone. */
  function PlainReports(dkgKey: DkgKey, reporters: seq<Name>): seq<FailureSigned> {
    seq(|reporters|, i requires 0 <= i < |reporters| => SignFailure(reporters[i], {}, dkgKey))
  }

  /** Each reporter reports once without naming anyone, and the first of them once more naming `named`
      right after. */
  function SpoilingReports(dkgKey: DkgKey, reporters: seq<Name>, named: set<Name>): seq<Event>
    requires reporters != []
  {
    if |reporters| == 1 then [ReportOf(dkgKey, reporters[0], {})] + [ReportOf(dkgKey, reporters[0], named)]
    else SpoilingReports(dkgKey, reporters[..|reporters| - 1], named) + [ReportOf(dkgKey, reporters[|reporters| - 1], {})]
  }

  ghost predicate DistinctNames(names: seq<Name>) {
    forall i, j :: 0 <= i < j < |names| ==> names[i] != names[j]
  }

  /** The reports so far, spoiled by the repeated one. */
  function Spoiled(dkgKey: DkgKey, reporters: seq<Name>, named: set<Name>): FailureSet {
    FailureSet(PlainReports(dkgKey, reporters), named)
  }

  lemma {:induction false} SpoiledSoFar(s: SessionState, reporters: seq<Name>, named: set<Name>)
    requires s.failures == NO_FAILURES && reporters != [] && named != {} && DistinctNames(reporters)
    requires forall r :: r in reporters ==> r in s.elders
    requires |reporters| <= |s.elders| - Supermajority(|s.elders|)
    ensures Run(s, SpoilingReports(s.dkgKey, reporters, named)) ==
            Result(s.(failures := Spoiled(s.dkgKey, reporters, named)), [])
    decreases |reporters|
  {
    var key, last := s.dkgKey, reporters[|reporters| - 1];
    if |reporters| == 1 {
      FirstReportTwice(s, last, named);
      assert PlainReports(key, reporters) == [SignFailure(last, {}, key)];
    } else {
      var front := reporters[..|reporters| - 1];
      SpoiledSoFar(s, front, named);
      StepThen(Handle, s, SpoilingReports(key, front, named), ReportOf(key, last, {}));
      LastReportIsNew(key, reporters, named);
      ReportCounts(s.(failures := Spoiled(key, front, named)), last, {});
    }
  }

  /** What a candidate's report does. */
  lemma ReportCounts(s: SessionState, reporter: Name, named: set<Name>)
    requires reporter in s.elders
    ensures var after := s.(failures := WithFailure(s.failures, SignFailure(reporter, named, s.dkgKey), named));
            Handle(s, ReportOf(s.dkgKey, reporter, named)) ==
            if HasSigner(s.failures, reporter) then Result(after, []) else CheckedAgreement(after)
  {
  }

  lemma FirstReportTwice(s: SessionState, reporter: Name, named: set<Name>)
    requires s.failures == NO_FAILURES && reporter in s.elders
    requires 1 <= |s.elders| - Supermajority(|s.elders|)
    ensures var key := s.dkgKey;
            Run(s, [ReportOf(key, reporter, {})] + [ReportOf(key, reporter, named)]) ==
            Result(s.(failures := FailureSet([SignFailure(reporter, {}, key)], named)), [])
  {
    var key := s.dkgKey;
    var first := s.(failures := FailureSet([SignFailure(reporter, {}, key)], {}));
    ReportCounts(s, reporter, {});
    assert [] + [SignFailure(reporter, {}, key)] == [SignFailure(reporter, {}, key)];
    StepOnce(Handle, s, ReportOf(key, reporter, {}));
    StepThen(Handle, s, [ReportOf(key, reporter, {})], ReportOf(key, reporter, named));
    assert SignFailure(reporter, {}, key) in first.failures.signeds;
    ReportCounts(first, reporter, named);
  }

  lemma LastReportIsNew(dkgKey: DkgKey, reporters: seq<Name>, named: set<Name>)
    requires |reporters| > 1 && DistinctNames(reporters) && named != {}
    ensures var front, last := reporters[..|reporters| - 1], reporters[|reporters| - 1];
            && !HasSigner(Spoiled(dkgKey, front, named), last)
            && WithFailure(Spoiled(dkgKey, front, named), SignFailure(last, {}, dkgKey), {}) ==
               Spoiled(dkgKey, reporters, named)
  {
    var front := reporters[..|reporters| - 1];
    assert PlainReports(dkgKey, reporters) == PlainReports(dkgKey, front) + [SignFailure(reporters[|reporters| - 1], {}, dkgKey)];
  }

  /** Where more than one report is needed, as among four candidates or more, one of them can spoil the agreement: a repeated report is not counted,
      but what it names is kept if nobody was named before. All reports of the agreement that is then
      commanded name nobody, the agreement carries what was named, and it does not pass verification. */
  lemma RepeatedReportSpoilsAgreement(
      name: Name, candidates: ElderCandidates, generation: nat, reporters: seq<Name>, named: set<Name>)
    requires name in candidates.elders && named != {} && DistinctNames(reporters) && |reporters| >= 2
    requires forall r :: r in reporters ==> r in candidates.elders
    requires |reporters| == |candidates.elders| - Supermajority(|candidates.elders|) + 1
    ensures var key := KeyFor(candidates, generation);
            var failures := Spoiled(key, reporters, named);
            && Run(NewSession(name, key, candidates.elders.Keys), SpoilingReports(key, reporters, named)).commands ==
               [HandleFailureAgreement(failures)]
            && !VerifyFailures(failures, candidates, generation)
  {
    var key := KeyFor(candidates, generation);
    var s := NewSession(name, key, candidates.elders.Keys);
    var front, last := reporters[..|reporters| - 1], reporters[|reporters| - 1];
    assert |candidates.elders| == |s.elders|;
    SpoiledSoFar(s, front, named);
    StepThen(Handle, s, SpoilingReports(key, front, named), ReportOf(key, last, {}));
    LastReportIsNew(key, reporters, named);
    ReportCounts(s.(failures := Spoiled(key, front, named)), last, {});
    var failures, events := Spoiled(key, reporters, named), SpoilingReports(key, reporters, named);
    assert Run(s, events).commands == [HandleFailureAgreement(failures)];
    CommandedVerifiesIff(name, candidates, generation, events, HandleFailureAgreement(failures));
    assert failures.signeds[0] in failures.signeds;
  }
}
