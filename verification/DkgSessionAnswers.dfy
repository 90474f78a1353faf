/** What a DKG session answers: when it yields an outcome, when it reports a failure and who learns of it,
    which messages it sends on, and which timeout it waits for.
 */
module DkgSessionAnswers {
  import opened Prefixes
  import opened Messaging
  import opened DkgFailures
  import opened DkgSession
  import opened DkgSessionLaws
  import opened Steps

  // Outcomes.

  /** An open session finds that all elders took part and that its share of the key set matches. */
  predicate OutcomeDue(s: SessionState, act: Act, keySet: Key) {
    !s.complete && act == CheckKeys(Keys(s.elders, true, keySet))
  }

  lemma ActOutcomeIff(s: SessionState, act: Act, keySet: Key)
    ensures HandleOutcome(keySet) in Perform(s, act).commands <==> OutcomeDue(s, act, keySet)
  {
  }

  ghost predicate ActsDeliver(s: SessionState, acts: seq<Act>, keySet: Key) {
    && acts != []
    && (|| ActsDeliver(s, acts[..|acts| - 1], keySet)
        || OutcomeDue(PerformAll(s, acts[..|acts| - 1]).state, acts[|acts| - 1], keySet))
  }

  lemma {:induction false} ActsOutcomeIff(s: SessionState, acts: seq<Act>, keySet: Key)
    ensures HandleOutcome(keySet) in PerformAll(s, acts).commands <==> ActsDeliver(s, acts, keySet)
  {
    if acts != [] {
      ActsOutcomeIff(s, acts[..|acts| - 1], keySet);
      ActOutcomeIff(PerformAll(s, acts[..|acts| - 1]).state, acts[|acts| - 1], keySet);
    }
  }

  /** Some act of the run, while the session is open, finds a matching share of `keySet` made by all. */
  ghost predicate RunDelivers(s: SessionState, events: seq<Event>, keySet: Key) {
    && events != []
    && var before := Run(s, events[..|events| - 1]).state;
       || RunDelivers(s, events[..|events| - 1], keySet)
       || ActsDeliver(before, EventActs(before, events[|events| - 1]), keySet)
  }

  /** A run yields an outcome exactly when some check of an open session finds all elders taking part and a
      matching share, and the outcome is the key set found. */
  lemma {:induction false} RunOutcomeIff(s: SessionState, events: seq<Event>, keySet: Key)
    ensures HandleOutcome(keySet) in Run(s, events).commands <==> RunDelivers(s, events, keySet)
  {
    if events != [] {
      var before := Run(s, events[..|events| - 1]).state;
      RunOutcomeIff(s, events[..|events| - 1], keySet);
      EventIsActs(before, events[|events| - 1]);
      ActsOutcomeIff(before, EventActs(before, events[|events| - 1]), keySet);
    }
  }

  // Our own reports.

  /** The act finds a failure, and these did not take part. */
  predicate FindsFailure(s: SessionState, act: Act, missing: set<Name>) {
    || act == Report(missing)
    || (&& !s.complete && act.CheckKeys? && act.view.Keys? && missing == s.elders - act.view.participants
        && !(act.view.participants == s.elders && act.view.shareMatches))
  }

  /** A session tells all other elders of a failure exactly when it finds one and has not reported before,
      and the report it signs names those who did not take part. */
  lemma ReportedIff(s: SessionState, act: Act, recipients: set<Name>, signed: FailureSigned, named: set<Name>)
    ensures SendFailureObservation(recipients, signed, named) in Perform(s, act).commands <==>
            && FindsFailure(s, act, named) && !HasSigner(s.failures, s.name)
            && recipients == s.elders - {s.name} && signed == SignFailure(s.name, named, s.dkgKey)
  {
    var report := SignFailure(s.name, named, s.dkgKey);
    assert forall c :: c in CheckedAgreement(s.(failures := WithFailure(s.failures, report, named))).commands ==>
      !c.SendFailureObservation?;
    if FindsFailure(s, act, named) {
      assert act.CheckKeys? && act.view.participants == s.elders ==> named == {};
      assert Perform(s, act) == ReportedFailure(s, named);
    }
  }

  /** The report is held, was held before, or is handed over with an agreement. */
  ghost predicate ReportArrives(s: SessionState, reporter: Name, after: SessionResult) {
    || HasSigner(s.failures, reporter)
    || HasSigner(after.state.failures, reporter)
    || exists failures :: after.commands == [HandleFailureAgreement(failures)] && HasSigner(failures, reporter)
  }

  /** What one session reports, every other session of the same DKG is told and takes in. */
  lemma ReportsArrive(s: SessionState, act: Act, c: Command, t: SessionState)
    requires c in Perform(s, act).commands && c.SendFailureObservation?
    requires s.name in s.elders && t.dkgKey == s.dkgKey && t.elders == s.elders && t.name in t.elders && t.name != s.name
    ensures t.name in c.recipients
    ensures ReportArrives(t, s.name, ProcessedFailure(t, c.signed, c.nonParticipants))
  {
    ReportedIff(s, act, c.recipients, c.signed, c.nonParticipants);
    var after := WithFailure(t.failures, c.signed, c.nonParticipants);
    if !HasSigner(t.failures, s.name) {
      assert after.signeds[|after.signeds| - 1] == c.signed;
      assert c.signed in after.signeds;
    }
  }

  // Messages and timeouts.

  /** The messages sent, in order. */
  function Sent(commands: seq<Command>): seq<nat> {
    if commands == [] then []
    else
      var last := commands[|commands| - 1];
      Sent(commands[..|commands| - 1]) + if last.SendMessage? then [last.message] else []
  }

  lemma {:induction false} SentAppend(xs: seq<Command>, ys: seq<Command>)
    ensures Sent(xs + ys) == Sent(xs) + Sent(ys)
  {
    if ys == [] {
      assert xs + ys == xs;
    } else {
      SentAppend(xs, ys[..|ys| - 1]);
      assert (xs + ys)[..|xs + ys| - 1] == xs + ys[..|ys| - 1];
    }
  }

  lemma {:induction false} NothingSent(commands: seq<Command>)
    requires forall c :: c in commands ==> !c.SendMessage?
    ensures Sent(commands) == []
  {
    if commands != [] {
      NothingSent(commands[..|commands| - 1]);
    }
  }

  /** All messages the key generator answers with, each followed by the answers it sets off. */
  function Answers(rs: seq<Reaction>): seq<nat>
    decreases rs
  {
    if rs == [] then []
    else Answers(rs[..|rs| - 1]) + [rs[|rs| - 1].message] + Answers(rs[|rs| - 1].responses)
  }

  /** The session stays itself and sends exactly `messages`, in order and each to all others; the timeout it
      waits for is the one before or has been scheduled; and once complete it does no more than that. */
  ghost predicate AnswersWith(s: SessionState, after: SessionResult, messages: seq<nat>) {
    && after.state.name == s.name && after.state.elders == s.elders && after.state.dkgKey == s.dkgKey
    && Sent(after.commands) == (if s.elders - {s.name} == {} then [] else messages)
    && (forall c :: c in after.commands && c.SendMessage? ==> c.recipients == s.elders - {s.name})
    && (after.state.timerToken == s.timerToken || ScheduleTimeout(after.state.timerToken) in after.commands)
    && (s.complete ==>
          && after.state.complete && after.state.failures == s.failures
          && forall c :: c in after.commands ==> c.SendMessage? || c.ScheduleTimeout?)
  }

  lemma AnswersInTurn(s: SessionState, first: SessionResult, xs: seq<nat>, second: SessionResult, ys: seq<nat>)
    requires AnswersWith(s, first, xs) && AnswersWith(first.state, second, ys)
    ensures AnswersWith(s, Result(second.state, first.commands + second.commands), xs + ys)
  {
    SentAppend(first.commands, second.commands);
  }

  lemma ReportSendsNothing(s: SessionState, named: set<Name>)
    ensures forall c :: c in ReportedFailure(s, named).commands ==> !c.SendMessage? && !c.ScheduleTimeout?
    ensures var after := ReportedFailure(s, named).state;
            after.name == s.name && after.elders == s.elders && after.dkgKey == s.dkgKey && after.timerToken == s.timerToken
  {
  }

  lemma CheckSendsNothing(s: SessionState, view: KeyGenView)
    ensures forall c :: c in Checked(s, view).commands ==> !c.SendMessage? && !c.ScheduleTimeout?
    ensures var after := Checked(s, view).state;
            after.name == s.name && after.elders == s.elders && after.dkgKey == s.dkgKey && after.timerToken == s.timerToken
    ensures s.complete ==> Checked(s, view) == Result(s, [])
  {
    if view.Keys? {
      ReportSendsNothing(s, s.elders - view.participants);
      ReportSendsNothing(s, {});
    }
  }

  lemma CheckAnswersNothing(s: SessionState, view: KeyGenView)
    ensures AnswersWith(s, Checked(s, view), [])
  {
    CheckSendsNothing(s, view);
    NothingSent(Checked(s, view).commands);
  }

  lemma TimerAnswersNothing(s: SessionState, token: nat)
    ensures AnswersWith(s, Result(s.(timerToken := token), [ScheduleTimeout(token)]), [])
  {
    NothingSent([ScheduleTimeout(token)]);
  }

  /** Scheduling the timeout after the answers or before them sends the same. */
  lemma TimerLast(s: SessionState, token: nat, after: SessionResult, messages: seq<nat>)
    requires AnswersWith(s.(timerToken := token), after, messages)
    ensures AnswersWith(s, Result(after.state, after.commands + [ScheduleTimeout(token)]), messages)
  {
    SentAppend(after.commands, [ScheduleTimeout(token)]);
    NothingSent([ScheduleTimeout(token)]);
  }

  lemma {:induction false} MessageAnswers(s: SessionState, r: Reaction)
    ensures AnswersWith(s, ProcessedMessage(s, r), Answers(r.responses))
    ensures r.responses != [] ==> ScheduleTimeout(r.token) in ProcessedMessage(s, r).commands
    decreases r, 0
  {
    var started := if r.responses == [] then s else s.(timerToken := r.token);
    var broadcast := BroadcastAll(started, r.responses);
    var timer := if r.responses == [] then [] else [ScheduleTimeout(r.token)];
    BroadcastsAnswer(started, r.responses);
    if r.responses == [] {
      assert broadcast.commands + timer == broadcast.commands;
    } else {
      TimerLast(s, r.token, broadcast, Answers(r.responses));
    }
    CheckAnswersNothing(broadcast.state, r.view);
    AnswersInTurn(s, Result(broadcast.state, broadcast.commands + timer), Answers(r.responses), Checked(broadcast.state, r.view), []);
    assert Answers(r.responses) + [] == Answers(r.responses);
  }

  lemma {:induction false} BroadcastAnswers(s: SessionState, r: Reaction)
    ensures AnswersWith(s, Broadcast(s, r), [r.message] + Answers(r.responses))
    decreases r, 1
  {
    var sent := if Recipients(s) == {} then [] else [SendMessage(Recipients(s), r.message)];
    assert AnswersWith(s, Result(s, sent), [r.message]) by {
      assert Sent(sent) == if Recipients(s) == {} then [] else [r.message];
    }
    MessageAnswers(s, r);
    AnswersInTurn(s, Result(s, sent), [r.message], ProcessedMessage(s, r), Answers(r.responses));
  }

  lemma {:induction false} BroadcastsAnswer(s: SessionState, rs: seq<Reaction>)
    ensures AnswersWith(s, BroadcastAll(s, rs), Answers(rs))
    decreases rs, 0
  {
    if rs == [] {
      SilenceAnswers(s);
    } else {
      var front, last := BroadcastAll(s, rs[..|rs| - 1]), rs[|rs| - 1];
      BroadcastsAnswer(s, rs[..|rs| - 1]);
      BroadcastAnswers(front.state, last);
      AnswersInTurn(s, front, Answers(rs[..|rs| - 1]), Broadcast(front.state, last), [last.message] + Answers(last.responses));
      LastAnswers(rs);
    }
  }

  lemma SilenceAnswers(s: SessionState)
    ensures AnswersWith(s, Result(s, []), [])
  {
  }

  lemma LastAnswers(rs: seq<Reaction>)
    requires rs != []
    ensures Answers(rs) == Answers(rs[..|rs| - 1]) + ([rs[|rs| - 1].message] + Answers(rs[|rs| - 1].responses))
  {
  }

  /** The messages an event makes the session send. */
  function AnswersTo(s: SessionState, event: Event): seq<nat> {
    match event
    case Started(initial) => [initial.message] + Answers(initial.responses)
    case Received(message) => Answers(message.responses)
    case Timeout(transition) => if s.complete || transition.TransitionFailed? then [] else Answers(transition.messages)
    case FailureReport(_, _) => []
  }

  /** Handling any event but a report sends every message the key generator answers with, once and in order,
      to all other elders, and keeps the timeout waited for scheduled; a complete session does nothing
      else, and nothing at all at a timeout. */
  lemma EventAnswers(s: SessionState, event: Event)
    requires !event.FailureReport?
    ensures AnswersWith(s, Handle(s, event), AnswersTo(s, event))
    ensures s.complete && event.Timeout? ==> Handle(s, event) == Result(s, [])
  {
    match event
    case Started(initial) => BroadcastAnswers(s, initial);
    case Received(message) => MessageAnswers(s, message);
    case Timeout(transition) =>
      if s.complete {
        SilenceAnswers(s);
      } else if transition.TransitionFailed? {
        FailedAnswers(s);
      } else {
        MovedAnswers(s, transition.messages, transition.token, transition.view);
      }
  }

  lemma FailedAnswers(s: SessionState)
    requires !s.complete
    ensures AnswersWith(s, TimedOut(s, TransitionFailed), [])
  {
    ReportSendsNothing(s, {});
    NothingSent(ReportedFailure(s, {}).commands);
  }

  lemma MovedAnswers(s: SessionState, messages: seq<Reaction>, token: nat, view: KeyGenView)
    requires !s.complete
    ensures AnswersWith(s, TimedOut(s, Moved(messages, token, view)), Answers(messages))
  {
    var broadcast := BroadcastAll(s, messages);
    var moved := broadcast.state.(timerToken := token);
    BroadcastsAnswer(s, messages);
    TimerAnswersNothing(broadcast.state, token);
    AnswersInTurn(s, broadcast, Answers(messages), Result(moved, [ScheduleTimeout(token)]), []);
    CheckAnswersNothing(moved, view);
    AnswersInTurn(s, Result(moved, broadcast.commands + [ScheduleTimeout(token)]), Answers(messages) + [], Checked(moved, view), []);
    assert Answers(messages) + [] + [] == Answers(messages);
  }

  /** Over any run the timeout a session waits for is its first one or has been scheduled. */
  lemma {:induction false} TimeoutIsScheduled(s: SessionState, events: seq<Event>)
    ensures var after := Run(s, events);
            after.state.timerToken == s.timerToken || ScheduleTimeout(after.state.timerToken) in after.commands
  {
    if events != [] {
      var front, event := Run(s, events[..|events| - 1]), events[|events| - 1];
      TimeoutIsScheduled(s, events[..|events| - 1]);
      if !event.FailureReport? {
        EventAnswers(front.state, event);
      }
    }
  }
}
