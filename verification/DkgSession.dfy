/** One DKG session (src/dkg/session.rs). The key generator is an oracle: processing a message yields
    further messages, each of which is broadcast and processed in turn, so a message is given with
    the finite tree of reactions it sets off. Timer tokens come from outside and are given too.
 */
module DkgSession {
  import opened Prefixes
  import opened Messaging
  import opened DkgFailures
  import opened Steps

  /** What the key generator answers when asked for keys. */
  datatype KeyGenView =
    | NotFinalized
    | NoKeys
    | Keys(participants: set<Name>, shareMatches: bool, publicKeySet: Key)

  /** A message, the reactions it sets off in order, the timer token drawn if there are any, and the
      key generator's state once they are all processed. */
  datatype Reaction = Reaction(message: nat, responses: seq<Reaction>, token: nat, view: KeyGenView)

  /** The key generator's timed transition: it moves on with new messages, or fails. */
  datatype Transition = Moved(messages: seq<Reaction>, token: nat, view: KeyGenView) | TransitionFailed

  datatype Command =
    | SendMessage(recipients: set<Name>, message: nat)
    | ScheduleTimeout(token: nat)
    | HandleOutcome(publicKeySet: Key)
    | SendFailureObservation(recipients: set<Name>, signed: FailureSigned, nonParticipants: set<Name>)
    | HandleFailureAgreement(failures: FailureSet)

  datatype SessionState = SessionState(
    name: Name, dkgKey: DkgKey, elders: set<Name>, timerToken: nat, failures: FailureSet, complete: bool)

  function NewSession(name: Name, dkgKey: DkgKey, elders: set<Name>): SessionState {
    SessionState(name, dkgKey, elders, 0, NO_FAILURES, false)
  }

  type SessionResult = Result<SessionState, Command>

  function Recipients(s: SessionState): set<Name> {
    s.elders - {s.name}
  }

  function CheckedAgreement(s: SessionState): SessionResult {
    if HasFailureAgreement(|s.elders|, |s.failures.signeds|)
    then Result(s.(complete := true, failures := NO_FAILURES), [HandleFailureAgreement(s.failures)])
    else Result(s, [])
  }

  function ReportedFailure(s: SessionState, nonParticipants: set<Name>): SessionResult {
    var signed := SignFailure(s.name, nonParticipants, s.dkgKey);
    var after := s.(failures := WithFailure(s.failures, signed, nonParticipants));
    if HasSigner(s.failures, signed.publicKey) then Result(after, [])
    else
      var checked := CheckedAgreement(after);
      Result(checked.state, checked.commands + [SendFailureObservation(Recipients(s), signed, nonParticipants)])
  }

  function ProcessedFailure(s: SessionState, signed: FailureSigned, nonParticipants: set<Name>): SessionResult {
    if signed.publicKey !in s.elders || !FailureVerifies(signed, s.dkgKey, nonParticipants) then Result(s, [])
    else
      var after := s.(failures := WithFailure(s.failures, signed, nonParticipants));
      if HasSigner(s.failures, signed.publicKey) then Result(after, []) else CheckedAgreement(after)
  }

  function Checked(s: SessionState, view: KeyGenView): SessionResult {
    if s.complete then Result(s, [])
    else match view
      case NotFinalized => Result(s, [])
      case NoKeys => Result(s, [])
      case Keys(participants, shareMatches, publicKeySet) =>
        if participants != s.elders then ReportedFailure(s, s.elders - participants)
        else if !shareMatches then ReportedFailure(s, {})
        else Result(s.(complete := true), [HandleOutcome(publicKeySet)])
  }

  function ProcessedMessage(s: SessionState, r: Reaction): SessionResult
    decreases r, 0
  {
    var started := if r.responses == [] then s else s.(timerToken := r.token);
    var timer := if r.responses == [] then [] else [ScheduleTimeout(r.token)];
    var broadcast := BroadcastAll(started, r.responses);
    var checked := Checked(broadcast.state, r.view);
    Result(checked.state, broadcast.commands + timer + checked.commands)
  }

  function Broadcast(s: SessionState, r: Reaction): SessionResult
    decreases r, 1
  {
    var sent := if Recipients(s) == {} then [] else [SendMessage(Recipients(s), r.message)];
    var processed := ProcessedMessage(s, r);
    Result(processed.state, sent + processed.commands)
  }

  function BroadcastAll(s: SessionState, rs: seq<Reaction>): SessionResult
    decreases rs, 0
  {
    if rs == [] then Result(s, [])
    else
      var front := BroadcastAll(s, rs[..|rs| - 1]);
      var last := Broadcast(front.state, rs[|rs| - 1]);
      Result(last.state, front.commands + last.commands)
  }

  function TimedOut(s: SessionState, transition: Transition): SessionResult {
    if s.complete then Result(s, [])
    else match transition
      case TransitionFailed => ReportedFailure(s, {})
      case Moved(messages, token, view) =>
        var broadcast := BroadcastAll(s, messages);
        var checked := Checked(broadcast.state.(timerToken := token), view);
        Result(checked.state, broadcast.commands + [ScheduleTimeout(token)] + checked.commands)
  }

  class Session {
    const name: Name
    const dkgKey: DkgKey
    const elders: set<Name>
    var timerToken: nat
    var failures: DkgFailureSignedSet
    var complete: bool

    constructor (name: Name, dkgKey: DkgKey, elders: set<Name>)
      ensures State() == NewSession(name, dkgKey, elders) && fresh(failures)
    {
      this.name, this.dkgKey, this.elders := name, dkgKey, elders;
      timerToken, complete := 0, false;
      failures := new DkgFailureSignedSet();
    }

    ghost function State(): SessionState
      reads this, failures
    {
      SessionState(name, dkgKey, elders, timerToken, failures.Value(), complete)
    }

    method ProcessMessage(r: Reaction) returns (commands: seq<Command>)
      modifies this, failures
      ensures Result(State(), commands) == ProcessedMessage(old(State()), r)
      ensures failures == old(failures) || fresh(failures)
      decreases r, 0
    {
      var timer := [];
      if r.responses != [] {
        timerToken := r.token;
        timer := [ScheduleTimeout(r.token)];
      }
      commands := BroadcastEach(r.responses);
      var checked := Check(r.view);
      commands := commands + timer + checked;
    }

    method BroadcastMessage(r: Reaction) returns (commands: seq<Command>)
      modifies this, failures
      ensures Result(State(), commands) == Broadcast(old(State()), r)
      ensures failures == old(failures) || fresh(failures)
      decreases r, 1
    {
      commands := if elders - {name} == {} then [] else [SendMessage(elders - {name}, r.message)];
      var processed := ProcessMessage(r);
      commands := commands + processed;
    }

    method BroadcastEach(rs: seq<Reaction>) returns (commands: seq<Command>)
      modifies this, failures
      ensures Result(State(), commands) == BroadcastAll(old(State()), rs)
      ensures failures == old(failures) || fresh(failures)
      decreases rs, 0
    {
      commands := [];
      for i := 0 to |rs|
        invariant Result(State(), commands) == BroadcastAll(old(State()), rs[..i])
        invariant failures == old(failures) || fresh(failures)
      {
        assert rs[..i + 1][..i] == rs[..i];
        var more := BroadcastMessage(rs[i]);
        commands := commands + more;
      }
      assert rs[..|rs|] == rs;
    }

    method HandleTimeout(transition: Transition) returns (commands: seq<Command>)
      modifies this, failures
      ensures Result(State(), commands) == TimedOut(old(State()), transition)
      ensures failures == old(failures) || fresh(failures)
    {
      if complete {
        return [];
      }
      match transition
      case TransitionFailed =>
        commands := ReportFailure({});
      case Moved(messages, token, view) =>
        commands := BroadcastEach(messages);
        timerToken := token;
        var checked := Check(view);
        commands := commands + [ScheduleTimeout(token)] + checked;
    }

    method Check(view: KeyGenView) returns (commands: seq<Command>)
      modifies this, failures
      ensures Result(State(), commands) == Checked(old(State()), view)
      ensures failures == old(failures) || fresh(failures)
    {
      if complete || !view.Keys? {
        return [];
      }
      if view.participants != elders {
        commands := ReportFailure(elders - view.participants);
        return;
      }
      if !view.shareMatches {
        commands := ReportFailure({});
        return;
      }
      complete := true;
      return [HandleOutcome(view.publicKeySet)];
    }

    method ReportFailure(nonParticipants: set<Name>) returns (commands: seq<Command>)
      modifies this, failures
      ensures Result(State(), commands) == ReportedFailure(old(State()), nonParticipants)
      ensures failures == old(failures) || fresh(failures)
    {
      var signed := SignFailure(name, nonParticipants, dkgKey);
      var inserted := failures.Insert(signed, nonParticipants);
      if !inserted {
        return [];
      }
      commands := CheckFailureAgreement();
      commands := commands + [SendFailureObservation(elders - {name}, signed, nonParticipants)];
    }

    method ProcessFailure(signed: FailureSigned, nonParticipants: set<Name>) returns (commands: seq<Command>)
      modifies this, failures
      ensures Result(State(), commands) == ProcessedFailure(old(State()), signed, nonParticipants)
      ensures failures == old(failures) || fresh(failures)
    {
      if signed.publicKey !in elders {
        return [];
      }
      if !FailureVerifies(signed, dkgKey, nonParticipants) {
        return [];
      }
      var inserted := failures.Insert(signed, nonParticipants);
      if !inserted {
        return [];
      }
      commands := CheckFailureAgreement();
    }

    method CheckFailureAgreement() returns (commands: seq<Command>)
      modifies this
      ensures Result(State(), commands) == CheckedAgreement(old(State()))
      ensures failures == old(failures) || fresh(failures)
    {
      if HasFailureAgreement(|elders|, |failures.signeds|) {
        complete := true;
        commands := [HandleFailureAgreement(FailureSet(failures.signeds, failures.nonParticipants))];
        failures := new DkgFailureSignedSet();
      } else {
        commands := [];
      }
    }
  }
}
