/** Sending one message to several recipients with failover (src/routing/comm.rs): sends run
    concurrently, finish in any order, and each failure brings in the next recipient. A recipient
    is named by its position in the list.
 */
module Send {

  datatype Outcome = Sent | Failed | Closed

  datatype SendResult =
    | EmptyRecipientList
    | ConnectionClosed
    | AllRecipients
    | MinDeliveryGroupSizeReached(failed: seq<nat>)
    | MinDeliveryGroupSizeFailed(failed: seq<nat>)

  function Below(n: nat): (below: set<nat>)
    ensures forall i: nat :: i in below <==> i < n
    ensures |below| == n
  {
    if n == 0 then {} else Below(n - 1) + {n - 1}
  }

  /** To how many of the first `n` recipients sending succeeds. */
  function SentAmong(outcome: nat -> Outcome, n: nat): nat {
    if n == 0 then 0 else SentAmong(outcome, n - 1) + if outcome(n - 1) == Sent then 1 else 0
  }

  /** How many recipients have to be tried: the fewest, but at least a whole group, among which a
      whole group succeeds, or all `count` of them. */
  function Needed(outcome: nat -> Outcome, group: nat, count: nat, from: nat): (n: nat)
    requires group <= from <= count
    ensures from <= n <= count
    decreases count - from
  {
    if from == count || SentAmong(outcome, from) >= group then from
    else Needed(outcome, group, count, from + 1)
  }

  ghost predicate ClosedAmong(outcome: nat -> Outcome, n: nat) {
    exists i: nat :: i < n && outcome(i) == Closed
  }

  /** `failed` lists, once each, those of the first `n` recipients to which sending fails. */
  ghost predicate ListsFailed(failed: seq<nat>, outcome: nat -> Outcome, n: nat) {
    exists lost :: Lists(failed, lost) && forall i: nat :: i in lost <==> i < n && outcome(i) == Failed
  }

  /** `xs` lists the members of `s`, once each. */
  ghost predicate Lists(xs: seq<nat>, s: set<nat>) {
    (forall i: nat :: i in xs <==> i in s) && |xs| == |s|
  }

  lemma ListsOneMore(xs: seq<nat>, s: set<nat>, x: nat)
    requires Lists(xs, s) && x !in s
    ensures Lists(xs + [x], s + {x})
  {
  }

  /** What the result has to be once exactly `needed` recipients count. */
  ghost predicate Justified(result: SendResult, outcome: nat -> Outcome, group: nat, count: nat, needed: nat) {
    match result
    case EmptyRecipientList => false
    case ConnectionClosed => ClosedAmong(outcome, needed)
    case AllRecipients =>
      !ClosedAmong(outcome, needed) && SentAmong(outcome, needed) == group && ListsFailed([], outcome, needed)
    case MinDeliveryGroupSizeReached(failed) =>
      && !ClosedAmong(outcome, needed) && SentAmong(outcome, needed) == group
      && failed != [] && ListsFailed(failed, outcome, needed)
    case MinDeliveryGroupSizeFailed(failed) =>
      && !ClosedAmong(outcome, needed) && SentAmong(outcome, needed) < group
      && needed == count && ListsFailed(failed, outcome, needed)
  }

  /** Every completion order leads to the same outcome: exactly the first `Needed` recipients are
      tried, each once, and how sending to them ends decides the result. */
  method SendToGroup(count: nat, groupSize: nat, outcome: nat -> Outcome) returns (result: SendResult, tried: nat)
    ensures result == EmptyRecipientList <==> count == 0
    ensures count > 0 ==>
              var group := if groupSize < count then groupSize else count;
              var needed := Needed(outcome, group, count, group);
              && Justified(result, outcome, group, count, needed)
              && tried <= needed && (result != ConnectionClosed ==> tried == needed)
  {
    if count == 0 {
      return EmptyRecipientList, 0;
    }
    var group := if groupSize < count then groupSize else count;
    var closed, successes, failed, next := Drain(outcome, group, count);
    if closed {
      return ConnectionClosed, next;
    }
    tried := next;
    if successes == group {
      result := if failed == [] then AllRecipients else MinDeliveryGroupSizeReached(failed);
    } else {
      result := MinDeliveryGroupSizeFailed(failed);
    }
  }

  /** Launches the first group and handles completions until none is left or a send was cut short. */
  method Drain(outcome: nat -> Outcome, group: nat, count: nat)
    returns (closed: bool, successes: nat, failed: seq<nat>, next: nat)
    requires group <= count
    ensures var needed := Needed(outcome, group, count, group);
            && (closed <==> ClosedAmong(outcome, needed))
            && next <= needed
            && (!closed ==>
                  && next == needed && successes == SentAmong(outcome, needed) && ListsFailed(failed, outcome, needed)
                  && (successes == group || (successes < group && needed == count)))
  {
    var inFlight := Below(group);
    next, successes, failed, closed := group, 0, [], false;
    ghost var flight := Flight(inFlight, group, {}, {});
    while inFlight != {}
      invariant Underway(outcome, group, count, flight)
      invariant inFlight == flight.inFlight && next == flight.next
      invariant |flight.sent| == successes && Lists(failed, flight.lost)
      decreases count - next, |inFlight|
    {
      var i :| i in inFlight;
      if outcome(i) == Closed {
        ClosedIsNeeded(outcome, group, count, flight, i);
        closed := true;
        return;
      }
      CompletionStep(outcome, group, count, flight, i);
      ListsOneMore(failed, flight.lost, i);
      assert |flight.sent + {i}| == successes + 1;
      flight := Completed(outcome, count, flight, i);
      inFlight := inFlight - {i};
      if outcome(i) == Sent {
        successes := successes + 1;
      } else {
        failed := failed + [i];
        if next < count {
          inFlight := inFlight + {next};
          next := next + 1;
        }
      }
    }
    NothingInFlight(outcome, group, count, flight);
  }

  /** The launched recipients: below `next`, in flight, sent or lost. */
  datatype Flight = Flight(inFlight: set<nat>, next: nat, sent: set<nat>, lost: set<nat>)

  ghost function Completed(outcome: nat -> Outcome, count: nat, f: Flight, i: nat): Flight {
    if outcome(i) == Sent then f.(inFlight := f.inFlight - {i}, sent := f.sent + {i})
    else if f.next < count then
      Flight(f.inFlight - {i} + {f.next}, f.next + 1, f.sent, f.lost + {i})
    else f.(inFlight := f.inFlight - {i}, lost := f.lost + {i})
  }

  /** Every launched recipient is in flight, sent or lost, and only one of them. */
  ghost predicate Partition(f: Flight) {
    && (forall i: nat :: i < f.next <==> i in f.inFlight || i in f.sent || i in f.lost)
    && f.inFlight !! f.sent && f.inFlight !! f.lost && f.sent !! f.lost
  }

  /** What holds between completions: every loss brought in the next recipient while there was one,
      and no recipient was brought in beyond what is needed. */
  ghost predicate Underway(outcome: nat -> Outcome, group: nat, count: nat, f: Flight) {
    && group <= f.next <= count
    && Partition(f)
    && (forall i :: i in f.sent ==> outcome(i) == Sent)
    && (forall i :: i in f.lost ==> outcome(i) == Failed)
    && f.next == (if group + |f.lost| < count then group + |f.lost| else count)
    && (group < f.next ==> SentAmong(outcome, f.next - 1) < group)
  }

  lemma CompletionStep(outcome: nat -> Outcome, group: nat, count: nat, f: Flight, i: nat)
    requires Underway(outcome, group, count, f) && i in f.inFlight && outcome(i) != Closed
    ensures Underway(outcome, group, count, Completed(outcome, count, f, i))
    ensures i !in f.sent && i !in f.lost && f.next !in f.inFlight
  {
    if outcome(i) == Sent {
      CompletionKeepsPartition(outcome, count, f, i);
    } else {
      LossStep(outcome, group, count, f, i);
    }
  }

  lemma LossStep(outcome: nat -> Outcome, group: nat, count: nat, f: Flight, i: nat)
    requires Underway(outcome, group, count, f) && i in f.inFlight && outcome(i) == Failed
    ensures Underway(outcome, group, count, Completed(outcome, count, f, i))
  {
    CompletionKeepsPartition(outcome, count, f, i);
    assert Completed(outcome, count, f, i).lost == f.lost + {i};
    assert |f.lost + {i}| == |f.lost| + 1;
    if f.next < count {
      LossesLeaveRoom(outcome, f.next, f.lost + {i});
    }
  }

  lemma CompletionKeepsPartition(outcome: nat -> Outcome, count: nat, f: Flight, i: nat)
    requires Partition(f) && i in f.inFlight
    ensures Partition(Completed(outcome, count, f, i))
  {
  }

  lemma ClosedIsNeeded(outcome: nat -> Outcome, group: nat, count: nat, f: Flight, i: nat)
    requires Underway(outcome, group, count, f) && i in f.inFlight && outcome(i) == Closed
    ensures f.next <= Needed(outcome, group, count, group)
    ensures ClosedAmong(outcome, Needed(outcome, group, count, group))
  {
    NeededIsAtLeast(outcome, group, count, group, f.next);
  }

  /** Losses among the first `n` recipients count against the successes among them. */
  lemma {:induction false} LossesLeaveRoom(outcome: nat -> Outcome, n: nat, lost: set<nat>)
    requires forall i :: i in lost ==> i < n && outcome(i) != Sent
    ensures SentAmong(outcome, n) + |lost| <= n
  {
    if n == 0 {
      assert lost == {};
    } else {
      LossesLeaveRoom(outcome, n - 1, lost - {n - 1});
    }
  }

  lemma {:induction false} SentAmongIsSize(outcome: nat -> Outcome, n: nat, sent: set<nat>)
    requires forall i: nat :: i in sent <==> i < n && outcome(i) == Sent
    ensures SentAmong(outcome, n) == |sent|
  {
    if n == 0 {
      assert sent == {};
    } else {
      SentAmongIsSize(outcome, n - 1, sent - {n - 1});
    }
  }

  lemma PartitionSize(f: Flight)
    requires Partition(f) && f.inFlight == {}
    ensures |f.sent| + |f.lost| == f.next
  {
    assert f.sent + f.lost == Below(f.next);
  }

  /** Once nothing is in flight, exactly the needed recipients were tried. */
  lemma NothingInFlight(outcome: nat -> Outcome, group: nat, count: nat, f: Flight)
    requires Underway(outcome, group, count, f) && f.inFlight == {}
    ensures Needed(outcome, group, count, group) == f.next && !ClosedAmong(outcome, f.next)
    ensures SentAmong(outcome, f.next) == |f.sent|
    ensures forall failed :: Lists(failed, f.lost) ==> ListsFailed(failed, outcome, f.next)
    ensures |f.sent| == group || (|f.sent| < group && f.next == count)
  {
    SentAmongIsSize(outcome, f.next, f.sent);
    PartitionSize(f);
    NeededIsAtLeast(outcome, group, count, group, f.next);
    assert forall i: nat :: i in f.lost <==> i < f.next && outcome(i) == Failed;
  }

  lemma {:induction false} NeededIsAtLeast(outcome: nat -> Outcome, group: nat, count: nat, from: nat, next: nat)
    requires group <= from <= next <= count
    requires from < next ==> SentAmong(outcome, next - 1) < group
    ensures Needed(outcome, group, count, from) >= next
    ensures next == count || SentAmong(outcome, next) >= group ==> Needed(outcome, group, count, from) == next
    decreases count - from
  {
    if from < next {
      SentAmongGrows(outcome, from, next - 1);
      NeededIsAtLeast(outcome, group, count, from + 1, next);
    }
  }

  lemma {:induction false} SentAmongGrows(outcome: nat -> Outcome, m: nat, n: nat)
    requires m <= n
    ensures SentAmong(outcome, m) <= SentAmong(outcome, n)
    decreases n
  {
    if m < n {
      SentAmongGrows(outcome, m, n - 1);
    }
  }

  lemma {:induction false} NeededStopsAtGroup(outcome: nat -> Outcome, group: nat, count: nat, from: nat)
    requires group <= from <= count && SentAmong(outcome, from) <= group
    ensures var needed := Needed(outcome, group, count, from);
            SentAmong(outcome, needed) <= group && (needed < count ==> SentAmong(outcome, needed) == group)
    decreases count - from
  {
    if from < count && SentAmong(outcome, from) < group {
      NeededStopsAtGroup(outcome, group, count, from + 1);
    }
  }

  lemma {:induction false} SentAmongBound(outcome: nat -> Outcome, n: nat)
    ensures SentAmong(outcome, n) <= n
  {
    if n > 0 {
      SentAmongBound(outcome, n - 1);
    }
  }

  /** The number of successes is as large as it can be: a whole group, or every recipient that can be
      reached at all. */
  lemma SuccessesAreMaximal(outcome: nat -> Outcome, group: nat, count: nat)
    requires group <= count
    ensures var reachable := SentAmong(outcome, count);
            SentAmong(outcome, Needed(outcome, group, count, group)) == if group < reachable then group else reachable
  {
    SentAmongBound(outcome, group);
    NeededStopsAtGroup(outcome, group, count, group);
    SentAmongGrows(outcome, Needed(outcome, group, count, group), count);
  }
}
