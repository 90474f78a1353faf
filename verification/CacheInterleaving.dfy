/** Calls on one cache from many tasks (src/cache/mod.rs). `set` and `remove_expired` take and release
    the lock several times, so tasks interleave between those points; every step here is what
    happens under one lock.
 */
module CacheInterleaving {
  import opened Quorum
  import opened CacheModel

  type TaskId = nat

  /** How far a call has come. */
  datatype Task =
    | Inserted                     // a `set` that has stored its item
    | Expiring(keys: seq<nat>)     // a `set` removing the expired keys it read
    | Counted(excess: nat)         // a `set` that has read the length and found too many items
    | Dropping(keys: seq<nat>)     // a `set` removing the excess keys it read
    | Purging(keys: seq<nat>)      // a `remove_expired` removing the expired keys it read

  datatype State<V> = State(items: Items<V>, tasks: map<TaskId, Task>)

  datatype Step<V> =
    | StartSet(task: TaskId, key: nat, item: Item<V>)
    | ReadExpired(task: TaskId, now: Instant)
    | RemoveNext(task: TaskId)
    | ReadLength(task: TaskId)
    | ReadExcess(task: TaskId, now: Instant)
    | StartPurge(task: TaskId, now: Instant)
    | RemoveKey(key: nat)
    | ClearAll

  function Removed<V>(s: State<V>, key: nat, task: TaskId, next: Task): State<V> {
    State(s.items - {key}, s.tasks[task := next])
  }

  function Finished<V>(s: State<V>, task: TaskId): State<V> {
    s.(tasks := s.tasks - {task})
  }

  /** The state after a step; a step whose task is not at that point does nothing. */
  function Stepped<V>(s: State<V>, capacity: nat, step: Step<V>): State<V> {
    match step
    case StartSet(task, key, item) =>
      if task in s.tasks then s else State(s.items[key := item], s.tasks[task := Inserted])
    case ReadExpired(task, now) =>
      if task in s.tasks && s.tasks[task].Inserted?
      then s.(tasks := s.tasks[task := Expiring(Ascending(ExpiredKeys(s.items, now)))])
      else s
    case RemoveNext(task) =>
      if task !in s.tasks then s
      else (match s.tasks[task]
        case Expiring(keys) => if keys == [] then s else Removed(s, keys[0], task, Expiring(keys[1..]))
        case Dropping(keys) => if keys == [] then Finished(s, task) else Removed(s, keys[0], task, Dropping(keys[1..]))
        case Purging(keys) => if keys == [] then Finished(s, task) else Removed(s, keys[0], task, Purging(keys[1..]))
        case _ => s)
    case ReadLength(task) =>
      if task in s.tasks && s.tasks[task] == Expiring([])
      then if |s.items| > capacity then s.(tasks := s.tasks[task := Counted(|s.items| - capacity)])
           else Finished(s, task)
      else s
    case ReadExcess(task, now) =>
      if task in s.tasks && s.tasks[task].Counted?
      then s.(tasks := s.tasks[task := Dropping(Victims(s.items, s.tasks[task].excess, now))])
      else s
    case StartPurge(task, now) =>
      if task in s.tasks then s
      else s.(tasks := s.tasks[task := Purging(Ascending(ExpiredKeys(s.items, now)))])
    case RemoveKey(key) => s.(items := s.items - {key})
    case ClearAll => s.(items := map[])
  }

  function Run<V>(capacity: nat, steps: seq<Step<V>>): State<V> {
    if steps == [] then State(map[], map[])
    else Stepped(Run(capacity, steps[..|steps| - 1]), capacity, steps[|steps| - 1])
  }

  /** A `set` that has stored its item and not yet read the length. */
  predicate IsUncounted(task: Task) {
    task.Inserted? || task.Expiring?
  }

  function Uncounted(tasks: map<TaskId, Task>): set<TaskId> {
    set task | task in tasks && IsUncounted(tasks[task])
  }

  /** Once this task has done what it has set out to do, at most `bound` items are left. */
  ghost predicate Restores<V>(task: Task, items: Items<V>, bound: nat, capacity: nat) {
    match task
    case Counted(excess) => |items| <= bound + excess
    case Dropping(keys) => |items.Keys - KeySet(keys)| <= bound
    case _ => false
  }

  /** The items in excess of the capacity are no more than the sets that have yet to read the length,
      or some task is on its way to make that so. */
  ghost predicate Bounded<V>(s: State<V>, capacity: nat) {
    var bound := capacity + |Uncounted(s.tasks)|;
    || |s.items| <= bound
    || exists task :: task in s.tasks && Restores(s.tasks[task], s.items, bound, capacity)
  }

  lemma FewerItemsRestore<V>(task: Task, items: Items<V>, fewer: Items<V>, bound: nat, capacity: nat)
    requires fewer.Keys <= items.Keys
    ensures |fewer| <= |items|
    ensures Restores(task, items, bound, capacity) ==> Restores(task, fewer, bound, capacity)
  {
    SubsetSize(fewer.Keys, items.Keys);
    assert |fewer| == |fewer.Keys| && |items| == |items.Keys|;
    if task.Dropping? {
      SubsetSize(fewer.Keys - KeySet(task.keys), items.Keys - KeySet(task.keys));
    }
  }

  /** Removing items keeps the bound. */
  lemma FewerItemsBounded<V>(s: State<V>, fewer: Items<V>, capacity: nat)
    requires Bounded(s, capacity) && fewer.Keys <= s.items.Keys
    ensures Bounded(s.(items := fewer), capacity)
  {
    var bound := capacity + |Uncounted(s.tasks)|;
    FewerItemsRestore(Inserted, s.items, fewer, bound, capacity);
    if |s.items| > bound {
      var task :| task in s.tasks && Restores(s.tasks[task], s.items, bound, capacity);
      FewerItemsRestore(s.tasks[task], s.items, fewer, bound, capacity);
    }
  }

  /** A task that moves on without taking part in the bound keeps it. */
  lemma MovedOnBounded<V>(s: State<V>, tasks: map<TaskId, Task>, task: TaskId, capacity: nat)
    requires Bounded(s, capacity)
    requires Uncounted(tasks) == Uncounted(s.tasks)
    requires forall other :: other in s.tasks && other != task ==> other in tasks && tasks[other] == s.tasks[other]
    requires task in s.tasks ==>
               forall bound :: Restores(s.tasks[task], s.items, bound, capacity) ==>
                 |s.items| <= bound || (task in tasks && Restores(tasks[task], s.items, bound, capacity))
    ensures Bounded(s.(tasks := tasks), capacity)
  {
  }

  lemma SizeAfterInsert<V>(items: Items<V>, key: nat, item: Item<V>)
    ensures items[key := item].Keys == items.Keys + {key}
    ensures |items[key := item]| <= |items| + 1
  {
  }

  lemma OneMoreUncounted(tasks: map<TaskId, Task>, task: TaskId)
    requires task !in tasks
    ensures |Uncounted(tasks[task := Inserted])| == |Uncounted(tasks)| + 1
  {
    assert Uncounted(tasks[task := Inserted]) == Uncounted(tasks) + {task};
  }

  lemma StartSetBounded<V>(s: State<V>, task: TaskId, key: nat, item: Item<V>, capacity: nat)
    requires Bounded(s, capacity) && task !in s.tasks
    ensures Bounded(State(s.items[key := item], s.tasks[task := Inserted]), capacity)
  {
    var tasks := s.tasks[task := Inserted];
    SizeAfterInsert(s.items, key, item);
    OneMoreUncounted(s.tasks, task);
    var bound := capacity + |Uncounted(s.tasks)|;
    if |s.items| > bound {
      var other :| other in s.tasks && Restores(s.tasks[other], s.items, bound, capacity);
      OneMoreItem(s.tasks[other], s.items, s.items[key := item], key, bound, capacity);
      assert other in tasks && tasks[other] == s.tasks[other];
    }
  }

  lemma OneMoreItem<V>(task: Task, items: Items<V>, more: Items<V>, key: nat, bound: nat, capacity: nat)
    requires Restores(task, items, bound, capacity) && more.Keys == items.Keys + {key}
    ensures Restores(task, more, bound + 1, capacity)
  {
    assert |more| == |more.Keys| <= |items.Keys| + 1;
    if task.Dropping? {
      SubsetSize(more.Keys - KeySet(task.keys), (items.Keys - KeySet(task.keys)) + {key});
    }
  }

  lemma ReadLengthBounded<V>(s: State<V>, task: TaskId, capacity: nat)
    requires Bounded(s, capacity) && task in s.tasks && s.tasks[task] == Expiring([])
    ensures Bounded(Stepped(s, capacity, ReadLength(task)), capacity)
  {
    if |s.items| > capacity {
      var tasks := s.tasks[task := Counted(|s.items| - capacity)];
      assert task in tasks && Restores(tasks[task], s.items, capacity + |Uncounted(tasks)|, capacity);
    }
  }

  lemma ReadExcessBounded<V>(s: State<V>, task: TaskId, now: Instant, capacity: nat)
    requires Bounded(s, capacity) && task in s.tasks && s.tasks[task].Counted?
    ensures Bounded(Stepped(s, capacity, ReadExcess(task, now)), capacity)
  {
    var excess := s.tasks[task].excess;
    var victims := Victims(s.items, excess, now);
    var tasks := s.tasks[task := Dropping(victims)];
    VictimsAreTop(s.items, excess, now);
    assert |s.items.Keys - KeySet(victims)| == |s.items.Keys| - |KeySet(victims)|;
    assert |s.items| == |s.items.Keys|;
    assert Uncounted(tasks) == Uncounted(s.tasks);
    MovedOnBounded(s, tasks, task, capacity);
  }

  lemma DropNextBounded<V>(s: State<V>, task: TaskId, capacity: nat)
    requires Bounded(s, capacity) && task in s.tasks && s.tasks[task].Dropping? && s.tasks[task].keys != []
    ensures Bounded(Removed(s, s.tasks[task].keys[0], task, Dropping(s.tasks[task].keys[1..])), capacity)
  {
    var keys := s.tasks[task].keys;
    var tasks := s.tasks[task := Dropping(keys[1..])];
    assert Uncounted(tasks) == Uncounted(s.tasks);
    var bound := capacity + |Uncounted(s.tasks)|;
    FewerItemsRestore(Inserted, s.items, s.items - {keys[0]}, bound, capacity);
    if |s.items| > bound {
      var other :| other in s.tasks && Restores(s.tasks[other], s.items, bound, capacity);
      DropNextRestores(s, task, other, bound, capacity);
      assert other in tasks;
    }
  }

  lemma DropNextRestores<V>(s: State<V>, task: TaskId, other: TaskId, bound: nat, capacity: nat)
    requires task in s.tasks && s.tasks[task].Dropping? && s.tasks[task].keys != []
    requires other in s.tasks && Restores(s.tasks[other], s.items, bound, capacity)
    ensures var keys := s.tasks[task].keys;
            Restores(s.tasks[task := Dropping(keys[1..])][other], s.items - {keys[0]}, bound, capacity)
  {
    var keys := s.tasks[task].keys;
    if other == task {
      DroppingGoesOn(s.items, keys, bound, capacity);
    } else {
      FewerItemsRestore(s.tasks[other], s.items, s.items - {keys[0]}, bound, capacity);
    }
  }

  lemma DroppingGoesOn<V>(items: Items<V>, keys: seq<nat>, bound: nat, capacity: nat)
    requires keys != [] && Restores(Dropping(keys), items, bound, capacity)
    ensures Restores(Dropping(keys[1..]), items - {keys[0]}, bound, capacity)
  {
    assert KeySet(keys) == {keys[0]} + KeySet(keys[1..]) by {
      assert keys == [keys[0]] + keys[1..];
    }
    SubsetSize((items - {keys[0]}).Keys - KeySet(keys[1..]), items.Keys - KeySet(keys));
  }

  lemma PassiveRemovalBounded<V>(s: State<V>, key: nat, task: TaskId, next: Task, capacity: nat)
    requires Bounded(s, capacity) && task in s.tasks
    requires (s.tasks[task].Expiring? && next.Expiring?) || (s.tasks[task].Purging? && next.Purging?)
    ensures Bounded(Removed(s, key, task, next), capacity)
  {
    FewerItemsBounded(s, s.items - {key}, capacity);
    var tasks := s.tasks[task := next];
    assert Uncounted(tasks) == Uncounted(s.tasks);
    MovedOnBounded(s.(items := s.items - {key}), tasks, task, capacity);
  }

  lemma FinishedBounded<V>(s: State<V>, task: TaskId, capacity: nat)
    requires Bounded(s, capacity) && task in s.tasks && (s.tasks[task] == Dropping([]) || s.tasks[task].Purging?)
    ensures Bounded(Finished(s, task), capacity)
  {
    assert Uncounted(s.tasks - {task}) == Uncounted(s.tasks);
    assert s.items.Keys - KeySet([]) == s.items.Keys && |s.items| == |s.items.Keys|;
    MovedOnBounded(s, s.tasks - {task}, task, capacity);
  }

  lemma RemoveNextBounded<V>(s: State<V>, task: TaskId, capacity: nat)
    requires Bounded(s, capacity)
    ensures Bounded(Stepped(s, capacity, RemoveNext(task)), capacity)
  {
    if task in s.tasks {
      match s.tasks[task]
      case Expiring(keys) =>
        if keys != [] { PassiveRemovalBounded(s, keys[0], task, Expiring(keys[1..]), capacity); }
      case Purging(keys) =>
        if keys != [] { PassiveRemovalBounded(s, keys[0], task, Purging(keys[1..]), capacity); }
        else { FinishedBounded(s, task, capacity); }
      case Dropping(keys) =>
        if keys != [] { DropNextBounded(s, task, capacity); } else { FinishedBounded(s, task, capacity); }
      case _ =>
    }
  }

  lemma StepBounded<V>(s: State<V>, capacity: nat, step: Step<V>)
    requires Bounded(s, capacity)
    ensures Bounded(Stepped(s, capacity, step), capacity)
  {
    match step
    case StartSet(task, key, item) =>
      if task !in s.tasks { StartSetBounded(s, task, key, item, capacity); }
    case ReadExpired(task, now) =>
      if task in s.tasks && s.tasks[task].Inserted? {
        var tasks := Stepped(s, capacity, step).tasks;
        assert Uncounted(tasks) == Uncounted(s.tasks);
        MovedOnBounded(s, tasks, task, capacity);
      }
    case RemoveNext(task) => RemoveNextBounded(s, task, capacity);
    case ReadLength(task) =>
      if task in s.tasks && s.tasks[task] == Expiring([]) { ReadLengthBounded(s, task, capacity); }
    case ReadExcess(task, now) =>
      if task in s.tasks && s.tasks[task].Counted? { ReadExcessBounded(s, task, now, capacity); }
    case StartPurge(task, now) =>
      if task !in s.tasks {
        var tasks := Stepped(s, capacity, step).tasks;
        assert Uncounted(tasks) == Uncounted(s.tasks);
        MovedOnBounded(s, tasks, task, capacity);
      }
    case RemoveKey(key) => FewerItemsBounded(s, s.items - {key}, capacity);
    case ClearAll => FewerItemsBounded(s, map[], capacity);
  }

  lemma {:induction false} RunBounded<V>(capacity: nat, steps: seq<Step<V>>)
    ensures Bounded(Run(capacity, steps), capacity)
  {
    if steps != [] {
      RunBounded(capacity, steps[..|steps| - 1]);
      StepBounded(Run(capacity, steps[..|steps| - 1]), capacity, steps[|steps| - 1]);
    }
  }

  /** However calls interleave, whenever no `set` is dropping what it counted as excess, the cache
      exceeds its capacity by at most the number of sets that have yet to read the length; in
      particular it does not exceed it when no `set` is in flight. */
  lemma CapacityHoldsBetweenSets<V>(capacity: nat, steps: seq<Step<V>>)
    ensures var s := Run(capacity, steps);
            (forall task :: task in s.tasks ==> !s.tasks[task].Counted? && !s.tasks[task].Dropping?) ==>
            |s.items| <= capacity + |Uncounted(s.tasks)|
    ensures var s := Run(capacity, steps);
            (forall task :: task in s.tasks ==> s.tasks[task].Purging?) ==> |s.items| <= capacity
  {
    var s := Run(capacity, steps);
    RunBounded(capacity, steps);
    if forall task :: task in s.tasks ==> s.tasks[task].Purging? {
      assert Uncounted(s.tasks) == {};
    }
  }

  // A set that is left alone.

  /** The step the task is to take next; the clock is read at the given instants. */
  function NextStep<V>(task: TaskId, at: Task, expiryAt: Instant, dropAt: Instant): Step<V> {
    match at
    case Inserted => ReadExpired(task, expiryAt)
    case Expiring(keys) => if keys == [] then ReadLength(task) else RemoveNext(task)
    case Counted(_) => ReadExcess(task, dropAt)
    case Dropping(_) => RemoveNext(task)
    case Purging(_) => RemoveNext(task)
  }

  function Stage(at: Task): nat {
    match at
    case Inserted => 4
    case Expiring(_) => 3
    case Counted(_) => 2
    case Dropping(_) => 1
    case Purging(_) => 0
  }

  function ToRemove(at: Task): nat {
    if at.Expiring? || at.Dropping? || at.Purging? then |at.keys| else 0
  }

  /** The state once the task is done, if nobody else takes a step. */
  function Finish<V>(s: State<V>, capacity: nat, task: TaskId, expiryAt: Instant, dropAt: Instant): State<V>
    decreases if task in s.tasks then 1 + Stage(s.tasks[task]) else 0, if task in s.tasks then ToRemove(s.tasks[task]) else 0
  {
    if task !in s.tasks then s
    else Finish(Stepped(s, capacity, NextStep(task, s.tasks[task], expiryAt, dropAt)), capacity, task, expiryAt, dropAt)
  }

  lemma {:induction false} FinishExpiring<V>(
      items: Items<V>, others: map<TaskId, Task>, capacity: nat, task: TaskId, keys: seq<nat>, expiryAt: Instant, dropAt: Instant)
    ensures Finish(State(items, others[task := Expiring(keys)]), capacity, task, expiryAt, dropAt) ==
            Finish(State(items - KeySet(keys), others[task := Expiring([])]), capacity, task, expiryAt, dropAt)
    decreases |keys|
  {
    if keys == [] {
      assert items - KeySet(keys) == items;
    } else {
      FirstRemoved(items, others, task, keys, Expiring(keys), Expiring(keys[1..]));
      FinishStep(State(items, others[task := Expiring(keys)]), capacity, task, expiryAt, dropAt,
                 State(items - {keys[0]}, others[task := Expiring(keys[1..])]));
      FinishExpiring(items - {keys[0]}, others, capacity, task, keys[1..], expiryAt, dropAt);
    }
  }

  /** One step of the task alone. */
  lemma FinishStep<V>(s: State<V>, capacity: nat, task: TaskId, expiryAt: Instant, dropAt: Instant, next: State<V>)
    requires task in s.tasks && next == Stepped(s, capacity, NextStep(task, s.tasks[task], expiryAt, dropAt))
    ensures Finish(s, capacity, task, expiryAt, dropAt) == Finish(next, capacity, task, expiryAt, dropAt)
  {
  }

  lemma FinishDone<V>(items: Items<V>, others: map<TaskId, Task>, capacity: nat, task: TaskId, expiryAt: Instant, dropAt: Instant)
    ensures Finish(State(items, others[task := Dropping([])]), capacity, task, expiryAt, dropAt) == State(items, others - {task})
  {
    var done := State(items, others - {task});
    assert others[task := Dropping([])] - {task} == others - {task};
    FinishStep(State(items, others[task := Dropping([])]), capacity, task, expiryAt, dropAt, done);
  }

  lemma {:induction false} FinishDropping<V>(
      items: Items<V>, others: map<TaskId, Task>, capacity: nat, task: TaskId, keys: seq<nat>, expiryAt: Instant, dropAt: Instant)
    ensures Finish(State(items, others[task := Dropping(keys)]), capacity, task, expiryAt, dropAt) ==
            State(items - KeySet(keys), others - {task})
    decreases |keys|
  {
    if keys == [] {
      assert items - KeySet(keys) == items;
      FinishDone(items, others, capacity, task, expiryAt, dropAt);
    } else {
      FirstRemoved(items, others, task, keys, Dropping(keys), Dropping(keys[1..]));
      FinishStep(State(items, others[task := Dropping(keys)]), capacity, task, expiryAt, dropAt,
                 State(items - {keys[0]}, others[task := Dropping(keys[1..])]));
      FinishDropping(items - {keys[0]}, others, capacity, task, keys[1..], expiryAt, dropAt);
    }
  }

  lemma FirstRemoved<V>(items: Items<V>, others: map<TaskId, Task>, task: TaskId, keys: seq<nat>, at: Task, next: Task)
    requires keys != []
    ensures Removed(State(items, others[task := at]), keys[0], task, next) == State(items - {keys[0]}, others[task := next])
    ensures items - {keys[0]} - KeySet(keys[1..]) == items - KeySet(keys)
  {
    assert others[task := at][task := next] == others[task := next];
    assert keys == [keys[0]] + keys[1..];
  }

  lemma FinishCounting<V>(
      items: Items<V>, others: map<TaskId, Task>, capacity: nat, task: TaskId, expiryAt: Instant, dropAt: Instant)
    ensures Finish(State(items, others[task := Expiring([])]), capacity, task, expiryAt, dropAt) ==
            State(Trimmed(items, capacity, dropAt), others - {task})
  {
    CountStep(items, others, capacity, task);
    var counting := State(items, others[task := Expiring([])]);
    if |items| > capacity {
      var excess := |items| - capacity;
      FinishStep(counting, capacity, task, expiryAt, dropAt, State(items, others[task := Counted(excess)]));
      FinishCounted(items, others, capacity, task, excess, expiryAt, dropAt);
    } else {
      FinishStep(counting, capacity, task, expiryAt, dropAt, State(items, others - {task}));
    }
  }

  lemma CountStep<V>(items: Items<V>, others: map<TaskId, Task>, capacity: nat, task: TaskId)
    ensures Stepped(State(items, others[task := Expiring([])]), capacity, ReadLength(task)) ==
            if |items| > capacity then State(items, others[task := Counted(|items| - capacity)])
            else State(items, others - {task})
  {
    assert others[task := Expiring([])] - {task} == others - {task};
    assert |items| > capacity ==>
      others[task := Expiring([])][task := Counted(|items| - capacity)] == others[task := Counted(|items| - capacity)];
  }

  lemma FinishCounted<V>(
      items: Items<V>, others: map<TaskId, Task>, capacity: nat, task: TaskId, excess: nat, expiryAt: Instant, dropAt: Instant)
    ensures Finish(State(items, others[task := Counted(excess)]), capacity, task, expiryAt, dropAt) ==
            State(items - KeySet(Victims(items, excess, dropAt)), others - {task})
  {
    var victims := Victims(items, excess, dropAt);
    assert others[task := Counted(excess)][task := Dropping(victims)] == others[task := Dropping(victims)];
    FinishStep(State(items, others[task := Counted(excess)]), capacity, task, expiryAt, dropAt,
               State(items, others[task := Dropping(victims)]));
    FinishDropping(items, others, capacity, task, victims, expiryAt, dropAt);
  }

  /** A set that nobody interleaves with leaves what `Cache.Set` leaves, and the other tasks where they are. */
  lemma SetAloneIsSet<V>(s: State<V>, capacity: nat, task: TaskId, key: nat, item: Item<V>, expiryAt: Instant, dropAt: Instant)
    requires task !in s.tasks
    ensures var inserted := s.items[key := item];
            Finish(Stepped(s, capacity, StartSet(task, key, item)), capacity, task, expiryAt, dropAt) ==
            State(Trimmed(inserted - ExpiredKeys(inserted, expiryAt), capacity, dropAt), s.tasks)
  {
    var inserted := s.items[key := item];
    var expired := Ascending(ExpiredKeys(inserted, expiryAt));
    AscendingLists(ExpiredKeys(inserted, expiryAt));
    assert KeySet(expired) == ExpiredKeys(inserted, expiryAt);
    assert s.tasks[task := Inserted][task := Expiring(expired)] == s.tasks[task := Expiring(expired)];
    FinishStep(State(inserted, s.tasks[task := Inserted]), capacity, task, expiryAt, dropAt,
               State(inserted, s.tasks[task := Expiring(expired)]));
    FinishExpiring(inserted, s.tasks, capacity, task, expired, expiryAt, dropAt);
    FinishCounting(inserted - ExpiredKeys(inserted, expiryAt), s.tasks, capacity, task, expiryAt, dropAt);
    assert s.tasks - {task} == s.tasks;
  }

  lemma {:induction false} FinishPurging<V>(
      items: Items<V>, others: map<TaskId, Task>, capacity: nat, task: TaskId, keys: seq<nat>, expiryAt: Instant, dropAt: Instant)
    ensures Finish(State(items, others[task := Purging(keys)]), capacity, task, expiryAt, dropAt) ==
            State(items - KeySet(keys), others - {task})
    decreases |keys|
  {
    var purging := State(items, others[task := Purging(keys)]);
    if keys == [] {
      assert items - KeySet(keys) == items && purging.tasks - {task} == others - {task};
      FinishStep(purging, capacity, task, expiryAt, dropAt, State(items, others - {task}));
    } else {
      FirstRemoved(items, others, task, keys, Purging(keys), Purging(keys[1..]));
      FinishStep(purging, capacity, task, expiryAt, dropAt, State(items - {keys[0]}, others[task := Purging(keys[1..])]));
      FinishPurging(items - {keys[0]}, others, capacity, task, keys[1..], expiryAt, dropAt);
    }
  }

  /** A `remove_expired` that nobody interleaves with removes what `Cache.RemoveExpired` removes. */
  lemma PurgeAloneIsRemoveExpired<V>(s: State<V>, capacity: nat, task: TaskId, now: Instant, dropAt: Instant)
    requires task !in s.tasks
    ensures Finish(Stepped(s, capacity, StartPurge(task, now)), capacity, task, now, dropAt) ==
            State(s.items - ExpiredKeys(s.items, now), s.tasks)
  {
    var expired := Ascending(ExpiredKeys(s.items, now));
    assert Stepped(s, capacity, StartPurge(task, now)) == State(s.items, s.tasks[task := Purging(expired)]);
    FinishPurging(s.items, s.tasks, capacity, task, expired, now, dropAt);
    assert KeySet(expired) == ExpiredKeys(s.items, now) by {
      AscendingLists(ExpiredKeys(s.items, now));
    }
    assert s.tasks - {task} == s.tasks;
  }
}
