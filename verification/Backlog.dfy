/** DKG messages kept for sessions that have not started yet (src/dkg/session.rs). The oldest message
    makes room for a new one when the queue is full. The queue's capacity is at least the one asked
    for.
 */
module BacklogModel {
  import opened DkgFailures
  import opened DkgSession
  import opened Sequences

  const BACKLOG_CAPACITY: nat := 100

  datatype Queued = Queued(key: DkgKey, message: Reaction)

  function HasKey(key: DkgKey): Queued -> bool {
    (queued: Queued) => queued.key == key
  }

  function OfGeneration(generation: nat): Queued -> bool {
    (queued: Queued) => queued.key.generation >= generation
  }

  function OfKey(queue: seq<Queued>, key: DkgKey): seq<Queued> {
    Filter(queue, HasKey(key))
  }

  function NotOfKey(queue: seq<Queued>, key: DkgKey): seq<Queued> {
    Filter(queue, Not(HasKey(key)))
  }

  /** The messages of at least the given generation. */
  function NotOlder(queue: seq<Queued>, generation: nat): seq<Queued> {
    Filter(queue, OfGeneration(generation))
  }

  function Older(queue: seq<Queued>, generation: nat): seq<Queued> {
    Filter(queue, Not(OfGeneration(generation)))
  }

  function Enqueued(queue: seq<Queued>, capacity: nat, queued: Queued): seq<Queued> {
    (if |queue| == capacity && queue != [] then queue[1..] else queue) + [queued]
  }

  function Evicted(queue: seq<Queued>, capacity: nat): seq<Queued> {
    if |queue| == capacity && queue != [] then [queue[0]] else []
  }

  class Backlog {
    var queue: seq<Queued>
    const capacity: nat

    constructor (capacity: nat)
      requires capacity >= BACKLOG_CAPACITY
      ensures queue == [] && this.capacity == capacity
    {
      queue := [];
      this.capacity := capacity;
    }

    method Push(key: DkgKey, message: Reaction)
      modifies this
      ensures queue == Enqueued(old(queue), capacity, Queued(key, message))
    {
      if |queue| == capacity && queue != [] {
        queue := queue[1..];
      }
      queue := queue + [Queued(key, message)];
    }

    /** Rotates the whole queue once, keeping back the messages of `key`. */
    method Take(key: DkgKey) returns (output: seq<Queued>)
      modifies this
      ensures output == OfKey(old(queue), key)
      ensures queue == NotOfKey(old(queue), key)
    {
      output := [];
      var max := |queue|;
      ghost var before := queue;
      for i := 0 to max
        invariant queue == before[i..] + NotOfKey(before[..i], key)
        invariant output == OfKey(before[..i], key)
      {
        var front := queue[0];
        RotateStep(before, i, key);
        queue := queue[1..];
        if front.key == key {
          output := output + [front];
        } else {
          queue := queue + [front];
        }
      }
      assert before[..max] == before && before[max..] == [];
    }

    method Prune(generation: nat)
      modifies this
      ensures queue == NotOlder(old(queue), generation)
    {
      var kept: seq<Queued> := [];
      for i := 0 to |queue|
        invariant queue == old(queue) && kept == NotOlder(queue[..i], generation)
      {
        FilterStep(queue, i, OfGeneration(generation));
        if queue[i].key.generation >= generation {
          kept := kept + [queue[i]];
        }
      }
      assert queue[..|queue|] == queue;
      queue := kept;
    }
  }

  /** One turn of the rotation. */
  lemma RotateStep(before: seq<Queued>, i: nat, key: DkgKey)
    requires i < |before|
    ensures var queue := before[i..] + NotOfKey(before[..i], key);
            && queue[0] == before[i]
            && before[i + 1..] + NotOfKey(before[..i + 1], key) ==
               (if before[i].key == key then queue[1..] else queue[1..] + [before[i]])
    ensures OfKey(before[..i + 1], key) ==
            if before[i].key == key then OfKey(before[..i], key) + [before[i]] else OfKey(before[..i], key)
  {
    FilterStep(before, i, HasKey(key));
    FilterStep(before, i, Not(HasKey(key)));
    Rotation(before, i, NotOfKey(before[..i], key));
  }

  /** Pushing loses at most the oldest message and keeps the order. */
  lemma PushConserves(queue: seq<Queued>, capacity: nat, queued: Queued)
    ensures multiset(Enqueued(queue, capacity, queued)) + multiset(Evicted(queue, capacity)) ==
            multiset(queue) + multiset{queued}
    ensures IsSubsequence(Enqueued(queue, capacity, queued), queue + [queued])
  {
    if |queue| == capacity && queue != [] {
      assert queue == [queue[0]] + queue[1..];
      DropFirstIsSubsequence(queue);
      SubsequenceGrows(queue[1..], queue, queued);
    } else {
      SubsequenceOfItself(queue);
      SubsequenceGrows(queue, queue, queued);
    }
  }
}
