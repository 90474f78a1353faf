/** A cache bounded by capacity and by age (src/cache/mod.rs, src/cache/item.rs). Instants are
    nanoseconds on the system's clock and are parameters; keys are numbers, listed in order.
 */
module CacheModel {
  import opened Wrappers
  import opened Sorting

  type Instant = nat

  datatype Time = Time(start: Instant, expiry: Instant)

  datatype Item<V> = Item(content: V, time: Option<Time>)

  type Items<V> = map<nat, Item<V>>

  function NewItem<V>(content: V, duration: Option<nat>, now: Instant): Item<V> {
    match duration
    case Some(d) => Item(content, Some(Time(now, now + d)))
    case None => Item(content, None)
  }

  predicate Expired<V>(item: Item<V>, now: Instant) {
    item.time.Some? && item.time.value.expiry < now
  }

  /** Whole milliseconds since the item was set; an item without a time has none. */
  function Elapsed<V>(item: Item<V>, now: Instant): nat {
    if item.time.Some? && item.time.value.start <= now then (now - item.time.value.start) / 1_000_000 else 0
  }

  function Greatest(s: set<nat>): (m: nat)
    requires s != {}
    ensures m in s && forall x :: x in s ==> x <= m
  {
    GreatestExists(s);
    var m :| m in s && forall x :: x in s ==> x <= m;
    m
  }

  /** The members of `s` in ascending order. */
  function Ascending(s: set<nat>): seq<nat> {
    if s == {} then [] else Ascending(s - {Greatest(s)}) + [Greatest(s)]
  }

  lemma {:induction false} GreatestExists(s: set<nat>)
    requires s != {}
    ensures exists m :: m in s && forall x :: x in s ==> x <= m
  {
    var x :| x in s;
    if s != {x} {
      assert s - {x} != {};
      GreatestExists(s - {x});
      var m :| m in s - {x} && forall y :: y in s - {x} ==> y <= m;
      var best := if m < x then x else m;
      forall y | y in s ensures y <= best {
        assert y != x ==> y in s - {x};
      }
    }
  }

  lemma {:induction false} AscendingLists(s: set<nat>)
    ensures ToSet(Ascending(s)) == s && |Ascending(s)| == |s|
    ensures Distinct(Ascending(s))
  {
    if s != {} {
      var m := Greatest(s);
      AscendingLists(s - {m});
      SplitLast(Ascending(s));
      assert s == (s - {m}) + {m};
      DistinctIffCount(Ascending(s));
    }
  }

  lemma {:induction false} AscendingIsSorted(s: set<nat>)
    ensures forall i, j :: 0 <= i < j < |Ascending(s)| ==> Ascending(s)[i] < Ascending(s)[j]
  {
    if s != {} {
      var m := Greatest(s);
      var front := Ascending(s - {m});
      AscendingIsSorted(s - {m});
      AscendingLists(s - {m});
      forall i | 0 <= i < |front| ensures front[i] < m {
        assert front[i] in ToSet(front);
      }
    }
  }

  function ExpiredKeys<V>(items: Items<V>, now: Instant): set<nat> {
    set key | key in items && Expired(items[key], now)
  }

  /** `a` has been in the cache at least as long as `b`. */
  function LongerIn<V>(items: Items<V>, now: Instant): (nat, nat) -> bool {
    (a: nat, b: nat) => a in items && b in items && Elapsed(items[a], now) >= Elapsed(items[b], now)
  }

  /** The keys to drop, longest in the cache first. */
  function Victims<V>(items: Items<V>, excess: nat, now: Instant): seq<nat> {
    Take(Sort(Ascending(items.Keys), LongerIn(items, now)), excess)
  }

  function KeySet(keys: seq<nat>): set<nat> {
    set key | key in keys
  }

  function Trimmed<V>(items: Items<V>, capacity: nat, now: Instant): Items<V> {
    if |items| > capacity then items - KeySet(Victims(items, |items| - capacity, now)) else items
  }

  class Cache<V> {
    var items: Items<V>
    const itemDuration: Option<nat>
    const capacity: nat

    constructor (itemDuration: Option<nat>, capacity: nat)
      ensures items == map[] && this.itemDuration == itemDuration && this.capacity == capacity
    {
      items := map[];
      this.itemDuration, this.capacity := itemDuration, capacity;
    }

    method Get(key: nat, now: Instant) returns (value: Option<V>)
      ensures value.Some? <==> key in items && !Expired(items[key], now)
      ensures value.Some? ==> value.value == items[key].content
    {
      value := if key in items && !Expired(items[key], now) then Some(items[key].content) else None;
    }

    /** The clock is read when the item is made, when the replaced one is checked, when expired items
        are collected and when the excess is. */
    method Set(key: nat, value: V, customDuration: Option<nat>,
               madeAt: Instant, replacedAt: Instant, expiryAt: Instant, dropAt: Instant)
      returns (replaced: Option<V>)
      modifies this
      ensures var item := NewItem(value, if customDuration.Some? then customDuration else itemDuration, madeAt);
              var inserted := old(items)[key := item];
              items == Trimmed(inserted - ExpiredKeys(inserted, expiryAt), capacity, dropAt)
      ensures |items| <= capacity
      ensures replaced.Some? <==> key in old(items) && !Expired(old(items)[key], replacedAt)
      ensures replaced.Some? ==> replaced.value == old(items)[key].content
    {
      replaced := if key in items && !Expired(items[key], replacedAt) then Some(items[key].content) else None;
      var duration := if customDuration.Some? then customDuration else itemDuration;
      items := items[key := NewItem(value, duration, madeAt)];
      RemoveExpired(expiryAt);
      TrimmedFits(items, capacity, dropAt);
      DropExcess(dropAt);
    }

    method RemoveExpired(now: Instant)
      modifies this
      ensures items == old(items) - ExpiredKeys(old(items), now)
    {
      var expired := Ascending(ExpiredKeys(items, now));
      AscendingLists(ExpiredKeys(items, now));
      RemoveAll(expired);
      assert KeySet(expired) == ToSet(expired);
    }

    method DropExcess(now: Instant)
      modifies this
      ensures items == Trimmed(old(items), capacity, now)
    {
      if |items| > capacity {
        RemoveAll(Victims(items, |items| - capacity, now));
      }
    }

    method RemoveAll(keys: seq<nat>)
      modifies this
      ensures items == old(items) - KeySet(keys)
    {
      for i := 0 to |keys|
        invariant items == old(items) - KeySet(keys[..i])
      {
        assert keys[..i + 1] == keys[..i] + [keys[i]];
        items := items - {keys[i]};
      }
      assert keys[..|keys|] == keys;
    }

    method Remove(key: nat) returns (removed: Option<V>)
      modifies this
      ensures items == old(items) - {key}
      ensures removed == if key in old(items) then Some(old(items)[key].content) else None
    {
      removed := if key in items then Some(items[key].content) else None;
      items := items - {key};
    }

    method Clear()
      modifies this
      ensures items == map[]
    {
      items := map[];
    }
  }

  lemma VictimsAreTop<V>(items: Items<V>, excess: nat, now: Instant)
    ensures var victims := Victims(items, excess, now);
            && KeySet(victims) <= items.Keys
            && |KeySet(victims)| == Min(excess, |items|)
            && forall a, b :: a in KeySet(victims) && b in items.Keys - KeySet(victims) ==>
                 Elapsed(items[a], now) >= Elapsed(items[b], now)
  {
    var keys, le := Ascending(items.Keys), LongerIn(items, now);
    AscendingLists(items.Keys);
    TakeSortedIsTop(keys, excess, le);
    var victims := Victims(items, excess, now);
    assert KeySet(victims) == ToSet(victims);
    assert |items| == |items.Keys|;
    forall a, b | a in KeySet(victims) && b in items.Keys - KeySet(victims)
      ensures Elapsed(items[a], now) >= Elapsed(items[b], now)
    {
      assert le(a, b);
    }
  }

  lemma RemovedSize<V>(items: Items<V>, keys: set<nat>)
    ensures keys <= items.Keys ==> |items - keys| == |items| - |keys|
    ensures |items - keys| <= |items|
  {
  }

  lemma TrimmedFits<V>(items: Items<V>, capacity: nat, now: Instant)
    ensures |Trimmed(items, capacity, now)| == Min(capacity, |items|)
  {
    if |items| > capacity {
      var victims := KeySet(Victims(items, |items| - capacity, now));
      VictimsAreTop(items, |items| - capacity, now);
      assert victims <= items.Keys && |victims| == |items| - capacity;
      RemovedSize(items, victims);
    }
  }

  /** Dropping the excess keeps as many items as fit, and nothing kept has been in the cache longer
      than anything dropped. */
  lemma EvictionIsOldestFirst<V>(items: Items<V>, capacity: nat, now: Instant)
    ensures var kept := Trimmed(items, capacity, now);
            && |kept| == Min(capacity, |items|)
            && (forall key :: key in kept ==> key in items && kept[key] == items[key])
            && (forall dropped, key :: dropped in items.Keys - kept.Keys && key in kept ==>
                  Elapsed(items[dropped], now) >= Elapsed(items[key], now))
  {
    TrimmedFits(items, capacity, now);
    if |items| > capacity {
      VictimsAreTop(items, |items| - capacity, now);
    }
  }

  ghost predicate Timeless<V>(items: Items<V>) {
    forall key :: key in items ==> items[key].time == None
  }

  /** In a cache without expiry all items tie, and the smallest keys are dropped. */
  lemma TimelessDropsSmallest<V>(items: Items<V>, excess: nat, now: Instant)
    requires Timeless(items)
    ensures Victims(items, excess, now) == Take(Ascending(items.Keys), excess)
  {
    AscendingLists(items.Keys);
    assert forall key :: key in Ascending(items.Keys) ==> key in ToSet(Ascending(items.Keys));
    SortOfTies(Ascending(items.Keys), LongerIn(items, now));
  }

  /** So the item just set survives in a full cache without expiry exactly when some smaller key was
      already there, however long that one has been. */
  lemma FreshItemSurvivesIff<V>(items: Items<V>, key: nat, item: Item<V>, now: Instant)
    requires Timeless(items) && item.time == None && key !in items
    ensures key in Trimmed(items[key := item], |items|, now) <==> exists other :: other in items && other < key
  {
    var inserted := items[key := item];
    assert inserted.Keys == items.Keys + {key};
    assert |inserted| == |inserted.Keys| == |items| + 1;
    TimelessDropsSmallest(inserted, 1, now);
    LeastIsFirst(inserted.Keys);
    var least := Ascending(inserted.Keys)[0];
    assert KeySet([least]) == {least};
    if key != least {
      assert least in items && least < key;
    }
  }

  lemma LeastIsFirst(s: set<nat>)
    requires s != {}
    ensures Ascending(s) != [] && Take(Ascending(s), 1) == [Ascending(s)[0]]
    ensures Ascending(s)[0] in s && forall x :: x in s ==> Ascending(s)[0] <= x
  {
    AscendingLists(s);
    AscendingIsSorted(s);
    var xs := Ascending(s);
    assert xs[0] in ToSet(xs);
    forall x | x in s ensures xs[0] <= x {
      assert x in ToSet(xs);
      var i :| 0 <= i < |xs| && xs[i] == x;
    }
  }

  /** Of two timed items, the one set earlier by a millisecond or more is dropped first. */
  lemma EarlierIsDroppedFirst<V>(items: Items<V>, capacity: nat, now: Instant, a: nat, b: nat)
    requires a in items && b in items && items[a].time.Some? && items[b].time.Some?
    requires items[a].time.value.start + 1_000_000 <= items[b].time.value.start <= now
    ensures a in Trimmed(items, capacity, now) ==> b in Trimmed(items, capacity, now)
  {
    EvictionIsOldestFirst(items, capacity, now);
    WholeMilliseconds(now - items[a].time.value.start, now - items[b].time.value.start);
  }

  lemma WholeMilliseconds(x: nat, y: nat)
    requires x >= y + 1_000_000
    ensures x / 1_000_000 > y / 1_000_000
  {
  }

  /** An item is there to get until its duration is over, and for good if it has none. */
  lemma FreshUntilExpiry<V>(content: V, duration: Option<nat>, made: Instant, now: Instant)
    ensures !Expired(NewItem(content, duration, made), now) <==> duration.None? || now <= made + duration.value
    ensures NewItem(content, duration, made).content == content
  {
  }

  /** Removing what expired keeps exactly the items without an expiry or not past it. */
  lemma UnexpiredStayIff<V>(items: Items<V>, now: Instant, key: nat)
    ensures key in items - ExpiredKeys(items, now) <==>
            key in items && (items[key].time.None? || now <= items[key].time.value.expiry)
  {
  }
}
