/**
 * The in-memory cache shared by every service (src/utils/cache.js): a map that
 * remembers insertion order, with an absolute expiry time per entry, lazy
 * deletion of expired entries on read, a sweep of expired entries, and
 * eviction of the earliest-inserted key when full. The clock (`Date.now()`) is
 * the parameter `now`, in milliseconds.
 *
 * The class keeps the two parts of a JavaScript `Map`: the keys in insertion
 * order and the key-to-entry map. Its methods are specified by pure functions
 * on a `Store` value (Insert, Lookup, Remove, Sweep), and the cache's
 * guarantees are lemmas about those functions.
 */
module Caching {
  import opened Wrappers
  import opened Strings

  /** Default capacity and time to live of the cache (CACHE_MAX_ENTRIES, CACHE_TTL_SECONDS). */
  const DefaultMaxEntries := 1000
  const DefaultTtlSeconds := 3600

  datatype Entry<V> = Entry(value: V, expiresAt: int)

  /** The contents of the cache: keys in insertion order, and the entry of each key. */
  datatype Store<V> = Store(order: seq<string>, entries: map<string, Entry<V>>)

  /** The key order lists each key of the map exactly once. */
  ghost predicate WellFormed<V>(st: Store<V>) {
    Distinct(st.order) && forall k :: k in st.order <==> k in st.entries
  }

  /** No key occurs twice. */
  predicate Distinct(order: seq<string>) {
    forall i, j :: 0 <= i < j < |order| ==> order[i] != order[j]
  }

  /** Dropping position `i` of a repetition-free order loses exactly the key at `i`. */
  lemma DropAt(order: seq<string>, i: int)
    requires Distinct(order) && 0 <= i < |order|
    ensures Distinct(order[..i] + order[i + 1..])
    ensures forall k :: k in order[..i] + order[i + 1..] <==> k in order && k != order[i]
  {
    var o' := order[..i] + order[i + 1..];
    forall a, b | 0 <= a < b < |o'|
      ensures o'[a] != o'[b]
    {
      var a' := if a < i then a else a + 1;
      var b' := if b < i then b else b + 1;
      assert o'[a] == order[a'] && o'[b] == order[b'];
    }
    forall k
      ensures k in o' <==> k in order && k != order[i]
    {
      if k in o' {
        var a :| 0 <= a < |o'| && o'[a] == k;
        var a' := if a < i then a else a + 1;
        assert o'[a] == order[a'];
      }
      if k in order && k != order[i] {
        var a :| 0 <= a < |order| && order[a] == k;
        if a < i { assert o'[a] == k; } else { assert o'[a - 1] == k; }
      }
    }
  }

  /** An entry is logically absent once the clock has passed its expiry time (strictly). */
  predicate Expired<V>(e: Entry<V>, now: int) {
    now > e.expiresAt
  }

  /** `order` without `key`. */
  function Without(order: seq<string>, key: string): (r: seq<string>)
    ensures |r| <= |order|
    decreases |order|
  {
    if order == [] then []
    else (if order[0] == key then [] else [order[0]]) + Without(order[1..], key)
  }

  lemma {:induction false} WithoutAbsent(order: seq<string>, key: string)
    requires key !in order
    ensures Without(order, key) == order
    decreases |order|
  {
    if order != [] {
      WithoutAbsent(order[1..], key);
      assert order == [order[0]] + order[1..];
    }
  }

  lemma {:induction false} WithoutConcat(a: seq<string>, b: seq<string>, key: string)
    ensures Without(a + b, key) == Without(a, key) + Without(b, key)
    decreases |a|
  {
    if a != [] {
      var h := if a[0] == key then [] else [a[0]];
      assert (a + b)[0] == a[0] && (a + b)[1..] == a[1..] + b;
      assert Without(a + b, key) == h + Without(a[1..] + b, key);
      WithoutConcat(a[1..], b, key);
    } else {
      assert a + b == b;
    }
  }

  /** Removing a key that occurs once removes just that position. */
  lemma {:induction false} WithoutAt(order: seq<string>, i: int)
    requires 0 <= i < |order|
    requires forall j :: 0 <= j < |order| && j != i ==> order[j] != order[i]
    ensures Without(order, order[i]) == order[..i] + order[i + 1..]
    decreases i
  {
    var key := order[i];
    var rest := order[1..];
    if i == 0 {
      assert key !in rest by {
        forall j | 0 <= j < |rest| ensures rest[j] != key { assert rest[j] == order[j + 1]; }
      }
      WithoutAbsent(rest, key);
    } else {
      assert rest[i - 1] == key;
      forall j | 0 <= j < |rest| && j != i - 1 ensures rest[j] != rest[i - 1] {
        assert rest[j] == order[j + 1];
      }
      WithoutAt(rest, i - 1);
      assert order[0] != key;
      assert order[..i] == [order[0]] + rest[..i - 1];
      assert order[i + 1..] == rest[i..];
    }
  }

  /** `Map.prototype.delete`. */
  function Remove<V>(st: Store<V>, key: string): Store<V> {
    Store(Without(st.order, key), st.entries - {key})
  }

  /** The time to live a `set` uses: a falsy override (absent or 0) means the cache-wide default. */
  function EffectiveTtl(customTtl: Option<int>, ttlSeconds: int): int {
    if customTtl.None? || customTtl.value == 0 then ttlSeconds else customTtl.value
  }

  /**
   * The eviction `set` starts with: when the map already holds `maxEntries` or
   * more keys, the first key in insertion order is deleted.
   */
  function Evict<V>(st: Store<V>, maxEntries: int): Store<V> {
    if |st.entries| >= maxEntries && st.order != []
    then Store(st.order[1..], st.entries - {st.order[0]})
    else st
  }

  /**
   * `set`: the eviction, then the key is written. A new key goes to the end of
   * the order; an existing key keeps its position.
   */
  function Insert<V>(st: Store<V>, key: string, value: V, expiresAt: int, maxEntries: int): Store<V> {
    var st1 := Evict(st, maxEntries);
    Store(if key in st1.entries then st1.order else st1.order + [key],
          st1.entries[key := Entry(value, expiresAt)])
  }

  /** `get`: the value of a live entry; an expired entry is deleted and reported absent. */
  function Lookup<V>(st: Store<V>, key: string, now: int): (Option<V>, Store<V>) {
    if key !in st.entries then (None, st)
    else if Expired(st.entries[key], now) then (None, Remove(st, key))
    else (Some(st.entries[key].value), st)
  }

  /** One step of `cleanup`: delete `key` if it is present and expired. */
  function SweepStep<V>(st: Store<V>, key: string, now: int): Store<V> {
    if key in st.entries && Expired(st.entries[key], now) then Remove(st, key) else st
  }

  /** `cleanup` visiting the keys `keys` in order. */
  function SweepKeys<V>(st: Store<V>, keys: seq<string>, now: int): Store<V>
    decreases |keys|
  {
    if keys == [] then st else SweepStep(SweepKeys(st, keys[..|keys| - 1], now), keys[|keys| - 1], now)
  }

  /** `cleanup`: visit every key in insertion order, deleting the expired ones. */
  function Sweep<V>(st: Store<V>, now: int): Store<V> {
    SweepKeys(st, st.order, now)
  }

  /** The keys of `order` whose entries are live at `now`, in order. */
  function LiveKeys<V>(order: seq<string>, entries: map<string, Entry<V>>, now: int): (r: seq<string>)
    ensures forall k :: k in r ==> k in order
    decreases |order|
  {
    if order == [] then []
    else (if order[0] in entries && !Expired(entries[order[0]], now) then [order[0]] else [])
         + LiveKeys(order[1..], entries, now)
  }

  lemma {:induction false} LiveKeysAppend<V>(order: seq<string>, k: string, entries: map<string, Entry<V>>, now: int)
    ensures LiveKeys(order + [k], entries, now)
         == LiveKeys(order, entries, now) + (if k in entries && !Expired(entries[k], now) then [k] else [])
    decreases |order|
  {
    if order != [] {
      assert (order + [k])[1..] == order[1..] + [k];
      LiveKeysAppend(order[1..], k, entries, now);
    }
  }

  /** `generateKey(prefix, ...args)`: the prefix and the arguments joined by ':'. */
  function GenerateKey(prefix: string, args: seq<string>): (key: string)
    ensures |key| > |prefix| && key[..|prefix| + 1] == prefix + ":"
  {
    prefix + ":" + Join(args, ":")
  }

  /** Two call sites with different colon-free prefixes can never produce the same key. */
  lemma GenerateKeyPrefixesSeparate(p1: string, args1: seq<string>, p2: string, args2: seq<string>)
    requires p1 != p2 && ':' !in p1 && ':' !in p2
    ensures GenerateKey(p1, args1) != GenerateKey(p2, args2)
  {
    var k1, k2 := GenerateKey(p1, args1), GenerateKey(p2, args2);
    if |p1| < |p2| {
      assert k2[|p1|] == p2[|p1|] != ':';
      assert k1[|p1|] == ':';
    } else if |p2| < |p1| {
      assert k1[|p2|] == p1[|p2|] != ':';
      assert k2[|p2|] == ':';
    } else {
      assert k1[..|p1|] == p1 && k2[..|p2|] == p2;
    }
  }

  /** With one argument, the key determines the argument. */
  lemma GenerateKeyInjective(prefix: string, a: string, b: string)
    requires GenerateKey(prefix, [a]) == GenerateKey(prefix, [b])
    ensures a == b
  {
    var n := |prefix| + 1;
    assert GenerateKey(prefix, [a])[n..] == a;
    assert GenerateKey(prefix, [b])[n..] == b;
  }

  /** Writing keeps the order and the map in step. */
  lemma InsertWellFormed<V>(st: Store<V>, key: string, value: V, expiresAt: int, maxEntries: int)
    requires WellFormed(st)
    ensures WellFormed(Insert(st, key, value, expiresAt, maxEntries))
  {
    var st1 := Evict(st, maxEntries);
    EvictWellFormed(st, maxEntries);
    if key !in st1.entries {
      AppendFresh(st1.order, key);
    }
  }

  /** Deleting the oldest key keeps a store well formed. */
  lemma EvictWellFormed<V>(st: Store<V>, maxEntries: int)
    requires WellFormed(st)
    ensures WellFormed(Evict(st, maxEntries))
  {
    if |st.entries| >= maxEntries && st.order != [] {
      var o := st.order;
      DropAt(o, 0);
      assert o[..0] + o[1..] == o[1..];
      forall k
        ensures k in o[1..] <==> k in st.entries - {o[0]}
      {
        assert k in o <==> k in st.entries;
      }
    }
  }

  /** Appending a key the order lacks keeps it repetition-free. */
  lemma AppendFresh(order: seq<string>, key: string)
    requires Distinct(order) && key !in order
    ensures Distinct(order + [key])
  {
    var o' := order + [key];
    forall i, j | 0 <= i < j < |o'|
      ensures o'[i] != o'[j]
    {
      if j == |order| {
        assert o'[i] == order[i];
      }
    }
  }

  /** After a write, reading the key before its expiry time returns the value written. */
  lemma SetThenGet<V>(st: Store<V>, key: string, value: V, t: int, ttl: int, maxEntries: int, now: int)
    requires now <= t + ttl * 1000
    ensures Lookup(Insert(st, key, value, t + ttl * 1000, maxEntries), key, now).0 == Some(value)
  {
  }

  /** After a write, reading the key after its expiry time reports it absent and deletes it. */
  lemma SetThenGetExpired<V>(st: Store<V>, key: string, value: V, t: int, ttl: int, maxEntries: int, now: int)
    requires now > t + ttl * 1000
    ensures var st' := Insert(st, key, value, t + ttl * 1000, maxEntries);
            Lookup(st', key, now) == (None, Remove(st', key))
  {
  }

  /** Reading a missing key reports it absent and changes nothing. */
  lemma GetMissing<V>(st: Store<V>, key: string, now: int)
    requires key !in st.entries
    ensures Lookup(st, key, now) == (None, st)
  {
  }

  /** Reading an expired key deletes exactly that key: every other entry and its position stay. */
  lemma GetExpiredRemovesOnlyIt<V>(st: Store<V>, key: string, now: int)
    requires WellFormed(st)
    requires key in st.entries && Expired(st.entries[key], now)
    ensures var (r, st') := Lookup(st, key, now);
            && r == None
            && WellFormed(st')
            && st'.entries.Keys == st.entries.Keys - {key}
            && (forall k :: k in st'.entries ==> st'.entries[k] == st.entries[k])
            && exists i :: 0 <= i < |st.order| && st.order[i] == key && st'.order == st.order[..i] + st.order[i + 1..]
  {
    var i := RemovePresent(st, key);
  }

  /**
   * A write at capacity deletes exactly the earliest-inserted key first: that key
   * is gone (unless it is the key being written), and every other entry is untouched.
   */
  lemma SetAtCapacityEvictsOldest<V>(st: Store<V>, key: string, value: V, expiresAt: int, maxEntries: int)
    requires WellFormed(st)
    requires |st.entries| >= maxEntries && st.order != []
    ensures var st' := Insert(st, key, value, expiresAt, maxEntries);
            && (st.order[0] != key ==> st.order[0] !in st'.entries)
            && (forall k :: k in st.entries && k != st.order[0] && k != key ==> k in st'.entries && st'.entries[k] == st.entries[k])
            && (forall k :: k in st'.entries ==> k == key || k in st.entries)
  {
  }

  /** With capacity at least one, a write never takes the cache above capacity. */
  lemma SetKeepsBound<V>(st: Store<V>, key: string, value: V, expiresAt: int, maxEntries: int)
    requires WellFormed(st)
    requires 1 <= maxEntries && |st.entries| <= maxEntries
    ensures |Insert(st, key, value, expiresAt, maxEntries).entries| <= maxEntries
  {
    if |st.entries| >= maxEntries {
      assert st.entries != map[];
      var k :| k in st.entries;
      assert st.order != [];
      var e := st.entries - {st.order[0]};
      assert |e| == |st.entries| - 1;
    }
  }

  /**
   * Overwriting a key keeps its insertion position. Below capacity nothing else
   * changes; at capacity the oldest key is still evicted, so the size drops by one.
   */
  lemma OverwriteKeepsPosition<V>(st: Store<V>, key: string, value: V, expiresAt: int, maxEntries: int)
    requires WellFormed(st)
    requires key in st.entries
    ensures var st' := Insert(st, key, value, expiresAt, maxEntries);
            && (|st.entries| < maxEntries ==> st'.order == st.order && |st'.entries| == |st.entries|)
            && (|st.entries| >= maxEntries && st.order[0] != key ==>
                  st'.order == st.order[1..] && |st'.entries| == |st.entries| - 1)
  {
    assert st.order != [];
    if |st.entries| >= maxEntries && st.order[0] != key {
      var e := st.entries - {st.order[0]};
      assert |e| == |st.entries| - 1;
    }
  }

  /** Deleting keeps the order and the map in step. */
  lemma RemoveWellFormed<V>(st: Store<V>, key: string)
    requires WellFormed(st)
    ensures WellFormed(Remove(st, key))
  {
    if key in st.entries {
      var _ := RemovePresent(st, key);
    } else {
      assert key !in st.order;
      WithoutAbsent(st.order, key);
    }
  }

  /** Deleting a present key takes it out of its one position in the order. */
  lemma RemovePresent<V>(st: Store<V>, key: string) returns (i: int)
    requires WellFormed(st)
    requires key in st.entries
    ensures 0 <= i < |st.order| && st.order[i] == key
    ensures Remove(st, key).order == st.order[..i] + st.order[i + 1..]
    ensures WellFormed(Remove(st, key))
  {
    i :| 0 <= i < |st.order| && st.order[i] == key;
    assert forall j :: 0 <= j < |st.order| && j != i ==> st.order[j] != st.order[i];
    WithoutAt(st.order, i);
    DropAt(st.order, i);
    var r := Remove(st, key);
    assert r.order == st.order[..i] + st.order[i + 1..];
    forall k ensures k in r.order <==> k in r.entries {
      assert k in r.entries <==> k in st.entries && k != key;
    }
  }

  /**
   * The state of `cleanup` after visiting the first `i` keys: the visited keys
   * that are live, followed by the unvisited keys; the map holds the unvisited
   * keys and the live visited ones, with their entries unchanged.
   */
  ghost predicate SweptUpTo<V>(st: Store<V>, i: int, now: int, r: Store<V>)
    requires 0 <= i <= |st.order|
  {
    r.order == LiveKeys(st.order[..i], st.entries, now) + st.order[i..] && SweptEntries(st, i, now, r)
  }

  /** The map part of `SweptUpTo`. */
  ghost predicate SweptEntries<V>(st: Store<V>, i: int, now: int, r: Store<V>)
    requires 0 <= i <= |st.order|
  {
    && (forall k :: k in r.entries <==> k in st.entries && (Unvisited(st.order, i, k) || !Expired(st.entries[k], now)))
    && (forall k :: k in r.entries ==> r.entries[k] == st.entries[k])
  }

  /** `k` is at position `i` of `order` or later. */
  predicate Unvisited(order: seq<string>, i: int, k: string)
    requires 0 <= i <= |order|
  {
    k in order[i..]
  }

  lemma UnvisitedStep(order: seq<string>, i: int)
    requires 0 <= i < |order|
    ensures forall k :: Unvisited(order, i, k) <==> k == order[i] || Unvisited(order, i + 1, k)
  {
    assert order[i..] == [order[i]] + order[i + 1..];
  }

  /** The key at position `i` of a repetition-free order occurs neither before nor after it. */
  lemma DistinctSplit(order: seq<string>, i: int)
    requires Distinct(order) && 0 <= i < |order|
    ensures order[i] !in order[..i] && order[i] !in order[i + 1..]
  {
    var front, back := order[..i], order[i + 1..];
    forall j | 0 <= j < |front| ensures front[j] != order[i] { assert front[j] == order[j]; }
    forall j | 0 <= j < |back| ensures back[j] != order[i] { assert back[j] == order[i + 1 + j]; }
  }

  /** Deleting a key that sits between two stretches without it. */
  lemma WithoutMiddle(front: seq<string>, key: string, back: seq<string>)
    requires key !in front && key !in back
    ensures Without(front + ([key] + back), key) == front + back
  {
    var whole := front + ([key] + back);
    var n := |front|;
    assert whole[n] == key;
    forall j | 0 <= j < |whole| && j != n
      ensures whole[j] != key
    {
      if j < n { assert whole[j] == front[j]; } else { assert whole[j] == back[j - n - 1]; }
    }
    WithoutAt(whole, n);
    assert whole[..n] == front && whole[n + 1..] == back;
  }

  /** Visiting the next key extends the swept prefix by one. */
  lemma SweepStepExtends<V>(st: Store<V>, i: int, now: int, prev: Store<V>)
    requires Distinct(st.order)
    requires 0 <= i < |st.order| && st.order[i] in st.entries
    requires SweptUpTo(st, i, now, prev)
    ensures SweptUpTo(st, i + 1, now, SweepStep(prev, st.order[i], now))
  {
    assert Unvisited(st.order, i, st.order[i]);
    SweepStepOrder(st, i, now, prev);
    SweepStepEntries(st, i, now, prev);
  }

  lemma SweepStepOrder<V>(st: Store<V>, i: int, now: int, prev: Store<V>)
    requires Distinct(st.order)
    requires 0 <= i < |st.order| && st.order[i] in st.entries
    requires prev.order == LiveKeys(st.order[..i], st.entries, now) + st.order[i..]
    requires st.order[i] in prev.entries && prev.entries[st.order[i]] == st.entries[st.order[i]]
    ensures SweepStep(prev, st.order[i], now).order == LiveKeys(st.order[..i + 1], st.entries, now) + st.order[i + 1..]
  {
    var o := st.order;
    var key, tail := o[i], o[i + 1..];
    var live := LiveKeys(o[..i], st.entries, now);
    LiveKeysAppend(o[..i], key, st.entries, now);
    assert o[..i + 1] == o[..i] + [key];
    assert o[i..] == [key] + tail;
    DistinctSplit(o, i);
    assert prev.order == live + ([key] + tail);
    if Expired(st.entries[key], now) {
      assert key !in live;
      WithoutMiddle(live, key, tail);
      assert SweepStep(prev, key, now) == Remove(prev, key);
    } else {
      assert SweepStep(prev, key, now) == prev;
      assert live + ([key] + tail) == live + [key] + tail;
    }
  }

  lemma SweepStepEntries<V>(st: Store<V>, i: int, now: int, prev: Store<V>)
    requires Distinct(st.order)
    requires 0 <= i < |st.order| && st.order[i] in st.entries
    requires SweptEntries(st, i, now, prev)
    ensures SweptEntries(st, i + 1, now, SweepStep(prev, st.order[i], now))
  {
    var key := st.order[i];
    UnvisitedStep(st.order, i);
    DistinctSplit(st.order, i);
    assert !Unvisited(st.order, i + 1, key);
    assert key in prev.entries;
  }

  lemma {:induction false} SweepKeysPrefix<V>(st: Store<V>, i: int, now: int)
    requires WellFormed(st)
    requires 0 <= i <= |st.order|
    ensures SweptUpTo(st, i, now, SweepKeys(st, st.order[..i], now))
    decreases i
  {
    if i == 0 {
      assert st.order[..0] == [];
      assert st.order[0..] == st.order;
    } else {
      var o := st.order;
      assert o[..i][..i - 1] == o[..i - 1];
      SweepKeysPrefix(st, i - 1, now);
      assert o[i - 1] in o;
      SweepStepExtends(st, i - 1, now, SweepKeys(st, o[..i - 1], now));
    }
  }

  /**
   * `cleanup` deletes exactly the expired entries: a key survives if and only if
   * its entry is live, surviving entries are unchanged, and the survivors keep
   * their relative insertion order.
   */
  lemma SweepRemovesExactlyExpired<V>(st: Store<V>, now: int)
    requires WellFormed(st)
    ensures var r := Sweep(st, now);
            && r.order == LiveKeys(st.order, st.entries, now)
            && (forall k :: k in r.entries <==> k in st.entries && !Expired(st.entries[k], now))
            && (forall k :: k in r.entries ==> r.entries[k] == st.entries[k])
  {
    SweepKeysPrefix(st, |st.order|, now);
    assert st.order[..|st.order|] == st.order;
  }

  /** A cache over values of type `V`; `now` is the clock reading of each call. */
  class Cache<V> {
    var order: seq<string>
    var entries: map<string, Entry<V>>
    const maxEntries: int
    const ttlSeconds: int

    ghost predicate Valid()
      reads this
    {
      WellFormed(Store(order, entries))
    }

    function Contents(): Store<V>
      reads this
    {
      Store(order, entries)
    }

    constructor (maxEntries: int, ttlSeconds: int)
      ensures Valid() && Contents() == Store([], map[])
      ensures this.maxEntries == maxEntries && this.ttlSeconds == ttlSeconds
    {
      order, entries := [], map[];
      this.maxEntries, this.ttlSeconds := maxEntries, ttlSeconds;
    }

    /** `set(key, value, customTtl)` at time `now`. */
    method Set(key: string, value: V, customTtl: Option<int>, now: int)
      requires Valid()
      modifies this
      ensures Valid()
      ensures Contents() == Insert(old(Contents()), key, value, now + EffectiveTtl(customTtl, ttlSeconds) * 1000, maxEntries)
    {
      if |entries| >= maxEntries && order != [] {
        var firstKey := order[0];
        entries := entries - {firstKey};
        order := order[1..];
      }
      ghost var evicted := Contents();
      assert evicted == Evict(old(Contents()), maxEntries);
      var ttl := EffectiveTtl(customTtl, ttlSeconds);
      var expiresAt := now + ttl * 1000;
      if key !in entries {
        order := order + [key];
      }
      entries := entries[key := Entry(value, expiresAt)];
      assert Contents() == Store(if key in evicted.entries then evicted.order else evicted.order + [key],
                                 evicted.entries[key := Entry(value, expiresAt)]);
      InsertWellFormed(old(Contents()), key, value, expiresAt, maxEntries);
    }

    /** `get(key)` at time `now`. */
    method Get(key: string, now: int) returns (r: Option<V>)
      requires Valid()
      modifies this
      ensures Valid()
      ensures (r, Contents()) == Lookup(old(Contents()), key, now)
    {
      if key !in entries {
        return None;
      }
      var item := entries[key];
      if now > item.expiresAt {
        entries := entries - {key};
        order := Without(order, key);
        RemoveWellFormed(old(Contents()), key);
        return None;
      }
      return Some(item.value);
    }

    /** `has(key)`: `get(key) !== null`, with the same lazy deletion. */
    method Has(key: string, now: int) returns (b: bool)
      requires Valid()
      modifies this
      ensures Valid()
      ensures b == Lookup(old(Contents()), key, now).0.Some?
      ensures Contents() == Lookup(old(Contents()), key, now).1
    {
      var r := Get(key, now);
      b := r.Some?;
    }

    /** `delete(key)`: true if and only if the key was present. */
    method Delete(key: string) returns (present: bool)
      requires Valid()
      modifies this
      ensures Valid()
      ensures present == (key in old(entries))
      ensures Contents() == Remove(old(Contents()), key)
    {
      present := key in entries;
      entries := entries - {key};
      order := Without(order, key);
      RemoveWellFormed(old(Contents()), key);
    }

    method Clear()
      modifies this
      ensures Valid() && Contents() == Store([], map[]) && Size() == 0
    {
      order, entries := [], map[];
    }

    function Size(): (n: nat)
      reads this
      ensures Valid() ==> n == |order|
    {
      SizeIsOrderLength(Contents());
      |entries|
    }

    /** `cleanup()` at time `now`: deletes the expired entries one by one in insertion order. */
    method Cleanup(now: int)
      requires Valid()
      modifies this
      ensures Valid()
      ensures Contents() == Sweep(old(Contents()), now)
    {
      ghost var st0 := Contents();
      var keys := order;
      var i := 0;
      while i < |keys|
        invariant 0 <= i <= |keys|
        invariant Valid()
        invariant Contents() == SweepKeys(st0, keys[..i], now)
      {
        var key := keys[i];
        ghost var before := Contents();
        assert keys[..i + 1][..i] == keys[..i];
        assert SweepKeys(st0, keys[..i + 1], now) == SweepStep(before, key, now);
        if key in entries && now > entries[key].expiresAt {
          entries := entries - {key};
          order := Without(order, key);
          assert Contents() == Remove(before, key);
          RemoveWellFormed(before, key);
        }
        i := i + 1;
      }
      assert keys[..i] == keys;
    }

    /** `getStats()`: cleans up first, so the size counts only live entries. */
    method GetStats(now: int) returns (size: nat, maxEntries': int, ttlSeconds': int)
      requires Valid()
      modifies this
      ensures Valid()
      ensures Contents() == Sweep(old(Contents()), now)
      ensures size == |Sweep(old(Contents()), now).entries|
      ensures maxEntries' == maxEntries && ttlSeconds' == ttlSeconds
    {
      Cleanup(now);
      size, maxEntries', ttlSeconds' := |entries|, maxEntries, ttlSeconds;
    }
  }

  /** In a well-formed store the number of keys in the order is the size of the map. */
  lemma {:induction false} SizeIsOrderLength<V>(st: Store<V>)
    ensures WellFormed(st) ==> |st.entries| == |st.order|
    decreases |st.order|
  {
    if WellFormed(st) && st.order != [] {
      var k := st.order[0];
      var rest := Store(st.order[1..], st.entries - {k});
      assert k !in st.order[1..];
      assert WellFormed(rest);
      SizeIsOrderLength(rest);
    }
  }
}
