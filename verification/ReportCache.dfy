/** The bounded cache of report results: which entries it holds after any run of stores. */
module ReportCache {
  import opened Text

  /** A cached result and when it was stored. */
  datatype Entry<V> = Entry(at: int, result: V)

  /** One call: the key, the clock at the call, the result. */
  datatype Put<K, V> = Put(key: K, at: int, result: V)

  // ----- what the cache should hold -----

  /** The latest store of a key. */
  function LatestOf<K(==), V>(puts: seq<Put<K, V>>, key: K): Option<Put<K, V>> {
    if puts == [] then None
    else if puts[|puts| - 1].key == key then Some(puts[|puts| - 1])
    else LatestOf(puts[..|puts| - 1], key)
  }

  /** The distinct keys, most recently stored first. */
  function Recent<K(==), V>(puts: seq<Put<K, V>>): seq<K> {
    if puts == [] then []
    else
      var last := puts[|puts| - 1];
      [last.key] + Without(Recent(puts[..|puts| - 1]), last.key)
  }

  function Without<K(==)>(keys: seq<K>, key: K): seq<K> {
    if keys == [] then [] else (if keys[0] == key then [] else [keys[0]]) + Without(keys[1..], key)
  }

  function Take<K>(keys: seq<K>, n: nat): seq<K> { if |keys| <= n then keys else keys[..n] }

  /** The cache holds exactly the `max` keys stored most recently, each with its latest
      result and the time of that store. */
  ghost predicate HoldsRecent<K(!new), V>(cache: map<K, Entry<V>>, puts: seq<Put<K, V>>, max: nat) {
    && (forall key :: key in cache <==> key in Take(Recent(puts), max))
    && (forall key :: key in cache ==>
          LatestOf(puts, key).Some?
              && cache[key] == Entry(LatestOf(puts, key).value.at, LatestOf(puts, key).value.result))
  }

  /** The clock moves on between stores. */
  ghost predicate Ticking<K, V>(puts: seq<Put<K, V>>) { forall i, j :: 0 <= i < j < |puts| ==> puts[i].at < puts[j].at }

  // ----- lemmas about recency -----

  predicate Distinct<K(==)>(keys: seq<K>) { forall i, j :: 0 <= i < j < |keys| ==> keys[i] != keys[j] }

  lemma DistinctTail<K>(keys: seq<K>)
    requires keys != [] && Distinct(keys)
    ensures Distinct(keys[1..]) && keys[0] !in keys[1..]
  {
    forall i | 0 <= i < |keys[1..]| ensures keys[1..][i] == keys[i + 1] != keys[0] { }
  }

  lemma DistinctCons<K>(key: K, rest: seq<K>)
    requires Distinct(rest) && key !in rest
    ensures Distinct([key] + rest)
  {
  }

  lemma {:induction false} WithoutIs<K>(keys: seq<K>, key: K)
    requires Distinct(keys)
    ensures Distinct(Without(keys, key)) && |Without(keys, key)| == |keys| - if key in keys then 1 else 0
    ensures forall x :: x in Without(keys, key) <==> x in keys && x != key
  {
    if keys != [] {
      DistinctTail(keys);
      WithoutIs(keys[1..], key);
      hide Distinct;
      DistinctCons(keys[0], Without(keys[1..], key));
      assert Without(keys, key) ==
        if keys[0] == key then Without(keys[1..], key) else [keys[0]] + Without(keys[1..], key);
    }
  }

  /** Taking a key out of the list keeps the order of the rest. */
  lemma {:induction false} WithoutTake<K>(keys: seq<K>, key: K, n: nat)
    requires Distinct(keys)
    ensures forall x :: x in Take(Without(keys, key), n) <==>
      x != key && x in Take(keys, if key in Take(keys, n) then n + 1 else n)
  {
    if keys != [] {
      DistinctTail(keys);
      if keys[0] == key {
        WithoutNone(keys[1..], key);
        assert Without(keys, key) == keys[1..];
        TakeFirst(keys, n + 1);
        NotTaken(keys[1..], key, n);
        assert n > 0 ==> key in Take(keys, n);
      } else if n > 0 {
        WithoutTake(keys[1..], key, n - 1);
        WithoutFirst(keys, key);
        TakeFirst(Without(keys, key), n);
        TakeFirst(keys, n);
        TakeFirst(keys, n + 1);
      }
    }
  }

  lemma NotTaken<K>(keys: seq<K>, key: K, n: nat)
    requires key !in keys
    ensures key !in Take(keys, n)
  {
  }

  lemma WithoutFirst<K>(keys: seq<K>, key: K)
    requires keys != [] && keys[0] != key
    ensures Without(keys, key) == [keys[0]] + Without(keys[1..], key)
    ensures Without(keys, key)[1..] == Without(keys[1..], key)
  {
  }

  lemma TakeFirst<K>(keys: seq<K>, n: nat)
    requires keys != [] && n > 0
    ensures Take(keys, n) == [keys[0]] + Take(keys[1..], n - 1)
  {
  }

  lemma {:induction false} WithoutNone<K>(keys: seq<K>, key: K)
    requires key !in keys
    ensures Without(keys, key) == keys
  {
    if keys != [] { WithoutNone(keys[1..], key); }
  }

  lemma {:induction false} RecentIs<K(!new), V>(puts: seq<Put<K, V>>)
    ensures Distinct(Recent(puts))
    ensures forall key :: key in Recent(puts) <==> LatestOf(puts, key).Some?
  {
    if puts != [] {
      var front, key := puts[..|puts| - 1], puts[|puts| - 1].key;
      RecentIs(front);
      WithoutIs(Recent(front), key);
    }
  }

  lemma {:induction false} LatestAt<K, V>(puts: seq<Put<K, V>>, key: K)
    ensures LatestOf(puts, key).Some? ==> LatestOf(puts, key).value in puts && LatestOf(puts, key).value.key == key
  {
    if puts != [] && puts[|puts| - 1].key != key { LatestAt(puts[..|puts| - 1], key); }
  }

  function StoredAt<K(==), V>(puts: seq<Put<K, V>>, key: K): int {
    match LatestOf(puts, key) case None => 0 case Some(p) => p.at
  }

  ghost predicate NewestFirst<K, V>(puts: seq<Put<K, V>>, keys: seq<K>) {
    forall i, j :: 0 <= i < j < |keys| ==> StoredAt(puts, keys[i]) > StoredAt(puts, keys[j])
  }

  lemma OrderTail<K, V>(puts: seq<Put<K, V>>, keys: seq<K>)
    requires keys != [] && NewestFirst(puts, keys)
    ensures NewestFirst(puts, keys[1..]) && forall x :: x in keys[1..] ==> StoredAt(puts, keys[0]) > StoredAt(puts, x)
  {
    hide StoredAt;
    assert forall i :: 0 <= i < |keys[1..]| ==> keys[1..][i] == keys[i + 1];
  }

  lemma OrderCons<K, V>(puts: seq<Put<K, V>>, key: K, rest: seq<K>)
    requires NewestFirst(puts, rest) && forall x :: x in rest ==> StoredAt(puts, key) > StoredAt(puts, x)
    ensures NewestFirst(puts, [key] + rest)
  {
    hide StoredAt;
  }

  lemma {:induction false} WithoutOrder<K, V>(puts: seq<Put<K, V>>, keys: seq<K>, key: K)
    requires NewestFirst(puts, keys)
    ensures NewestFirst(puts, Without(keys, key))
    ensures forall x :: x in Without(keys, key) ==> x in keys && x != key
  {
    if keys != [] {
      OrderTail(puts, keys);
      WithoutOrder(puts, keys[1..], key);
      hide NewestFirst, StoredAt;
      if keys[0] != key {
        WithoutFirst(keys, key);
        OrderCons(puts, keys[0], Without(keys[1..], key));
      } else {
        assert Without(keys, key) == Without(keys[1..], key);
      }
    }
  }

  /** The list of recent keys is ordered by the time of their latest store. */
  lemma {:induction false} RecentIsOrdered<K(!new), V>(puts: seq<Put<K, V>>)
    requires Ticking(puts)
    ensures NewestFirst(puts, Recent(puts))
  {
    if puts != [] {
      var front, last := puts[..|puts| - 1], puts[|puts| - 1];
      RecentIsOrdered(front);
      RecentIs(front);
      WithoutOrder(front, Recent(front), last.key);
      var rest := Without(Recent(front), last.key);
      forall x | x in rest ensures StoredAt(puts, x) == StoredAt(front, x) < last.at {
        assert x in Recent(front) && x != last.key;
        LatestAt(front, x);
        var i :| 0 <= i < |front| && front[i] == LatestOf(front, x).value;
        assert puts[i] == front[i];
      }
      assert Recent(puts) == [last.key] + rest;
    }
  }

  // ----- the cache -----

  lemma {:induction false} KeysCount<K, E>(cache: map<K, E>, keys: seq<K>)
    requires Distinct(keys) && forall key :: key in cache <==> key in keys
    ensures |cache| == |keys|
    decreases |keys|
  {
    if keys == [] {
      assert cache == map[];
    } else {
      DistinctTail(keys);
      hide Distinct;
      var less := cache - {keys[0]};
      assert forall key :: key in keys <==> key == keys[0] || key in keys[1..];
      KeysCount(less, keys[1..]);
      assert cache == less[keys[0] := cache[keys[0]]];
    }
  }

  lemma HeldAt<K(!new), V>(cache: map<K, Entry<V>>, puts: seq<Put<K, V>>, max: nat, key: K)
    requires HoldsRecent(cache, puts, max) && key in cache
    ensures cache[key].at == StoredAt(puts, key)
  {
  }

  /** A full cache holds the first keys of the recency list, up to the maximum. */
  lemma FullCache<K(!new), V>(cache: map<K, Entry<V>>, puts: seq<Put<K, V>>, max: nat)
    requires HoldsRecent(cache, puts, max) && |cache| >= max > 0
    ensures |Recent(puts)| >= max
    ensures forall key :: key in cache <==> exists i :: 0 <= i < max && Recent(puts)[i] == key
  {
    var keys := Take(Recent(puts), max);
    RecentIs(puts);
    TakeIs(Recent(puts), max);
    KeysCount(cache, keys);
    hide Recent, Distinct;
    assert keys == Recent(puts)[..max];
    forall key | key in cache ensures exists i :: 0 <= i < max && Recent(puts)[i] == key {
      var i :| 0 <= i < |keys| && keys[i] == key;
      assert Recent(puts)[i] == key;
    }
    forall i | 0 <= i < max ensures Recent(puts)[i] in cache { assert Recent(puts)[i] == keys[i]; }
  }

  /** The oldest entry of a full cache is that of the last key among the recent ones. */
  lemma OldestIsLast<K(!new), V>(cache: map<K, Entry<V>>, puts: seq<Put<K, V>>, max: nat, oldest: K)
    requires Ticking(puts) && HoldsRecent(cache, puts, max) && |cache| >= max > 0
    requires oldest in cache && forall key :: key in cache ==> cache[oldest].at <= cache[key].at
    ensures |Recent(puts)| >= max && oldest == Recent(puts)[max - 1]
  {
    hide Recent, StoredAt, HoldsRecent, Ticking;
    FullCache(cache, puts, max);
    RecentIsOrdered(puts);
    var i :| 0 <= i < max && Recent(puts)[i] == oldest;
    var last := Recent(puts)[max - 1];
    assert last in cache;
    HeldAt(cache, puts, max, oldest);
    HeldAt(cache, puts, max, last);
  }

  lemma TakeCons<K>(key: K, rest: seq<K>, max: nat)
    requires max > 0
    ensures forall x :: x in Take([key] + rest, max) <==> x == key || x in Take(rest, max - 1)
  {
    if |rest| > max - 1 { assert ([key] + rest)[..max] == [key] + rest[..max - 1]; }
  }

  /** What the recent keys become by one more store. */
  lemma OneMoreStore<K(!new), V>(puts: seq<Put<K, V>>, put: Put<K, V>, max: nat)
    requires max > 0
    ensures var was, now := Take(Recent(puts), max), Take(Recent(puts + [put]), max);
      && (put.key in was ==> forall x :: x in now <==> x in was)
      && (put.key !in was && |was| < max ==> forall x :: x in now <==> x in was || x == put.key)
      && (put.key !in was && |was| == max ==> forall x :: x in now <==> x == put.key || (x in was && x != was[max - 1]))
  {
    hide Distinct, Without;
    RecentIs(puts);
    assert (puts + [put])[..|puts|] == puts;
    assert Recent(puts + [put]) == [put.key] + Without(Recent(puts), put.key);
    KeysShift(Recent(puts), put.key, max);
  }

  lemma KeysShift<K>(recent: seq<K>, key: K, max: nat)
    requires max > 0 && Distinct(recent)
    ensures var was, now := Take(recent, max), Take([key] + Without(recent, key), max);
      && (key in was ==> forall x :: x in now <==> x in was)
      && (key !in was && |was| < max ==> forall x :: x in now <==> x in was || x == key)
      && (key !in was && |was| == max ==> forall x :: x in now <==> x == key || (x in was && x != was[max - 1]))
  {
    hide Distinct, Without, Take;
    WithoutTake(recent, key, max - 1);
    TakeCons(key, Without(recent, key), max);
    TakeMore(recent, max - 1);
    TakeIs(recent, max);
    ShortTake(recent, max);
  }

  lemma ShortTake<K>(keys: seq<K>, max: nat)
    requires max > 0
    ensures |keys| < max ==> |Take(keys, max)| < max && Take(keys, max - 1) == Take(keys, max)
    ensures |keys| >= max ==> |Take(keys, max)| == max && Take(keys, max)[max - 1] == keys[max - 1]
  {
  }

  lemma TakeMore<K>(keys: seq<K>, n: nat)
    requires Distinct(keys)
    ensures |keys| <= n ==> Take(keys, n + 1) == Take(keys, n)
    ensures |keys| > n ==> Take(keys, n + 1) == Take(keys, n) + [keys[n]] && keys[n] !in Take(keys, n)
  {
  }

  class Cache<K(==, !new), V> {
    const max: nat
    var entries: map<K, Entry<V>>
    ghost var puts: seq<Put<K, V>>

    ghost predicate Valid()
      reads this
    {
      max > 0 && Ticking(puts) && HoldsRecent(entries, puts, max)
    }

    constructor (limit: nat)
      requires limit > 0
      ensures Valid() && puts == [] && max == limit
    {
      max := limit;
      entries := map[];
      puts := [];
    }

    /** `_store_report_center_cache` at clock time `now`. */
    method Store(key: K, result: V, now: int)
      requires Valid() && (puts != [] ==> puts[|puts| - 1].at < now)
      modifies this
      ensures Valid() && puts == old(puts) + [Put(key, now, result)]
      ensures |entries| <= max
    {
      hide Recent, Take, LatestOf, HoldsRecent;
      ghost var put := Put(key, now, result);
      if |entries| >= max && key !in entries {
        OldestExists(entries, puts, max);
        var oldest :| oldest in entries && forall k :: k in entries ==> entries[oldest].at <= entries[k].at;
        EvictingKeeps(entries, puts, max, put, oldest);
        entries := entries - {oldest};
      } else {
        StoringKeeps(entries, puts, max, put);
      }
      entries := entries[key := Entry(now, result)];
      puts := puts + [put];
      SizeIs(entries, puts, max);
    }
  }

  lemma SizeIs<K(!new), V>(cache: map<K, Entry<V>>, puts: seq<Put<K, V>>, max: nat)
    requires HoldsRecent(cache, puts, max)
    ensures |cache| == |Take(Recent(puts), max)| <= max
  {
    RecentIs(puts);
    KeysCount(cache, Take(Recent(puts), max));
  }

  lemma StoringKeeps<K(!new), V>(cache: map<K, Entry<V>>, puts: seq<Put<K, V>>, max: nat, put: Put<K, V>)
    requires max > 0 && HoldsRecent(cache, puts, max) && (|cache| < max || put.key in cache)
    ensures HoldsRecent(cache[put.key := Entry(put.at, put.result)], puts + [put], max)
  {
    hide Recent, Take, LatestOf;
    SizeIs(cache, puts, max);
    OneMoreStore(puts, put, max);
    LatestNext(puts, put);
  }

  lemma EvictingKeeps<K(!new), V>(cache: map<K, Entry<V>>, puts: seq<Put<K, V>>, max: nat, put: Put<K, V>, oldest: K)
    requires Ticking(puts) && HoldsRecent(cache, puts, max) && |cache| >= max > 0 && put.key !in cache
    requires oldest in cache && forall key :: key in cache ==> cache[oldest].at <= cache[key].at
    ensures HoldsRecent((cache - {oldest})[put.key := Entry(put.at, put.result)], puts + [put], max)
  {
    hide Recent, Take, LatestOf;
    SizeIs(cache, puts, max);
    OldestIsLast(cache, puts, max, oldest);
    RecentIs(puts);
    TakeIs(Recent(puts), max);
    OneMoreStore(puts, put, max);
    LatestNext(puts, put);
  }

  lemma TakeIs<K>(keys: seq<K>, n: nat)
    requires Distinct(keys)
    ensures Distinct(Take(keys, n)) && |Take(keys, n)| <= n
    ensures |keys| >= n > 0 ==> |Take(keys, n)| == n && Take(keys, n)[n - 1] == keys[n - 1]
  {
  }

  lemma LatestNext<K(!new), V>(puts: seq<Put<K, V>>, put: Put<K, V>)
    ensures forall key :: LatestOf(puts + [put], key) == if key == put.key then Some(put) else LatestOf(puts, key)
  {
    assert (puts + [put])[..|puts|] == puts;
  }

  lemma OldestExists<K(!new), V>(cache: map<K, Entry<V>>, puts: seq<Put<K, V>>, max: nat)
    requires Ticking(puts) && HoldsRecent(cache, puts, max) && |cache| >= max > 0
    ensures exists oldest :: oldest in cache && forall key :: key in cache ==> cache[oldest].at <= cache[key].at
  {
    hide Recent, StoredAt, HoldsRecent, Ticking;
    FullCache(cache, puts, max);
    RecentIsOrdered(puts);
    var oldest := Recent(puts)[max - 1];
    assert oldest in cache;
    forall key | key in cache ensures cache[oldest].at <= cache[key].at {
      var i :| 0 <= i < max && Recent(puts)[i] == key;
      HeldAt(cache, puts, max, key);
      HeldAt(cache, puts, max, oldest);
    }
  }
}
