/** The cache itself: a map into a recency list, and the same items in deadline order. */
module TimedLruCaches {
  import opened LruSpec

  datatype Option<V> = None | Some(value: V)

  class Item<V(!new)> {
    const key: int
    var val: V
    var ts: nat

    constructor (key: int, val: V, ts: nat)
      ensures this.key == key && this.val == val && this.ts == ts
    {
      this.key, this.val, this.ts := key, val, ts;
    }

    ghost function View(): Entry<V>
      reads this
    {
      Entry(key, val, ts)
    }
  }

  predicate Before<V(!new)>(a: Item<V>, b: Item<V>)
    reads a, b
  {
    a.ts < b.ts || (a.ts == b.ts && a.key < b.key)
  }

  /** The order of deadlines, and of keys between equal deadlines. */
  ghost predicate Sooner<V(!new)>(a: Entry<V>, b: Entry<V>) {
    a.ts < b.ts || (a.ts == b.ts && a.key < b.key)
  }

  ghost predicate AllSooner<V(!new)>(gone: seq<Entry<V>>, timed: seq<Item<V>>)
    reads timed
  {
    forall i, j :: 0 <= i < |gone| && 0 <= j < |timed| ==> Sooner(gone[i], timed[j].View())
  }

  ghost predicate InDeadlineOrder<V(!new)>(gone: seq<Entry<V>>) {
    forall i, j :: 0 <= i < j < |gone| ==> Sooner(gone[i], gone[j])
  }

  ghost predicate Mirrors<V(!new)>(keys: seq<Item<V>>, order: seq<Entry<V>>)
    reads keys
  {
    |keys| == |order| && forall i :: 0 <= i < |keys| ==> keys[i].View() == order[i]
  }

  ghost predicate Indexed<V(!new)>(cache: map<int, Item<V>>, keys: seq<Item<V>>) {
    && (forall i :: 0 <= i < |keys| ==> keys[i].key in cache && cache[keys[i].key] == keys[i])
    && (forall k :: k in cache ==> cache[k] in keys && cache[k].key == k)
  }

  ghost predicate Sorted<V(!new)>(timed: seq<Item<V>>)
    reads timed
  {
    forall i, j :: 0 <= i < j < |timed| ==> Before(timed[i], timed[j])
  }

  ghost predicate SameItems<V(!new)>(timed: seq<Item<V>>, keys: seq<Item<V>>) {
    (forall i :: 0 <= i < |timed| ==> timed[i] in keys) && (forall i :: 0 <= i < |keys| ==> keys[i] in timed)
  }

  function Cut<T>(s: seq<T>, i: nat): seq<T>
    requires i < |s|
  {
    s[..i] + s[i + 1..]
  }

  /** Dropping the one entry of a key. */
  lemma {:induction false} WithoutAt<V(!new)>(order: seq<Entry<V>>, i: nat)
    requires Unique(order) && i < |order|
    ensures Without(order, order[i].key) == Cut(order, i)
  {
    if i == 0 {
      WithoutNone(order[1..], order[0].key);
    } else {
      WithoutAt(order[1..], i - 1);
      assert Cut(order, i) == [order[0]] + Cut(order[1..], i - 1);
    }
  }

  lemma {:induction false} WithoutNone<V(!new)>(order: seq<Entry<V>>, key: int)
    requires forall i :: 0 <= i < |order| ==> order[i].key != key
    ensures Without(order, key) == order
  {
    if order == [] {
    } else {
      WithoutNone(order[1..], key);
    }
  }

  /** Taking one item out of the recency list, its map entry and the deadline list. */
  lemma IndexedCut<V(!new)>(cache: map<int, Item<V>>, keys: seq<Item<V>>, i: nat)
    requires Indexed(cache, keys) && i < |keys| && DistinctKeys(keys)
    ensures Indexed(cache - {keys[i].key}, Cut(keys, i)) && DistinctKeys(Cut(keys, i))
  {
    hide Cut;
    var rest, left := Cut(keys, i), cache - {keys[i].key};
    CutAt(keys, i);
    forall k | k in left
      ensures left[k] in rest && left[k].key == k
    {
      var j :| 0 <= j < |keys| && keys[j] == cache[k];
      assert rest[if j < i then j else j - 1] == keys[j];
    }
    forall j | 0 <= j < |rest|
      ensures rest[j].key in left && left[rest[j].key] == rest[j]
    {
      assert rest[j] == keys[if j < i then j else j + 1];
    }
  }

  lemma CutAt<T>(s: seq<T>, i: nat)
    requires i < |s|
    ensures |Cut(s, i)| == |s| - 1
    ensures forall j :: 0 <= j < |s| - 1 ==> Cut(s, i)[j] == s[if j < i then j else j + 1]
  {}

  ghost predicate DistinctKeys<V(!new)>(keys: seq<Item<V>>) {
    forall i, j :: 0 <= i < j < |keys| ==> keys[i].key != keys[j].key
  }

  lemma SameItemsCut<V(!new)>(timed: seq<Item<V>>, t: nat, keys: seq<Item<V>>, i: nat)
    requires SameItems(timed, keys) && t < |timed| && i < |keys| && timed[t] == keys[i]
    requires DistinctKeys(keys) && forall j :: 0 <= j < |timed| && j != t ==> timed[j] != timed[t]
    ensures SameItems(Cut(timed, t), Cut(keys, i))
  {
    var less, rest := Cut(timed, t), Cut(keys, i);
    forall j | 0 <= j < |less|
      ensures less[j] in rest
    {
      var k :| 0 <= k < |keys| && keys[k] == less[j];
      assert less[j] != keys[i];
      assert rest[if k < i then k else k - 1] == keys[k];
    }
    forall j | 0 <= j < |rest|
      ensures rest[j] in less
    {
      var k :| 0 <= k < |timed| && timed[k] == rest[j];
      assert rest[j].key != keys[i].key;
      assert less[if k < t then k else k - 1] == timed[k];
    }
  }

  ghost function KeySet<V(!new)>(keys: seq<Item<V>>): (r: set<int>)
    ensures forall k :: k in r <==> exists i :: 0 <= i < |keys| && keys[i].key == k
  {
    set i | 0 <= i < |keys| :: keys[i].key
  }

  lemma {:induction false} KeySetSize<V(!new)>(keys: seq<Item<V>>)
    requires DistinctKeys(keys)
    ensures |KeySet(keys)| == |keys|
  {
    if keys == [] {
    } else {
      var last: nat := |keys| - 1;
      KeySetSize(keys[..last]);
      assert KeySet(keys) == KeySet(keys[..last]) + {keys[last].key};
    }
  }

  lemma CacheSize<V(!new)>(cache: map<int, Item<V>>, keys: seq<Item<V>>)
    requires Indexed(cache, keys) && DistinctKeys(keys)
    ensures |cache| == |keys|
  {
    KeySetSize(keys);
    assert cache.Keys == KeySet(keys);
  }

  lemma MirrorsLength<V(!new)>(keys: seq<Item<V>>, order: seq<Entry<V>>)
    requires Mirrors(keys, order)
    ensures |keys| == |order|
  {}

  lemma MirrorsCut<V(!new)>(keys: seq<Item<V>>, order: seq<Entry<V>>, i: nat)
    requires Mirrors(keys, order) && i < |keys|
    ensures Mirrors(Cut(keys, i), Cut(order, i))
  {}

  lemma MirrorsAdd<V(!new)>(keys: seq<Item<V>>, order: seq<Entry<V>>, item: Item<V>)
    requires Mirrors(keys, order)
    ensures Mirrors([item] + keys, [item.View()] + order)
  {}

  lemma CutLength<T>(s: seq<T>, i: nat)
    requires i < |s|
    ensures |Cut(s, i)| == |s| - 1
  {}

  lemma MirrorsFront<V(!new)>(keys: seq<Item<V>>, order: seq<Entry<V>>, i: nat)
    requires Mirrors(keys, order) && i < |keys|
    ensures Mirrors([keys[i]] + Cut(keys, i), [order[i]] + Cut(order, i))
  {}

  lemma SortedCut<V(!new)>(timed: seq<Item<V>>, t: nat)
    requires Sorted(timed) && t < |timed|
    ensures Sorted(Cut(timed, t))
    ensures forall j :: 0 <= j < |timed| && j != t ==> timed[j] != timed[t]
  {
    forall j | 0 <= j < |timed| && j != t
      ensures timed[j] != timed[t]
    {
      if j < t {
        assert Before(timed[j], timed[t]);
      } else {
        assert Before(timed[t], timed[j]);
      }
    }
  }

  lemma KeysOfOrder<V(!new)>(keys: seq<Item<V>>, order: seq<Entry<V>>)
    requires Mirrors(keys, order)
    ensures DistinctKeys(keys) <==> Unique(order)
  {
    assert forall i :: 0 <= i < |keys| ==> keys[i].key == keys[i].View().key == order[i].key;
  }

  /** Moving one item to the front of the recency list. */
  lemma FrontKeeps<V(!new)>(cache: map<int, Item<V>>, keys: seq<Item<V>>, i: nat, timed: seq<Item<V>>)
    requires Indexed(cache, keys) && DistinctKeys(keys) && SameItems(timed, keys) && i < |keys|
    ensures var moved := [keys[i]] + Cut(keys, i);
      Indexed(cache, moved) && DistinctKeys(moved) && SameItems(timed, moved)
  {
    hide Indexed, DistinctKeys, SameItems, Cut;
    var moved := [keys[i]] + Cut(keys, i);
    FrontAt(keys, i);
    FrontDistinct(keys, i, moved);
    FrontIndexed(cache, keys, i, moved);
    FrontSame(timed, keys, i, moved);
  }

  ghost function FrontIndex(j: nat, i: nat): nat {
    if j == 0 then i else if j <= i then j - 1 else j
  }

  ghost predicate IsFront<V(!new)>(keys: seq<Item<V>>, i: nat, moved: seq<Item<V>>) {
    && i < |keys| == |moved|
    && (forall j :: 0 <= j < |moved| ==> moved[j] == keys[FrontIndex(j, i)])
    && (forall j :: 0 <= j < |keys| ==> keys[j] in moved)
  }

  lemma FrontAt<V(!new)>(keys: seq<Item<V>>, i: nat)
    requires i < |keys|
    ensures IsFront(keys, i, [keys[i]] + Cut(keys, i))
  {
    var moved := [keys[i]] + Cut(keys, i);
    forall j | 0 <= j < |keys|
      ensures keys[j] in moved
    {
      assert moved[if j == i then 0 else if j < i then j + 1 else j] == keys[j];
    }
  }

  lemma FrontDistinct<V(!new)>(keys: seq<Item<V>>, i: nat, moved: seq<Item<V>>)
    requires DistinctKeys(keys) && IsFront(keys, i, moved)
    ensures DistinctKeys(moved)
  {
    forall a, b | 0 <= a < b < |moved|
      ensures moved[a].key != moved[b].key
    {
      var x, y := FrontIndex(a, i), FrontIndex(b, i);
      assert x != y && moved[a] == keys[x] && moved[b] == keys[y];
    }
  }

  lemma FrontIndexed<V(!new)>(cache: map<int, Item<V>>, keys: seq<Item<V>>, i: nat, moved: seq<Item<V>>)
    requires Indexed(cache, keys) && IsFront(keys, i, moved)
    ensures Indexed(cache, moved)
  {}

  lemma FrontSame<V(!new)>(timed: seq<Item<V>>, keys: seq<Item<V>>, i: nat, moved: seq<Item<V>>)
    requires SameItems(timed, keys) && IsFront(keys, i, moved)
    ensures SameItems(timed, moved)
  {}

  /** Taking the item out of the deadline list and putting it back elsewhere. */
  lemma SameItemsAgain<V(!new)>(timed: seq<Item<V>>, t: nat, keys: seq<Item<V>>, at: nat, again: seq<Item<V>>)
    requires SameItems(timed, keys) && t < |timed| && at <= |timed| - 1
    requires again == Cut(timed, t)[..at] + [timed[t]] + Cut(timed, t)[at..]
    ensures SameItems(again, keys)
  {
    var less := Cut(timed, t);
    forall j | 0 <= j < |keys|
      ensures keys[j] in again
    {
      var k :| 0 <= k < |timed| && timed[k] == keys[j];
      if k != t {
        var m := if k < t then k else k - 1;
        assert less[m] == timed[k];
        assert again[if m < at then m else m + 1] == less[m];
      } else {
        assert again[at] == timed[t];
      }
    }
    forall j | 0 <= j < |again|
      ensures again[j] in keys
    {
      if j != at {
        var m := if j < at then j else j - 1;
        assert again[j] == less[m];
        assert less[m] == timed[if m < t then m else m + 1];
      }
    }
  }

  /** Adding a new item in front. */
  lemma AddKeeps<V(!new)>(cache: map<int, Item<V>>, keys: seq<Item<V>>, item: Item<V>)
    requires Indexed(cache, keys) && DistinctKeys(keys) && item.key !in cache
    ensures Indexed(cache[item.key := item], [item] + keys) && DistinctKeys([item] + keys)
  {
    var all := [item] + keys;
    forall j | 0 <= j < |keys|
      ensures keys[j] in all && keys[j].key != item.key
    {
      assert all[j + 1] == keys[j];
    }
  }

  lemma SameItemsAdd<V(!new)>(timed: seq<Item<V>>, keys: seq<Item<V>>, item: Item<V>, at: nat)
    requires SameItems(timed, keys) && at <= |timed|
    ensures SameItems(timed[..at] + [item] + timed[at..], [item] + keys)
  {
    var more, all := timed[..at] + [item] + timed[at..], [item] + keys;
    forall j | 0 <= j < |all|
      ensures all[j] in more
    {
      if j > 0 {
        var k :| 0 <= k < |timed| && timed[k] == keys[j - 1];
        assert more[if k < at then k else k + 1] == timed[k];
      } else {
        assert more[at] == item;
      }
    }
    forall j | 0 <= j < |more|
      ensures more[j] in all
    {
      if j != at {
        assert more[j] == timed[if j < at then j else j - 1];
      }
    }
  }

  class TimedLruCache<V(!new)> {
    var cache: map<int, Item<V>>
    var keys: seq<Item<V>>
    var timed: seq<Item<V>>
    var maxSize: nat
    var elasticity: nat
    /** The entries, the most recently used first. */
    ghost var order: seq<Entry<V>>

    /** Map, recency list and deadline list hold the same items. */
    ghost predicate Valid()
      reads this, keys, timed
    {
      && DistinctKeys(keys)
      && Mirrors(keys, order)
      && Indexed(cache, keys)
      && Sorted(timed)
      && SameItems(timed, keys)
    }

    constructor (maxSize: nat, elasticity: nat)
      ensures Valid() && order == [] && this.maxSize == maxSize && this.elasticity == elasticity
    {
      cache, keys, timed, order := map[], [], [], [];
      this.maxSize, this.elasticity := maxSize, elasticity;
    }

    /** A key is in the map exactly when the cache has an entry for it. */
    lemma FoundIff(k: int)
      requires Valid()
      ensures k in cache <==> Present(order, k)
      ensures k in cache ==> exists i :: 0 <= i < |keys| && keys[i] == cache[k] && order[i] == Find(order, k)
    {
      KeysOfOrder(keys, order);
      if k in cache {
        var i :| 0 <= i < |keys| && keys[i] == cache[k];
        assert order[i] == keys[i].View();
        var j :| 0 <= j < |order| && order[j] == Find(order, k);
      } else {
        forall e | e in order
          ensures e.key != k
        {
          var j :| 0 <= j < |order| && order[j] == e;
          assert e == keys[j].View();
        }
      }
    }

    /** The list iterator of an item. */
    method Position(items: seq<Item<V>>, item: Item<V>) returns (i: nat)
      requires item in items
      ensures i < |items| && items[i] == item
    {
      i :| i < |items| && items[i] == item;
    }

    /** Puts the item where its deadline belongs. */
    method InsertTimed(item: Item<V>)
      requires Sorted(timed) && item !in timed
      requires forall i :: 0 <= i < |timed| ==> timed[i].key != item.key
      modifies this`timed
      ensures Sorted(timed) && |timed| == |old(timed)| + 1
      ensures exists i :: 0 <= i <= |old(timed)| && timed == old(timed)[..i] + [item] + old(timed)[i..]
    {
      var i := 0;
      while i < |timed| && Before(timed[i], item)
        invariant i <= |timed| && forall j :: 0 <= j < i ==> Before(timed[j], item)
      {
        i := i + 1;
      }
      timed := timed[..i] + [item] + timed[i..];
    }

    /** Takes the item at `i` out of all three. */
    method Drop(i: nat)
      requires Valid() && i < |keys|
      modifies this`cache, this`keys, this`timed, this`order
      ensures Valid() && keys == Cut(old(keys), i) && order == Cut(old(order), i)
      ensures order == Without(old(order), old(order)[i].key)
      ensures exists t :: 0 <= t < |old(timed)| && old(timed)[t] == old(keys)[i] && timed == Cut(old(timed), t)
    {
      hide DistinctKeys, Mirrors, Indexed, Sorted, SameItems, Cut, Without, Unique;
      var item := keys[i];
      KeysOfOrder(keys, order);
      MirrorsLength(keys, order);
      WithoutAt(order, i);
      IndexedCut(cache, keys, i);
      InTimed(i);
      var t := Position(timed, item);
      SortedCut(timed, t);
      SameItemsCut(timed, t, keys, i);
      cache := cache - {item.key};
      timed := Cut(timed, t);
      MirrorsCut(keys, order, i);
      keys, order := Cut(keys, i), Cut(order, i);
    }

    lemma InTimed(i: nat)
      requires SameItems(timed, keys) && i < |keys|
      ensures keys[i] in timed
    {}

    /** Splices an item to the front. */
    method MoveToFront(i: nat)
      requires Valid() && i < |keys|
      modifies this`keys, this`order
      ensures Valid() && |order| == |keys| == |old(keys)| == |old(order)|
      ensures keys == [old(keys)[i]] + Cut(old(keys), i)
      ensures order == [old(order)[i]] + Without(old(order), old(order)[i].key)
      ensures order[1..] == Cut(old(order), i)
    {
      hide DistinctKeys, Indexed, Sorted, SameItems, Without, Unique, Mirrors, Cut;
      KeysOfOrder(keys, order);
      MirrorsLength(keys, order);
      WithoutAt(order, i);
      CutLength(order, i);
      CutLength(keys, i);
      MirrorsFront(keys, order, i);
      FrontKeeps(cache, keys, i, timed);
      keys := [keys[i]] + Cut(keys, i);
      order := [order[i]] + Cut(order, i);
    }

    method Get(k: int) returns (result: Option<V>)
      requires Valid()
      modifies this`keys, this`order
      ensures Valid()
      ensures result == if Present(old(order), k) then Some(Find(old(order), k).val) else None
      ensures order == Apply(old(order), Op.Get(k), maxSize, elasticity)
    {
      hide DistinctKeys, Indexed, Sorted, SameItems, Without, Cut, Present;
      FoundIff(k);
      if k !in cache {
        return None;
      }
      var i := PositionOf(k);
      MoveToFront(i);
      return Some(keys[0].val);
    }

    /** The list iterator the map holds for a key. */
    method PositionOf(k: int) returns (i: nat)
      requires Valid() && k in cache
      ensures i < |keys| && keys[i] == cache[k] && |order| == |keys| && keys[i].View() == order[i]
      ensures Present(order, k) && order[i] == Find(order, k)
    {
      FoundIff(k);
      i := Position(keys, cache[k]);
      KeysOfOrder(keys, order);
    }

    method Del(k: int) returns (done: bool)
      requires Valid()
      modifies this`cache, this`keys, this`timed, this`order
      ensures Valid()
      ensures done <==> Present(old(order), k)
      ensures order == Apply(old(order), Op.Del(k), maxSize, elasticity)
    {
      hide DistinctKeys, Mirrors, Indexed, Sorted, SameItems, Cut, Filter;
      FoundIff(k);
      if k !in cache {
        WithoutNone(order, k);
        return false;
      }
      var i := PositionOf(k);
      Drop(i);
      return true;
    }

    lemma KeysMatch(i: nat)
      requires Mirrors(keys, order) && i < |keys|
      ensures |order| == |keys| && order[i] == keys[i].View()
    {}

    lemma OthersDiffer(t: nat)
      requires Valid() && t < |timed| && |keys| > 0 && timed[t] == keys[0]
      ensures forall j :: 0 <= j < |timed| && j != t ==> timed[j].key != keys[0].key
    {
      SortedCut(timed, t);
      forall j | 0 <= j < |timed| && j != t
        ensures timed[j].key != keys[0].key
      {
        var k :| 0 <= k < |keys| && keys[k] == timed[j];
      }
    }

    lemma CutOthers(items: seq<Item<V>>, t: nat)
      requires t < |items| && forall j :: 0 <= j < |items| && j != t ==> items[j].key != items[t].key
      ensures items[t] !in Cut(items, t)
      ensures forall j :: 0 <= j < |Cut(items, t)| ==> Cut(items, t)[j].key != items[t].key
    {
      forall j | 0 <= j < |Cut(items, t)|
        ensures Cut(items, t)[j].key != items[t].key
      {
        assert Cut(items, t)[j] == items[if j < t then j else j + 1];
      }
    }

    /** Changes the front item, which is out of the deadline list while its deadline changes. */
    method Rewrite(t: nat, v: V, ts: nat)
      requires Valid() && |keys| > 0 && t < |timed| && timed[t] == keys[0]
      modifies this`timed, this`order, keys[0]
      ensures Valid() && |old(order)| == |keys|
      ensures order == [Entry(keys[0].key, v, ts)] + old(order)[1..]
    {
      hide Indexed, SameItems, Sorted, Cut;
      var item := keys[0];
      ghost var before := timed;
      OthersDiffer(t);
      SortedCut(timed, t);
      CutOthers(timed, t);
      CutLength(timed, t);
      timed := Cut(timed, t);
      item.val := v;
      item.ts := ts;
      InsertTimed(item);
      ghost var at :| 0 <= at < |before| && timed == Cut(before, t)[..at] + [item] + Cut(before, t)[at..];
      SameItemsAgain(before, t, keys, at, timed);
      order := [Entry(item.key, v, ts)] + order[1..];
    }

    /** A Set of a key that is present. */
    method Renew(i: nat, v: V, ts: nat)
      requires Valid() && i < |keys|
      modifies this`keys, this`timed, this`order, keys[i]
      ensures Valid() && |old(order)| == |old(keys)|
      ensures order == [Entry(old(order)[i].key, v, ts)] + Without(old(order), old(order)[i].key)
    {
      hide DistinctKeys, Indexed, Sorted, SameItems, Without, Unique, Mirrors, Cut;
      KeysMatch(i);
      MoveToFront(i);
      InTimed(0);
      var t := Position(timed, keys[0]);
      Rewrite(t, v, ts);
    }

    /** A Set of a key that is absent, before anything is pruned. */
    method Add(k: int, v: V, ts: nat)
      requires Valid() && k !in cache
      modifies this`cache, this`keys, this`timed, this`order
      ensures Valid() && order == [Entry(k, v, ts)] + old(order)
      ensures |keys| == |old(keys)| + 1 && fresh(keys[0]) && keys[1..] == old(keys)
    {
      hide Indexed, SameItems, DistinctKeys, Mirrors, Sorted;
      var item := new Item(k, v, ts);
      NotTimed(item);
      AddKeeps(cache, keys, item);
      MirrorsAdd(keys, order, item);
      ghost var before, others := timed, keys;
      keys := [item] + keys;
      cache := cache[k := item];
      order := [Entry(k, v, ts)] + order;
      InsertTimed(item);
      ghost var at :| 0 <= at <= |before| && timed == before[..at] + [item] + before[at..];
      SameItemsAdd(before, others, item, at);
    }

    lemma NotTimed(item: Item<V>)
      requires Valid() && item.key !in cache
      ensures item !in timed && forall i :: 0 <= i < |timed| ==> timed[i].key != item.key
    {
      forall i | 0 <= i < |timed|
        ensures timed[i].key != item.key
      {
        var j :| 0 <= j < |keys| && keys[j] == timed[i];
      }
    }

    /** Evicts from the back of the recency list; returns what the callback was told. */
    method Prune() returns (evicted: seq<Entry<V>>)
      requires Valid()
      modifies this`cache, this`keys, this`timed, this`order
      ensures Valid() && order == Pruned(old(order), maxSize, elasticity)
      ensures |order| + |evicted| == |old(order)|
      ensures forall i :: 0 <= i < |evicted| ==> evicted[i] == old(order)[|old(order)| - 1 - i]
    {
      hide Indexed, Sorted, SameItems, DistinctKeys, Mirrors, Without;
      evicted := [];
      CacheSize(cache, keys);
      MirrorsLength(keys, order);
      if maxSize == 0 || |cache| < Allowed(maxSize, elasticity) {
        return;
      }
      while |cache| > maxSize
        invariant Valid() && |cache| == |keys| == |order| && order <= old(order)
        invariant |order| >= maxSize || order == old(order)
        invariant |order| + |evicted| == |old(order)|
        invariant forall i :: 0 <= i < |evicted| ==> evicted[i] == old(order)[|old(order)| - 1 - i]
      {
        var last: nat := |keys| - 1;
        KeysMatch(last);
        evicted := evicted + [Entry(keys[last].key, keys[last].val, keys[last].ts)];
        Drop(last);
        CacheSize(cache, keys);
        MirrorsLength(keys, order);
      }
    }

    /** `ts` is the deadline: the current time and the time to live. */
    method Set(k: int, v: V, ts: nat) returns (evicted: seq<Entry<V>>)
      requires Valid()
      modifies this`cache, this`keys, this`timed, this`order, keys
      ensures Valid() && order == Apply(old(order), Op.Set(k, v, ts), maxSize, elasticity)
      ensures Present(old(order), k) ==> evicted == []
      ensures !Present(old(order), k) ==> |order| + |evicted| == |old(order)| + 1
      ensures !Present(old(order), k) ==> forall i :: 0 <= i < |evicted| ==>
        evicted[i] == ([Entry(k, v, ts)] + old(order))[|old(order)| - i]
    {
      hide DistinctKeys, Indexed, Sorted, SameItems, Without, Unique, Mirrors, Cut, Present, Pruned;
      evicted := [];
      FoundIff(k);
      if k in cache {
        var i := PositionOf(k);
        assert keys[i] in keys;
        Renew(i, v, ts);
        return;
      }
      Add(k, v, ts);
      evicted := Prune();
    }

    /** Takes out the item with the earliest deadline. */
    method DropFirst() returns (gone: Entry<V>)
      requires Valid() && |timed| > 0
      modifies this`cache, this`keys, this`timed, this`order
      ensures Valid() && timed == old(timed)[1..] && gone == old(timed[0].View())
      ensures gone in old(order) && order == Without(old(order), gone.key) && |order| == |old(order)| - 1
      ensures forall e :: e in old(order) && e.key == gone.key ==> e == gone
    {
      hide Indexed, Mirrors, SameItems, DistinctKeys, Without;
      var item := timed[0];
      InKeys(0);
      var i := Position(keys, item);
      KeysMatch(i);
      KeysOfOrder(keys, order);
      OnlyEntry(i);
      SortedCut(timed, 0);
      gone := Entry(item.key, item.val, item.ts);
      Drop(i);
    }

    lemma OnlyEntry(i: nat)
      requires Unique(order) && i < |order|
      ensures forall e :: e in order && e.key == order[i].key ==> e == order[i]
    {}

    lemma InKeys(t: nat)
      requires SameItems(timed, keys) && t < |timed|
      ensures timed[t] in keys
    {}

    /** When the earliest deadline is later than `ts`, all are. */
    lemma AllLater(ts: nat)
      requires Valid() && (|timed| > 0 ==> timed[0].ts > ts)
      ensures forall i :: 0 <= i < |order| ==> order[i].ts > ts
    {
      forall i | 0 <= i < |order|
        ensures order[i].ts > ts
      {
        assert order[i] == keys[i].View();
        var t :| 0 <= t < |timed| && timed[t] == keys[i];
        assert t > 0 ==> Before(timed[0], timed[t]);
      }
    }

    /** Removes the items whose deadline has passed; returns what the callback was told. */
    method CheckTimeout(ts: nat) returns (count: nat, evicted: seq<Entry<V>>)
      requires Valid()
      modifies this`cache, this`keys, this`timed, this`order
      ensures Valid() && order == Apply(old(order), Op.Expire(ts), maxSize, elasticity)
      ensures count == |evicted| && |order| + count == |old(order)|
      ensures InDeadlineOrder(evicted)
      ensures forall i :: 0 <= i < |evicted| ==> evicted[i] in old(order) && evicted[i].ts <= ts
    {
      hide Indexed, Mirrors, SameItems, DistinctKeys, Filter;
      evicted, count := [], 0;
      while |timed| > 0 && timed[0].ts <= ts
        invariant Valid() && Alive(order, ts) == Alive(old(order), ts)
        invariant count == |evicted| && |order| + count == |old(order)|
        invariant InDeadlineOrder(evicted) && AllSooner(evicted, timed)
        invariant forall e :: e in order ==> e in old(order)
        invariant forall i :: 0 <= i < |evicted| ==> evicted[i] in old(order) && evicted[i].ts <= ts
        decreases |order|
      {
        ghost var before := order;
        var gone := DropFirst();
        AliveWithout(before, gone.key, ts);
        evicted := evicted + [gone];
        count := count + 1;
      }
      AllLater(ts);
      AliveAll(order, ts);
    }
  }
}
