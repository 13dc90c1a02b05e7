/** A hash table whose buckets are kept sorted by key. */
module HashMaps {
  import Bits

  datatype Node<V> = Node(key: int, val: V)

  datatype Option<V> = None | Some(value: V)

  ghost predicate Sorted<V(!new)>(bucket: seq<Node<V>>) {
    forall i, j :: 0 <= i < j < |bucket| ==> bucket[i].key < bucket[j].key
  }

  ghost predicate Distinct<V(!new)>(bucket: seq<Node<V>>) {
    forall i, j :: 0 <= i < j < |bucket| ==> bucket[i].key != bucket[j].key
  }

  /** The same nodes in some order; no key occurs twice. */
  ghost predicate Permuted<V(!new)>(a: seq<Node<V>>, b: seq<Node<V>>) {
    && |a| == |b| && Distinct(a) && Distinct(b)
    && (forall i :: 0 <= i < |a| ==> a[i] in b) && (forall i :: 0 <= i < |b| ==> b[i] in a)
  }

  // ---------------------------------------------------------------- the helpers of util.h

  /** The first node not below `key` if it has that key, and the end otherwise. */
  method BinarySearch<V(!new)>(bucket: seq<Node<V>>, key: int) returns (at: nat)
    requires Sorted(bucket)
    ensures at <= |bucket|
    ensures at < |bucket| ==> bucket[at].key == key
    ensures at == |bucket| ==> forall i :: 0 <= i < |bucket| ==> bucket[i].key != key
  {
    var low, high := 0, |bucket|;
    while low < high
      invariant 0 <= low <= high <= |bucket|
      invariant forall i :: 0 <= i < low ==> bucket[i].key < key
      invariant forall i :: high <= i < |bucket| ==> bucket[i].key >= key
    {
      var mid := (low + high) / 2;
      if bucket[mid].key < key {
        low := mid + 1;
      } else {
        high := mid;
      }
    }
    if low == |bucket| || key < bucket[low].key {
      return |bucket|;
    }
    return low;
  }

  ghost function Swapped<V(!new)>(s: seq<Node<V>>, i: nat, j: nat): (r: seq<Node<V>>)
    requires i < |s| && j < |s|
    ensures |r| == |s|
  {
    s[i := s[j]][j := s[i]]
  }

  lemma SwappedAt<V(!new)>(s: seq<Node<V>>, i: nat, j: nat)
    requires i < |s| && j < |s|
    ensures forall k :: 0 <= k < |s| ==> Swapped(s, i, j)[k] == s[Other(k, i, j)]
  {}

  lemma SwappedDistinct<V(!new)>(s: seq<Node<V>>, i: nat, j: nat, r: seq<Node<V>>)
    requires i < |s| && j < |s| && Distinct(s) && |r| == |s|
    requires forall k :: 0 <= k < |s| ==> r[k] == s[Other(k, i, j)]
    ensures Distinct(r)
  {
    forall a, b | 0 <= a < b < |r|
      ensures r[a].key != r[b].key
    {
      var x, y := Other(a, i, j), Other(b, i, j);
      assert x != y && r[a] == s[x] && r[b] == s[y];
    }
  }

  lemma SwappedPermuted<V(!new)>(s: seq<Node<V>>, i: nat, j: nat)
    requires i < |s| && j < |s| && Distinct(s)
    ensures Permuted(Swapped(s, i, j), s)
  {
    hide Swapped, Distinct;
    var r := Swapped(s, i, j);
    SwappedAt(s, i, j);
    SwappedDistinct(s, i, j, r);
    forall k | 0 <= k < |s|
      ensures s[k] in r && r[k] in s
    {
      assert r[Other(k, i, j)] == s[k];
    }
  }

  ghost function Other(k: nat, i: nat, j: nat): nat {
    if k == i then j else if k == j then i else k
  }

  /** Sorted but for position `p`, whose element is below everything behind it. */
  ghost predicate Gap<V(!new)>(s: seq<Node<V>>, p: nat) {
    && (forall i, j :: 0 <= i < j < |s| && i != p && j != p ==> s[i].key < s[j].key)
    && (forall j :: p < j < |s| ==> p < |s| && s[p].key < s[j].key)
    && (forall i :: 0 <= i < p < |s| ==> s[i].key != s[p].key)
  }

  lemma GapMoves<V(!new)>(s: seq<Node<V>>, p: nat)
    requires 0 < p < |s| && Gap(s, p) && s[p].key < s[p - 1].key
    ensures Gap(Swapped(s, p - 1, p), p - 1)
  {}

  lemma GapCloses<V(!new)>(s: seq<Node<V>>, p: nat)
    requires p < |s| && Gap(s, p) && (p > 0 ==> s[p - 1].key <= s[p].key)
    ensures Sorted(s)
  {}

  /** The source's insertion of the last of the first `size` elements among the sorted ones
      before it. */
  method SortLast<V(!new)>(data: array<Node<V>>, size: nat)
    requires size <= data.Length
    requires Distinct(data[..size]) && (size > 0 ==> Sorted(data[..size - 1]))
    modifies data
    ensures Sorted(data[..size]) && data[size..] == old(data[size..])
    ensures Permuted(data[..size], old(data[..size]))
  {
    hide Gap, Sorted, Distinct, Permuted, Swapped;
    PermutedSame(data[..size]);
    if size <= 1 {
      ShortSorted(data[..size]);
      return;
    }
    assert data[..size][..size - 1] == data[..size - 1];
    GapStarts(data[..size]);
    ghost var s0 := data[..size];
    ghost var s := s0;
    var i := size - 2;
    while i >= 0
      invariant -1 <= i <= size - 2
      invariant s == data[..size] && Gap(s, i + 1)
      invariant Permuted(s, s0) && data[size..] == old(data[size..])
    {
      if !(data[i + 1].key < data[i].key) {
        break;
      }
      SwapMoves(s, i, s0);
      Swap(data, i, size);
      s := Swapped(s, i, i + 1);
      i := i - 1;
    }
    GapCloses(s, i + 1);
  }

  /** One swap of the loop. */
  lemma SwapMoves<V(!new)>(s: seq<Node<V>>, i: nat, s0: seq<Node<V>>)
    requires i + 1 < |s| && Gap(s, i + 1) && s[i + 1].key < s[i].key && Permuted(s, s0)
    ensures Gap(Swapped(s, i, i + 1), i) && Permuted(Swapped(s, i, i + 1), s0)
  {
    hide Gap, Sorted, Distinct, Permuted, Swapped;
    GapMoves(s, i + 1);
    PermutedDistinct(s, s0);
    SwappedPermuted(s, i, i + 1);
    PermutedMore(Swapped(s, i, i + 1), s, s0);
  }

  method Swap<V(!new)>(data: array<Node<V>>, i: nat, ghost size: nat)
    requires i + 1 < size <= data.Length
    modifies data
    ensures data[..size] == Swapped(old(data[..size]), i, i + 1) && data[size..] == old(data[size..])
  {
    data[i + 1], data[i] := data[i], data[i + 1];
  }

  lemma GapStarts<V(!new)>(s: seq<Node<V>>)
    requires |s| > 0 && Sorted(s[..|s| - 1]) && Distinct(s)
    ensures Gap(s, |s| - 1)
  {
    assert forall k :: 0 <= k < |s| - 1 ==> s[k] == s[..|s| - 1][k];
  }

  lemma ShortSorted<V(!new)>(s: seq<Node<V>>)
    requires |s| <= 1
    ensures Sorted(s)
  {}

  lemma PermutedDistinct<V(!new)>(a: seq<Node<V>>, b: seq<Node<V>>)
    requires Permuted(a, b)
    ensures Distinct(a) && Distinct(b) && |a| == |b| && forall n :: n in a <==> n in b
  {}

  lemma PermutedSame<V(!new)>(s: seq<Node<V>>)
    requires Distinct(s)
    ensures Permuted(s, s)
  {}

  lemma PermutedMore<V(!new)>(a: seq<Node<V>>, b: seq<Node<V>>, c: seq<Node<V>>)
    requires Permuted(a, b) && Permuted(b, c)
    ensures Permuted(a, c)
  {
    PermutedDistinct(a, b);
    PermutedDistinct(b, c);
  }

  /** std::sort on a bucket, as an insertion sort. */
  method SortBucket<V(!new)>(bucket: seq<Node<V>>) returns (sorted: seq<Node<V>>)
    requires Distinct(bucket)
    ensures Sorted(sorted) && Permuted(sorted, bucket)
  {
    hide Sorted, Distinct, Permuted;
    var data := new Node<V>[|bucket|](i requires 0 <= i < |bucket| => bucket[i]);
    assert data[..] == bucket;
    PermutedSame(bucket);
    ShortSorted(data[..0]);
    var n := 0;
    while n < |bucket|
      invariant n <= |bucket| && Sorted(data[..n]) && Permuted(data[..], bucket)
    {
      ghost var before := data[..];
      PermutedDistinct(before, bucket);
      DistinctPart(before, n + 1);
      assert before[..n + 1] == data[..n + 1];
      SortLast(data, n + 1);
      assert data[..] == data[..n + 1] + before[n + 1..];
      PermutedPart(before, n + 1, data[..n + 1]);
      PermutedMore(data[..], before, bucket);
      n := n + 1;
    }
    assert data[..n] == data[..];
    return data[..];
  }

  /** push_back and sortLast. */
  method Pushed<V(!new)>(bucket: seq<Node<V>>, node: Node<V>) returns (more: seq<Node<V>>)
    requires Sorted(bucket) && forall n :: n in bucket ==> n.key != node.key
    ensures Sorted(more) && forall n :: n in more <==> n == node || (n in bucket && n.key != node.key)
  {
    hide Sorted, Distinct, Permuted;
    ghost var all := bucket + [node];
    PushDistinct(bucket, node);
    var data := new Node<V>[|bucket| + 1](i requires 0 <= i <= |bucket| => if i < |bucket| then bucket[i] else node);
    assert data[..|bucket| + 1] == all && data[..|bucket|] == bucket;
    SortLast(data, |bucket| + 1);
    more := data[..|bucket| + 1];
    PermutedDistinct(more, all);
  }

  lemma PushDistinct<V(!new)>(bucket: seq<Node<V>>, node: Node<V>)
    requires Sorted(bucket) && forall n :: n in bucket ==> n.key != node.key
    ensures Distinct(bucket + [node])
  {
    assert forall i :: 0 <= i < |bucket| ==> bucket[i] in bucket;
  }

  lemma DistinctPart<V(!new)>(s: seq<Node<V>>, n: nat)
    requires Distinct(s) && n <= |s|
    ensures Distinct(s[..n])
  {}

  /** Rearranging a prefix rearranges the whole. */
  lemma PermutedPart<V(!new)>(s: seq<Node<V>>, n: nat, prefix: seq<Node<V>>)
    requires Distinct(s) && n <= |s| && Permuted(prefix, s[..n])
    ensures Permuted(prefix + s[n..], s)
  {
    var r := prefix + s[n..];
    assert s == s[..n] + s[n..];
    forall i | 0 <= i < n
      ensures exists k :: 0 <= k < n && s[k] == prefix[i]
    {
      assert prefix[i] in s[..n];
    }
    assert forall i :: n <= i < |r| ==> r[i] == s[i];
  }

  function FloorLog2(n: nat): (k: nat)
    requires n > 0
    ensures Bits.Pow2(k) <= n < Bits.Pow2(k + 1)
  {
    if n == 1 then 0 else FloorLog2(n / 2) + 1
  }

  /** The quotient, exact as a `double` for a power of two, is above 16 as a `float` if it is
      more than half a unit of the last place, 2^-20, above it. */
  predicate RateAbove16(total: nat, size: nat) { 0x10_0000 * total > (0x100_0000 + 1) * size }

  /** That is the exact comparison up to 2^20 - 1 buckets, and not at 2^20. */
  lemma RateIsExact(total: nat, size: nat)
    ensures size < 0x10_0000 ==> (RateAbove16(total, size) <==> total > 16 * size)
    ensures !RateAbove16(16 * 0x10_0000 + 1, 0x10_0000)
  {}

  /** A power of two of at most 2^30. */
  function Basket(n: int): (size: nat)
    ensures size > 0
  {
    if n <= 0 then 1
    else
      var k := FloorLog2(n) + 1;
      Bits.Pow2(if k < 30 then k else 30)
  }

  /** The power of two above `n`, but never more than 2^30; one where `n` is not positive. */
  lemma BasketIs(n: int)
    ensures n <= 0 ==> Basket(n) == 1
    ensures 0 < n < 0x2000_0000 ==> n < Basket(n) <= 2 * n
    ensures n >= 0x2000_0000 ==> Basket(n) == 0x4000_0000
    ensures exists k: nat :: Basket(n) == Bits.Pow2(k)
  {
    hide Bits.Pow2, FloorLog2;
    PowThirty();
    PowTwentyNine();
    OneIsPower();
    if n > 0 {
      var k := FloorLog2(n);
      Bits.PowHalf(k + 1);
      if k + 1 < 30 {
        Bits.PowGrows(k + 1, 29);
      } else {
        Bits.PowGrows(29, k);
      }
    }
  }

  lemma PowTwentyNine()
    ensures Bits.Pow2(29) == 0x2000_0000
  {
    PowThirty();
    Bits.PowHalf(30);
  }

  lemma OneIsPower()
    ensures Bits.Pow2(0) == 1
  {}

  lemma PowThirty()
    ensures Bits.Pow2(30) == 0x4000_0000
  {
    Bits.Powers();
    Bits.PowAdd(2, 28);
  }

  /** A rehash leaves more buckets than keys exactly when there are fewer than 2^30 keys. */
  lemma BasketExceedsIff(total: nat)
    ensures Basket(Bits.Int32(total)) > total <==> total < 0x4000_0000
  {
    hide Bits.Pow2, FloorLog2;
    PowThirty();
    var n := Bits.Int32(total);
    if 0 < n {
      var k := FloorLog2(n);
      if k + 1 < 30 {
        Bits.PowGrows(k + 1, 30);
      }
      if k >= 30 {
        Bits.PowGrows(30, k);
      }
    }
  }

  // ---------------------------------------------------------------- the table

  /** The bucket of a key is its hash modulo their number. */
  function BucketOf(hash: int -> nat, key: int, buckets: nat): (i: nat)
    requires buckets > 0
    ensures i < buckets
  {
    hash(key) % buckets
  }

  /** The bucket holds exactly the pairs of the map whose keys belong to it. */
  ghost predicate Fills<V(!new)>(bucket: seq<Node<V>>, hash: int -> nat, buckets: nat, i: nat, model: map<int, V>)
    requires buckets > 0
  {
    forall n :: n in bucket <==> n.key in model && model[n.key] == n.val && BucketOf(hash, n.key, buckets) == i
  }

  ghost predicate Placed<V(!new)>(datas: seq<seq<Node<V>>>, hash: int -> nat, model: map<int, V>) {
    |datas| > 0 && forall i :: 0 <= i < |datas| ==> Fills(datas[i], hash, |datas|, i, model)
  }

  /** One bucket and the keys of that bucket changed together. */
  lemma PlacedChange<V(!new)>(datas: seq<seq<Node<V>>>, hash: int -> nat, model: map<int, V>, pos: nat,
                              bucket: seq<Node<V>>, after: map<int, V>)
    requires Placed(datas, hash, model) && pos < |datas| && Fills(bucket, hash, |datas|, pos, after)
    requires forall k :: BucketOf(hash, k, |datas|) != pos ==> (k in after <==> k in model)
    requires forall k :: BucketOf(hash, k, |datas|) != pos && k in model ==> after[k] == model[k]
    ensures Placed(datas[pos := bucket], hash, after)
  {
    forall i | 0 <= i < |datas| && i != pos
      ensures Fills(datas[i], hash, |datas|, i, after)
    {
      assert Fills(datas[i], hash, |datas|, i, model);
    }
  }

  class HashMap<V(!new)> {
    const hash: int -> nat
    var size: nat
    var total: nat
    var datas: seq<seq<Node<V>>>
    ghost var model: map<int, V>

    ghost predicate Valid()
      reads this
    {
      && size == |datas|
      && total == |model|
      && Placed(datas, hash, model)
      && (forall i :: 0 <= i < |datas| ==> Sorted(datas[i]))
    }

    constructor (hash: int -> nat, size: int)
      ensures Valid() && model == map[] && this.hash == hash
    {
      this.hash := hash;
      this.size, total := Basket(size), 0;
      datas := seq(Basket(size), _ => []);
      model := map[];
    }

    /** Where the key is, if it is in the map. */
    method Locate(k: int) returns (pos: nat, at: nat)
      requires Valid()
      ensures pos < |datas| && pos == BucketOf(hash, k, |datas|) && at <= |datas[pos]|
      ensures k in model <==> at < |datas[pos]|
      ensures k in model ==> datas[pos][at] == Node(k, model[k])
    {
      pos := BucketOf(hash, k, size);
      at := BinarySearch(datas[pos], k);
      assert Fills(datas[pos], hash, size, pos, model);
      assert k in model ==> Node(k, model[k]) in datas[pos];
    }

    method Get(k: int) returns (result: Option<V>)
      requires Valid()
      ensures result == if k in model then Some(model[k]) else None
    {
      var pos, at := Locate(k);
      result := if at == |datas[pos]| then None else Some(datas[pos][at].val);
    }

    method Exists(k: int) returns (found: bool)
      requires Valid()
      ensures found <==> k in model
    {
      var pos, at := Locate(k);
      found := at != |datas[pos]|;
    }

    method Set(k: int, v: V) returns (added: bool)
      requires Valid()
      modifies this
      ensures Valid() && model == old(model)[k := v]
      ensures added <==> k !in old(model)
    {
      if NeedRehash() {
        Rehash();
      }
      added := Put(k, v);
    }

    method Put(k: int, v: V) returns (added: bool)
      requires Valid()
      modifies this`datas, this`total, this`model
      ensures Valid() && model == old(model)[k := v]
      ensures added <==> k !in old(model)
    {
      hide Sorted, Fills, Placed;
      PlacedSome();
      var pos, at := Locate(k);
      added := at == |datas[pos]|;
      var bucket;
      if added {
        FreshKey(k, pos);
        bucket := Pushed(datas[pos], Node(k, v));
        total := total + 1;
      } else {
        bucket := Stored(pos, at, v);
      }
      PutFills(k, v, pos, bucket);
      PlacedChange(datas, hash, model, pos, bucket, model[k := v]);
      assert model[k := v].Keys == model.Keys + {k};
      datas := datas[pos := bucket];
      model := model[k := v];
    }

    lemma FreshKey(k: int, pos: nat)
      requires Valid() && pos < |datas| && k !in model
      ensures forall n :: n in datas[pos] ==> n.key != k
      ensures Sorted(datas[pos])
    {
      assert Fills(datas[pos], hash, size, pos, model);
    }

    lemma PlacedSome()
      requires Placed(datas, hash, model)
      ensures |datas| > 0
    {}

    lemma PutFills(k: int, v: V, pos: nat, bucket: seq<Node<V>>)
      requires Placed(datas, hash, model) && pos < |datas| && pos == BucketOf(hash, k, |datas|)
      requires forall n :: n in bucket <==> n == Node(k, v) || (n in datas[pos] && n.key != k)
      ensures Fills(bucket, hash, |datas|, pos, model[k := v])
    {
      assert Fills(datas[pos], hash, |datas|, pos, model);
    }

    /** The bucket with the value at `at` replaced. */
    method Stored(pos: nat, at: nat, v: V) returns (bucket: seq<Node<V>>)
      requires Valid() && pos < |datas| && at < |datas[pos]|
      ensures Sorted(bucket)
      ensures var key := datas[pos][at].key;
        forall n :: n in bucket <==> n == Node(key, v) || (n in datas[pos] && n.key != key)
    {
      var was := datas[pos];
      bucket := was[at := Node(was[at].key, v)];
      forall n | n in was && n.key != was[at].key
        ensures n in bucket
      {
        var i :| 0 <= i < |was| && was[i] == n;
        assert bucket[i] == n;
      }
      assert bucket[at] == Node(was[at].key, v);
    }

    /** The bucket without the node at `at`: the last one takes its place, and the rest is sorted. */
    method Removed(pos: nat, at: nat) returns (bucket: seq<Node<V>>)
      requires Valid() && pos < |datas| && at < |datas[pos]|
      ensures Sorted(bucket)
      ensures forall n :: n in bucket <==> n in datas[pos] && n != datas[pos][at]
    {
      var was := datas[pos];
      var last := |was| - 1;
      var less := was[at := was[last]][..last];
      assert Distinct(less);
      forall n | n in was && n != was[at]
        ensures n in less
      {
        var i :| 0 <= i < |was| && was[i] == n;
        assert less[if i == last then at else i] == n;
      }
      bucket := SortBucket(less);
      PermutedDistinct(bucket, less);
    }

    lemma DelFills(k: int, pos: nat, bucket: seq<Node<V>>)
      requires Placed(datas, hash, model) && pos < |datas| && k in model && pos == BucketOf(hash, k, |datas|)
      requires forall n :: n in bucket <==> n in datas[pos] && n != Node(k, model[k])
      ensures Fills(bucket, hash, |datas|, pos, model - {k})
    {
      assert Fills(datas[pos], hash, |datas|, pos, model);
    }

    method Del(k: int) returns (done: bool)
      requires Valid()
      modifies this
      ensures Valid() && model == old(model) - {k}
      ensures done <==> k in old(model)
    {
      hide Sorted, Fills, Placed;
      PlacedSome();
      var pos, at := Locate(k);
      if at == |datas[pos]| {
        assert model == model - {k};
        return false;
      }
      var bucket := Removed(pos, at);
      DelFills(k, pos, bucket);
      PlacedChange(datas, hash, model, pos, bucket, model - {k});
      assert model.Keys == (model - {k}).Keys + {k};
      datas := datas[pos := bucket];
      total := total - 1;
      model := model - {k};
      return true;
    }

    /** More than sixteen nodes a bucket on average, as far as a `float` tells. */
    predicate NeedRehash()
      reads this
    {
      RateAbove16(total, size)
    }

    method Rehash()
      requires Valid()
      modifies this
      ensures Valid() && model == old(model)
      ensures size == if old(NeedRehash()) then Basket(Bits.Int32(total)) else old(size)
      ensures old(size) < 0x10_0000 ==>
        size == if old(total) > 16 * old(size) then Basket(Bits.Int32(old(total))) else old(size)
    {
      if NeedRehash() {
        RehashUnlock();
      }
    }

    method RehashUnlock()
      requires Valid()
      modifies this
      ensures Valid() && model == old(model)
      ensures size == Basket(Bits.Int32(total)) && (size > total <==> total < 0x4000_0000)
    {
      hide Sorted, Distinct, Placed, Basket;
      BasketExceedsIff(total);
      var wanted := Basket(Bits.Int32(total));
      if wanted == size {
        return;
      }
      var nodes := Nodes();
      var unsorted := Distribute(nodes, wanted);
      datas := SortAll(unsorted);
      size := wanted;
    }

    /** Every node, bucket by bucket. */
    method Nodes() returns (all: seq<Node<V>>)
      requires Valid()
      ensures Distinct(all)
      ensures forall n :: n in all <==> n.key in model && model[n.key] == n.val
    {
      all := [];
      var i := 0;
      while i < size
        invariant i <= size && Distinct(all)
        invariant forall n :: n in all <==> n.key in model && model[n.key] == n.val && BucketOf(hash, n.key, size) < i
      {
        NodesOf(i);
        assert Distinct(all + datas[i]) by {
          AppendDistinct(all, datas[i], i);
        }
        all := all + datas[i];
        i := i + 1;
      }
    }

    lemma NodesOf(i: nat)
      requires Valid() && i < size
      ensures forall n :: n in datas[i] <==> n.key in model && model[n.key] == n.val && BucketOf(hash, n.key, size) == i
    {
      assert Fills(datas[i], hash, size, i, model);
    }

    lemma AppendDistinct(a: seq<Node<V>>, b: seq<Node<V>>, i: nat)
      requires size > 0 && Distinct(a) && Sorted(b)
      requires forall n :: n in a ==> BucketOf(hash, n.key, size) < i
      requires forall n :: n in b ==> BucketOf(hash, n.key, size) == i
      ensures Distinct(a + b)
    {
      forall x, y | 0 <= x < y < |a + b|
        ensures (a + b)[x].key != (a + b)[y].key
      {
        if x < |a| <= y {
          assert a[x] in a && b[y - |a|] in b;
        }
      }
    }

    /** The nodes pushed into their buckets in a table of `wanted` of them. */
    method Distribute(nodes: seq<Node<V>>, wanted: nat) returns (table: seq<seq<Node<V>>>)
      requires wanted > 0 && Distinct(nodes)
      requires Lists(nodes, model)
      ensures |table| == wanted && Placed(table, hash, model)
      ensures forall i :: 0 <= i < wanted ==> Distinct(table[i])
    {
      table := seq(wanted, _ => []);
      ghost var sub: map<int, V> := map[];
      var c := 0;
      while c < |nodes|
        invariant c <= |nodes| && |table| == wanted && Placed(table, hash, sub)
        invariant forall i :: 0 <= i < wanted ==> Distinct(table[i])
        invariant forall k :: k in sub <==> Keyed(nodes[..c], k)
        invariant forall k :: k in sub ==> k in model && sub[k] == model[k]
      {
        var node := nodes[c];
        var pos := BucketOf(hash, node.key, wanted);
        NewKey(nodes, c);
        PushPlaced(table, sub, pos, node);
        table := table[pos := table[pos] + [node]];
        sub := sub[node.key := node.val];
        KeyedMore(nodes, c);
        c := c + 1;
      }
      assert nodes[..c] == nodes;
      AllPairs(nodes, model, sub);
    }

    lemma PushPlaced(table: seq<seq<Node<V>>>, sub: map<int, V>, pos: nat, node: Node<V>)
      requires Placed(table, hash, sub) && pos < |table| && pos == BucketOf(hash, node.key, |table|)
      requires node.key !in sub && Distinct(table[pos])
      ensures Placed(table[pos := table[pos] + [node]], hash, sub[node.key := node.val])
      ensures Distinct(table[pos] + [node])
    {
      var bucket := table[pos] + [node];
      assert Fills(table[pos], hash, |table|, pos, sub);
      PlacedChange(table, hash, sub, pos, bucket, sub[node.key := node.val]);
    }

    /** std::sort on every bucket. */
    method SortAll(table: seq<seq<Node<V>>>) returns (sorted: seq<seq<Node<V>>>)
      requires Placed(table, hash, model) && forall i :: 0 <= i < |table| ==> Distinct(table[i])
      ensures |sorted| == |table| && Placed(sorted, hash, model)
      ensures forall i :: 0 <= i < |sorted| ==> Sorted(sorted[i])
    {
      sorted := table;
      var i := 0;
      while i < |table|
        invariant i <= |table| == |sorted| && Placed(sorted, hash, model)
        invariant forall j :: 0 <= j < i ==> Sorted(sorted[j])
        invariant forall j :: i <= j < |table| ==> Distinct(sorted[j])
      {
        var bucket := SortBucket(sorted[i]);
        PermutedDistinct(bucket, sorted[i]);
        assert Fills(sorted[i], hash, |sorted|, i, model);
        PlacedChange(sorted, hash, model, i, bucket, model);
        sorted := sorted[i := bucket];
        i := i + 1;
      }
    }

    /** Sets every pair of the other table, which may be this one. */
    method Merge(other: HashMap<V>)
      requires Valid() && other.Valid()
      modifies this
      ensures Valid() && model == old(model) + old(other.model)
    {
      var pairs := other.Nodes();
      SetAll(pairs, other.model);
    }

    method SetAll(pairs: seq<Node<V>>, ghost added: map<int, V>)
      requires Valid() && Lists(pairs, added)
      modifies this
      ensures Valid() && model == old(model) + added
    {
      hide Keyed, Covered, Lists, Joined, Valid;
      ghost var sub: map<int, V> := map[];
      NoneCovered(pairs, added);
      JoinedNone(model);
      var c := 0;
      while c < |pairs|
        invariant c <= |pairs| && Valid() && Joined(model, old(model), sub) && Covered(pairs, c, sub, added)
      {
        sub := SetNext(pairs, c, old(model), sub, added);
        c := c + 1;
      }
      AllCovered(pairs, sub, added);
      JoinedIs(model, old(model), sub);
    }

    /** One turn of that loop. */
    method SetNext(pairs: seq<Node<V>>, c: nat, ghost before: map<int, V>, ghost sub: map<int, V>,
                   ghost added: map<int, V>)
      returns (ghost more: map<int, V>)
      requires Valid() && Lists(pairs, added) && c < |pairs|
      requires Joined(model, before, sub) && Covered(pairs, c, sub, added)
      modifies this
      ensures Valid() && Joined(model, before, more) && Covered(pairs, c + 1, more, added)
    {
      hide Keyed, Covered, Lists, Joined, Valid;
      var k, v := pairs[c].key, pairs[c].val;
      JoinedOne(model, before, sub, k, v);
      CoveredMore(pairs, c, sub, added);
      var done := Set(k, v);
      more := sub[k := v];
    }
  }

  /** `sub` has the keys of the first `c` nodes, with their values in `model`. */
  ghost predicate Covered<V(!new)>(nodes: seq<Node<V>>, c: nat, sub: map<int, V>, model: map<int, V>) {
    && c <= |nodes|
    && (forall k :: k in sub <==> Keyed(nodes[..c], k))
    && (forall k :: k in sub ==> k in model && sub[k] == model[k])
  }

  lemma NoneCovered<V(!new)>(nodes: seq<Node<V>>, model: map<int, V>)
    ensures Covered(nodes, 0, map[], model)
  {
    NoneKeyed(nodes);
  }

  lemma CoveredMore<V(!new)>(nodes: seq<Node<V>>, c: nat, sub: map<int, V>, model: map<int, V>)
    requires Covered(nodes, c, sub, model) && Lists(nodes, model) && c < |nodes|
    ensures Covered(nodes, c + 1, sub[nodes[c].key := nodes[c].val], model)
  {
    hide Keyed;
    assert nodes[c] in nodes;
    KeyedMore(nodes, c);
  }

  lemma AllCovered<V(!new)>(nodes: seq<Node<V>>, sub: map<int, V>, model: map<int, V>)
    requires Lists(nodes, model)
    requires Covered(nodes, |nodes|, sub, model)
    ensures sub == model
  {
    assert nodes[..|nodes|] == nodes;
    AllPairs(nodes, model, sub);
  }

  /** The nodes are the entries of `model`. */
  ghost predicate Lists<V(!new)>(nodes: seq<Node<V>>, model: map<int, V>) {
    forall n :: n in nodes <==> n.key in model && model[n.key] == n.val
  }

  ghost predicate Keyed<V(!new)>(nodes: seq<Node<V>>, key: int) {
    exists i :: 0 <= i < |nodes| && nodes[i].key == key
  }

  lemma AllPairs<V(!new)>(nodes: seq<Node<V>>, model: map<int, V>, sub: map<int, V>)
    requires Lists(nodes, model)
    requires forall k :: k in sub <==> Keyed(nodes, k)
    requires forall k :: k in sub ==> k in model && sub[k] == model[k]
    ensures sub == model
  {
    forall k
      ensures k in sub <==> k in model
    {
      if k in model {
        assert Node(k, model[k]) in nodes;
        var i :| 0 <= i < |nodes| && nodes[i] == Node(k, model[k]);
        assert Keyed(nodes, k);
      }
    }
    assert forall k :: k in model ==> sub[k] == model[k];
  }

  ghost predicate Joined<V(!new)>(now: map<int, V>, m: map<int, V>, sub: map<int, V>) { now == m + sub }

  lemma JoinedNone<V(!new)>(m: map<int, V>)
    ensures Joined(m, m, map[])
  {
    assert m == m + map[];
  }

  lemma JoinedOne<V(!new)>(now: map<int, V>, m: map<int, V>, sub: map<int, V>, k: int, v: V)
    requires Joined(now, m, sub)
    ensures Joined(now[k := v], m, sub[k := v])
  {
    assert (m + sub)[k := v] == m + sub[k := v];
  }

  lemma JoinedIs<V(!new)>(now: map<int, V>, m: map<int, V>, sub: map<int, V>)
    requires Joined(now, m, sub)
    ensures now == m + sub
  {}

  lemma KeyedMore<V(!new)>(nodes: seq<Node<V>>, c: nat)
    requires c < |nodes|
    ensures forall k :: Keyed(nodes[..c + 1], k) <==> Keyed(nodes[..c], k) || k == nodes[c].key
  {
    var less, more := nodes[..c], nodes[..c + 1];
    assert more == less + [nodes[c]];
    forall k
      ensures Keyed(more, k) <==> Keyed(less, k) || k == nodes[c].key
    {
      if Keyed(less, k) {
        var i :| 0 <= i < |less| && less[i].key == k;
        assert more[i].key == k;
      }
      assert more[c] == nodes[c];
    }
  }

  lemma NoneKeyed<V(!new)>(nodes: seq<Node<V>>)
    ensures forall k :: !Keyed(nodes[..0], k)
  {}

  lemma NewKey<V(!new)>(nodes: seq<Node<V>>, c: nat)
    requires Distinct(nodes) && c < |nodes|
    ensures !Keyed(nodes[..c], nodes[c].key)
  {}
}
