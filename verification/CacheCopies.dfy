/**
 What the cache as written does to an identity that an eviction across buckets has made unfindable:
 the next update links it a second time, and further updates can fill the storage with copies.
 */
module CacheCopies {
  import opened Common
  import opened CacheModel
  import opened CacheSteps
  import opened CacheRuns

  // ---------------------------------------------------------------------------
  // The second update

  lemma CrossStorage<K, P>(s: State<K, P>, key: K -> int, x: Item<K, P>, s': State<K, P>)
    requires Agrees(s, key) && !SameBucket(s, key, x) && s' == Update(s, key, x, AsWritten)
    ensures s.storage != [] && s'.storage == [Node(s.next, x)] + s.storage[..|s.storage| - 1]
    ensures Sized(s') && s'.hashSize == s.hashSize && s'.maxSize == s.maxSize && s'.currSize == s.currSize
    ensures 0 <= key(x.ident) && s'.currSize + 1 >= s'.maxSize
  {
    UpdateMiss(s, key, x, AsWritten);
  }

  lemma ScanGrows<K, P>(storage: seq<Node<K, P>>, more: seq<Node<K, P>>, list: seq<Node<K, P>>, ident: K)
    requires ScanDefined(storage, list, ident) && forall h :: h in storage ==> h in more
    ensures ScanDefined(more, list, ident)
  {
  }

  /** In a bucket whose scan for an absent identity is defined, any scan is, with a node in front too. */
  lemma WholeScan<K, P>(storage: seq<Node<K, P>>, list: seq<Node<K, P>>, h: Node<K, P>, absent: K, ident: K)
    requires ScanDefined(storage, list, absent) && Find(list, absent) == |list|
    ensures ScanDefined([h] + storage, [h] + list, ident)
  {
    forall i | 0 <= i < |[h] + list|
      ensures ([h] + list)[i] in [h] + storage
    {
      if i > 0 {
        assert ([h] + list)[i] == list[i - 1];
      }
    }
  }

  lemma SecondVictimScan<K, P>(s1: State<K, P>, key: K -> int, y: Item<K, P>, victim: Node<K, P>)
    requires Sized(s1) && 0 <= key(y.ident) && 0 <= key(victim.item.ident)
    requires LookupDefined(s1, key, y.ident) && Lookup(s1, key, y.ident) == None
    requires LookupDefined(s1, key, victim.item.ident)
    ensures
      var p := PushNew(s1, Slot(s1, key(y.ident)), y);
      ScanDefined(p.storage, p.buckets[Slot(s1, key(victim.item.ident))], victim.item.ident)
  {
    var b, c, node := Slot(s1, key(y.ident)), Slot(s1, key(victim.item.ident)), Node(s1.next, y);
    if c == b {
      WholeScan(s1.storage, s1.buckets[b], node, y.ident, victim.item.ident);
    } else {
      ScanGrows(s1.storage, [node] + s1.storage, s1.buckets[c], victim.item.ident);
    }
  }

  lemma SecondDefined<K, P>(s: State<K, P>, key: K -> int, x: Item<K, P>, y: Item<K, P>, s1: State<K, P>)
    requires Agrees(s, key) && !SameBucket(s, key, x) && s1 == Update(s, key, x, AsWritten) && y.ident == x.ident
    ensures UpdateDefined(s1, key, y) && Lookup(s1, key, y.ident) == None
  {
    CrossStorage(s, key, x, s1);
    VictimUnlinked(s, key, x);
    CrossBucketLookup(s, key, x, y.ident);
    var victim := s1.storage[|s1.storage| - 1];
    HeldItem(s1, victim);
    CrossBucketLookup(s, key, x, victim.item.ident);
    SecondVictimScan(s1, key, y, victim);
  }

  lemma SecondStorage<K, P>(s1: State<K, P>, key: K -> int, y: Item<K, P>, s2: State<K, P>)
    requires Sized(s1) && 0 <= key(y.ident) && Lookup(s1, key, y.ident) == None
    requires s1.storage != [] && s1.currSize + 1 >= s1.maxSize && s2 == Update(s1, key, y, AsWritten)
    ensures s2.storage == [Node(s1.next, y)] + s1.storage[..|s1.storage| - 1]
  {
  }

  lemma CopiedIff<K, P>(a: Node<K, P>, b: Node<K, P>, first: seq<Node<K, P>>, two: seq<Node<K, P>>)
    requires first != [] && a.item.ident == b.item.ident && two == [a] + ([b] + first[..|first| - 1])[..|first| - 1]
    ensures DistinctIdents(two) <==> |first| == 1
  {
    if |first| > 1 {
      assert two[0] == a && two[1] == b;
    }
  }

  lemma SecondCopies<K, P>(
    s: State<K, P>, key: K -> int, x: Item<K, P>, y: Item<K, P>, s1: State<K, P>, s2: State<K, P>)
    requires s.storage != [] && s1.storage == [Node(s.next, x)] + s.storage[..|s.storage| - 1]
    requires Sized(s1) && s1.currSize + 1 >= s1.maxSize && y.ident == x.ident && 0 <= key(y.ident)
    requires Lookup(s1, key, y.ident) == None && s2 == Update(s1, key, y, AsWritten)
    ensures DistinctIdents(s2.storage) <==> |s.storage| == 1
  {
    SecondStorage(s1, key, y, s2);
    CopiedIff(Node(s1.next, y), Node(s.next, x), s.storage, s2.storage);
  }

  /** After an eviction across buckets a second update of the new item's identity is defined, misses,
      and links it again: the storage holds it twice unless that update evicted the first copy, which
      was the only item left. */
  lemma SecondUpdateCopiesIff<K, P>(s: State<K, P>, key: K -> int, x: Item<K, P>, y: Item<K, P>)
    requires Agrees(s, key) && !SameBucket(s, key, x) && y.ident == x.ident
    ensures
      var s1 := Update(s, key, x, AsWritten);
      && Sized(s1) && UpdateDefined(s1, key, y)
      && (DistinctIdents(Update(s1, key, y, AsWritten).storage) <==> |s.storage| == 1)
  {
    var s1 := Update(s, key, x, AsWritten);
    CrossStorage(s, key, x, s1);
    SecondDefined(s, key, x, y, s1);
    SecondCopies(s, key, x, y, s1, Update(s1, key, y, AsWritten));
  }

  // ---------------------------------------------------------------------------
  // Any number of updates of one identity

  /** The buckets of a full cache while one identity, hashed to `b`, is updated over and over: bucket
      `b` is empty, and every other item is alone in its bucket. */
  ghost predicate Flooding<K, P>(s: State<K, P>, key: K -> int, ident: K) {
    && Sized(s) && s.storage != [] && s.currSize + 1 >= s.maxSize && 0 <= key(ident)
    && s.buckets[Slot(s, key(ident))] == []
    && (forall i :: 0 <= i < |s.storage| && s.storage[i].item.ident != ident ==> Lonely(s, key, ident, s.storage[i]))
  }

  ghost predicate Lonely<K, P>(s: State<K, P>, key: K -> int, ident: K, h: Node<K, P>)
    requires Sized(s) && 0 <= key(ident)
  {
    0 <= key(h.item.ident) && Slot(s, key(h.item.ident)) != Slot(s, key(ident))
    && s.buckets[Slot(s, key(h.item.ident))] == [h]
  }

  /** One such update is defined, drops the oldest item and leaves bucket `b` empty again. */
  lemma FloodStep<K, P>(s: State<K, P>, key: K -> int, y: Item<K, P>, s': State<K, P>)
    requires Flooding(s, key, y.ident) && s' == Update(s, key, y, AsWritten)
    ensures UpdateDefined(s, key, y)
    ensures s'.storage == [Node(s.next, y)] + s.storage[..|s.storage| - 1]
    ensures s'.buckets == s.buckets && s'.currSize == s.currSize && s'.maxSize == s.maxSize && s'.hashSize == s.hashSize
  {
    var b, node := Slot(s, key(y.ident)), Node(s.next, y);
    var p := PushNew(s, b, y);
    var victim := p.storage[|p.storage| - 1];
    assert victim == s.storage[|s.storage| - 1];
    var list := p.buckets[VictimSlot(p, key)];
    if victim.item.ident == y.ident {
      assert list == [node] && p.storage[0] == node;
    } else {
      assert Lonely(s, key, y.ident, victim) && list == [victim];
    }
    assert Find(list, victim.item.ident) == 0 && EraseAt(list, 0) == [];
    assert s' == Evict(p, key, b);
    assert s'.buckets == p.buckets[b := []] == s.buckets;
  }

  lemma FloodKeeps<K, P>(s: State<K, P>, key: K -> int, y: Item<K, P>, s': State<K, P>)
    requires Flooding(s, key, y.ident) && s' == Update(s, key, y, AsWritten)
    ensures Flooding(s', key, y.ident)
  {
    FloodStep(s, key, y, s');
    forall i | 0 <= i < |s'.storage| && s'.storage[i].item.ident != y.ident
      ensures Lonely(s', key, y.ident, s'.storage[i])
    {
      assert s'.storage[i] == s.storage[i - 1];
      assert Lonely(s, key, y.ident, s.storage[i - 1]);
    }
  }

  ghost function Newest<K, P>(trace: seq<Item<K, P>>): seq<Item<K, P>> {
    if trace == [] then [] else [trace[|trace| - 1]] + Newest(trace[..|trace| - 1])
  }

  lemma PushedPrefix<K, P>(y: Item<K, P>, front: seq<Item<K, P>>, first: seq<Item<K, P>>, now: seq<Item<K, P>>)
    requires first != [] && now == (front + first)[..|first|]
    ensures [y] + now[..|now| - 1] == (([y] + front) + first)[..|first|]
  {
    assert ([y] + front) + first == [y] + (front + first);
  }

  lemma FloodItems<K, P>(s: State<K, P>, key: K -> int, y: Item<K, P>, s': State<K, P>)
    requires Flooding(s, key, y.ident) && s' == Update(s, key, y, AsWritten)
    ensures UpdateDefined(s, key, y) && Flooding(s', key, y.ident)
    ensures Items(s') == [y] + Items(s)[..|Items(s)| - 1]
  {
    FloodStep(s, key, y, s');
    FloodKeeps(s, key, y, s');
  }

  lemma LastUpdate<K, P>(s: State<K, P>, key: K -> int, trace: seq<Item<K, P>>, m: State<K, P>)
    requires Sized(s) && Sized(m) && trace != [] && RunAsWritten(s, key, trace[..|trace| - 1]) == Some(m)
    requires UpdateDefined(m, key, trace[|trace| - 1])
    ensures RunAsWritten(s, key, trace) == Some(Update(m, key, trace[|trace| - 1], AsWritten))
  {
  }

  lemma {:induction false} FloodRun<K, P>(s: State<K, P>, key: K -> int, ident: K, trace: seq<Item<K, P>>)
    returns (r: State<K, P>)
    requires Flooding(s, key, ident) && forall i :: 0 <= i < |trace| ==> trace[i].ident == ident
    ensures RunAsWritten(s, key, trace) == Some(r) && Flooding(r, key, ident)
    ensures Items(r) == (Newest(trace) + Items(s))[..|s.storage|]
    decreases trace
  {
    if trace == [] {
      r := s;
      assert Newest(trace) + Items(s) == Items(s);
    } else {
      var before, y := trace[..|trace| - 1], trace[|trace| - 1];
      var m := FloodRun(s, key, ident, before);
      r := Update(m, key, y, AsWritten);
      FloodItems(m, key, y, r);
      LastUpdate(s, key, trace, m);
      PushedPrefix(y, Newest(before), Items(s), Items(m));
    }
  }

  // ---------------------------------------------------------------------------
  // From an agreeing cache

  /** No two items share a bucket, and none is in the bucket of the identity. */
  ghost predicate Scattered<K, P>(storage: seq<Node<K, P>>, key: K -> int, m: int, ident: K)
    requires 0 < m
  {
    && (forall i :: 0 <= i < |storage| ==> !Hashed(storage[i], key, m, key(ident) % m))
    && (forall i, j :: 0 <= i < j < |storage| ==> !Hashed(storage[i], key, m, key(storage[j].item.ident) % m))
  }

  lemma {:induction false} ChainEmpty<K, P>(storage: seq<Node<K, P>>, key: K -> int, m: int, b: int)
    requires 0 < m && forall i :: 0 <= i < |storage| ==> !Hashed(storage[i], key, m, b)
    ensures Chain(storage, key, m, b) == []
  {
    if storage != [] {
      ChainEmpty(storage[1..], key, m, b);
    }
  }

  lemma ChainAlone<K, P>(storage: seq<Node<K, P>>, key: K -> int, m: int, ident: K, i: nat)
    requires 0 < m && Scattered(storage, key, m, ident) && i < |storage|
    ensures Chain(storage, key, m, key(storage[i].item.ident) % m) == [storage[i]]
  {
    var c := key(storage[i].item.ident) % m;
    var after := storage[i + 1..];
    assert storage == storage[..i] + ([storage[i]] + after);
    ChainConcat(storage[..i], [storage[i]] + after, key, m, c);
    ChainConcat([storage[i]], after, key, m, c);
    ChainEmpty(storage[..i], key, m, c);
    forall j | 0 <= j < |after|
      ensures !Hashed(after[j], key, m, c)
    {
      assert after[j] == storage[i + 1 + j];
      assert !Hashed(storage[i], key, m, key(storage[i + 1 + j].item.ident) % m);
    }
    ChainEmpty(after, key, m, c);
    ChainOne(storage[i], key, m, c);
  }

  lemma ScatteredFloods<K, P>(s: State<K, P>, key: K -> int, ident: K)
    requires Agrees(s, key) && s.storage != [] && s.currSize + 1 >= s.maxSize && 0 <= key(ident)
    requires Scattered(s.storage, key, s.hashSize, ident)
    ensures Flooding(s, key, ident)
  {
    ChainEmpty(s.storage, key, s.hashSize, key(ident) % s.hashSize);
    forall i | 0 <= i < |s.storage|
      ensures Lonely(s, key, ident, s.storage[i])
    {
      ChainAlone(s.storage, key, s.hashSize, ident, i);
    }
  }

  /** In a full agreeing cache whose items are in buckets of their own, every run of updates of one more
      identity is defined, each update evicts the oldest item and adds a copy, and the identity is
      never found: after as many updates as there were items the storage is nothing but copies. */
  lemma CopiesFillStorage<K, P>(s: State<K, P>, key: K -> int, ident: K, trace: seq<Item<K, P>>)
    requires Agrees(s, key) && s.storage != [] && s.currSize + 1 >= s.maxSize && 0 <= key(ident)
    requires Scattered(s.storage, key, s.hashSize, ident)
    requires forall i :: 0 <= i < |trace| ==> trace[i].ident == ident
    ensures
      var r := RunAsWritten(s, key, trace);
      && r.Some? && Sized(r.value)
      && Items(r.value) == (Newest(trace) + Items(s))[..|s.storage|]
      && LookupDefined(r.value, key, ident) && Lookup(r.value, key, ident) == None
      && (|trace| >= |s.storage| ==> forall i :: 0 <= i < |s.storage| ==> Items(r.value)[i].ident == ident)
  {
    ScatteredFloods(s, key, ident);
    var r := FloodRun(s, key, ident, trace);
    NewestAre(trace, ident);
  }

  lemma {:induction false} NewestAre<K, P>(trace: seq<Item<K, P>>, ident: K)
    requires forall i :: 0 <= i < |trace| ==> trace[i].ident == ident
    ensures |Newest(trace)| == |trace| && forall i :: 0 <= i < |trace| ==> Newest(trace)[i].ident == ident
  {
    if trace != [] {
      NewestAre(trace[..|trace| - 1], ident);
    }
  }
}
