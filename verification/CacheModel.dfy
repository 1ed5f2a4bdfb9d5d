/**
 The recency cache `CCache<T>` of P2P_Client_src/include/cache.h as a value.

 An item is an identity, compared by the source's `==`, and a payload; the hash key is a
 function `key` of the identity. A `Node` is one node of the storage list together with the
 item it points to; the buckets hold nodes where the source holds iterators. The source
 overwrites an item only just before it unlinks that item's node, so a node never changes
 while it is linked, and `id` keeps a later node apart from an unlinked one.
 */
module CacheModel {

  import opened Common

  datatype Item<K, P> = Item(ident: K, payload: P)

  datatype Node<K, P> = Node(id: nat, item: Item<K, P>)

  datatype State<K, P> = State(
    maxSize: int,
    hashSize: int,
    currSize: int,
    storage: seq<Node<K, P>>,
    buckets: seq<seq<Node<K, P>>>,
    next: nat)

  /** Where an evicting update writes what is left of the victim's bucket. */
  datatype Eviction = AsWritten | Intended

  /** The sizes set by the constructor and by `setSizeLimit`. */
  predicate Sized<K, P>(s: State<K, P>) {
    1 <= s.maxSize && s.hashSize == 3 * s.maxSize == |s.buckets|
  }

  // ---------------------------------------------------------------------------
  // Lists of nodes

  function EraseAt<T>(s: seq<T>, i: nat): seq<T>
    requires i < |s|
  {
    s[..i] + s[i + 1..]
  }

  /** Unlinks one node. */
  function Without<K(==), P(==)>(s: seq<Node<K, P>>, h: Node<K, P>): seq<Node<K, P>> {
    if s == [] then [] else if s[0] == h then s[1..] else [s[0]] + Without(s[1..], h)
  }

  /** Position of the first node whose item has the identity, or the length. */
  function Find<K(==), P>(b: seq<Node<K, P>>, ident: K): (r: nat)
    ensures r <= |b|
    ensures r < |b| ==> b[r].item.ident == ident
    ensures forall i :: 0 <= i < r ==> b[i].item.ident != ident
  {
    if b == [] || b[0].item.ident == ident then 0
    else
      var r := Find(b[1..], ident);
      assert forall i :: 0 < i < r + 1 ==> b[i] == b[1..][i - 1];
      r + 1
  }

  // ---------------------------------------------------------------------------
  // Operations

  /** The bucket index that `lookup` and `update` compute from a non-negative key. */
  function Slot<K, P>(s: State<K, P>, k: int): (b: int)
    requires Sized(s) && 0 <= k
    ensures b == k % s.hashSize
    ensures 0 <= b < |s.buckets|
  {
    if k >= s.maxSize then k % s.hashSize else SmallMod(k, s.hashSize); k
  }

  lemma SmallMod(k: int, m: int)
    requires 0 <= k && 0 < m
    ensures k < m ==> k % m == k
  {
  }

  function Empty<K, P>(size: int): State<K, P>
    requires 1 <= size
  {
    State(size, 3 * size, 0, [], seq(3 * size, _ => []), 0)
  }

  function Lookup<K(==), P>(s: State<K, P>, key: K -> int, ident: K): Option<Item<K, P>>
    requires Sized(s)
  {
    var k := key(ident);
    if k < 0 then None
    else
      var b := s.buckets[Slot(s, k)];
      var i := Find(b, ident);
      if i < |b| then Some(b[i].item) else None
  }

  /** A hit: overwrite the entry, unlink it from both lists, relink it at both fronts. */
  function Refresh<K(==), P(==)>(s: State<K, P>, b: nat, i: nat, data: Item<K, P>): State<K, P>
    requires b < |s.buckets| && i < |s.buckets[b]|
  {
    var node := Node(s.next, data);
    s.(storage := [node] + Without(s.storage, s.buckets[b][i]),
       buckets := s.buckets[b := [node] + EraseAt(s.buckets[b], i)],
       next := s.next + 1)
  }

  /** A miss: link the clone at both fronts and count it. */
  function PushNew<K, P>(s: State<K, P>, b: nat, data: Item<K, P>): State<K, P>
    requires b < |s.buckets|
  {
    var node := Node(s.next, data);
    s.(storage := [node] + s.storage,
       buckets := s.buckets[b := [node] + s.buckets[b]],
       next := s.next + 1,
       currSize := s.currSize + 1)
  }

  function VictimSlot<K, P>(s: State<K, P>, key: K -> int): (b: int)
    requires Sized(s) && s.storage != []
    ensures 0 <= b < |s.buckets|
  {
    key(s.storage[|s.storage| - 1].item.ident) % s.hashSize
  }

  /** Drops the oldest node; bucket `dst` becomes the victim's bucket without the victim. */
  function Evict<K(==), P>(s: State<K, P>, key: K -> int, dst: nat): State<K, P>
    requires Sized(s) && s.storage != [] && dst < |s.buckets|
  {
    var n := |s.storage| - 1;
    var list := s.buckets[VictimSlot(s, key)];
    var j := Find(list, s.storage[n].item.ident);
    s.(storage := s.storage[..n],
       buckets := s.buckets[dst := if j < |list| then EraseAt(list, j) else list],
       currSize := s.currSize - 1)
  }

  function Update<K(==), P(==)>(s: State<K, P>, key: K -> int, data: Item<K, P>, how: Eviction): State<K, P>
    requires Sized(s)
  {
    var k := key(data.ident);
    if k < 0 then s
    else
      var b := Slot(s, k);
      var i := Find(s.buckets[b], data.ident);
      if i < |s.buckets[b]| then Refresh(s, b, i, data)
      else
        var pushed := PushNew(s, b, data);
        if pushed.currSize >= pushed.maxSize
        then Evict(pushed, key, if how == AsWritten then b else VictimSlot(pushed, key))
        else pushed
  }

  /** Keeps the buckets that still have an index and adds empty ones. */
  function Resized<T>(buckets: seq<seq<T>>, n: nat): (r: seq<seq<T>>)
    ensures |r| == n
    ensures forall c :: 0 <= c < n ==> r[c] == if c < |buckets| then buckets[c] else []
  {
    if n <= |buckets| then buckets[..n] else buckets + seq(n - |buckets|, _ => [])
  }

  function SetSizeLimit<K, P>(s: State<K, P>, size: int): State<K, P>
    requires 1 <= size
  {
    s.(maxSize := size, hashSize := 3 * size, buckets := Resized(s.buckets, 3 * size))
  }

  function Clear<K, P>(s: State<K, P>): State<K, P> {
    s.(currSize := 0, storage := [], buckets := seq(|s.buckets|, _ => []))
  }

  // ---------------------------------------------------------------------------
  // Agreement between the storage list and the buckets

  ghost predicate Hashed<K, P>(h: Node<K, P>, key: K -> int, m: int, b: int)
    requires 0 < m
  {
    key(h.item.ident) % m == b
  }

  /** The nodes of one bucket in storage order: the reference definition of a bucket. */
  ghost function Chain<K, P>(storage: seq<Node<K, P>>, key: K -> int, m: int, b: int): seq<Node<K, P>>
    requires 0 < m
  {
    if storage == [] then []
    else (if Hashed(storage[0], key, m, b) then [storage[0]] else []) + Chain(storage[1..], key, m, b)
  }

  ghost predicate DistinctIdents<K, P>(storage: seq<Node<K, P>>) {
    forall i, j :: 0 <= i < j < |storage| ==> storage[i].item.ident != storage[j].item.ident
  }

  /** The storage list on its own: one node per identity, non-negative keys, a true count. */
  ghost predicate StorageOk<K, P>(s: State<K, P>, key: K -> int) {
    && Sized(s)
    && s.currSize == |s.storage|
    && DistinctIdents(s.storage)
    && (forall i :: 0 <= i < |s.storage| ==> 0 <= key(s.storage[i].item.ident))
  }

  /** Every bucket is the order-preserving subsequence of the storage list hashed to it. */
  ghost predicate Agrees<K, P>(s: State<K, P>, key: K -> int) {
    && StorageOk(s, key)
    && (forall b :: 0 <= b < s.hashSize ==> s.buckets[b] == Chain(s.storage, key, s.hashSize, b))
  }

  /** No bucket holds an unlinked node. */
  ghost predicate AllLinked<K, P>(s: State<K, P>) {
    Sized(s) && forall b, i :: 0 <= b < |s.buckets| && 0 <= i < |s.buckets[b]| ==> s.buckets[b][i] in s.storage
  }

  /** The scan of a bucket for an identity reads linked nodes only. */
  ghost predicate ScanDefined<K, P>(storage: seq<Node<K, P>>, list: seq<Node<K, P>>, ident: K) {
    forall i :: 0 <= i < |list| && i <= Find(list, ident) ==> list[i] in storage
  }

  /** What the source demands of a lookup: that its one scan is defined. */
  ghost predicate LookupDefined<K, P>(s: State<K, P>, key: K -> int, ident: K) {
    && Sized(s)
    && (0 <= key(ident) ==> ScanDefined(s.storage, s.buckets[Slot(s, key(ident))], ident))
  }

  /** What it demands of an update: the same, and if the update evicts, that the scan of the
      victim's bucket is defined too. */
  ghost predicate UpdateDefined<K, P>(s: State<K, P>, key: K -> int, x: Item<K, P>) {
    && LookupDefined(s, key, x.ident)
    && (0 <= key(x.ident) && s.currSize + 1 >= s.maxSize &&
        Find(s.buckets[Slot(s, key(x.ident))], x.ident) == |s.buckets[Slot(s, key(x.ident))]| ==>
          var pushed := PushNew(s, Slot(s, key(x.ident)), x);
          var victim := pushed.storage[|pushed.storage| - 1];
          ScanDefined(pushed.storage, pushed.buckets[VictimSlot(pushed, key)], victim.item.ident))
  }

  ghost function ItemsOf<K, P>(storage: seq<Node<K, P>>): (r: seq<Item<K, P>>)
    ensures |r| == |storage|
    ensures forall i :: 0 <= i < |r| ==> r[i] == storage[i].item
  {
    seq(|storage|, i requires 0 <= i < |storage| => storage[i].item)
  }

  /** The cached items, newest first. */
  ghost function Items<K, P>(s: State<K, P>): seq<Item<K, P>> {
    ItemsOf(s.storage)
  }

  ghost predicate Holds<K, P>(list: seq<Item<K, P>>, ident: K) {
    exists i :: 0 <= i < |list| && list[i].ident == ident
  }

  /** All items but those with the identity. */
  ghost function Drop<K, P>(list: seq<Item<K, P>>, ident: K): seq<Item<K, P>> {
    if list == [] then [] else (if list[0].ident == ident then [] else [list[0]]) + Drop(list[1..], ident)
  }

  /** The effect of an update on the list of items, without buckets or nodes. */
  ghost function Touch<K, P>(list: seq<Item<K, P>>, x: Item<K, P>, n: int): seq<Item<K, P>> {
    if Holds(list, x.ident) then [x] + Drop(list, x.ident)
    else if |list| + 1 >= n then ([x] + list)[..|list|]
    else [x] + list
  }

  /** The guard of the eviction branch. */
  ghost predicate Evicts<K, P>(s: State<K, P>, key: K -> int, x: Item<K, P>) {
    0 <= key(x.ident) && !Holds(Items(s), x.ident) && s.currSize + 1 >= s.maxSize
  }

  /** The key of the node an evicting update of `x` removes (`x` itself if nothing else is stored). */
  ghost function VictimKey<K, P>(s: State<K, P>, key: K -> int, x: Item<K, P>): int {
    if s.storage == [] then key(x.ident) else key(s.storage[|s.storage| - 1].item.ident)
  }

  /** Either nothing is evicted or the victim hashes to the bucket of the new item. */
  ghost predicate SameBucket<K, P>(s: State<K, P>, key: K -> int, x: Item<K, P>)
    requires 0 < s.hashSize
  {
    Evicts(s, key, x) ==> key(x.ident) % s.hashSize == VictimKey(s, key, x) % s.hashSize
  }

  // ---------------------------------------------------------------------------
  // Chains under list surgery

  lemma {:induction false} InChain<K, P>(storage: seq<Node<K, P>>, key: K -> int, m: int, b: int, h: Node<K, P>)
    requires 0 < m
    ensures h in Chain(storage, key, m, b) <==> h in storage && Hashed(h, key, m, b)
  {
    if storage != [] {
      InChain(storage[1..], key, m, b, h);
      assert h in storage <==> h == storage[0] || h in storage[1..];
    }
  }

  lemma {:induction false} WithoutAbsent<K, P>(s: seq<Node<K, P>>, h: Node<K, P>)
    requires h !in s
    ensures Without(s, h) == s
  {
    if s != [] {
      WithoutAbsent(s[1..], h);
    }
  }

  lemma {:induction false} WithoutIsErase<K, P>(s: seq<Node<K, P>>, i: nat)
    requires i < |s| && s[i] !in s[..i]
    ensures Without(s, s[i]) == EraseAt(s, i)
  {
    if i > 0 {
      assert s[1..][i - 1] == s[i];
      assert s[1..][..i - 1] == s[..i][1..];
      WithoutIsErase(s[1..], i - 1);
    }
  }

  lemma {:induction false} ChainWithout<K, P>(storage: seq<Node<K, P>>, key: K -> int, m: int, b: int, h: Node<K, P>)
    requires 0 < m
    ensures Chain(Without(storage, h), key, m, b) == Without(Chain(storage, key, m, b), h)
  {
    if storage != [] {
      var rest := Chain(storage[1..], key, m, b);
      assert [] + rest == rest;
      if storage[0] == h {
        if Hashed(h, key, m, b) {
          assert ([h] + rest)[1..] == rest;
        } else {
          InChain(storage[1..], key, m, b, h);
          WithoutAbsent(rest, h);
        }
      } else {
        ChainWithout(storage[1..], key, m, b, h);
        var t := Without(storage[1..], h);
        assert ([storage[0]] + t)[1..] == t;
        assert ([storage[0]] + rest)[1..] == rest;
      }
    }
  }

  lemma {:induction false} ChainConcat<K, P>(a: seq<Node<K, P>>, b: seq<Node<K, P>>, key: K -> int, m: int, c: int)
    requires 0 < m
    ensures Chain(a + b, key, m, c) == Chain(a, key, m, c) + Chain(b, key, m, c)
  {
    if a == [] {
      assert a + b == b;
    } else {
      ChainConcat(a[1..], b, key, m, c);
      assert (a + b)[1..] == a[1..] + b;
      var head := if Hashed(a[0], key, m, c) then [a[0]] else [];
      var tail, other := Chain(a[1..], key, m, c), Chain(b, key, m, c);
      assert head + (tail + other) == (head + tail) + other;
    }
  }

  lemma ChainOne<K, P>(h: Node<K, P>, key: K -> int, m: int, b: int)
    requires 0 < m
    ensures Chain([h], key, m, b) == if Hashed(h, key, m, b) then [h] else []
  {
  }

  /** Dropping the oldest node drops the last node of its own bucket and touches no other. */
  lemma ChainDropLast<K, P>(storage: seq<Node<K, P>>, key: K -> int, m: int, b: int)
    requires 0 < m && storage != []
    ensures
      var n := |storage| - 1;
      var rest := Chain(storage[..n], key, m, b);
      Chain(storage, key, m, b) == if Hashed(storage[n], key, m, b) then rest + [storage[n]] else rest
  {
    var n := |storage| - 1;
    assert storage == storage[..n] + [storage[n]];
    ChainConcat(storage[..n], [storage[n]], key, m, b);
    ChainOne(storage[n], key, m, b);
  }

  lemma {:induction false} DropAbsent<K, P>(list: seq<Item<K, P>>, ident: K)
    requires !Holds(list, ident)
    ensures Drop(list, ident) == list
  {
    if list != [] {
      assert forall i :: 0 <= i < |list[1..]| ==> list[1..][i] == list[i + 1];
      DropAbsent(list[1..], ident);
      assert list[0].ident != ident;
    }
  }

  lemma {:induction false} InDrop<K, P>(list: seq<Item<K, P>>, ident: K, x: Item<K, P>)
    ensures x in Drop(list, ident) <==> x in list && x.ident != ident
  {
    if list != [] {
      InDrop(list[1..], ident, x);
      assert x in list <==> x == list[0] || x in list[1..];
    }
  }

  /** Unlinking the node of an identity is dropping that identity from the items. */
  lemma {:induction false} WithoutIsDrop<K, P>(storage: seq<Node<K, P>>, h: Node<K, P>)
    requires DistinctIdents(storage) && h in storage
    ensures ItemsOf(Without(storage, h)) == Drop(ItemsOf(storage), h.item.ident)
    ensures |Without(storage, h)| == |storage| - 1
  {
    if storage[0] == h {
      WithoutFirst(storage, h);
    } else {
      WithoutIsDrop(storage[1..], h);
      WithoutLater(storage, h);
    }
  }

  lemma WithoutFirst<K, P>(storage: seq<Node<K, P>>, h: Node<K, P>)
    requires DistinctIdents(storage) && storage != [] && storage[0] == h
    ensures ItemsOf(storage[1..]) == Drop(ItemsOf(storage), h.item.ident)
  {
    assert ItemsOf(storage[1..]) == ItemsOf(storage)[1..];
    DropAbsent(ItemsOf(storage[1..]), h.item.ident);
  }

  lemma WithoutLater<K, P>(storage: seq<Node<K, P>>, h: Node<K, P>)
    requires DistinctIdents(storage) && h in storage && storage[0] != h
    requires ItemsOf(Without(storage[1..], h)) == Drop(ItemsOf(storage[1..]), h.item.ident)
    ensures ItemsOf(Without(storage, h)) == Drop(ItemsOf(storage), h.item.ident)
  {
    var rest := Without(storage[1..], h);
    assert ItemsOf(storage[1..]) == ItemsOf(storage)[1..];
    assert ItemsOf([storage[0]] + rest) == [storage[0].item] + ItemsOf(rest);
    var k :| 0 <= k < |storage| && storage[k] == h;
    assert storage[0].item.ident != h.item.ident;
  }

  lemma {:induction false} DropDistinct<K, P>(list: seq<Item<K, P>>, ident: K)
    requires forall i, j :: 0 <= i < j < |list| ==> list[i].ident != list[j].ident
    ensures !Holds(Drop(list, ident), ident)
    ensures forall i, j :: 0 <= i < j < |Drop(list, ident)| ==> Drop(list, ident)[i].ident != Drop(list, ident)[j].ident
  {
    if list != [] {
      var tail := list[1..];
      var rest := Drop(tail, ident);
      DropDistinct(tail, ident);
      forall i | 0 <= i < |rest|
        ensures rest[i].ident != list[0].ident
      {
        InDrop(tail, ident, rest[i]);
        var k :| 0 <= k < |tail| && tail[k] == rest[i];
        assert list[k + 1] == tail[k];
      }
    }
  }

  // ---------------------------------------------------------------------------
  // Reading

  lemma AgreesIsLinked<K, P>(s: State<K, P>, key: K -> int)
    requires Agrees(s, key)
    ensures AllLinked(s)
  {
    forall b, i | 0 <= b < |s.buckets| && 0 <= i < |s.buckets[b]|
      ensures s.buckets[b][i] in s.storage
    {
      InChain(s.storage, key, s.hashSize, b, s.buckets[b][i]);
    }
  }

  lemma PushNewLinked<K, P>(s: State<K, P>, b: nat, x: Item<K, P>)
    requires AllLinked(s) && b < |s.buckets|
    ensures AllLinked(PushNew(s, b, x))
  {
    var s' := PushNew(s, b, x);
    forall c, i | 0 <= c < |s'.buckets| && 0 <= i < |s'.buckets[c]|
      ensures s'.buckets[c][i] in s'.storage
    {
      if c == b && i == 0 {
        assert s'.storage[0] == s'.buckets[c][i];
      } else {
        var j := if c == b then i - 1 else i;
        assert s'.buckets[c][i] == s.buckets[c][j];
      }
    }
  }

  /** With no unlinked node in any bucket every operation is defined. */
  lemma LinkedIsDefined<K, P>(s: State<K, P>, key: K -> int, x: Item<K, P>)
    requires AllLinked(s)
    ensures LookupDefined(s, key, x.ident) && UpdateDefined(s, key, x)
  {
    if 0 <= key(x.ident) {
      PushNewLinked(s, Slot(s, key(x.ident)), x);
    }
  }

  lemma HeldItem<K, P>(s: State<K, P>, h: Node<K, P>)
    requires h in s.storage
    ensures Holds(Items(s), h.item.ident) && h.item in Items(s)
  {
  }

  /** The bucket scan finds exactly what the whole storage list holds. */
  lemma FindIsMembership<K, P>(s: State<K, P>, key: K -> int, ident: K)
    requires Agrees(s, key) && 0 <= key(ident)
    ensures
      var b := s.buckets[Slot(s, key(ident))];
      var i := Find(b, ident);
      && (i < |b| <==> Holds(Items(s), ident))
      && (i < |b| ==> b[i] in s.storage)
  {
    var slot := Slot(s, key(ident));
    var b := s.buckets[slot];
    var i := Find(b, ident);
    if i < |b| {
      InChain(s.storage, key, s.hashSize, slot, b[i]);
      HeldItem(s, b[i]);
    } else if Holds(Items(s), ident) {
      var j :| 0 <= j < |s.storage| && Items(s)[j].ident == ident;
      InChain(s.storage, key, s.hashSize, slot, s.storage[j]);
    }
  }

  /** `lookup` answers from the storage list: with the payload held there, and only if one is held. */
  lemma LookupIsMembership<K, P>(s: State<K, P>, key: K -> int, ident: K)
    requires Agrees(s, key)
    ensures forall x :: Lookup(s, key, ident) == Some(x) <==> x in Items(s) && x.ident == ident
    ensures Lookup(s, key, ident) == None <==> !Holds(Items(s), ident)
  {
    if 0 <= key(ident) {
      FindIsMembership(s, key, ident);
      var b := s.buckets[Slot(s, key(ident))];
      var i := Find(b, ident);
      if i < |b| {
        HeldItem(s, b[i]);
      }
    }
  }
}
