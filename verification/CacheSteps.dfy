/**
 What each single operation of the cache does to an agreeing state.
 */
module CacheSteps {
  import opened Common
  import opened CacheModel

  lemma EmptyAgrees<K, P>(size: int, key: K -> int)
    requires 1 <= size
    ensures Agrees(Empty<K, P>(size), key) && Items(Empty<K, P>(size)) == []
  {
  }

  // ---------------------------------------------------------------------------
  // Hit

  /** Moving an identity to the front of the items moves its node to the front of a well-formed list. */
  lemma FrontStorage<K, P>(s: State<K, P>, key: K -> int, h: Node<K, P>, node: Node<K, P>)
    requires StorageOk(s, key) && h in s.storage && h.item.ident == node.item.ident
    ensures StorageOk(s.(storage := [node] + Without(s.storage, h)), key)
    ensures ItemsOf([node] + Without(s.storage, h)) == [node.item] + Drop(Items(s), node.item.ident)
  {
    var w := Without(s.storage, h);
    var list := Items(s);
    var ident := node.item.ident;
    WithoutIsDrop(s.storage, h);
    DropDistinct(list, ident);
    assert ItemsOf([node] + w) == [node.item] + ItemsOf(w);
    forall i | 0 <= i < |w|
      ensures 0 <= key(w[i].item.ident) && w[i].item.ident != ident
    {
      assert Drop(list, ident)[i] == w[i].item;
      InDrop(list, ident, w[i].item);
    }
    assert 0 <= key(h.item.ident);
    assert forall i :: 0 <= i < |w| ==> ItemsOf(w)[i] == w[i].item;
  }

  lemma RefreshKeeps<K, P>(s: State<K, P>, key: K -> int, i: nat, x: Item<K, P>)
    requires Agrees(s, key) && 0 <= key(x.ident)
    requires
      var b := s.buckets[Slot(s, key(x.ident))];
      i == Find(b, x.ident) && i < |b|
    ensures Agrees(Refresh(s, Slot(s, key(x.ident)), i, x), key)
    ensures Items(Refresh(s, Slot(s, key(x.ident)), i, x)) == [x] + Drop(Items(s), x.ident)
  {
    var b := Slot(s, key(x.ident));
    var bucket := s.buckets[b];
    var h := bucket[i];
    var node := Node(s.next, x);
    var s' := Refresh(s, b, i, x);
    InChain(s.storage, key, s.hashSize, b, h);
    FrontStorage(s, key, h, node);
    assert s'.storage[1..] == Without(s.storage, h);
    WithoutIsErase(bucket, i);
    forall c | 0 <= c < s.hashSize
      ensures s'.buckets[c] == Chain(s'.storage, key, s.hashSize, c)
    {
      ChainWithout(s.storage, key, s.hashSize, c, h);
      if c != b {
        InChain(s.storage, key, s.hashSize, c, h);
        WithoutAbsent(s.buckets[c], h);
      }
    }
  }

  // ---------------------------------------------------------------------------
  // Miss

  lemma PushKeeps<K, P>(s: State<K, P>, key: K -> int, x: Item<K, P>)
    requires Agrees(s, key) && 0 <= key(x.ident) && !Holds(Items(s), x.ident)
    ensures Agrees(PushNew(s, Slot(s, key(x.ident)), x), key)
    ensures Items(PushNew(s, Slot(s, key(x.ident)), x)) == [x] + Items(s)
  {
  }

  // ---------------------------------------------------------------------------
  // Eviction

  lemma EvictStorage<K, P>(s: State<K, P>, key: K -> int, dst: nat)
    requires StorageOk(s, key) && s.storage != [] && dst < |s.buckets|
    ensures StorageOk(Evict(s, key, dst), key)
    ensures Items(Evict(s, key, dst)) == Items(s)[..|s.storage| - 1]
  {
  }

  /** The victim is the last node of its own bucket, and erasing it there leaves the chain of the rest. */
  lemma VictimIsLast<K, P>(s: State<K, P>, key: K -> int)
    requires Agrees(s, key) && s.storage != []
    ensures
      var n := |s.storage| - 1;
      var list := s.buckets[VictimSlot(s, key)];
      && |list| > 0
      && list[|list| - 1] == s.storage[n]
      && Find(list, s.storage[n].item.ident) == |list| - 1
      && EraseAt(list, |list| - 1) == Chain(s.storage[..n], key, s.hashSize, VictimSlot(s, key))
  {
    var n := |s.storage| - 1;
    var v := VictimSlot(s, key);
    var list := s.buckets[v];
    var rest := Chain(s.storage[..n], key, s.hashSize, v);
    ChainDropLast(s.storage, key, s.hashSize, v);
    assert list == rest + [s.storage[n]];
    forall i | 0 <= i < |rest|
      ensures list[i].item.ident != s.storage[n].item.ident
    {
      assert list[i] == rest[i];
      InChain(s.storage[..n], key, s.hashSize, v, rest[i]);
      var j :| 0 <= j < n && s.storage[..n][j] == rest[i];
      assert s.storage[j].item.ident != s.storage[n].item.ident;
    }
  }

  /** What an eviction leaves in the bucket it writes. */
  lemma EvictedBucket<K, P>(s: State<K, P>, key: K -> int, dst: nat)
    requires Agrees(s, key) && s.storage != [] && dst < |s.buckets|
    ensures
      var s' := Evict(s, key, dst);
      && s'.buckets == s.buckets[dst := s'.buckets[dst]]
      && s'.buckets[dst] == Chain(s'.storage, key, s.hashSize, VictimSlot(s, key))
  {
    var list := s.buckets[VictimSlot(s, key)];
    var rest := Chain(s.storage[..|s.storage| - 1], key, s.hashSize, VictimSlot(s, key));
    var victim := s.storage[|s.storage| - 1].item.ident;
    assert 0 < |list| && Find(list, victim) == |list| - 1 && EraseAt(list, |list| - 1) == rest by {
      VictimIsLast(s, key);
    }
    assert Evict(s, key, dst).buckets == s.buckets[dst := rest];
  }

  /** All buckets after an eviction that writes elsewhere. */
  lemma EvictAwayBucket<K, P>(s: State<K, P>, key: K -> int, dst: nat, c: int)
    requires Agrees(s, key) && s.storage != [] && dst < |s.buckets| && dst != VictimSlot(s, key) && 0 <= c < s.hashSize
    ensures
      var s' := Evict(s, key, dst);
      var v := VictimSlot(s, key);
      s'.buckets[c] ==
      if c == dst then Chain(s'.storage, key, s.hashSize, v)
      else if c == v then Chain(s'.storage, key, s.hashSize, v) + [s.storage[|s.storage| - 1]]
      else Chain(s'.storage, key, s.hashSize, c)
  {
    EvictedBucket(s, key, dst);
    if c != dst {
      ChainDropLast(s.storage, key, s.hashSize, c);
    }
  }

  lemma EvictHomeKeeps<K, P>(s: State<K, P>, key: K -> int)
    requires Agrees(s, key) && s.storage != []
    ensures Agrees(Evict(s, key, VictimSlot(s, key)), key)
  {
    var v := VictimSlot(s, key);
    var s' := Evict(s, key, v);
    EvictStorage(s, key, v);
    EvictedBucket(s, key, v);
    forall c | 0 <= c < s.hashSize
      ensures s'.buckets[c] == Chain(s'.storage, key, s.hashSize, c)
    {
      ChainDropLast(s.storage, key, s.hashSize, c);
    }
  }

  /** Written elsewhere, the victim's bucket still lists the victim. */
  lemma EvictAwayBreaks<K, P>(s: State<K, P>, key: K -> int, dst: nat)
    requires Agrees(s, key) && s.storage != [] && dst < |s.buckets| && dst != VictimSlot(s, key)
    ensures !Agrees(Evict(s, key, dst), key)
  {
    var n, v := |s.storage| - 1, VictimSlot(s, key);
    ChainDropLast(s.storage, key, s.hashSize, v);
    assert Evict(s, key, dst).buckets[v] == s.buckets[v] != Chain(s.storage[..n], key, s.hashSize, v);
  }

  /** Writing the remainder to bucket `dst` keeps agreement exactly when `dst` is the victim's bucket. */
  lemma EvictKeepsIff<K, P>(s: State<K, P>, key: K -> int, dst: nat)
    requires Agrees(s, key) && s.storage != [] && dst < |s.buckets|
    ensures Agrees(Evict(s, key, dst), key) <==> dst == VictimSlot(s, key)
  {
    if dst == VictimSlot(s, key) {
      EvictHomeKeeps(s, key);
    } else {
      EvictAwayBreaks(s, key, dst);
    }
  }

  // ---------------------------------------------------------------------------
  // Update

  lemma UpdateHit<K, P>(s: State<K, P>, key: K -> int, x: Item<K, P>, how: Eviction)
    requires Agrees(s, key) && 0 <= key(x.ident) && Holds(Items(s), x.ident)
    ensures Agrees(Update(s, key, x, how), key)
    ensures Items(Update(s, key, x, how)) == [x] + Drop(Items(s), x.ident)
  {
    FindIsMembership(s, key, x.ident);
    RefreshKeeps(s, key, Find(s.buckets[Slot(s, key(x.ident))], x.ident), x);
  }

  lemma UpdateMiss<K, P>(s: State<K, P>, key: K -> int, x: Item<K, P>, how: Eviction)
    requires Agrees(s, key) && 0 <= key(x.ident) && !Holds(Items(s), x.ident)
    ensures
      var b := Slot(s, key(x.ident));
      var pushed := PushNew(s, b, x);
      && Agrees(pushed, key)
      && Items(pushed) == [x] + Items(s)
      && VictimSlot(pushed, key) == VictimKey(s, key, x) % s.hashSize
      && Update(s, key, x, how) ==
         if !Evicts(s, key, x) then pushed
         else Evict(pushed, key, if how == AsWritten then b else VictimSlot(pushed, key))
  {
    FindIsMembership(s, key, x.ident);
    PushKeeps(s, key, x);
  }

  /** An intended update keeps agreement and acts on the items as `Touch` does. */
  lemma UpdateRefines<K, P>(s: State<K, P>, key: K -> int, x: Item<K, P>)
    requires Agrees(s, key)
    ensures Agrees(Update(s, key, x, Intended), key)
    ensures Items(Update(s, key, x, Intended)) == if key(x.ident) < 0 then Items(s) else Touch(Items(s), x, s.maxSize)
  {
    if key(x.ident) < 0 {
    } else if Holds(Items(s), x.ident) {
      UpdateHit(s, key, x, Intended);
    } else {
      UpdateMiss(s, key, x, Intended);
      var pushed := PushNew(s, Slot(s, key(x.ident)), x);
      EvictKeepsIff(pushed, key, VictimSlot(pushed, key));
      EvictStorage(pushed, key, VictimSlot(pushed, key));
    }
  }

  lemma AsWrittenEvictIff<K, P>(s: State<K, P>, key: K -> int, x: Item<K, P>)
    requires Agrees(s, key) && Evicts(s, key, x)
    ensures Agrees(Update(s, key, x, AsWritten), key) <==>
            key(x.ident) % s.hashSize == VictimKey(s, key, x) % s.hashSize
  {
    UpdateMiss(s, key, x, AsWritten);
    var b := Slot(s, key(x.ident));
    EvictKeepsIff(PushNew(s, b, x), key, b);
  }

  lemma SameBucketSameStep<K, P>(s: State<K, P>, key: K -> int, x: Item<K, P>)
    requires Agrees(s, key) && SameBucket(s, key, x)
    ensures Update(s, key, x, AsWritten) == Update(s, key, x, Intended)
  {
    if 0 <= key(x.ident) && !Holds(Items(s), x.ident) {
      UpdateMiss(s, key, x, AsWritten);
      UpdateMiss(s, key, x, Intended);
    } else if 0 <= key(x.ident) {
      FindIsMembership(s, key, x.ident);
    }
  }

  // ---------------------------------------------------------------------------
  // The update as written, from any state

  /** The list without its first node of the identity. */
  ghost function RemoveFirst<K, P>(list: seq<Node<K, P>>, ident: K): seq<Node<K, P>> {
    if list == [] then []
    else if list[0].item.ident == ident then list[1..]
    else [list[0]] + RemoveFirst(list[1..], ident)
  }

  lemma {:induction false} EraseIsRemove<K, P>(list: seq<Node<K, P>>, ident: K)
    ensures
      var j := Find(list, ident);
      RemoveFirst(list, ident) == if j < |list| then EraseAt(list, j) else list
  {
    if list != [] && list[0].item.ident != ident {
      var rest := list[1..];
      EraseIsRemove(rest, ident);
      assert list == [list[0]] + rest;
      if Find(rest, ident) < |rest| {
        ErasePushed(list[0], rest, Find(rest, ident));
      }
    }
  }

  lemma ErasePushed<K, P>(h: Node<K, P>, rest: seq<Node<K, P>>, j: nat)
    requires j < |rest|
    ensures EraseAt([h] + rest, j + 1) == [h] + EraseAt(rest, j)
  {
    assert ([h] + rest)[..j + 1] == [h] + rest[..j] && ([h] + rest)[j + 2..] == rest[j + 1..];
  }

  ghost predicate InBucket<K, P>(list: seq<Node<K, P>>, ident: K) {
    exists i :: 0 <= i < |list| && list[i].item.ident == ident
  }

  /** What the update as written does to any state, in agreement or not: a hit moves its node to both fronts, a
      miss links a new one there, and one that overflows drops the oldest node and leaves in the new item's
      bucket the victim's bucket less its first node of the victim's identity. No other bucket changes. */
  lemma UpdateAsWrittenIs<K, P>(s: State<K, P>, key: K -> int, x: Item<K, P>, s': State<K, P>)
    requires Sized(s) && 0 <= key(x.ident) && s' == Update(s, key, x, AsWritten)
    ensures Sized(s') && s'.maxSize == s.maxSize && s'.next == s.next + 1
    ensures
      var b, node := key(x.ident) % s.hashSize, Node(s.next, x);
      var pushed := [node] + s.storage;
      var victim := pushed[|s.storage|];
      var v := key(victim.item.ident) % s.hashSize;
      && (forall c :: 0 <= c < s.hashSize && c != b ==> s'.buckets[c] == s.buckets[c])
      && (if InBucket(s.buckets[b], x.ident) then
            && s'.currSize == s.currSize && s'.buckets[b] == [node] + RemoveFirst(s.buckets[b], x.ident)
            && s'.storage == [node] + Without(s.storage, s.buckets[b][Find(s.buckets[b], x.ident)])
          else if s.currSize + 1 < s.maxSize then
            s'.currSize == s.currSize + 1 && s'.buckets[b] == [node] + s.buckets[b] && s'.storage == pushed
          else
            && s'.currSize == s.currSize && s'.storage == pushed[..|s.storage|]
            && s'.buckets[b] == RemoveFirst(if v == b then [node] + s.buckets[b] else s.buckets[v], victim.item.ident))
  {
    var b, node := Slot(s, key(x.ident)), Node(s.next, x);
    if Find(s.buckets[b], x.ident) < |s.buckets[b]| {
      EraseIsRemove(s.buckets[b], x.ident);
    } else if s.currSize + 1 >= s.maxSize {
      EvictIs(PushNew(s, b, x), key, b);
    }
  }

  lemma EvictIs<K, P>(s: State<K, P>, key: K -> int, dst: nat)
    requires Sized(s) && s.storage != [] && dst < |s.buckets|
    ensures
      var s', victim := Evict(s, key, dst), s.storage[|s.storage| - 1];
      && Sized(s') && s'.storage == s.storage[..|s.storage| - 1] && s'.currSize == s.currSize - 1
      && s'.buckets ==
         s.buckets[dst := RemoveFirst(s.buckets[key(victim.item.ident) % s.hashSize], victim.item.ident)]
  {
    EraseIsRemove(s.buckets[VictimSlot(s, key)], s.storage[|s.storage| - 1].item.ident);
  }

  /** From any state: an update changes no lookup of another bucket, and unless it evicts, the item is found. */
  lemma UpdateFrame<K, P>(s: State<K, P>, key: K -> int, x: Item<K, P>, s': State<K, P>, ident: K)
    requires Sized(s) && 0 <= key(x.ident) && s' == Update(s, key, x, AsWritten)
    ensures Sized(s')
    ensures 0 <= key(ident) && key(ident) % s.hashSize != key(x.ident) % s.hashSize ==>
              Lookup(s', key, ident) == Lookup(s, key, ident)
    ensures Lookup(s, key, x.ident).Some? || s.currSize + 1 < s.maxSize ==> Lookup(s', key, x.ident) == Some(x)
  {
    UpdateAsWrittenIs(s, key, x, s');
  }

  // ---------------------------------------------------------------------------
  // Agreement and the update as written

  /** From an agreeing state the update as written keeps agreement if and only if it evicts from
      the bucket it inserts into, and then it is the intended update. */
  lemma AsWrittenKeepsIff<K, P>(s: State<K, P>, key: K -> int, x: Item<K, P>)
    requires Agrees(s, key)
    ensures Agrees(Update(s, key, x, AsWritten), key) <==> SameBucket(s, key, x)
    ensures SameBucket(s, key, x) ==> Update(s, key, x, AsWritten) == Update(s, key, x, Intended)
  {
    if SameBucket(s, key, x) {
      SameBucketSameStep(s, key, x);
      UpdateRefines(s, key, x);
    } else {
      AsWrittenEvictIff(s, key, x);
    }
  }

  /** After an eviction across buckets the new item's bucket holds only live nodes of the victim's bucket. */
  lemma CrossBucket<K, P>(s: State<K, P>, key: K -> int, x: Item<K, P>)
    requires Agrees(s, key) && !SameBucket(s, key, x)
    ensures
      var s' := Update(s, key, x, AsWritten);
      s'.buckets[Slot(s, key(x.ident))] == Chain(s'.storage, key, s.hashSize, VictimKey(s, key, x) % s.hashSize)
  {
    UpdateMiss(s, key, x, AsWritten);
    EvictedBucket(PushNew(s, Slot(s, key(x.ident)), x), key, Slot(s, key(x.ident)));
  }

  /** An item can be read back right after the update as written exactly when nothing was evicted,
      or an older item was evicted from the same bucket. */
  lemma ReadBack<K, P>(s: State<K, P>, key: K -> int, x: Item<K, P>)
    requires Agrees(s, key) && 0 <= key(x.ident)
    ensures
      var s' := Update(s, key, x, AsWritten);
      && LookupDefined(s', key, x.ident)
      && Lookup(s', key, x.ident) ==
         if Evicts(s, key, x) && (!SameBucket(s, key, x) || s.storage == []) then None else Some(x)
  {
    var s' := Update(s, key, x, AsWritten);
    AsWrittenKeepsIff(s, key, x);
    if SameBucket(s, key, x) {
      UpdateRefines(s, key, x);
      LookupIsMembership(s', key, x.ident);
      AgreesIsLinked(s', key);
      LinkedIsDefined(s', key, x);
      if Items(s') != [] {
        assert Items(s')[0] == x;
      }
    } else {
      CrossBucketLookup(s, key, x, x.ident);
    }
  }

  /** All buckets after an eviction across buckets: the new item's bucket lists the rest of the
      victim's, the victim's bucket still ends in the victim, the others are in order. */
  lemma CrossBuckets<K, P>(s: State<K, P>, key: K -> int, x: Item<K, P>, c: int)
    requires Agrees(s, key) && !SameBucket(s, key, x) && 0 <= c < s.hashSize
    ensures
      var s' := Update(s, key, x, AsWritten);
      var v := VictimKey(s, key, x) % s.hashSize;
      && Sized(s') && s'.hashSize == s.hashSize && s.storage != []
      && s'.buckets[c] ==
         if c == key(x.ident) % s.hashSize then Chain(s'.storage, key, s.hashSize, v)
         else if c == v then Chain(s'.storage, key, s.hashSize, v) + [s.storage[|s.storage| - 1]]
         else Chain(s'.storage, key, s.hashSize, c)
  {
    UpdateMiss(s, key, x, AsWritten);
    var b := Slot(s, key(x.ident));
    EvictAwayBucket(PushNew(s, b, x), key, b, c);
  }

  lemma LastIsGone<K, P>(storage: seq<Node<K, P>>)
    requires storage != [] && DistinctIdents(storage)
    ensures
      var n := |storage| - 1;
      storage[n] !in storage[..n] && !Holds(ItemsOf(storage[..n]), storage[n].item.ident)
  {
    var n := |storage| - 1;
    assert forall i :: 0 <= i < n ==> storage[..n][i] == storage[i] && storage[i].item.ident != storage[n].item.ident;
  }

  lemma VictimUnlinked<K, P>(s: State<K, P>, key: K -> int, x: Item<K, P>)
    requires Agrees(s, key) && !SameBucket(s, key, x)
    ensures s.storage != [] && StorageOk(Update(s, key, x, AsWritten), key)
    ensures s.storage[|s.storage| - 1] !in Update(s, key, x, AsWritten).storage
    ensures !Holds(Items(Update(s, key, x, AsWritten)), s.storage[|s.storage| - 1].item.ident)
  {
    UpdateMiss(s, key, x, AsWritten);
    var b := Slot(s, key(x.ident));
    var pushed := PushNew(s, b, x);
    EvictStorage(pushed, key, b);
    LastIsGone(pushed.storage);
  }

  /** From an agreeing state, the update as written leaves an unlinked node in a bucket if and only if
      it evicts across buckets; the node is then the victim, in the victim's bucket. */
  lemma UnlinksIff<K, P>(s: State<K, P>, key: K -> int, x: Item<K, P>)
    requires Agrees(s, key)
    ensures AllLinked(Update(s, key, x, AsWritten)) <==> SameBucket(s, key, x)
    ensures !SameBucket(s, key, x) ==>
              var s' := Update(s, key, x, AsWritten);
              s.storage != [] && s.storage[|s.storage| - 1] !in s'.storage &&
              s.storage[|s.storage| - 1] in s'.buckets[VictimKey(s, key, x) % s.hashSize]
  {
    var s' := Update(s, key, x, AsWritten);
    if SameBucket(s, key, x) {
      AsWrittenKeepsIff(s, key, x);
      AgreesIsLinked(s', key);
    } else {
      var v := VictimKey(s, key, x) % s.hashSize;
      VictimUnlinked(s, key, x);
      CrossBuckets(s, key, x, v);
      assert s'.buckets[v][|s'.buckets[v]| - 1] == s.storage[|s.storage| - 1];
    }
  }

  lemma ChainScan<K, P>(storage: seq<Node<K, P>>, key: K -> int, m: int, c: int, ident: K)
    requires 0 < m && DistinctIdents(storage)
    ensures
      var list := Chain(storage, key, m, c);
      var i := Find(list, ident);
      && (forall j :: 0 <= j < |list| ==> list[j] in storage)
      && (i < |list| <==> key(ident) % m == c && Holds(ItemsOf(storage), ident))
      && (i < |list| ==> list[i].item in ItemsOf(storage))
  {
    var list := Chain(storage, key, m, c);
    var i := Find(list, ident);
    forall j | 0 <= j < |list|
      ensures list[j] in storage && Hashed(list[j], key, m, c)
    {
      InChain(storage, key, m, c, list[j]);
    }
    if i < |list| {
      var k :| 0 <= k < |storage| && storage[k] == list[i];
      assert ItemsOf(storage)[k].ident == ident;
    } else if key(ident) % m == c && Holds(ItemsOf(storage), ident) {
      var k :| 0 <= k < |storage| && ItemsOf(storage)[k].ident == ident;
      InChain(storage, key, m, c, storage[k]);
    }
  }

  /** Every lookup after an eviction across buckets. It is undefined exactly when it hashes to the
      victim's bucket and looks for something not stored; it fails on everything that hashes to the
      new item's bucket; elsewhere it answers from the storage list. */
  lemma CrossBucketLookup<K, P>(s: State<K, P>, key: K -> int, x: Item<K, P>, ident: K)
    requires Agrees(s, key) && !SameBucket(s, key, x)
    ensures
      var s' := Update(s, key, x, AsWritten);
      var v := VictimKey(s, key, x) % s.hashSize;
      && Sized(s')
      && (LookupDefined(s', key, ident) <==>
          !(0 <= key(ident) && key(ident) % s.hashSize == v && !Holds(Items(s'), ident)))
      && (LookupDefined(s', key, ident) ==>
          (Lookup(s', key, ident).Some? <==>
           0 <= key(ident) && key(ident) % s.hashSize != key(x.ident) % s.hashSize && Holds(Items(s'), ident)))
      && (LookupDefined(s', key, ident) && Lookup(s', key, ident).Some? ==>
          Lookup(s', key, ident).value in Items(s') && Lookup(s', key, ident).value.ident == ident)
  {
    var s' := Update(s, key, x, AsWritten);
    var v := VictimKey(s, key, x) % s.hashSize;
    VictimUnlinked(s, key, x);
    CrossBuckets(s, key, x, v);
    if 0 <= key(ident) {
      var c := Slot(s', key(ident));
      CrossBuckets(s, key, x, c);
      CrossScan(s', key, s.hashSize, s.storage[|s.storage| - 1], ident, key(x.ident) % s.hashSize, c, v);
    }
  }

  /** The victim's bucket: the scan is undefined exactly when it runs into the victim. */
  lemma VictimBucketScan<K, P>(storage: seq<Node<K, P>>, rest: seq<Node<K, P>>, victim: Node<K, P>, ident: K)
    requires forall j :: 0 <= j < |rest| ==> rest[j] in storage
    requires victim !in storage
    ensures
      var list := rest + [victim];
      && (ScanDefined(storage, list, ident) <==> Find(rest, ident) < |rest|)
      && (Find(rest, ident) < |rest| ==>
            Find(list, ident) == Find(rest, ident) && list[Find(rest, ident)] == rest[Find(rest, ident)])
  {
    var list := rest + [victim];
    var i := Find(rest, ident);
    assert forall j :: 0 <= j < |rest| ==> list[j] == rest[j];
    if i == |rest| {
      assert list[|rest|] == victim && Find(list, ident) >= |rest|;
    }
  }

  /** The scan of one bucket in the three cases. */
  lemma CrossScan<K, P>(s': State<K, P>, key: K -> int, m: int, victim: Node<K, P>, ident: K, b: int, c: int, v: int)
    requires 0 < m && DistinctIdents(s'.storage) && 0 <= c < |s'.buckets| && c == key(ident) % m
    requires v != b && victim !in s'.storage
    requires s'.buckets[c] ==
             if c == b then Chain(s'.storage, key, m, v)
             else if c == v then Chain(s'.storage, key, m, v) + [victim]
             else Chain(s'.storage, key, m, c)
    ensures
      var list := s'.buckets[c];
      var i := Find(list, ident);
      && (ScanDefined(s'.storage, list, ident) <==> !(c == v && !Holds(Items(s'), ident)))
      && (ScanDefined(s'.storage, list, ident) ==> (i < |list| <==> c != b && Holds(Items(s'), ident)))
      && (ScanDefined(s'.storage, list, ident) && i < |list| ==> list[i].item in Items(s'))
  {
    ChainScan(s'.storage, key, m, if c == b then v else c, ident);
    if c == v {
      VictimBucketScan(s'.storage, Chain(s'.storage, key, m, v), victim, ident);
    }
  }

  // ---------------------------------------------------------------------------
  // Resizing and clearing

  /** No resident key changes its residue when the hash size becomes `m`. */
  ghost predicate ResiduesKept<K, P>(s: State<K, P>, key: K -> int, m: int)
    requires 0 < s.hashSize && 0 < m
  {
    forall i :: 0 <= i < |s.storage| ==> key(s.storage[i].item.ident) % s.hashSize == key(s.storage[i].item.ident) % m
  }

  lemma {:induction false} ChainSameResidues<K, P>(storage: seq<Node<K, P>>, key: K -> int, m: int, m': int, b: int)
    requires 0 < m && 0 < m'
    requires forall i :: 0 <= i < |storage| ==> key(storage[i].item.ident) % m == key(storage[i].item.ident) % m'
    ensures Chain(storage, key, m, b) == Chain(storage, key, m', b)
  {
    if storage != [] {
      ChainSameResidues(storage[1..], key, m, m', b);
    }
  }

  lemma {:induction false} ChainOutOfRange<K, P>(storage: seq<Node<K, P>>, key: K -> int, m: int, b: int)
    requires 0 < m <= b
    ensures Chain(storage, key, m, b) == []
  {
    if storage != [] {
      ChainOutOfRange(storage[1..], key, m, b);
    }
  }

  /** Resizing keeps agreement if and only if no resident key changes its residue. */
  lemma ResizeKeepsIff<K, P>(s: State<K, P>, key: K -> int, size: int)
    requires Agrees(s, key) && 1 <= size
    ensures Agrees(SetSizeLimit(s, size), key) <==> ResiduesKept(s, key, 3 * size)
    ensures Items(SetSizeLimit(s, size)) == Items(s)
  {
    var s' := SetSizeLimit(s, size);
    if ResiduesKept(s, key, 3 * size) {
      forall c | 0 <= c < 3 * size
        ensures s'.buckets[c] == Chain(s'.storage, key, 3 * size, c)
      {
        ChainSameResidues(s.storage, key, s.hashSize, 3 * size, c);
        if c >= s.hashSize {
          ChainOutOfRange(s.storage, key, s.hashSize, c);
        }
      }
    } else {
      ResizeMoves(s, key, size);
    }
  }

  /** Resizing unlinks nothing. */
  lemma ResizeLinked<K, P>(s: State<K, P>, size: int)
    requires AllLinked(s) && 1 <= size
    ensures AllLinked(SetSizeLimit(s, size))
  {
  }

  lemma OneOfIdent<K, P>(list: seq<Item<K, P>>, x: Item<K, P>, y: Item<K, P>)
    requires forall i, j :: 0 <= i < j < |list| ==> list[i].ident != list[j].ident
    requires x in list && y in list && x.ident == y.ident
    ensures x == y
  {
    var i :| 0 <= i < |list| && list[i] == x;
    var j :| 0 <= j < |list| && list[j] == y;
    assert !(i < j) && !(j < i);
  }

  /** After resizing an agreeing cache every lookup is defined, and it finds a stored item exactly if the
      item's key has the same residue under both hash sizes; the others are stored and not found. */
  lemma ResizedLookup<K, P>(s: State<K, P>, key: K -> int, size: int, ident: K, x: Item<K, P>)
    requires Agrees(s, key) && 1 <= size
    ensures
      var s' := SetSizeLimit(s, size);
      && AllLinked(s') && LookupDefined(s', key, ident) && Items(s') == Items(s) && s'.maxSize == size
      && (Lookup(s', key, ident) == Some(x) <==>
          x in Items(s) && x.ident == ident && key(ident) % s.hashSize == key(ident) % (3 * size))
  {
    var s' := SetSizeLimit(s, size);
    AgreesIsLinked(s, key);
    ResizeLinked(s, size);
    LinkedIsDefined(s', key, x.(ident := ident));
    if 0 <= key(ident) {
      ResizedScan(s, key, size, ident, key(ident) % (3 * size));
      if x in Items(s) && x.ident == ident && Lookup(s', key, ident).Some? {
        OneOfIdent(Items(s), x, Lookup(s', key, ident).value);
      }
    }
  }

  lemma ResizedScan<K, P>(s: State<K, P>, key: K -> int, size: int, ident: K, c: int)
    requires Agrees(s, key) && 1 <= size && 0 <= key(ident) && c == key(ident) % (3 * size)
    ensures
      var r := Lookup(SetSizeLimit(s, size), key, ident);
      && (r.Some? <==> key(ident) % s.hashSize == c && Holds(Items(s), ident))
      && (r.Some? ==> r.value in Items(s) && r.value.ident == ident)
  {
    if c < s.hashSize {
      ChainScan(s.storage, key, s.hashSize, c, ident);
    }
  }

  lemma ResizeMoves<K, P>(s: State<K, P>, key: K -> int, size: int)
    requires Agrees(s, key) && 1 <= size && !ResiduesKept(s, key, 3 * size)
    ensures !Agrees(SetSizeLimit(s, size), key)
  {
    var s' := SetSizeLimit(s, size);
    var i :|
      && 0 <= i < |s.storage|
      && key(s.storage[i].item.ident) % s.hashSize != key(s.storage[i].item.ident) % (3 * size);
    var h := s.storage[i];
    var c := key(h.item.ident) % (3 * size);
    InChain(s.storage, key, 3 * size, c, h);
    InChain(s.storage, key, s.hashSize, c, h);
    assert c < s.hashSize ==> s'.buckets[c] == s.buckets[c];
    assert h !in s'.buckets[c];
  }

  /** Keys below both hash sizes never move. */
  lemma SmallKeysResize<K, P>(s: State<K, P>, key: K -> int, size: int)
    requires Agrees(s, key) && 1 <= size
    requires forall i :: 0 <= i < |s.storage| ==>
               key(s.storage[i].item.ident) < 3 * size && key(s.storage[i].item.ident) < s.hashSize
    ensures Agrees(SetSizeLimit(s, size), key)
  {
    forall i | 0 <= i < |s.storage|
      ensures key(s.storage[i].item.ident) % s.hashSize == key(s.storage[i].item.ident) % (3 * size)
    {
      SmallMod(key(s.storage[i].item.ident), s.hashSize);
      SmallMod(key(s.storage[i].item.ident), 3 * size);
    }
    ResizeKeepsIff(s, key, size);
  }

  /** Clearing restores agreement from any state, agreeing or not. */
  lemma ClearAgrees<K, P>(s: State<K, P>, key: K -> int)
    requires Sized(s)
    ensures Agrees(Clear(s), key) && Items(Clear(s)) == []
  {
  }
}
