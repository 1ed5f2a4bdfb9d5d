/**
 `CCache<T>` of P2P_Client_src/include/cache.h as a class whose methods update its fields.
 Each guarded method is one atomic operation; the eviction is the one the source writes.
 */
module RecencyCache {
  import opened Common
  import opened CacheModel
  import opened CacheSteps

  class Cache<K(==), P(==)> {
    const key: K -> int
    var maxSize: int
    var hashSize: int
    var currSize: int
    var storage: seq<Node<K, P>>
    var buckets: seq<seq<Node<K, P>>>
    var next: nat

    ghost function Snapshot(): State<K, P>
      reads this
    {
      State(maxSize, hashSize, currSize, storage, buckets, next)
    }

    constructor (key: K -> int, size: int)
      requires 1 <= size && 3 * size <= MAX_INT
      ensures this.key == key
      ensures Snapshot() == Empty(size)
      ensures Agrees(Snapshot(), key) && Items(Snapshot()) == []
    {
      this.key := key;
      maxSize, hashSize, currSize := size, size * 3, 0;
      storage, next := [], 0;
      buckets := seq(3 * size, _ => []);
      new;
      EmptyAgrees<K, P>(size, key);
    }

    /** The in/out item of the source is returned as `out`. */
    method Lookup(data: Item<K, P>) returns (rc: int, out: Item<K, P>)
      requires LookupDefined(Snapshot(), key, data.ident)
      ensures rc == 0 || rc == -1
      ensures rc == 0 <==> CacheModel.Lookup(Snapshot(), key, data.ident) == Some(out)
      ensures rc == -1 ==> out == data && CacheModel.Lookup(Snapshot(), key, data.ident) == None
      ensures Agrees(Snapshot(), key) ==> (rc == 0 <==> Holds(Items(Snapshot()), data.ident))
      ensures Agrees(Snapshot(), key) && rc == 0 ==> out in Items(Snapshot()) && out.ident == data.ident
    {
      if Agrees(Snapshot(), key) {
        LookupIsMembership(Snapshot(), key, data.ident);
      }
      var k := key(data.ident);
      if k < 0 {
        return -1, data;
      }
      SmallMod(k, hashSize);
      if k >= maxSize {
        k := k % hashSize;
      }
      var i := Scan(k, data.ident);
      if i < |buckets[k]| {
        return 0, buckets[k][i].item;
      }
      return -1, data;
    }

    /** The loop over a bucket: the first node with the identity, or the end. */
    method Scan(b: nat, ident: K) returns (i: nat)
      requires b < |buckets|
      ensures i == Find(buckets[b], ident)
    {
      i := 0;
      while i < |buckets[b]| && buckets[b][i].item.ident != ident
        invariant 0 <= i <= |buckets[b]|
        invariant forall j :: 0 <= j < i ==> buckets[b][j].item.ident != ident
      {
        i := i + 1;
      }
    }

    /** Unlinks a node from the storage list. */
    method EraseStorage(h: Node<K, P>)
      modifies this`storage
      ensures storage == Without(old(storage), h)
    {
      var i := 0;
      while i < |storage| && storage[i] != h
        invariant 0 <= i <= |storage|
        invariant Without(storage, h) == storage[..i] + Without(storage[i..], h)
      {
        assert storage[i..][1..] == storage[i + 1..];
        assert storage[..i + 1] == storage[..i] + [storage[i]];
        i := i + 1;
      }
      if i < |storage| {
        assert storage[i..][1..] == storage[i + 1..];
        storage := storage[..i] + storage[i + 1..];
      }
    }

    method Update(data: Item<K, P>) returns (rc: int)
      requires UpdateDefined(Snapshot(), key, data)
      modifies this`currSize, this`storage, this`buckets, this`next
      ensures rc == if key(data.ident) < 0 then -1 else 0
      ensures Snapshot() == old(CacheModel.Update(Snapshot(), key, data, AsWritten))
      ensures old(Agrees(Snapshot(), key)) ==> (Agrees(Snapshot(), key) <==> old(SameBucket(Snapshot(), key, data)))
      ensures old(Agrees(Snapshot(), key) && SameBucket(Snapshot(), key, data)) && rc == 0 ==>
              Items(Snapshot()) == Touch(old(Items(Snapshot())), data, maxSize)
    {
      ghost var before := Snapshot();
      var k := key(data.ident);
      rc := -1;
      if 0 <= k {
        SmallMod(k, hashSize);
        if k >= maxSize {
          k := k % hashSize;
        }
        var i := Scan(k, data.ident);
        if i < |buckets[k]| {
          Relink(k, i, data);
        } else {
          LinkNew(k, data);
        }
        rc := 0;
      }
      if Agrees(before, key) {
        AsWrittenKeepsIff(before, key, data);
        UpdateRefines(before, key, data);
      }
    }

    /** The miss branch. */
    method LinkNew(b: nat, data: Item<K, P>)
      requires Sized(Snapshot()) && b < |buckets|
      modifies this`currSize, this`storage, this`buckets, this`next
      ensures
        var pushed := PushNew(old(Snapshot()), b, data);
        Snapshot() == if pushed.currSize >= pushed.maxSize then Evict(pushed, key, b) else pushed
    {
      Link(b, data);
      currSize := currSize + 1;
      if currSize >= maxSize {
        EvictOldest(b);
      }
    }

    /** The hit branch: the entry leaves both lists and its new value enters both at the front. */
    method Relink(b: nat, i: nat, data: Item<K, P>)
      requires b < |buckets| && i < |buckets[b]|
      modifies this`storage, this`buckets, this`next
      ensures Snapshot() == old(Refresh(Snapshot(), b, i, data))
    {
      EraseStorage(buckets[b][i]);
      buckets := buckets[b := EraseAt(buckets[b], i)];
      Link(b, data);
    }

    /** Links a new node at the front of the storage list and of bucket `b`. */
    method Link(b: nat, data: Item<K, P>)
      requires b < |buckets|
      modifies this`storage, this`buckets, this`next
      ensures next == old(next) + 1
      ensures storage == [Node(old(next), data)] + old(storage)
      ensures buckets == old(buckets)[b := [Node(old(next), data)] + old(buckets)[b]]
    {
      var node := Node(next, data);
      storage := [node] + storage;
      buckets := buckets[b := [node] + buckets[b]];
      next := next + 1;
    }

    /** The overflow branch: `b` is the bucket the new item was linked into. */
    method EvictOldest(b: nat)
      requires Sized(Snapshot()) && storage != [] && b < |buckets|
      modifies this`currSize, this`storage, this`buckets
      ensures Snapshot() == old(Evict(Snapshot(), key, b))
    {
      var last := storage[|storage| - 1];
      var lastKey := key(last.item.ident) % hashSize;
      buckets := buckets[b := buckets[lastKey]];
      var i := Scan(b, last.item.ident);
      if i < |buckets[b]| {
        buckets := buckets[b := EraseAt(buckets[b], i)];
      }
      storage := storage[..|storage| - 1];
      currSize := currSize - 1;
    }

    method SetSizeLimit(size: int)
      requires 1 <= size && 3 * size <= MAX_INT
      modifies this`maxSize, this`hashSize, this`buckets
      ensures Snapshot() == CacheModel.SetSizeLimit(old(Snapshot()), size)
      ensures old(Agrees(Snapshot(), key)) ==>
                (Agrees(Snapshot(), key) <==> old(ResiduesKept(Snapshot(), key, 3 * size)))
    {
      if Agrees(Snapshot(), key) {
        ResizeKeepsIff(Snapshot(), key, size);
      }
      maxSize := size;
      hashSize := size * 3;
      buckets := Resized(buckets, hashSize);
    }

    method Clear()
      modifies this`currSize, this`storage, this`buckets
      ensures Snapshot() == CacheModel.Clear(old(Snapshot()))
      ensures old(Sized(Snapshot())) ==> Agrees(Snapshot(), key) && Items(Snapshot()) == []
    {
      storage := [];
      var i := 0;
      while i < |buckets|
        invariant 0 <= i <= |buckets| == |old(buckets)|
        invariant forall j :: 0 <= j < i ==> buckets[j] == []
        invariant storage == []
      {
        buckets := buckets[i := []];
        i := i + 1;
      }
      currSize := 0;
      assert buckets == CacheModel.Clear(old(Snapshot())).buckets;
      if old(Sized(Snapshot())) {
        ClearAgrees(old(Snapshot()), key);
      }
    }
  }
}
