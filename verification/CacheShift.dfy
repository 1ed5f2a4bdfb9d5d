/**
 A cleared cache behaves like a new one in every run of the cache as written: node ids only keep
 nodes apart, so shifting all of them changes no decision.
 */
module CacheShift {
  import opened Common
  import opened CacheModel
  import opened CacheOperations

  // ---------------------------------------------------------------------------
  // Shifted lists

  ghost function Moved<K, P>(h: Node<K, P>, d: nat): Node<K, P> { Node(h.id + d, h.item) }

  ghost function MovedAll<K, P>(s: seq<Node<K, P>>, d: nat): seq<Node<K, P>> {
    seq(|s|, i requires 0 <= i < |s| => Moved(s[i], d))
  }

  ghost function MovedLists<K, P>(buckets: seq<seq<Node<K, P>>>, d: nat): seq<seq<Node<K, P>>> {
    seq(|buckets|, b requires 0 <= b < |buckets| => MovedAll(buckets[b], d))
  }

  ghost function Shift<K, P>(s: State<K, P>, d: nat): State<K, P> {
    s.(storage := MovedAll(s.storage, d), buckets := MovedLists(s.buckets, d), next := s.next + d)
  }

  lemma MovedIn<K, P>(s: seq<Node<K, P>>, h: Node<K, P>, d: nat)
    ensures Moved(h, d) in MovedAll(s, d) <==> h in s
  {
    if h in s {
      var i :| 0 <= i < |s| && s[i] == h;
      assert MovedAll(s, d)[i] == Moved(h, d);
    }
    if Moved(h, d) in MovedAll(s, d) {
      var i :| 0 <= i < |s| && MovedAll(s, d)[i] == Moved(h, d);
      assert s[i] == h;
    }
  }

  lemma {:induction false} MovedFind<K, P>(s: seq<Node<K, P>>, ident: K, d: nat)
    ensures Find(MovedAll(s, d), ident) == Find(s, ident)
  {
    if s != [] {
      assert MovedAll(s, d)[1..] == MovedAll(s[1..], d);
      MovedFind(s[1..], ident, d);
    }
  }

  lemma {:induction false} MovedWithout<K, P>(s: seq<Node<K, P>>, h: Node<K, P>, d: nat)
    ensures Without(MovedAll(s, d), Moved(h, d)) == MovedAll(Without(s, h), d)
  {
    if s != [] {
      assert MovedAll(s, d)[1..] == MovedAll(s[1..], d);
      assert MovedAll(s, d)[0] == Moved(s[0], d);
      MovedWithout(s[1..], h, d);
    }
  }

  lemma MovedPush<K, P>(h: Node<K, P>, s: seq<Node<K, P>>, d: nat)
    ensures MovedAll([h] + s, d) == [Moved(h, d)] + MovedAll(s, d)
  {
  }

  lemma MovedErase<K, P>(s: seq<Node<K, P>>, i: nat, d: nat)
    requires i < |s|
    ensures EraseAt(MovedAll(s, d), i) == MovedAll(EraseAt(s, i), d)
  {
  }

  lemma MovedSet<K, P>(buckets: seq<seq<Node<K, P>>>, b: nat, list: seq<Node<K, P>>, d: nat)
    requires b < |buckets|
    ensures MovedLists(buckets[b := list], d) == MovedLists(buckets, d)[b := MovedAll(list, d)]
  {
  }

  // ---------------------------------------------------------------------------
  // Shifted operations

  lemma ShiftRefresh<K, P>(s: State<K, P>, b: nat, i: nat, x: Item<K, P>, d: nat)
    requires b < |s.buckets| && i < |s.buckets[b]|
    ensures Refresh(Shift(s, d), b, i, x) == Shift(Refresh(s, b, i, x), d)
  {
    var node, list := Node(s.next, x), s.buckets[b];
    MovedWithout(s.storage, list[i], d);
    MovedPush(node, Without(s.storage, list[i]), d);
    MovedErase(list, i, d);
    MovedPush(node, EraseAt(list, i), d);
    MovedSet(s.buckets, b, [node] + EraseAt(list, i), d);
  }

  lemma ShiftPush<K, P>(s: State<K, P>, b: nat, x: Item<K, P>, d: nat)
    requires b < |s.buckets|
    ensures PushNew(Shift(s, d), b, x) == Shift(PushNew(s, b, x), d)
  {
    var node := Node(s.next, x);
    MovedPush(node, s.storage, d);
    MovedPush(node, s.buckets[b], d);
    MovedSet(s.buckets, b, [node] + s.buckets[b], d);
  }

  lemma ShiftEvict<K, P>(s: State<K, P>, key: K -> int, dst: nat, d: nat)
    requires Sized(s) && s.storage != [] && dst < |s.buckets|
    ensures Evict(Shift(s, d), key, dst) == Shift(Evict(s, key, dst), d)
  {
    var n := |s.storage| - 1;
    var list := s.buckets[VictimSlot(s, key)];
    var j := Find(list, s.storage[n].item.ident);
    MovedFind(list, s.storage[n].item.ident, d);
    assert MovedAll(s.storage, d)[..n] == MovedAll(s.storage[..n], d);
    if j < |list| {
      MovedErase(list, j, d);
    }
    MovedSet(s.buckets, dst, if j < |list| then EraseAt(list, j) else list, d);
  }

  lemma ShiftUpdate<K, P>(s: State<K, P>, key: K -> int, x: Item<K, P>, d: nat)
    requires Sized(s)
    ensures Update(Shift(s, d), key, x, AsWritten) == Shift(Update(s, key, x, AsWritten), d)
  {
    if 0 <= key(x.ident) {
      var b := Slot(s, key(x.ident));
      var i := Find(s.buckets[b], x.ident);
      MovedFind(s.buckets[b], x.ident, d);
      if i < |s.buckets[b]| {
        ShiftRefresh(s, b, i, x, d);
      } else {
        ShiftPush(s, b, x, d);
        ShiftEvict(PushNew(s, b, x), key, b, d);
      }
    }
  }

  lemma ShiftScan<K, P>(storage: seq<Node<K, P>>, list: seq<Node<K, P>>, ident: K, d: nat)
    ensures ScanDefined(MovedAll(storage, d), MovedAll(list, d), ident) <==> ScanDefined(storage, list, ident)
  {
    MovedFind(list, ident, d);
    forall i | 0 <= i < |list|
      ensures MovedAll(list, d)[i] in MovedAll(storage, d) <==> list[i] in storage
    {
      MovedIn(storage, list[i], d);
    }
  }

  lemma ShiftLookup<K, P>(s: State<K, P>, key: K -> int, ident: K, d: nat)
    requires Sized(s)
    ensures Lookup(Shift(s, d), key, ident) == Lookup(s, key, ident)
    ensures LookupDefined(Shift(s, d), key, ident) <==> LookupDefined(s, key, ident)
  {
    if 0 <= key(ident) {
      var list := s.buckets[Slot(s, key(ident))];
      MovedFind(list, ident, d);
      ShiftScan(s.storage, list, ident, d);
    }
  }

  lemma ShiftVictimScan<K, P>(s: State<K, P>, key: K -> int, d: nat)
    requires Sized(s) && s.storage != []
    ensures
      var t := Shift(s, d);
      var ident := s.storage[|s.storage| - 1].item.ident;
      && t.storage[|t.storage| - 1].item.ident == ident && VictimSlot(t, key) == VictimSlot(s, key)
      && (ScanDefined(t.storage, t.buckets[VictimSlot(t, key)], ident) <==>
          ScanDefined(s.storage, s.buckets[VictimSlot(s, key)], ident))
  {
    ShiftScan(s.storage, s.buckets[VictimSlot(s, key)], s.storage[|s.storage| - 1].item.ident, d);
  }

  lemma ShiftUpdateDefined<K, P>(s: State<K, P>, key: K -> int, x: Item<K, P>, d: nat)
    requires Sized(s)
    ensures UpdateDefined(Shift(s, d), key, x) <==> UpdateDefined(s, key, x)
  {
    ShiftLookup(s, key, x.ident, d);
    if 0 <= key(x.ident) {
      var b := Slot(s, key(x.ident));
      MovedFind(s.buckets[b], x.ident, d);
      ShiftPush(s, b, x, d);
      ShiftVictimScan(PushNew(s, b, x), key, d);
    }
  }

  /** One operation does the same to both. */
  lemma ShiftDo<K, P>(s: State<K, P>, key: K -> int, op: Op<K, P>, d: nat)
    requires Sized(s) && Legal(op)
    ensures Do(Shift(s, d), key, op) == Shift(Do(s, key, op), d)
    ensures Defined(Shift(s, d), key, op) <==> Defined(s, key, op)
  {
    match op
    case Put(x) => ShiftUpdate(s, key, x, d); ShiftUpdateDefined(s, key, x, d);
    case Get(ident) => ShiftLookup(s, key, ident, d);
    case Wipe => assert Clear(Shift(s, d)) == Shift(Clear(s), d);
    case Resize(size) => assert SetSizeLimit(Shift(s, d), size) == Shift(SetSizeLimit(s, size), d);
  }

  lemma {:induction false} ShiftRun<K, P>(s: State<K, P>, key: K -> int, ops: seq<Op<K, P>>, d: nat)
    requires Sized(s) && AllLegal(ops)
    ensures
      var r := RunOps(s, key, ops);
      RunOps(Shift(s, d), key, ops) == if r == None then None else Some(Shift(r.value, d))
  {
    if ops != [] {
      var n := |ops| - 1;
      ShiftRun(s, key, ops[..n], d);
      var r := RunOps(s, key, ops[..n]);
      if r.Some? {
        ShiftDo(r.value, key, ops[n], d);
      }
    }
  }

  lemma ClearIsShift<K, P>(s: State<K, P>)
    requires Sized(s)
    ensures Clear(s) == Shift(Empty(s.maxSize), s.next)
  {
    assert Shift(Empty<K, P>(s.maxSize), s.next).buckets == Clear(s).buckets;
  }

  /** Whatever state a cache was in, once cleared no run of updates, lookups, resizes and clears, as
      written, tells it from a new cache of its size: the run is defined for both or for neither, and
      leaves the same items, the same count and the same answer to every lookup. */
  lemma ClearedIsNew<K, P>(s: State<K, P>, key: K -> int, ops: seq<Op<K, P>>, ident: K)
    requires Sized(s) && AllLegal(ops)
    ensures
      var a, b := RunOps(Clear(s), key, ops), RunOps(Empty(s.maxSize), key, ops);
      && (a.Some? <==> b.Some?)
      && (a.Some? ==>
          && Items(a.value) == Items(b.value) && a.value.currSize == b.value.currSize
          && a.value.maxSize == b.value.maxSize
          && Lookup(a.value, key, ident) == Lookup(b.value, key, ident)
          && (LookupDefined(a.value, key, ident) <==> LookupDefined(b.value, key, ident)))
  {
    ClearIsShift(s);
    ShiftRun(Empty(s.maxSize), key, ops, s.next);
    var b := RunOps(Empty(s.maxSize), key, ops);
    if b.Some? {
      ShiftLookup(b.value, key, ident, s.next);
      assert Items(Shift(b.value, s.next)) == Items(b.value);
    }
  }
}
