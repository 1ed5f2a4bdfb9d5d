/**
 Runs that mix every operation of the cache, with the update as written, against a model that is
 only a list of items and a limit.
 */
module CacheOperations {
  import opened Common
  import opened CacheModel
  import opened CacheSteps

  datatype Op<K, P> = Put(x: Item<K, P>) | Get(ident: K) | Wipe | Resize(size: int)

  datatype Model<K, P> = Model(list: seq<Item<K, P>>, limit: int)

  ghost predicate Legal<K, P>(op: Op<K, P>) { op.Resize? ==> 1 <= op.size }

  ghost predicate AllLegal<K, P>(ops: seq<Op<K, P>>) { forall i :: 0 <= i < |ops| ==> Legal(ops[i]) }

  /** One operation of the cache as written. */
  ghost function Do<K, P>(s: State<K, P>, key: K -> int, op: Op<K, P>): (r: State<K, P>)
    requires Sized(s) && Legal(op)
    ensures Sized(r)
  {
    match op
    case Put(x) => Update(s, key, x, AsWritten)
    case Get(_) => s
    case Wipe => Clear(s)
    case Resize(size) => SetSizeLimit(s, size)
  }

  /** Every node the operation reads through a bucket is linked. */
  ghost predicate Defined<K, P>(s: State<K, P>, key: K -> int, op: Op<K, P>) {
    match op
    case Put(x) => UpdateDefined(s, key, x)
    case Get(ident) => LookupDefined(s, key, ident)
    case _ => true
  }

  /** None once an operation would read an unlinked node. */
  ghost function RunOps<K, P>(s: State<K, P>, key: K -> int, ops: seq<Op<K, P>>): (r: Option<State<K, P>>)
    requires Sized(s) && AllLegal(ops)
    ensures r.Some? ==> Sized(r.value)
  {
    if ops == [] then Some(s)
    else
      var n := |ops| - 1;
      var before := RunOps(s, key, ops[..n]);
      if before == None || !Defined(before.value, key, ops[n]) then None
      else Some(Do(before.value, key, ops[n]))
  }

  ghost function ModelDo<K, P>(m: Model<K, P>, key: K -> int, op: Op<K, P>): Model<K, P> {
    match op
    case Put(x) => if key(x.ident) < 0 then m else m.(list := Touch(m.list, x, m.limit))
    case Get(_) => m
    case Wipe => m.(list := [])
    case Resize(size) => m.(limit := size)
  }

  ghost function ModelRun<K, P>(m: Model<K, P>, key: K -> int, ops: seq<Op<K, P>>): Model<K, P> {
    if ops == [] then m else ModelDo(ModelRun(m, key, ops[..|ops| - 1]), key, ops[|ops| - 1])
  }

  /** What a caller can check before an operation: an eviction stays in its bucket, and a resize
      moves no resident key. */
  ghost predicate Guarded<K, P>(s: State<K, P>, key: K -> int, op: Op<K, P>)
    requires Sized(s) && Legal(op)
  {
    match op
    case Put(x) => SameBucket(s, key, x)
    case Resize(size) => ResiduesKept(s, key, 3 * size)
    case _ => true
  }

  /** One operation keeps agreement exactly when it is guarded, and then acts as the model does. */
  lemma DoKeepsIff<K, P>(s: State<K, P>, key: K -> int, op: Op<K, P>)
    requires Agrees(s, key) && Legal(op)
    ensures Agrees(Do(s, key, op), key) <==> Guarded(s, key, op)
    ensures Guarded(s, key, op) ==>
            Model(Items(Do(s, key, op)), Do(s, key, op).maxSize) == ModelDo(Model(Items(s), s.maxSize), key, op)
  {
    match op
    case Put(x) => AsWrittenKeepsIff(s, key, x); UpdateRefines(s, key, x);
    case Get(_) =>
    case Wipe => ClearAgrees(s, key);
    case Resize(size) => ResizeKeepsIff(s, key, size);
  }

  ghost predicate EndsAgreeing<K, P>(s: State<K, P>, key: K -> int, ops: seq<Op<K, P>>)
    requires Sized(s) && AllLegal(ops)
  {
    var r := RunOps(s, key, ops);
    r.Some? && Agrees(r.value, key)
  }

  ghost predicate NextGuarded<K, P>(s: State<K, P>, key: K -> int, ops: seq<Op<K, P>>, op: Op<K, P>)
    requires Sized(s) && AllLegal(ops) && Legal(op)
  {
    var r := RunOps(s, key, ops);
    r.Some? && Guarded(r.value, key, op)
  }

  ghost predicate AgreesThroughout<K, P>(s: State<K, P>, key: K -> int, ops: seq<Op<K, P>>)
    requires Sized(s) && AllLegal(ops)
  {
    forall i :: 0 <= i <= |ops| ==> EndsAgreeing(s, key, ops[..i])
  }

  ghost predicate GuardedThroughout<K, P>(s: State<K, P>, key: K -> int, ops: seq<Op<K, P>>)
    requires Sized(s) && AllLegal(ops)
  {
    forall i :: 0 <= i < |ops| ==> NextGuarded(s, key, ops[..i], ops[i])
  }

  lemma AgreesSnoc<K, P>(s: State<K, P>, key: K -> int, before: seq<Op<K, P>>, op: Op<K, P>)
    requires Sized(s) && AllLegal(before) && Legal(op)
    ensures AllLegal(before + [op])
    ensures AgreesThroughout(s, key, before + [op]) <==>
            AgreesThroughout(s, key, before) && EndsAgreeing(s, key, before + [op])
  {
    var ops := before + [op];
    assert forall i :: 0 <= i <= |before| ==> ops[..i] == before[..i];
    assert ops[..|ops|] == ops;
  }

  lemma GuardedSnoc<K, P>(s: State<K, P>, key: K -> int, before: seq<Op<K, P>>, op: Op<K, P>)
    requires Sized(s) && AllLegal(before) && Legal(op)
    ensures AllLegal(before + [op])
    ensures GuardedThroughout(s, key, before + [op]) <==>
            GuardedThroughout(s, key, before) && NextGuarded(s, key, before, op)
  {
    var ops := before + [op];
    assert forall i :: 0 <= i <= |before| ==> ops[..i] == before[..i];
    assert before[..|before|] == before;
    assert ops[|before|] == op;
    assert forall i :: 0 <= i < |before| ==> ops[i] == before[i];
  }

  lemma AgreesIsDefined<K, P>(s: State<K, P>, key: K -> int, op: Op<K, P>)
    requires Agrees(s, key)
    ensures Defined(s, key, op)
  {
    AgreesIsLinked(s, key);
    if op.Put? {
      LinkedIsDefined(s, key, op.x);
    }
  }

  lemma RunSnoc<K, P>(s: State<K, P>, key: K -> int, before: seq<Op<K, P>>, op: Op<K, P>)
    requires Sized(s) && AllLegal(before) && Legal(op) && EndsAgreeing(s, key, before)
    ensures AllLegal(before + [op])
    ensures RunOps(s, key, before + [op]) == Some(Do(RunOps(s, key, before).value, key, op))
    ensures EndsAgreeing(s, key, before + [op]) <==> NextGuarded(s, key, before, op)
  {
    assert (before + [op])[..|before|] == before;
    AgreesIsDefined(RunOps(s, key, before).value, key, op);
    DoKeepsIff(RunOps(s, key, before).value, key, op);
  }

  /** Over any run of updates, lookups, resizes and clears, list and buckets agree throughout if and
      only if every operation is guarded where it happens. */
  lemma {:induction false} MixedRunIff<K, P>(s: State<K, P>, key: K -> int, ops: seq<Op<K, P>>)
    requires Agrees(s, key) && AllLegal(ops)
    ensures AgreesThroughout(s, key, ops) <==> GuardedThroughout(s, key, ops)
  {
    if ops != [] {
      var n := |ops| - 1;
      var before, op := ops[..n], ops[n];
      assert ops == before + [op];
      MixedRunIff(s, key, before);
      AgreesSnoc(s, key, before, op);
      GuardedSnoc(s, key, before, op);
      if AgreesThroughout(s, key, before) {
        assert before[..|before|] == before;
        assert EndsAgreeing(s, key, before);
        RunSnoc(s, key, before, op);
      }
    }
  }

  /** A guarded run holds exactly what the list-and-limit model holds. */
  lemma {:induction false} MixedRunRefines<K, P>(s: State<K, P>, key: K -> int, ops: seq<Op<K, P>>)
    requires Agrees(s, key) && AllLegal(ops) && GuardedThroughout(s, key, ops)
    ensures EndsAgreeing(s, key, ops)
    ensures
      var r := RunOps(s, key, ops).value;
      Model(Items(r), r.maxSize) == ModelRun(Model(Items(s), s.maxSize), key, ops)
  {
    if ops != [] {
      var n := |ops| - 1;
      var before, op := ops[..n], ops[n];
      assert ops == before + [op];
      GuardedSnoc(s, key, before, op);
      MixedRunRefines(s, key, before);
      RunSnoc(s, key, before, op);
      DoKeepsIff(RunOps(s, key, before).value, key, op);
    }
  }

  /** So a lookup at any point of a guarded run is answered by the model. */
  lemma MixedLookup<K, P>(s: State<K, P>, key: K -> int, ops: seq<Op<K, P>>, ident: K, x: Item<K, P>)
    requires Agrees(s, key) && AllLegal(ops) && GuardedThroughout(s, key, ops)
    ensures
      var list := ModelRun(Model(Items(s), s.maxSize), key, ops).list;
      && RunOps(s, key, ops).Some?
      && (Lookup(RunOps(s, key, ops).value, key, ident) == Some(x) <==> x in list && x.ident == ident)
  {
    MixedRunRefines(s, key, ops);
    LookupIsMembership(RunOps(s, key, ops).value, key, ident);
  }

  /** A lookup right after an eviction across buckets goes on unless it hashes to the victim's bucket
      and looks for something not stored. */
  lemma GetAfterCross<K, P>(s: State<K, P>, key: K -> int, x: Item<K, P>, ident: K)
    requires Agrees(s, key) && !SameBucket(s, key, x)
    ensures
      RunOps(s, key, [Put(x), Get(ident)]).Some? <==>
      !(0 <= key(ident) && key(ident) % s.hashSize == VictimKey(s, key, x) % s.hashSize
        && !Holds(Items(Update(s, key, x, AsWritten)), ident))
  {
    var ops := [Put(x), Get(ident)];
    assert ops[..1] == [Put(x)] && [Put(x)][..0] == [];
    AgreesIsDefined(s, key, Put(x));
    assert RunOps(s, key, [Put(x)]) == Some(Update(s, key, x, AsWritten));
    CrossBucketLookup(s, key, x, ident);
  }
}
