/**
 Whole runs of cache updates, measured against a reference that knows nothing of buckets:
 the positions of the trace at which each identity was last updated, newest first.
 */
module CacheRuns {
  import opened Common
  import opened CacheModel
  import opened CacheSteps

  // ---------------------------------------------------------------------------
  // The reference: last uses

  /** Position `i` is the last accepted update of its identity. */
  ghost predicate IsLastUse<K, P>(trace: seq<Item<K, P>>, key: K -> int, i: nat)
    requires i < |trace|
  {
    && 0 <= key(trace[i].ident)
    && forall j :: i < j < |trace| ==> trace[j].ident != trace[i].ident
  }

  /** The last uses below position `n`, newest first. */
  ghost function LastUses<K, P>(trace: seq<Item<K, P>>, key: K -> int, n: nat): (r: seq<nat>)
    requires n <= |trace|
    ensures forall i :: 0 <= i < |r| ==> r[i] < n
  {
    if n == 0 then []
    else if IsLastUse(trace, key, n - 1) then [n - 1] + LastUses(trace, key, n - 1)
    else LastUses(trace, key, n - 1)
  }

  ghost function At<K, P>(trace: seq<Item<K, P>>, positions: seq<nat>): (r: seq<Item<K, P>>)
    requires forall i :: 0 <= i < |positions| ==> positions[i] < |trace|
    ensures |r| == |positions|
    ensures forall i :: 0 <= i < |r| ==> r[i] == trace[positions[i]]
  {
    seq(|positions|, i requires 0 <= i < |positions| => trace[positions[i]])
  }

  /** Every identity's last update, newest first. */
  ghost function Recent<K, P>(trace: seq<Item<K, P>>, key: K -> int): seq<Item<K, P>> {
    At(trace, LastUses(trace, key, |trace|))
  }

  ghost function Take<T>(s: seq<T>, n: int): seq<T>
    requires 0 <= n
  {
    if |s| <= n then s else s[..n]
  }

  /** `LastUses` lists exactly the last uses, in strictly decreasing order. */
  lemma {:induction false} LastUsesExact<K, P>(trace: seq<Item<K, P>>, key: K -> int, n: nat)
    requires n <= |trace|
    ensures
      var r := LastUses(trace, key, n);
      && (forall p :: p in r <==> 0 <= p < n && IsLastUse(trace, key, p))
      && (forall i, j :: 0 <= i < j < |r| ==> r[i] > r[j])
  {
    if n > 0 {
      LastUsesExact(trace, key, n - 1);
    }
  }

  lemma RecentDistinct<K, P>(trace: seq<Item<K, P>>, key: K -> int)
    ensures
      var recent := Recent(trace, key);
      forall i, j :: 0 <= i < j < |recent| ==> recent[i].ident != recent[j].ident
  {
    var u := LastUses(trace, key, |trace|);
    LastUsesExact(trace, key, |trace|);
    forall i, j | 0 <= i < j < |u|
      ensures trace[u[i]].ident != trace[u[j]].ident
    {
      assert u[j] in u;
    }
  }

  lemma LastUseAppend<K, P>(trace: seq<Item<K, P>>, key: K -> int, x: Item<K, P>, i: nat)
    requires i < |trace|
    ensures IsLastUse(trace + [x], key, i) <==> IsLastUse(trace, key, i) && trace[i].ident != x.ident
  {
    var longer := trace + [x];
    assert longer[|trace|] == x;
    assert forall j :: 0 <= j < |trace| ==> longer[j] == trace[j];
  }

  lemma AtCons<K, P>(trace: seq<Item<K, P>>, i: nat, u: seq<nat>)
    requires i < |trace| && forall k :: 0 <= k < |u| ==> u[k] < |trace|
    ensures At(trace, [i] + u) == [trace[i]] + At(trace, u)
  {
  }

  /** Appending an update removes its identity from the earlier last uses. */
  lemma {:induction false} LastUsesAppend<K, P>(trace: seq<Item<K, P>>, key: K -> int, x: Item<K, P>, n: nat)
    requires n <= |trace|
    ensures At(trace + [x], LastUses(trace + [x], key, n)) ==
            if key(x.ident) < 0 then At(trace, LastUses(trace, key, n))
            else Drop(At(trace, LastUses(trace, key, n)), x.ident)
  {
    if n > 0 {
      var i := n - 1;
      var u, u' := LastUses(trace, key, i), LastUses(trace + [x], key, i);
      LastUsesAppend(trace, key, x, i);
      LastUseAppend(trace, key, x, i);
      AtCons(trace, i, u);
      AtCons(trace + [x], i, u');
      assert ([trace[i]] + At(trace, u))[1..] == At(trace, u);
      assert [] + At(trace + [x], u') == At(trace + [x], u');
    }
  }

  /** The reference list of an extended trace. */
  lemma RecentAppend<K, P>(trace: seq<Item<K, P>>, key: K -> int, x: Item<K, P>)
    ensures Recent(trace + [x], key) ==
            if key(x.ident) < 0 then Recent(trace, key) else [x] + Drop(Recent(trace, key), x.ident)
  {
    var longer := trace + [x];
    var n := |trace|;
    LastUsesAppend(trace, key, x, n);
    if 0 <= key(x.ident) {
      assert IsLastUse(longer, key, n);
      AtCons(longer, n, LastUses(longer, key, n));
    }
  }

  lemma {:induction false} DropConcat<K, P>(a: seq<Item<K, P>>, b: seq<Item<K, P>>, ident: K)
    ensures Drop(a + b, ident) == Drop(a, ident) + Drop(b, ident)
  {
    if a == [] {
      assert a + b == b;
    } else {
      var head := if a[0].ident == ident then [] else [a[0]];
      var x, y := Drop(a[1..], ident), Drop(b, ident);
      assert Drop(a + b, ident) == head + (x + y) by {
        assert (a + b)[1..] == a[1..] + b;
        DropConcat(a[1..], b, ident);
      }
      assert Drop(a, ident) == head + x;
      assert head + (x + y) == (head + x) + y;
    }
  }

  lemma {:induction false} DropOne<K, P>(list: seq<Item<K, P>>, ident: K)
    requires forall i, j :: 0 <= i < j < |list| ==> list[i].ident != list[j].ident
    requires Holds(list, ident)
    ensures |Drop(list, ident)| == |list| - 1
  {
    var k :| 0 <= k < |list| && list[k].ident == ident;
    var a, b := list[..k], list[k + 1..];
    assert list == a + [list[k]] + b;
    DropConcat(a + [list[k]], b, ident);
    DropConcat(a, [list[k]], ident);
    assert list[k..k + 1] == [list[k]];
    DropAbsent(a, ident);
    DropAbsent(b, ident);
  }

  lemma DropSplit<K, P>(list: seq<Item<K, P>>, ident: K, m: nat)
    requires m <= |list|
    ensures Drop(list, ident) == Drop(list[..m], ident) + Drop(list[m..], ident)
  {
    assert list == list[..m] + list[m..];
    DropConcat(list[..m], list[m..], ident);
  }

  /** A held identity occurs once: not past the prefix that holds it. */
  lemma HeldOnce<K, P>(list: seq<Item<K, P>>, ident: K, m: nat)
    requires m <= |list| && Holds(list[..m], ident)
    requires forall i, j :: 0 <= i < j < |list| ==> list[i].ident != list[j].ident
    ensures Drop(list[m..], ident) == list[m..]
    ensures |Drop(list[..m], ident)| == m - 1
  {
    var k :| 0 <= k < m && list[..m][k].ident == ident;
    assert list[k].ident == ident;
    DropAbsent(list[m..], ident);
    DropOne(list[..m], ident);
  }

  lemma TouchTakeHit<K, P>(list: seq<Item<K, P>>, x: Item<K, P>, m: nat)
    requires m <= |list|
    requires Drop(list[m..], x.ident) == list[m..]
    requires |Drop(list[..m], x.ident)| == m - 1
    ensures Take([x] + Drop(list, x.ident), m) == [x] + Drop(list[..m], x.ident)
  {
    DropSplit(list, x.ident, m);
    TakeFront(x, Drop(list[..m], x.ident), list[m..]);
  }

  lemma TakeFront<T>(x: T, a: seq<T>, b: seq<T>)
    ensures Take([x] + (a + b), |a| + 1) == [x] + a
    ensures Take([x] + (a + b), |a|) == ([x] + a)[..|a|]
  {
  }

  lemma TouchTakeMiss<K, P>(list: seq<Item<K, P>>, x: Item<K, P>, m: nat)
    requires m <= |list| && !Holds(list[..m], x.ident)
    ensures Take([x] + Drop(list, x.ident), m) == ([x] + list[..m])[..m]
  {
    DropSplit(list, x.ident, m);
    DropAbsent(list[..m], x.ident);
    TakeFront(x, list[..m], Drop(list[m..], x.ident));
  }

  lemma TouchFull<K, P>(list: seq<Item<K, P>>, x: Item<K, P>, m: nat)
    requires m <= |list|
    requires Holds(list[..m], x.ident) ==> Drop(list[m..], x.ident) == list[m..] && |Drop(list[..m], x.ident)| == m - 1
    ensures Touch(list[..m], x, m + 1) == Take([x] + Drop(list, x.ident), m)
  {
    if Holds(list[..m], x.ident) {
      TouchTakeHit(list, x, m);
    } else {
      TouchTakeMiss(list, x, m);
    }
  }

  /** A bounded list that holds the newest `n - 1` items keeps doing so when touched. */
  lemma TouchTake<K, P>(list: seq<Item<K, P>>, x: Item<K, P>, n: int)
    requires 1 <= n
    requires forall i, j :: 0 <= i < j < |list| ==> list[i].ident != list[j].ident
    ensures Touch(Take(list, n - 1), x, n) == Take([x] + Drop(list, x.ident), n - 1)
  {
    if |list| < n - 1 {
      TouchUnbounded(list, x);
    } else {
      if Holds(list[..n - 1], x.ident) {
        HeldOnce(list, x.ident, n - 1);
      }
      TouchFull(list, x, n - 1);
      assert Take(list, n - 1) == list[..n - 1];
    }
  }

  lemma TouchUnbounded<K, P>(list: seq<Item<K, P>>, x: Item<K, P>)
    requires forall i, j :: 0 <= i < j < |list| ==> list[i].ident != list[j].ident
    ensures |Drop(list, x.ident)| <= |list|
    ensures !Holds(list, x.ident) ==> Drop(list, x.ident) == list
  {
  }

  // ---------------------------------------------------------------------------
  // Runs with the intended eviction

  ghost function Run<K, P>(s: State<K, P>, key: K -> int, trace: seq<Item<K, P>>): (r: State<K, P>)
    requires Sized(s)
    ensures Sized(r) && r.maxSize == s.maxSize
  {
    if trace == [] then s
    else Update(Run(s, key, trace[..|trace| - 1]), key, trace[|trace| - 1], Intended)
  }

  lemma {:induction false} RunAgrees<K, P>(s: State<K, P>, key: K -> int, trace: seq<Item<K, P>>)
    requires Agrees(s, key)
    ensures Agrees(Run(s, key, trace), key)
  {
    if trace != [] {
      var n := |trace| - 1;
      RunAgrees(s, key, trace[..n]);
      UpdateRefines(Run(s, key, trace[..n]), key, trace[n]);
    }
  }

  /** From an empty cache of size N, any run leaves exactly the N-1 most recently updated
      identities, newest first, each with the item last written for it. */
  lemma {:induction false} RunIsRecent<K, P>(s: State<K, P>, key: K -> int, trace: seq<Item<K, P>>)
    requires Agrees(s, key) && s.storage == []
    ensures Agrees(Run(s, key, trace), key)
    ensures Items(Run(s, key, trace)) == Take(Recent(trace, key), s.maxSize - 1)
  {
    if trace != [] {
      var n := |trace| - 1;
      var before, x := trace[..n], trace[n];
      assert trace == before + [x];
      RunIsRecent(s, key, before);
      UpdateRefines(Run(s, key, before), key, x);
      RecentAppend(before, key, x);
      RecentDistinct(before, key);
      TouchTake(Recent(before, key), x, s.maxSize);
    }
  }

  /** `lookup` after a run answers from the trace: with the last update of the identity, exactly
      when that is among the newest N-1 last uses. */
  lemma LookupAfterRun<K, P>(s: State<K, P>, key: K -> int, trace: seq<Item<K, P>>, ident: K, x: Item<K, P>)
    requires Agrees(s, key) && s.storage == []
    ensures
      var uses := LastUses(trace, key, |trace|);
      Lookup(Run(s, key, trace), key, ident) == Some(x) <==>
      x.ident == ident && exists i :: 0 <= i < s.maxSize - 1 && i < |uses| && trace[uses[i]] == x
  {
    RunIsRecent(s, key, trace);
    LookupIsMembership(Run(s, key, trace), key, ident);
    var u := LastUses(trace, key, |trace|);
    var list := Take(Recent(trace, key), s.maxSize - 1);
    assert forall i :: 0 <= i < |list| ==> list[i] == trace[u[i]];
    if x in list {
      var i :| 0 <= i < |list| && list[i] == x;
      assert trace[u[i]] == x;
    }
  }

  /** Stack inclusion: on the same trace the smaller cache holds a prefix of the larger one. */
  lemma StackInclusion<K, P>(small: State<K, P>, large: State<K, P>, key: K -> int, trace: seq<Item<K, P>>)
    requires Agrees(small, key) && Agrees(large, key)
    requires small.storage == [] && large.storage == [] && small.maxSize <= large.maxSize
    ensures Items(Run(small, key, trace)) <= Items(Run(large, key, trace))
  {
    RunIsRecent(small, key, trace);
    RunIsRecent(large, key, trace);
  }

  /** A cleared cache and a new one of the same size cannot be told apart by any run. */
  lemma ClearedIsFresh<K, P>(s: State<K, P>, key: K -> int, trace: seq<Item<K, P>>, ident: K)
    requires Sized(s)
    ensures Items(Run(Clear(s), key, trace)) == Items(Run(Empty(s.maxSize), key, trace))
    ensures Lookup(Run(Clear(s), key, trace), key, ident) == Lookup(Run(Empty(s.maxSize), key, trace), key, ident)
  {
    ClearAgrees(s, key);
    EmptyAgrees<K, P>(s.maxSize, key);
    RunIsRecent(Clear(s), key, trace);
    RunIsRecent(Empty(s.maxSize), key, trace);
    var a, b := Run(Clear(s), key, trace), Run(Empty(s.maxSize), key, trace);
    LookupIsMembership(a, key, ident);
    LookupIsMembership(b, key, ident);
  }

  lemma TouchLength<K, P>(list: seq<Item<K, P>>, x: Item<K, P>, n: int)
    requires forall i, j :: 0 <= i < j < |list| ==> list[i].ident != list[j].ident
    ensures |list| >= n - 1 ==> |Touch(list, x, n)| == |list|
    ensures |list| < n - 1 ==> |Touch(list, x, n)| <= n - 1
  {
    if Holds(list, x.ident) {
      DropOne(list, x.ident);
    }
  }

  /** The size limit bounds an intended run exactly when it bounds the state the run starts from. */
  lemma {:induction false} IntendedLimitIff<K, P>(s: State<K, P>, key: K -> int, trace: seq<Item<K, P>>)
    requires Agrees(s, key)
    ensures |Items(Run(s, key, trace))| < s.maxSize <==> |Items(s)| < s.maxSize
    ensures |Items(s)| >= s.maxSize ==> |Items(Run(s, key, trace))| == |Items(s)|
  {
    if trace != [] {
      var n := |trace| - 1;
      var before := Run(s, key, trace[..n]);
      IntendedLimitIff(s, key, trace[..n]);
      RunAgrees(s, key, trace[..n]);
      UpdateRefines(before, key, trace[n]);
      TouchLength(Items(before), trace[n], s.maxSize);
    }
  }

  // ---------------------------------------------------------------------------
  // Runs as written

  /** The update as written repeated; None once an update would read an unlinked node. */
  ghost function RunAsWritten<K, P>(s: State<K, P>, key: K -> int, trace: seq<Item<K, P>>): Option<State<K, P>>
    requires Sized(s)
  {
    if trace == [] then Some(s)
    else
      var before := RunAsWritten(s, key, trace[..|trace| - 1]);
      if before.Some? && UpdateDefined(before.value, key, trace[|trace| - 1])
      then Some(Update(before.value, key, trace[|trace| - 1], AsWritten))
      else None
  }

  // The size limit

  lemma {:induction false} WithoutLength<K, P>(s: seq<Node<K, P>>, h: Node<K, P>)
    requires h in s
    ensures |Without(s, h)| == |s| - 1
  {
    if s[0] != h {
      WithoutLength(s[1..], h);
    }
  }

  /** One update as written keeps the count true, and never shrinks a cache at or above its limit. */
  lemma CountedStep<K, P>(s: State<K, P>, key: K -> int, x: Item<K, P>)
    requires Sized(s) && s.currSize == |s.storage| && UpdateDefined(s, key, x)
    ensures
      var s' := Update(s, key, x, AsWritten);
      && Sized(s') && s'.maxSize == s.maxSize && s'.currSize == |s'.storage|
      && (|s.storage| >= s.maxSize - 1 ==> |s'.storage| == |s.storage|)
      && (|s.storage| < s.maxSize - 1 ==> |s'.storage| <= s.maxSize - 1)
  {
    if 0 <= key(x.ident) {
      var b := s.buckets[Slot(s, key(x.ident))];
      var i := Find(b, x.ident);
      if i < |b| {
        WithoutLength(s.storage, b[i]);
      }
    }
  }

  /** The documented size bounds a run as written exactly when it bounds the state the run starts
      from: a cache shrunk below its contents keeps its length and never comes down to its limit. */
  lemma {:induction false} LimitHoldsIff<K, P>(s: State<K, P>, key: K -> int, trace: seq<Item<K, P>>)
    requires Sized(s) && s.currSize == |s.storage| && RunAsWritten(s, key, trace).Some?
    ensures
      var r := RunAsWritten(s, key, trace).value;
      && Sized(r) && r.maxSize == s.maxSize && r.currSize == |r.storage|
      && (|r.storage| < s.maxSize <==> |s.storage| < s.maxSize)
      && (|s.storage| >= s.maxSize ==> |r.storage| == |s.storage|)
  {
    if trace != [] {
      var n := |trace| - 1;
      LimitHoldsIff(s, key, trace[..n]);
      CountedStep(RunAsWritten(s, key, trace[..n]).value, key, trace[n]);
    }
  }

  // Agreement and definedness

  /** Every eviction of the run takes its victim from the bucket it inserts into. */
  ghost predicate AllSameBucket<K, P>(s: State<K, P>, key: K -> int, trace: seq<Item<K, P>>)
    requires Sized(s)
  {
    forall i :: 0 <= i < |trace| ==> SameBucket(Run(s, key, trace[..i]), key, trace[i])
  }

  ghost predicate AgreesThroughout<K, P>(s: State<K, P>, key: K -> int, trace: seq<Item<K, P>>)
    requires Sized(s)
  {
    forall i :: 0 <= i <= |trace| ==> EndsAgreeing(s, key, trace[..i])
  }

  ghost predicate EndsAgreeing<K, P>(s: State<K, P>, key: K -> int, trace: seq<Item<K, P>>)
    requires Sized(s)
  {
    var r := RunAsWritten(s, key, trace);
    r.Some? && Agrees(r.value, key)
  }

  lemma AllSameBucketSnoc<K, P>(s: State<K, P>, key: K -> int, before: seq<Item<K, P>>, x: Item<K, P>)
    requires Sized(s)
    ensures AllSameBucket(s, key, before + [x]) <==>
            AllSameBucket(s, key, before) && SameBucket(Run(s, key, before), key, x)
  {
    var trace := before + [x];
    assert forall i :: 0 <= i <= |before| ==> trace[..i] == before[..i];
    assert before[..|before|] == before;
    assert trace[|before|] == x;
    assert forall i :: 0 <= i < |before| ==> trace[i] == before[i];
  }

  lemma AgreesThroughoutSnoc<K, P>(s: State<K, P>, key: K -> int, before: seq<Item<K, P>>, x: Item<K, P>)
    requires Sized(s)
    ensures AgreesThroughout(s, key, before + [x]) <==>
            AgreesThroughout(s, key, before) && EndsAgreeing(s, key, before + [x])
  {
    var trace := before + [x];
    assert forall i :: 0 <= i <= |before| ==> trace[..i] == before[..i];
    assert trace[..|trace|] == trace;
  }

  /** A run as written stays in agreement throughout if and only if all its evictions are
      same-bucket, and then it is the intended run. */
  lemma {:induction false} AsWrittenRunIff<K, P>(s: State<K, P>, key: K -> int, trace: seq<Item<K, P>>)
    requires Agrees(s, key)
    ensures AgreesThroughout(s, key, trace) <==> AllSameBucket(s, key, trace)
    ensures AllSameBucket(s, key, trace) ==> RunAsWritten(s, key, trace) == Some(Run(s, key, trace))
  {
    if trace != [] {
      var n := |trace| - 1;
      var before, x := trace[..n], trace[n];
      assert trace == before + [x];
      AsWrittenRunIff(s, key, before);
      AllSameBucketSnoc(s, key, before, x);
      AgreesThroughoutSnoc(s, key, before, x);
      RunAgrees(s, key, before);
      AgreesIsLinked(Run(s, key, before), key);
      LinkedIsDefined(Run(s, key, before), key, x);
      AsWrittenKeepsIff(Run(s, key, before), key, x);
    }
  }

  ghost predicate EndsLinked<K, P>(s: State<K, P>, key: K -> int, trace: seq<Item<K, P>>)
    requires Sized(s)
  {
    var r := RunAsWritten(s, key, trace);
    r.Some? && AllLinked(r.value)
  }

  ghost predicate LinkedThroughout<K, P>(s: State<K, P>, key: K -> int, trace: seq<Item<K, P>>)
    requires Sized(s)
  {
    forall i :: 0 <= i <= |trace| ==> EndsLinked(s, key, trace[..i])
  }

  lemma LinkedThroughoutSnoc<K, P>(s: State<K, P>, key: K -> int, before: seq<Item<K, P>>, x: Item<K, P>)
    requires Sized(s)
    ensures LinkedThroughout(s, key, before + [x]) <==>
            LinkedThroughout(s, key, before) && EndsLinked(s, key, before + [x])
  {
    var trace := before + [x];
    assert forall i :: 0 <= i <= |before| ==> trace[..i] == before[..i];
    assert trace[..|trace|] == trace;
  }

  /** A run as written never leaves an unlinked node in a bucket if and only if all its evictions are
      same-bucket; every operation at every point of such a run is defined. */
  lemma {:induction false} LinkedRunIff<K, P>(s: State<K, P>, key: K -> int, trace: seq<Item<K, P>>)
    requires Agrees(s, key)
    ensures LinkedThroughout(s, key, trace) <==> AllSameBucket(s, key, trace)
  {
    if trace == [] {
      AgreesIsLinked(s, key);
    } else {
      var n := |trace| - 1;
      var before, x := trace[..n], trace[n];
      assert trace == before + [x];
      LinkedRunIff(s, key, before);
      AllSameBucketSnoc(s, key, before, x);
      LinkedThroughoutSnoc(s, key, before, x);
      if AllSameBucket(s, key, before) {
        AsWrittenRunIff(s, key, before);
        RunAgrees(s, key, before);
        AgreesIsLinked(Run(s, key, before), key);
        LinkedIsDefined(Run(s, key, before), key, x);
        UnlinksIff(Run(s, key, before), key, x);
      }
    }
  }

  lemma RecentGrows<K, P>(trace: seq<Item<K, P>>, key: K -> int, i: nat)
    requires i < |trace|
    ensures |Recent(trace[..i], key)| <= |Recent(trace[..i + 1], key)|
    ensures 0 <= key(trace[i].ident) && !Holds(Recent(trace[..i], key), trace[i].ident) ==>
            |Recent(trace[..i], key)| < |Recent(trace[..i + 1], key)|
  {
    var list := Recent(trace[..i], key);
    assert trace[..i + 1] == trace[..i] + [trace[i]];
    RecentAppend(trace[..i], key, trace[i]);
    RecentDistinct(trace[..i], key);
    if Holds(list, trace[i].ident) {
      DropOne(list, trace[i].ident);
    } else {
      DropAbsent(list, trace[i].ident);
    }
  }

  lemma {:induction false} RecentMonotone<K, P>(trace: seq<Item<K, P>>, key: K -> int, i: nat)
    requires i <= |trace|
    ensures |Recent(trace[..i], key)| <= |Recent(trace, key)|
    decreases |trace| - i
  {
    if i == |trace| {
      assert trace[..i] == trace;
    } else {
      RecentGrows(trace, key, i);
      RecentMonotone(trace, key, i + 1);
    }
  }

  lemma NoEvictionYet<K, P>(s: State<K, P>, key: K -> int, trace: seq<Item<K, P>>, i: nat)
    requires Agrees(s, key) && s.storage == [] && |Recent(trace, key)| < s.maxSize && i < |trace|
    ensures !Evicts(Run(s, key, trace[..i]), key, trace[i])
  {
    RunIsRecent(s, key, trace[..i]);
    RecentMonotone(trace, key, i);
    RecentMonotone(trace, key, i + 1);
    RecentGrows(trace, key, i);
    assert Items(Run(s, key, trace[..i])) == Recent(trace[..i], key);
  }

  /** With fewer distinct identities than the size, the cache as written meets the whole specification. */
  lemma FewIdentities<K, P>(s: State<K, P>, key: K -> int, trace: seq<Item<K, P>>)
    requires Agrees(s, key) && s.storage == [] && |Recent(trace, key)| < s.maxSize
    ensures RunAsWritten(s, key, trace) == Some(Run(s, key, trace))
    ensures Items(Run(s, key, trace)) == Recent(trace, key)
  {
    forall i | 0 <= i < |trace|
      ensures SameBucket(Run(s, key, trace[..i]), key, trace[i])
    {
      NoEvictionYet(s, key, trace, i);
    }
    AsWrittenRunIff(s, key, trace);
    RunIsRecent(s, key, trace);
  }

  /** The update as written is not the intended one: a cache of size 2 given keys 0 and 1 holds
      only the second item, and does not find it. */
  lemma CrossBucketExample(key: int -> int)
    requires key(0) == 0 && key(1) == 1
    ensures
      var x, y := Item(0, 7), Item(1, 8);
      var r := RunAsWritten(Empty<int, int>(2), key, [x, y]);
      && !AgreesThroughout(Empty<int, int>(2), key, [x, y])
      && Items(Run(Empty<int, int>(2), key, [x, y])) == [y]
      && r.Some? && LookupDefined(r.value, key, 1) && Lookup(r.value, key, 1) == None
  {
    var s := Empty<int, int>(2);
    var x, y := Item(0, 7), Item(1, 8);
    var s1 := Run(s, key, [x]);
    EmptyAgrees<int, int>(2, key);
    OneUpdate(s, key, x);
    assert [x, y] == [x] + [y] && [x, y][..1] == [x];
    assert s1.storage[0].item == Items(s1)[0];
    assert Evicts(s1, key, y) && !SameBucket(s1, key, y);
    AllSameBucketSnoc(s, key, [x], y);
    AsWrittenRunIff(s, key, [x, y]);
    UpdateRefines(s1, key, y);
    AgreesIsLinked(s1, key);
    LinkedIsDefined(s1, key, y);
    ReadBack(s1, key, y);
  }

  /** A cache can be above its limit and in agreement: size 3, keys 0 and 1, then limit 1. */
  lemma ShrunkExample(key: int -> int)
    requires key(0) == 0 && key(1) == 1
    ensures
      var r := RunAsWritten(Empty<int, int>(3), key, [Item(0, 7), Item(1, 8)]);
      && r.Some? && Agrees(r.value, key)
      && Agrees(SetSizeLimit(r.value, 1), key)
      && |Items(SetSizeLimit(r.value, 1))| == 2
  {
    var s := Empty<int, int>(3);
    var x, y := Item(0, 7), Item(1, 8);
    var trace := [x, y];
    EmptyAgrees<int, int>(3, key);
    RunIsRecent(s, key, trace);
    ShrunkTrace(key, x, y);
    FewIdentities(s, key, trace);
    var r := Run(s, key, trace);
    assert Items(r) == [y, x];
    assert r.storage[0].item == Items(r)[0] && r.storage[1].item == Items(r)[1];
    SmallKeysResize(r, key, 1);
  }

  lemma ShrunkTrace<K, P>(key: K -> int, x: Item<K, P>, y: Item<K, P>)
    requires 0 <= key(x.ident) && 0 <= key(y.ident) && x.ident != y.ident
    ensures Recent([x, y], key) == [y, x]
  {
    RecentAppend([], key, x);
    assert [] + [x] == [x] && [x] + [y] == [x, y];
    RecentAppend([x], key, y);
    assert [x][1..] == [];
  }

  lemma OneUpdate<K, P>(s: State<K, P>, key: K -> int, x: Item<K, P>)
    requires Agrees(s, key) && s.storage == [] && s.maxSize > 1 && 0 <= key(x.ident)
    ensures Agrees(Run(s, key, [x]), key) && Items(Run(s, key, [x])) == [x]
    ensures RunAsWritten(s, key, [x]) == Some(Run(s, key, [x]))
  {
    assert [x][..0] == [];
    UpdateRefines(s, key, x);
    SameBucketSameStep(s, key, x);
    AgreesIsLinked(s, key);
    LinkedIsDefined(s, key, x);
  }
}
