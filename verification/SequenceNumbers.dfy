/**
 The wrapping counters of P2P_Client_src/include/common.h: `CSeqNo`, `CMsgNo` and `CAckNo`.

 The three classes use one arithmetic with different constants, so it is defined once over a
 `Circle`: the largest number `max` and the comparison threshold `th`. The header declares
 its thresholds without a value, so every threshold of at most half the circle is covered.
 */
module SequenceNumbers {

  datatype Circle = Circle(max: int, th: int) {
    /** Number of points. */
    function Size(): int { max + 1 }

    predicate Valid() { 1 <= th && 2 * th <= max + 1 }

    predicate In(a: int) { 0 <= a <= max }
  }

  const SEQ_MAX := 0x7FFF_FFFF
  const MSG_MAX := 0x1FFF_FFFF

  function Abs(x: int): int { if x < 0 then -x else x }

  function Sign(x: int): int { if x < 0 then -1 else if x == 0 then 0 else 1 }

  /** seqcmp, msgcmp */
  function Cmp(c: Circle, a: int, b: int): int {
    if Abs(a - b) < c.th then a - b else b - a
  }

  /** seqlen, msglen */
  function Len(c: Circle, a: int, b: int): int {
    if a <= b then b - a + 1 else b - a + c.max + 2
  }

  /** seqoff, msgoff */
  function Off(c: Circle, a: int, b: int): int {
    if Abs(a - b) < c.th then b - a
    else if a < b then b - a - c.max - 1
    else b - a + c.max + 1
  }

  /** incseq, incack, incmsg */
  function Inc(c: Circle, a: int): int {
    if a == c.max then 0 else a + 1
  }

  /** decseq */
  function Dec(c: Circle, a: int): int {
    if a == 0 then c.max else a - 1
  }

  /** incseq with an offset */
  function IncBy(c: Circle, a: int, k: int): int {
    if c.max - a >= k then a + k else a - c.max + k - 1
  }

  // ---------------------------------------------------------------------------
  // Residues

  lemma NoSmallMultiple(d: int, m: int)
    requires 0 < m && -m < d * m < m
    ensures d == 0
  {
  }

  lemma ModUnique(x: int, q: int, r: int, m: int)
    requires 0 <= r < m && x == q * m + r
    ensures x % m == r
  {
    var q', r' := x / m, x % m;
    assert x == q' * m + r' by {
      assert x == m * q' + r';
    }
    assert (q - q') * m == q * m - q' * m;
    NoSmallMultiple(q - q', m);
  }

  /** A shift by less than a turn moves the residue by the shift, give or take one turn. */
  lemma ModShift(x: int, d: int, m: int)
    requires 0 < m && -m < d < m
    ensures
      var a := x % m + d;
      (x + d) % m == if a >= m then a - m else if a < 0 then a + m else a
  {
    var q, a := x / m, x % m + d;
    assert x == q * m + x % m;
    if a >= m {
      assert (q + 1) * m == q * m + m;
      ModUnique(x + d, q + 1, a - m, m);
    } else if a < 0 {
      assert (q - 1) * m == q * m - m;
      ModUnique(x + d, q - 1, a + m, m);
    } else {
      ModUnique(x + d, q, a, m);
    }
  }

  // ---------------------------------------------------------------------------
  // Wrapped counters stand for unbounded ones

  /** Two unbounded counters less than the threshold apart are compared, measured and subtracted
      correctly by looking at their residues only. */
  lemma WrappedSimulates(c: Circle, x: int, y: int)
    requires c.Valid() && Abs(x - y) < c.th
    ensures
      var a, b := x % c.Size(), y % c.Size();
      && Sign(Cmp(c, a, b)) == Sign(x - y)
      && Off(c, a, b) == y - x
      && (x <= y ==> Len(c, a, b) == y - x + 1)
  {
    ModShift(x, y - x, c.Size());
  }

  ghost function IncMany(c: Circle, a: int, n: nat): int {
    if n == 0 then a else Inc(c, IncMany(c, a, n - 1))
  }

  /** However often a counter has been incremented, it holds the residue of the true count. */
  lemma {:induction false} CountIsResidue(c: Circle, a: int, n: nat)
    requires c.Valid() && c.In(a)
    ensures IncMany(c, a, n) == (a + n) % c.Size()
  {
    if n == 0 {
      ModUnique(a, 0, a, c.Size());
    } else {
      CountIsResidue(c, a, n - 1);
      ModShift(a + (n - 1), 1, c.Size());
      assert a + (n - 1) + 1 == a + n;
    }
  }

  lemma IncByIsResidue(c: Circle, x: int, k: int)
    requires c.Valid() && 0 <= k <= c.max
    ensures IncBy(c, x % c.Size(), k) == (x + k) % c.Size()
  {
    ModShift(x, k, c.Size());
  }

  /** A sender that is `lead` steps ahead of a receiver, each counting from the same number for
      any number of steps, is seen exactly `lead` ahead, and as later, while `lead` is below the threshold. */
  lemma LeadIsMeasured(c: Circle, start: int, received: nat, lead: nat)
    requires c.Valid() && c.In(start) && lead < c.th
    ensures
      var s, r := IncMany(c, start, received + lead), IncMany(c, start, received);
      && Off(c, r, s) == lead
      && Len(c, r, s) == lead + 1
      && Sign(Cmp(c, s, r)) == Sign(lead)
  {
    CountIsResidue(c, start, received);
    CountIsResidue(c, start, received + lead);
    WrappedSimulates(c, start + received, start + (received + lead));
    WrappedSimulates(c, start + (received + lead), start + received);
  }

  // ---------------------------------------------------------------------------
  // Where the rule is valid

  /** The offset to the number `k` steps ahead, without and with a wrap. */
  lemma OffOfInc(c: Circle, a: int, k: int)
    requires c.Valid() && c.In(a) && 0 <= k <= c.max
    ensures
      Off(c, a, IncBy(c, a, k)) ==
      if k < c.th then k
      else if k > c.Size() - c.th then k - c.Size()
      else if a + k <= c.max then k - c.Size() else k
  {
  }

  ghost predicate OffDependsOnlyOn(c: Circle, k: int) {
    forall a, b :: c.In(a) && c.In(b) ==> Off(c, a, IncBy(c, a, k)) == Off(c, b, IncBy(c, b, k))
  }

  /** The offset to `k` steps ahead is the same from every start if and only if `k` is below the
      threshold or above its complement. */
  lemma ExactBand(c: Circle, k: int)
    requires c.Valid() && 0 <= k <= c.max
    ensures OffDependsOnlyOn(c, k) <==> k < c.th || k > c.Size() - c.th
  {
    if k < c.th || k > c.Size() - c.th {
      forall a, b | c.In(a) && c.In(b)
        ensures Off(c, a, IncBy(c, a, k)) == Off(c, b, IncBy(c, b, k))
      {
        OffOfInc(c, a, k);
        OffOfInc(c, b, k);
      }
    } else {
      OffOfInc(c, 0, k);
      OffOfInc(c, c.max, k);
      assert Off(c, 0, IncBy(c, 0, k)) != Off(c, c.max, IncBy(c, c.max, k));
    }
  }

  /** The comparison follows the offset order on every window of `n` consecutive numbers. */
  ghost predicate OrdersWindows(c: Circle, n: int) {
    forall base, i, j :: c.In(base) && 0 <= i < n && 0 <= j < n ==>
      Sign(Cmp(c, IncBy(c, base, i), IncBy(c, base, j))) == Sign(i - j)
  }

  /** Windows of at most the threshold are ordered, and no longer ones are. */
  lemma WindowOrderIff(c: Circle, n: int)
    requires c.Valid() && 1 <= n <= c.Size()
    ensures OrdersWindows(c, n) <==> n <= c.th
  {
    if n > c.th {
      assert c.In(0);
      assert Sign(Cmp(c, IncBy(c, 0, 0), IncBy(c, 0, c.th))) == 1;
      assert Sign(0 - c.th) == -1;
    }
  }

  /** Within such a window the comparison is a strict total order. */
  lemma WindowTotalOrder(c: Circle, base: int, i: int, j: int, k: int)
    requires c.Valid() && c.In(base) && 0 <= i < c.th && 0 <= j < c.th && 0 <= k < c.th
    ensures
      var x, y, z := IncBy(c, base, i), IncBy(c, base, j), IncBy(c, base, k);
      && (Cmp(c, x, y) < 0 && Cmp(c, y, z) < 0 ==> Cmp(c, x, z) < 0)
      && (Cmp(c, x, y) < 0 || Cmp(c, y, x) < 0 || x == y)
  {
  }

  /** Everywhere: antisymmetric, zero only on equal numbers, as large as the plain difference, and opposite in
      sign to the offset; below the threshold it is the plain difference, the negated offset. */
  lemma CmpOppositeOff(c: Circle, a: int, b: int)
    requires c.Valid() && c.In(a) && c.In(b)
    ensures Sign(Cmp(c, a, b)) == -Sign(Off(c, a, b))
    ensures Cmp(c, a, b) == -Cmp(c, b, a)
    ensures Cmp(c, a, b) == 0 <==> a == b
    ensures Abs(Cmp(c, a, b)) == Abs(a - b)
    ensures Cmp(c, a, b) == -Off(c, a, b) <==> Abs(a - b) < c.th || 2 * Abs(a - b) == c.Size()
    ensures Abs(a - b) < c.th ==> Cmp(c, a, b) == a - b
  {
  }

  // ---------------------------------------------------------------------------
  // Increment algebra

  lemma {:induction false} IncByIsIncMany(c: Circle, a: int, k: nat)
    requires c.Valid() && c.In(a) && k <= c.max
    ensures IncMany(c, a, k) == IncBy(c, a, k) && c.In(IncBy(c, a, k))
  {
    if k > 0 {
      IncByIsIncMany(c, a, k - 1);
    }
  }

  lemma IncrementAlgebra(c: Circle, a: int, j: int, k: int)
    requires c.Valid() && c.In(a) && 0 <= j && 0 <= k && j + k <= c.max
    ensures Dec(c, Inc(c, a)) == a && Inc(c, Dec(c, a)) == a
    ensures IncBy(c, IncBy(c, a, j), k) == IncBy(c, a, j + k)
    ensures Len(c, a, IncBy(c, a, k)) == k + 1
  {
  }

  /** Two numbers cut the circle into two arcs that share both ends. */
  lemma TwoArcs(c: Circle, a: int, b: int)
    requires c.Valid() && c.In(a) && c.In(b) && a != b
    ensures Len(c, a, b) + Len(c, b, a) == c.Size() + 2
  {
  }

  // ---------------------------------------------------------------------------
  // 32-bit evaluation

  predicate Int32(x: int) { -0x8000_0000 <= x <= 0x7FFF_FFFF }

  /** Every intermediate value of an evaluation, in the order the source computes them. */
  function CmpSteps(c: Circle, a: int, b: int): seq<int> {
    [a - b, Abs(a - b), Cmp(c, a, b)]
  }

  function LenSteps(c: Circle, a: int, b: int): seq<int> {
    if a <= b then [b - a, b - a + 1] else [b - a, b - a + c.max, b - a + c.max + 2]
  }

  function OffSteps(c: Circle, a: int, b: int): seq<int> {
    [a - b, Abs(a - b), b - a] +
    (if Abs(a - b) < c.th then []
     else if a < b then [b - a - c.max, b - a - c.max - 1]
     else [b - a + c.max, b - a + c.max + 1])
  }

  function IncBySteps(c: Circle, a: int, k: int): seq<int> {
    [c.max - a] + (if c.max - a >= k then [a + k] else [a - c.max, a - c.max + k, a - c.max + k - 1])
  }

  function IncSteps(c: Circle, a: int): seq<int> {
    if a == c.max then [0] else [a + 1]
  }

  function DecSteps(c: Circle, a: int): seq<int> {
    if a == 0 then [c.max] else [a - 1]
  }

  predicate AllInt32(s: seq<int>) { forall i :: 0 <= i < |s| ==> Int32(s[i]) }

  /** The evaluation ends in the value, and every intermediate fits 32 bits. */
  predicate Evaluates(steps: seq<int>, value: int) {
    steps != [] && steps[|steps| - 1] == value && AllInt32(steps)
  }

  /** On sequence and acknowledgement numbers nothing overflows but the length, and that exactly on
      the full circle. */
  lemma SeqNoBounds(th: int, a: int, b: int)
    requires Circle(SEQ_MAX, th).Valid() && Circle(SEQ_MAX, th).In(a) && Circle(SEQ_MAX, th).In(b)
    ensures
      var c := Circle(SEQ_MAX, th);
      && Evaluates(CmpSteps(c, a, b), Cmp(c, a, b))
      && Evaluates(OffSteps(c, a, b), Off(c, a, b))
      && Evaluates(IncSteps(c, a), Inc(c, a))
      && Evaluates(DecSteps(c, a), Dec(c, a))
      && Evaluates(IncBySteps(c, a, b), IncBy(c, a, b))
      && (Evaluates(LenSteps(c, a, b), Len(c, a, b)) <==> a != Inc(c, b))
      && (a == Inc(c, b) <==> Len(c, a, b) == c.Size())
  {
    var steps := LenSteps(Circle(SEQ_MAX, th), a, b);
    assert AllInt32(steps) ==> Int32(steps[|steps| - 1]);
  }

  /** On message numbers nothing overflows. */
  lemma MsgNoBounds(th: int, a: int, b: int)
    requires Circle(MSG_MAX, th).Valid() && Circle(MSG_MAX, th).In(a) && Circle(MSG_MAX, th).In(b)
    ensures
      var c := Circle(MSG_MAX, th);
      && Evaluates(CmpSteps(c, a, b), Cmp(c, a, b))
      && Evaluates(OffSteps(c, a, b), Off(c, a, b))
      && Evaluates(LenSteps(c, a, b), Len(c, a, b))
      && Evaluates(IncSteps(c, a), Inc(c, a))
  {
  }
}
