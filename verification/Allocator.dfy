/**
 The id allocator of `sqllite_insert` (P2P_Server_src/db_sqlite.cpp): one above the sequence,
 skipping multiples of 50.
 */
module Allocator {
  import opened Common

  const SERVER_NUM_CYC := 50

  function NextId(seq_: int): (id: int)
    ensures id > seq_ && id != 0
  {
    if (seq_ + 1) % SERVER_NUM_CYC == 0 then seq_ + 2 else seq_ + 1
  }

  /** The next id is the smallest larger number that is not a multiple of 50. */
  lemma NextIdIsLeast(seq_: int, m: int)
    ensures NextId(seq_) % SERVER_NUM_CYC != 0
    ensures m > seq_ && m % SERVER_NUM_CYC != 0 ==> NextId(seq_) <= m
    ensures NextId(seq_) == seq_ + 1 <==> (seq_ + 1) % SERVER_NUM_CYC != 0
  {
  }

  /** The n-th id handed out from an absent sequence row. */
  function NthId(n: int): int { n + (n - 1) / 49 }

  /** How many positive ids up to `m` are not multiples of 50. */
  function Rank(m: int): int { m - m / SERVER_NUM_CYC }

  /** The closed form follows the step the code takes. */
  lemma NthIdStep(n: int)
    requires 1 <= n
    ensures NthId(1) == 1
    ensures NextId(NthId(n)) == NthId(n + 1)
  {
    var t, u := (n - 1) / 49, (n - 1) % 49;
    assert n - 1 == 49 * t + u;
    assert NthId(n) == 50 * t + u + 1;
    assert (NthId(n) + 1) % 50 == 0 <==> u == 48;
    assert n / 49 == if u == 48 then t + 1 else t;
  }

  /** The ids handed out are the positive non-multiples of 50, each exactly once and in order. */
  lemma NthIdBijection(n: int, m: int)
    requires 1 <= n && 1 <= m
    ensures NthId(n) >= 1 && NthId(n) % SERVER_NUM_CYC != 0
    ensures Rank(NthId(n)) == n
    ensures m % SERVER_NUM_CYC != 0 ==> 1 <= Rank(m) && NthId(Rank(m)) == m
    ensures n < m ==> NthId(n) < NthId(m)
  {
    var t, u := (n - 1) / 49, (n - 1) % 49;
    assert NthId(n) == 50 * t + (u + 1);
    assert NthId(n) / 50 == t;
    if m % 50 != 0 {
      var v, w := m / 50, m % 50;
      assert Rank(m) == 49 * v + w;
      assert (Rank(m) - 1) / 49 == v;
    }
  }

  /** The n-th id fits the 32-bit column read exactly up to this count. */
  lemma NthIdFits(n: int)
    requires 1 <= n
    ensures NthId(n) <= MAX_INT <==> n <= 2_104_533_975
  {
  }
}
