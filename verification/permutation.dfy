/** The permutation table: the identity list 0..size-1, shuffled, followed by
    a copy of itself, so that the table has length 2 * size. */
module Permutation {

  /** The identity list [0, 1, ..., n - 1]. */
  function Iota(n: nat): (s: seq<int>)
    ensures |s| == n
    ensures forall i :: 0 <= i < n ==> s[i] == i
  {
    seq(n, i => i)
  }

  /** A permutation table for size n: its first half rearranges 0..n-1 and its
      second half repeats the first, element by element. */
  predicate IsPermTable(t: seq<int>, n: nat) {
    && |t| == 2 * n
    && multiset(t[..n]) == multiset(Iota(n))
    && forall i :: 0 <= i < n ==> t[n + i] == t[i]
  }

  /** Every entry of t lies in [0, n). */
  predicate ValuesBelow(t: seq<int>, n: int) {
    forall i :: 0 <= i < |t| ==> 0 <= t[i] < n
  }

  /** Shuffles a list in place: Fisher-Yates from the last position down to
      position 1, swapping position i with a position j <= i. The random
      source is the list of draws; draw i chooses j = draws[i] % (i + 1), and
      a missing draw leaves position i where it is. */
  method Shuffle(a: seq<int>, draws: seq<nat>) returns (s: seq<int>)
    ensures |s| == |a|
    ensures multiset(s) == multiset(a)
  {
    s := a;
    var i := |s| - 1;
    while i > 0
      invariant i < |s| == |a|
      invariant multiset(s) == multiset(a)
    {
      var j := if i < |draws| then draws[i] % (i + 1) else i;
      s := s[i := s[j]][j := s[i]];
      i := i - 1;
    }
  }

  /** Builds the table: identity list, shuffle, then append a copy of the
      first size entries one by one. A size of zero or less gives the empty
      table, as the identity list is then empty. */
  method PermTable(size: int, draws: seq<nat>) returns (table: seq<int>)
    ensures IsPermTable(table, if size < 0 then 0 else size)
  {
    var n: nat := if size < 0 then 0 else size;
    table := Iota(n);
    table := Shuffle(table, draws);
    assert table[..n] == table;
    for i := 0 to n
      invariant |table| == n + i
      invariant multiset(table[..n]) == multiset(Iota(n))
      invariant forall k :: 0 <= k < i ==> table[n + k] == table[k]
    {
      ghost var before := table;
      table := table + [table[i]];
      assert table[..n] == before[..n];
    }
  }

  /** Every entry of a permutation table lies in [0, n), and every value of
      [0, n) occurs in its first half. */
  lemma PermTableValues(t: seq<int>, n: nat)
    requires IsPermTable(t, n)
    ensures ValuesBelow(t, n)
    ensures forall v :: 0 <= v < n ==> v in t[..n]
  {
    forall i | 0 <= i < n
      ensures 0 <= t[i] < n
    {
      assert t[..n][i] == t[i];
      assert t[i] in multiset(Iota(n));
      assert t[i] in Iota(n);
      var k :| 0 <= k < n && Iota(n)[k] == t[i];
    }
    forall i | n <= i < |t|
      ensures 0 <= t[i] < n
    {
      var j := i - n;
      assert 0 <= t[j] < n;
      assert t[i] == t[n + j];
    }
    forall v | 0 <= v < n
      ensures v in t[..n]
    {
      assert Iota(n)[v] == v;
      assert v in multiset(Iota(n));
    }
  }
}
