/** The order of last occurrences in a sequence. */
module Recency {
  import opened Sequences

  /** The distinct keys of `uses`, the most recently used last. */
  function LastUses<K(==)>(uses: seq<K>): seq<K> {
    if uses == [] then [] else
    var k := uses[|uses| - 1];
    Without(LastUses(uses[..|uses| - 1]), k) + [k]
  }

  /** The position of the last use of `k`. */
  function LastIndex<K(==)>(uses: seq<K>, k: K): (i: nat)
    requires k in uses
    ensures i < |uses| && uses[i] == k && k !in uses[i + 1..]
  {
    var front := uses[..|uses| - 1];
    assert uses == front + [uses[|uses| - 1]];
    if uses[|uses| - 1] == k then |uses| - 1
    else
      var i := LastIndex(front, k);
      assert uses[i + 1..] == front[i + 1..] + [uses[|uses| - 1]];
      i
  }

  lemma {:induction false} LastUsesMembers<K>(uses: seq<K>)
    ensures Distinct(LastUses(uses))
    ensures forall k :: k in LastUses(uses) <==> k in uses
  {
    if uses != [] {
      var front, k := uses[..|uses| - 1], uses[|uses| - 1];
      assert uses == front + [k];
      LastUsesMembers(front);
      FilterDistinct(LastUses(front), Other(k));
      DistinctAppend(Without(LastUses(front), k), k);
    }
  }

  /** `LastUses` is what its name says: the used keys, ordered by their last use. */
  lemma {:induction false} LastUsesOrdered<K>(uses: seq<K>, i: nat, j: nat)
    requires i < j < |LastUses(uses)|
    ensures var d := LastUses(uses);
            d[i] in uses && d[j] in uses && LastIndex(uses, d[i]) < LastIndex(uses, d[j])
  {
    LastUsesMembers(uses);
    var d, front, k := LastUses(uses), uses[..|uses| - 1], uses[|uses| - 1];
    assert uses == front + [k];
    assert d[i] in d && d[j] in d && d[i] != d[|d| - 1] == k;
    assert LastIndex(uses, d[i]) == LastIndex(front, d[i]);
    if j < |d| - 1 {
      assert d[j] != d[|d| - 1];
      var i', j' := FilterPositions(LastUses(front), Other(k), i, j);
      LastUsesOrdered(front, i', j');
    }
  }

  /** The last use of `j` comes before that of `k`. */
  ghost predicate LastBefore<K>(uses: seq<K>, j: K, k: K) {
    j in uses && k in uses && LastIndex(uses, j) < LastIndex(uses, k)
  }

  lemma {:induction false} DistinctLastIndex<K>(s: seq<K>, i: nat)
    requires Distinct(s) && i < |s|
    ensures LastIndex(s, s[i]) == i
  {
  }
}
