/** Facts about sequences that several components share: distinctness, filters,
    suffixes (with Python's slice conventions) and the pigeonhole principle. */
module Sequences {

  function Max(a: int, b: int): int {
    if a >= b then a else b
  }

  function Min(a: int, b: int): int {
    if a <= b then a else b
  }

  /** No element occurs twice. */
  ghost predicate Distinct<T>(s: seq<T>) {
    forall i, j :: 0 <= i < j < |s| ==> s[i] != s[j]
  }

  function Elements<T>(s: seq<T>): set<T> {
    set x | x in s
  }

  lemma {:induction false} ElementsAppend<T>(s: seq<T>, x: T)
    ensures Elements(s + [x]) == Elements(s) + {x}
  {
  }

  lemma {:induction false} DistinctCardinality<T>(s: seq<T>)
    requires Distinct(s)
    ensures |Elements(s)| == |s|
  {
    if s != [] {
      var front, last := s[..|s| - 1], s[|s| - 1];
      DistinctCardinality(front);
      assert s == front + [last];
      assert Elements(s) == Elements(front) + {last};
      assert last !in front;
    }
  }

  /** Distinctness by counting. */
  lemma {:induction false} CardinalityDistinct<T>(s: seq<T>)
    ensures |Elements(s)| <= |s|
    ensures |Elements(s)| == |s| ==> Distinct(s)
  {
    if s != [] {
      var front, last := s[..|s| - 1], s[|s| - 1];
      CardinalityDistinct(front);
      assert s == front + [last];
      assert Elements(s) == Elements(front) + {last};
      if |Elements(s)| == |s| {
        assert last !in Elements(front);
      }
    }
  }

  lemma {:induction false} DistinctAppend<T>(s: seq<T>, x: T)
    requires Distinct(s) && x !in s
    ensures Distinct(s + [x])
  {
  }

  lemma {:induction false} DistinctJoin<T>(a: seq<T>, b: seq<T>)
    requires Distinct(a) && Distinct(b) && forall x :: x in b ==> x !in a
    ensures Distinct(a + b)
  {
    forall i, j | 0 <= i < j < |a + b|
      ensures (a + b)[i] != (a + b)[j]
    {
      assert i < |a| <= j ==> b[j - |a|] in b && a[i] in a;
    }
  }

  lemma {:induction false} DistinctAround<T>(a: seq<T>, x: T, b: seq<T>)
    requires Distinct(a + [x] + b)
    ensures Distinct(a) && Distinct(b) && x !in a && x !in b
    ensures forall y :: y in a ==> y !in b
  {
    var s := a + [x] + b;
    assert s[|a|] == x;
    assert forall i :: 0 <= i < |a| ==> a[i] == s[i];
    assert forall i :: 0 <= i < |b| ==> b[i] == s[|a| + 1 + i];
  }

  /** A sequence longer than the set it draws from repeats an element. */
  lemma {:induction false} Pigeonhole<T>(s: seq<T>, universe: set<T>)
    requires Elements(s) <= universe
    requires |s| > |universe|
    ensures exists i, j :: 0 <= i < j < |s| && s[i] == s[j]
  {
    if Distinct(s) {
      DistinctCardinality(s);
      SubsetCardinality(Elements(s), universe);
      assert false;
    }
  }

  lemma {:induction false} SubsetCardinality<T>(a: set<T>, b: set<T>)
    requires a <= b
    ensures |a| <= |b|
    ensures |a| == |b| ==> a == b
  {
    assert b == a + (b - a);
    assert |b| == |a| + |b - a|;
  }

  /** The subsequence of elements that satisfy `keep`, in order. */
  function Filter<T>(s: seq<T>, keep: T -> bool): seq<T> {
    if s == [] then [] else
    var front := Filter(s[..|s| - 1], keep);
    if keep(s[|s| - 1]) then front + [s[|s| - 1]] else front
  }

  lemma {:induction false} FilterConcat<T>(a: seq<T>, b: seq<T>, keep: T -> bool)
    ensures Filter(a + b, keep) == Filter(a, keep) + Filter(b, keep)
  {
    if b == [] {
      assert a + b == a;
    } else {
      var front, last := b[..|b| - 1], b[|b| - 1];
      FilterConcat(a, front, keep);
      assert (a + b)[..|a + b| - 1] == a + front;
    }
  }

  lemma {:induction false} FilterSingle<T>(x: T, keep: T -> bool)
    ensures Filter([x], keep) == if keep(x) then [x] else []
  {
    assert [x][..0] == [];
    assert Filter([x][..0], keep) == [];
  }

  lemma {:induction false} FilterMembers<T>(s: seq<T>, keep: T -> bool, x: T)
    ensures x in Filter(s, keep) <==> x in s && keep(x)
  {
    if s != [] {
      FilterMembers(s[..|s| - 1], keep, x);
      assert s == s[..|s| - 1] + [s[|s| - 1]];
    }
  }

  lemma {:induction false} FilterAll<T>(s: seq<T>, keep: T -> bool)
    requires forall x :: x in s ==> keep(x)
    ensures Filter(s, keep) == s
  {
    if s != [] {
      FilterAll(s[..|s| - 1], keep);
      assert s == s[..|s| - 1] + [s[|s| - 1]];
    }
  }

  lemma {:induction false} FilterNone<T>(s: seq<T>, keep: T -> bool)
    requires forall x :: x in s ==> !keep(x)
    ensures Filter(s, keep) == []
  {
    if s != [] {
      FilterNone(s[..|s| - 1], keep);
    }
  }

  /** Filtering twice filters by the conjunction. */
  lemma {:induction false} FilterTwice<T>(s: seq<T>, first: T -> bool, second: T -> bool, both: T -> bool)
    requires forall x :: x in s ==> (both(x) <==> first(x) && second(x))
    ensures Filter(Filter(s, first), second) == Filter(s, both)
  {
    if s != [] {
      assert s[|s| - 1] in s;
      FilterTwice(s[..|s| - 1], first, second, both);
    }
  }

  lemma {:induction false} FilterSame<T>(s: seq<T>, p: T -> bool, q: T -> bool)
    requires forall x :: x in s ==> p(x) == q(x)
    ensures Filter(s, p) == Filter(s, q)
  {
    if s != [] {
      assert s[|s| - 1] in s;
      FilterSame(s[..|s| - 1], p, q);
    }
  }

  lemma {:induction false} FilterMonotone<T>(s: seq<T>, strong: T -> bool, weak: T -> bool)
    requires forall x :: x in s && strong(x) ==> weak(x)
    ensures |Filter(s, strong)| <= |Filter(s, weak)|
  {
    if s != [] {
      FilterMonotone(s[..|s| - 1], strong, weak);
    }
  }

  lemma {:induction false} FilterSplits<T>(s: seq<T>, p: T -> bool, q: T -> bool)
    requires forall x :: x in s ==> p(x) != q(x)
    ensures |Filter(s, p)| + |Filter(s, q)| == |s|
  {
    if s != [] {
      assert s[|s| - 1] in s;
      FilterSplits(s[..|s| - 1], p, q);
    }
  }

  /** Two filters that split a sequence rearrange it. */
  lemma {:induction false} FilterRearranges<T>(s: seq<T>, p: T -> bool, q: T -> bool)
    requires forall x :: x in s ==> p(x) != q(x)
    ensures multiset(Filter(s, p) + Filter(s, q)) == multiset(s)
  {
    if s != [] {
      var front, last := s[..|s| - 1], s[|s| - 1];
      FilterRearranges(front, p, q);
      assert s == front + [last] && last in s;
      assert p(last) != q(last);
    }
  }

  /** Two filters that split a distinct sequence keep it distinct. */
  lemma {:induction false} FilterPartition<T>(s: seq<T>, p: T -> bool, q: T -> bool)
    requires Distinct(s) && forall x :: x in s ==> p(x) != q(x)
    ensures Distinct(Filter(s, p) + Filter(s, q))
    ensures Elements(Filter(s, p) + Filter(s, q)) == Elements(s)
  {
    var a, b := Filter(s, p), Filter(s, q);
    FilterDistinct(s, p);
    FilterDistinct(s, q);
    forall x
      ensures x in Elements(a + b) <==> x in Elements(s)
    {
      assert x in a + b <==> x in a || x in b;
      assert x in s ==> p(x) != q(x);
    }
    assert Elements(a + b) == Elements(s);
    forall i, j | 0 <= i < j < |a + b|
      ensures (a + b)[i] != (a + b)[j]
    {
      if i < |a| <= j {
        FilterMembers(s, p, a[i]);
        FilterMembers(s, q, b[j - |a|]);
      }
    }
  }

  /** A filter keeps the relative order: two kept positions come from two positions in that order. */
  lemma {:induction false} FilterPositions<T>(s: seq<T>, keep: T -> bool, i: nat, j: nat) returns (i': nat, j': nat)
    requires i < j < |Filter(s, keep)|
    ensures i' < j' < |s| && s[i'] == Filter(s, keep)[i] && s[j'] == Filter(s, keep)[j]
  {
    var front, last := s[..|s| - 1], s[|s| - 1];
    if j < |Filter(front, keep)| {
      i', j' := FilterPositions(front, keep, i, j);
    } else {
      FilterMembers(front, keep, Filter(front, keep)[i]);
      i' :| 0 <= i' < |front| && front[i'] == Filter(front, keep)[i];
      j' := |s| - 1;
    }
  }

  function Other<T(==)>(x: T): T -> bool {
    y => y != x
  }

  /** `s` without any occurrence of `x`. */
  function Without<T(==)>(s: seq<T>, x: T): seq<T> {
    Filter(s, Other(x))
  }

  lemma {:induction false} FilterDistinct<T>(s: seq<T>, keep: T -> bool)
    requires Distinct(s)
    ensures Distinct(Filter(s, keep))
    ensures forall x :: x in Filter(s, keep) <==> x in s && keep(x)
    ensures |Filter(s, keep)| <= |s|
  {
    forall x
      ensures x in Filter(s, keep) <==> x in s && keep(x)
    {
      FilterMembers(s, keep, x);
    }
    if s != [] {
      var front, last := s[..|s| - 1], s[|s| - 1];
      FilterDistinct(front, keep);
      FilterMembers(front, keep, last);
    }
  }

  /** Taking an element out of a distinct sequence closes the gap at its position. */
  lemma {:induction false} WithoutAt<T>(s: seq<T>, i: nat)
    requires Distinct(s) && i < |s|
    ensures Without(s, s[i]) == s[..i] + s[i + 1..]
  {
    var a, b, keep := s[..i], s[i + 1..], Other(s[i]);
    assert s[..i + 1] + b == s;
    FilterConcat(s[..i + 1], b, keep);
    assert Filter(s[..i + 1], keep) == a by {
      assert s[..i + 1][..i] == a;
      FilterAll(a, keep);
    }
    FilterAll(b, keep);
  }

  lemma {:induction false} WithoutAbsent<T>(s: seq<T>, x: T)
    requires x !in s
    ensures Without(s, x) == s
  {
    FilterAll(s, Other(x));
  }

  /** The last `n` elements, or all of them when there are fewer. */
  function Suffix<T>(s: seq<T>, n: nat): seq<T> {
    if |s| <= n then s else s[|s| - n..]
  }

  lemma {:induction false} SuffixOfConcat<T>(a: seq<T>, b: seq<T>, n: nat)
    requires |b| == n || (a == [] && |b| <= n)
    ensures Suffix(a + b, n) == b
  {
  }

  /** Dropping old elements one append at a time keeps the same suffix. */
  lemma {:induction false} SuffixOfSuffix<T>(s: seq<T>, x: T, n: nat)
    ensures Suffix(Suffix(s, n) + [x], n) == Suffix(s + [x], n)
  {
  }

  /** Python's `s[-n:]`: for n = 0 that is all of `s`, for n < 0 it drops |n| elements. */
  function SliceFromEnd<T>(s: seq<T>, n: int): seq<T> {
    if n > 0 then Suffix(s, n)
    else if -n <= |s| then s[-n..]
    else []
  }
}
