/** The bounded store of applied idempotency keys.  When it overflows, the lexicographically
    smallest keys are dropped. */
module KeyStores {

  const STORE_CAP := 10000
  const EVICTED := 1000

  /** Lexicographic order by code points. */
  predicate AtMost(a: string, b: string) {
    a == [] || (b != [] && (a[0] < b[0] || (a[0] == b[0] && AtMost(a[1..], b[1..]))))
  }

  /** A prefix comes first, and otherwise the first place where the two differ decides. */
  lemma {:induction false} AtMostMeans(a: string, b: string)
    ensures AtMost(a, b) <==> a <= b || exists i :: DiffersFirstAt(a, b, i) && a[i] < b[i]
  {
    if a != [] && b != [] && a[0] == b[0] {
      AtMostMeans(a[1..], b[1..]);
      assert a == [a[0]] + a[1..] && b == [b[0]] + b[1..];
      if i :| DiffersFirstAt(a[1..], b[1..], i) && a[1..][i] < b[1..][i] {
        assert a[..i + 1] == [a[0]] + a[1..][..i] && b[..i + 1] == [b[0]] + b[1..][..i];
        assert DiffersFirstAt(a, b, i + 1);
      }
      if i :| DiffersFirstAt(a, b, i) && a[i] < b[i] {
        assert a[1..][..i - 1] == a[..i][1..] && b[1..][..i - 1] == b[..i][1..];
        assert DiffersFirstAt(a[1..], b[1..], i - 1);
      }
    } else if a != [] && b != [] {
      assert DiffersFirstAt(a, b, 0);
    }
  }

  ghost predicate DiffersFirstAt(a: string, b: string, i: int) {
    0 <= i < |a| && i < |b| && a[..i] == b[..i] && a[i] != b[i]
  }

  predicate Below(a: string, b: string) {
    a != b && AtMost(a, b)
  }

  lemma {:induction false} OrderIsTotal(a: string, b: string)
    ensures AtMost(a, b) || AtMost(b, a)
    ensures AtMost(a, b) && AtMost(b, a) ==> a == b
  {
    if a != [] && b != [] && a[0] == b[0] {
      OrderIsTotal(a[1..], b[1..]);
      assert a == [a[0]] + a[1..] && b == [b[0]] + b[1..];
    }
  }

  lemma {:induction false} OrderIsTransitive(a: string, b: string, c: string)
    requires AtMost(a, b) && AtMost(b, c)
    ensures AtMost(a, c)
  {
    if a != [] && a[0] == b[0] == c[0] {
      OrderIsTransitive(a[1..], b[1..], c[1..]);
    }
  }

  lemma {:induction false} LeastExists(keys: set<string>) returns (k: string)
    requires keys != {}
    ensures k in keys && forall j :: j in keys ==> AtMost(k, j)
  {
    var x :| x in keys;
    var rest := keys - {x};
    OrderIsTotal(x, x);
    if rest == {} {
      k := x;
      assert keys == {x};
    } else {
      var m := LeastExists(rest);
      OrderIsTotal(x, m);
      k := if AtMost(x, m) then x else m;
      forall j | j in keys
        ensures AtMost(k, j)
      {
        if j != x && k == x {
          OrderIsTransitive(x, m, j);
        }
      }
    }
  }

  predicate IsLeast(keys: set<string>, k: string) {
    k in keys && forall j :: j in keys ==> AtMost(k, j)
  }

  lemma {:induction false} LeastIsUnique(keys: set<string>)
    requires keys != {}
    ensures exists k :: IsLeast(keys, k)
    ensures forall k, l :: IsLeast(keys, k) && IsLeast(keys, l) ==> k == l
  {
    var least := LeastExists(keys);
    assert IsLeast(keys, least);
    forall k, l | IsLeast(keys, k) && IsLeast(keys, l)
      ensures k == l
    {
      OrderIsTotal(k, l);
    }
  }

  function Least(keys: set<string>): (k: string)
    requires keys != {}
    ensures IsLeast(keys, k)
  {
    LeastIsUnique(keys);
    var k :| IsLeast(keys, k);
    k
  }

  /** `sorted(keys)[n:]` as a set. */
  function DropSmallest(keys: set<string>, n: nat): set<string> {
    if n == 0 || keys == {} then keys else DropSmallest(keys - {Least(keys)}, n - 1)
  }

  function MarkApplied(store: set<string>, key: string): set<string> {
    var larger := store + {key};
    if |larger| > STORE_CAP then DropSmallest(larger, EVICTED) else larger
  }

  /** How many keys come before `k`. */
  function Rank(keys: set<string>, k: string): nat {
    |set j | j in keys && Below(j, k)|
  }

  lemma {:induction false} DropSmallestMeans(keys: set<string>, n: nat, k: string)
    ensures k in DropSmallest(keys, n) <==> k in keys && Rank(keys, k) >= n
    decreases n
  {
    if n > 0 && keys != {} {
      var least := Least(keys);
      DropSmallestMeans(keys - {least}, n - 1, k);
      var before, rest := set j | j in keys && Below(j, k), set j | j in keys - {least} && Below(j, k);
      if k == least {
        forall j | j in keys
          ensures !Below(j, k)
        {
          OrderIsTotal(j, k);
        }
        assert before == {};
      } else if k in keys {
        assert before == rest + {least};
      }
    }
  }

  lemma {:induction false} DropSmallestSize(keys: set<string>, n: nat)
    ensures |DropSmallest(keys, n)| == if n <= |keys| then |keys| - n else 0
    decreases n
  {
    if n > 0 && keys != {} {
      DropSmallestSize(keys - {Least(keys)}, n - 1);
    }
  }

  lemma {:induction false} MarkBelowCap(store: set<string>, key: string)
    requires |store| < STORE_CAP
    ensures MarkApplied(store, key) == store + {key}
    ensures |MarkApplied(store, key)| <= |store| + 1
  {
  }

  /** The store never outgrows its cap. */
  lemma {:induction false} MarkWithinCap(store: set<string>, key: string)
    requires |store| <= STORE_CAP
    ensures |MarkApplied(store, key)| <= STORE_CAP
    ensures |store + {key}| > STORE_CAP ==> |MarkApplied(store, key)| == STORE_CAP + 1 - EVICTED
  {
    DropSmallestSize(store + {key}, EVICTED);
  }

  /** Marking `key` drops `k`: the store overflows, and `k` is among its thousand smallest. */
  predicate Drops(store: set<string>, key: string, k: string) {
    |store + {key}| > STORE_CAP && Rank(store + {key}, k) < EVICTED
  }

  lemma {:induction false} MarkMeans(store: set<string>, key: string, k: string)
    ensures k in MarkApplied(store, key) <==> (k in store || k == key) && !Drops(store, key, k)
  {
    DropSmallestMeans(store + {key}, EVICTED, k);
  }

  /** Eviction is by name, not by age: the key just marked is itself forgotten exactly when it
      was new, the store was full, and fewer than 1000 stored keys precede it. */
  lemma {:induction false} ForgottenExactlyWhen(store: set<string>, key: string)
    requires |store| <= STORE_CAP
    ensures key !in MarkApplied(store, key) <==>
            key !in store && |store| == STORE_CAP && Rank(store, key) < EVICTED
  {
    var larger := store + {key};
    DropSmallestMeans(larger, EVICTED, key);
    assert (set j | j in larger && Below(j, key)) == (set j | j in store && Below(j, key));
    if key in store {
      assert larger == store;
    }
  }
}
