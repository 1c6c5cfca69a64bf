/** When two governance events have the same idempotency key. */
module IdempotencyKeys {
  import Governance = GovernanceLifecycle
  import opened DeadLetters
  import opened Options
  import opened Sequences

  ghost predicate Plain(s: string) {
    ':' !in s
  }

  /** Colon-free parts can be read back from what they are joined to. */
  lemma {:induction false} PartsAreReadBack(p: seq<string>, q: seq<string>, x: string, y: string)
    requires |p| == |q| && Joined(p) + x == Joined(q) + y
    requires forall i :: 0 <= i < |p| ==> Plain(p[i]) && Plain(q[i])
    ensures p == q && x == y
  {
    if p != [] {
      var s := Joined(p) + x;
      var restP, restQ := Joined(p[1..]) + x, Joined(q[1..]) + y;
      assert s == p[0] + ":" + restP && s == q[0] + ":" + restQ;
      FirstColon(p[0], q[0], restP, restQ);
      PartsAreReadBack(p[1..], q[1..], x, y);
      assert p == [p[0]] + p[1..] && q == [q[0]] + q[1..];
    } else {
      assert Joined(p) + x == x && Joined(q) + y == y;
    }
  }

  lemma {:induction false} FirstColon(a: string, b: string, x: string, y: string)
    requires Plain(a) && Plain(b) && a + ":" + x == b + ":" + y
    ensures a == b && x == y
  {
    var s := a + ":" + x;
    assert s[|a|] == ':' && s[|b|] == ':';
    assert forall i :: 0 <= i < |a| ==> s[i] == a[i] && a[i] in a;
    assert forall i :: 0 <= i < |b| ==> s[i] == b[i] && b[i] in b;
    assert s[..|a|] == a && s[..|b|] == b;
    assert s[|a| + 1..] == x && s[|b| + 1..] == y;
  }

  /** Missing, empty and called "none" are one in a key. */
  predicate Blank(o: Option<string>) {
    o == None || o == Some("") || o == Some("none")
  }

  predicate SamePart(a: Option<string>, b: Option<string>) {
    a == b || (Blank(a) && Blank(b))
  }

  ghost predicate PlainParts(e: Governance.Event) {
    && Plain(e.kind) && Plain(e.target) && Plain(e.action)
    && (e.asset.Some? ==> Plain(e.asset.value)) && (e.timeframe.Some? ==> Plain(e.timeframe.value))
  }

  lemma {:induction false} ShownAlikeExactlyWhen(a: Option<string>, b: Option<string>)
    ensures OrNone(a) == OrNone(b) <==> SamePart(a, b)
    ensures (a.Some? ==> Plain(a.value)) ==> Plain(OrNone(a))
  {
  }

  /** Events whose parts have no colon share a key if and only if they are of one kind, for one target, asset,
      timeframe and action, and the last eight characters of their ids agree. */
  lemma {:induction false} KeysAgreeExactlyWhen(e: Governance.Event, f: Governance.Event)
    requires PlainParts(e) && PlainParts(f)
    ensures KeyOf(e) == KeyOf(f) <==>
            && e.kind == f.kind && e.target == f.target && e.action == f.action
            && SamePart(e.asset, f.asset) && SamePart(e.timeframe, f.timeframe)
            && Suffix(e.id, 8) == Suffix(f.id, 8)
  {
    var p := [e.kind, e.target, OrNone(e.asset), OrNone(e.timeframe), e.action];
    var q := [f.kind, f.target, OrNone(f.asset), OrNone(f.timeframe), f.action];
    ShownAlikeExactlyWhen(e.asset, f.asset);
    ShownAlikeExactlyWhen(f.asset, e.asset);
    ShownAlikeExactlyWhen(e.timeframe, f.timeframe);
    ShownAlikeExactlyWhen(f.timeframe, e.timeframe);
    assert p == q <==> p[0] == q[0] && p[1] == q[1] && p[2] == q[2] && p[3] == q[3] && p[4] == q[4];
    if KeyOf(e) == KeyOf(f) {
      PartsAreReadBack(p, q, Suffix(e.id, 8), Suffix(f.id, 8));
    }
  }

  /** With colons in them, actions on different targets can share a key. */
  lemma {:induction false} ColonsMoveParts(e: Governance.Event, x: string, y: string, z: string)
    requires y != "" && z != ""
    ensures KeyOf(e.(target := x + ":" + y, asset := Some(z))) == KeyOf(e.(target := x, asset := Some(y + ":" + z)))
  {
    var rest := [OrNone(e.timeframe), e.action];
    var e1, e2 := e.(target := x + ":" + y, asset := Some(z)), e.(target := x, asset := Some(y + ":" + z));
    assert OrNone(e1.asset) == z && OrNone(e2.asset) == y + ":" + z;
    JoinedParts(e.kind, x + ":" + y, z, rest);
    JoinedParts(e.kind, x, y + ":" + z, rest);
    assert [e.kind, e1.target, z] + rest == [e.kind, e1.target, z, OrNone(e.timeframe), e.action];
    assert [e.kind, x, y + ":" + z] + rest == [e.kind, x, y + ":" + z, OrNone(e.timeframe), e.action];
    assert e.kind + ":" + (x + ":" + y) + ":" + z + ":" == e.kind + ":" + x + ":" + (y + ":" + z) + ":";
  }

  lemma {:induction false} JoinedParts(a: string, b: string, c: string, rest: seq<string>)
    ensures Joined([a, b, c] + rest) == a + ":" + b + ":" + c + ":" + Joined(rest)
  {
    assert ([a, b, c] + rest)[1..] == [b, c] + rest;
    assert ([b, c] + rest)[1..] == [c] + rest;
    assert ([c] + rest)[1..] == rest;
    assert Joined([c] + rest) == c + ":" + Joined(rest);
    assert Joined([b, c] + rest) == b + ":" + Joined([c] + rest);
  }
}
