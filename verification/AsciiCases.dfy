/** Upper and lower case of ASCII strings. */
module AsciiCases {
  function UpperChar(c: char): char {
    if 'a' <= c <= 'z' then c - 'a' + 'A' else c
  }

  function LowerChar(c: char): char {
    if 'A' <= c <= 'Z' then c - 'A' + 'a' else c
  }

  function Upper(s: string): string {
    if s == [] then [] else Upper(s[..|s| - 1]) + [UpperChar(s[|s| - 1])]
  }

  function Lower(s: string): string {
    if s == [] then [] else Lower(s[..|s| - 1]) + [LowerChar(s[|s| - 1])]
  }

  lemma {:induction false} LowerIsIdempotent(s: string)
    ensures Lower(Lower(s)) == Lower(s)
  {
    if s != [] {
      LowerIsIdempotent(s[..|s| - 1]);
      assert Lower(s)[..|Lower(s)| - 1] == Lower(s[..|s| - 1]);
    }
  }

  /** `c` is a letter in lower case and `d` the same in upper case. */
  predicate CasesOf(c: char, d: char) {
    'a' <= c <= 'z' && c as int == d as int + 32
  }

  lemma {:induction false} UpperMeans(s: string)
    ensures |Upper(s)| == |s|
    ensures forall i :: 0 <= i < |s| ==> !('a' <= Upper(s)[i] <= 'z')
    ensures forall i :: 0 <= i < |s| ==> Upper(s)[i] == s[i] || CasesOf(s[i], Upper(s)[i])
  {
    if s != [] {
      UpperMeans(s[..|s| - 1]);
    }
  }

  lemma {:induction false} LowerMeans(s: string)
    ensures |Lower(s)| == |s|
    ensures forall i :: 0 <= i < |s| ==> !('A' <= Lower(s)[i] <= 'Z')
    ensures forall i :: 0 <= i < |s| ==> Lower(s)[i] == s[i] || CasesOf(Lower(s)[i], s[i])
  {
    if s != [] {
      LowerMeans(s[..|s| - 1]);
    }
  }

  /** The same string but for the case of letters. */
  ghost predicate EqualButForCase(a: string, b: string) {
    && |a| == |b|
    && forall i :: 0 <= i < |a| ==> a[i] == b[i] || CasesOf(a[i], b[i]) || CasesOf(b[i], a[i])
  }

  lemma {:induction false} SameUpperExactlyWhen(a: string, b: string)
    ensures Upper(a) == Upper(b) <==> EqualButForCase(a, b)
  {
    UpperMeans(a);
    UpperMeans(b);
    if EqualButForCase(a, b) {
      forall i | 0 <= i < |a|
        ensures Upper(a)[i] == Upper(b)[i]
      {
        assert a[i] == b[i] || CasesOf(a[i], b[i]) || CasesOf(b[i], a[i]);
      }
    } else if |a| == |b| {
      var i :| 0 <= i < |a| && !(a[i] == b[i] || CasesOf(a[i], b[i]) || CasesOf(b[i], a[i]));
      assert Upper(a)[i] != Upper(b)[i];
    }
  }

  lemma {:induction false} SameLowerExactlyWhen(a: string, b: string)
    ensures Lower(a) == Lower(b) <==> EqualButForCase(a, b)
  {
    LowerMeans(a);
    LowerMeans(b);
    if EqualButForCase(a, b) {
      forall i | 0 <= i < |a|
        ensures Lower(a)[i] == Lower(b)[i]
      {
        assert a[i] == b[i] || CasesOf(a[i], b[i]) || CasesOf(b[i], a[i]);
      }
    } else if |a| == |b| {
      var i :| 0 <= i < |a| && !(a[i] == b[i] || CasesOf(a[i], b[i]) || CasesOf(b[i], a[i]));
      assert Lower(a)[i] != Lower(b)[i];
    }
  }

  lemma {:induction false} UpperFront(s: string)
    requires s != []
    ensures Upper(s) == [UpperChar(s[0])] + Upper(s[1..])
  {
    UpperMeans(s[..1]);
    if |s| > 1 {
      UpperFront(s[..|s| - 1]);
      assert s[..|s| - 1][1..] == s[1..][..|s| - 2];
    } else {
      assert s[..0] == [] && Upper(s[..0]) == [];
    }
  }
}
