/** Small facts about sequences and sets that several models share. */
module Collections {

  datatype Option<+T> = None | Some(value: T)

  type Byte = b: nat | b < 256

  function Max(a: nat, b: nat): nat {
    if a >= b then a else b
  }

  /** `[0, 1, ..., n - 1]` */
  function UpTo(n: nat): seq<nat> {
    seq(n, i requires 0 <= i < n => i)
  }

  ghost predicate Distinct<T>(s: seq<T>) {
    forall i, j :: 0 <= i < j < |s| ==> s[i] != s[j]
  }

  lemma {:induction false} DistinctIsOnce<T>(s: seq<T>)
    requires Distinct(s)
    ensures forall x :: multiset(s)[x] <= 1
  {
    if s != [] {
      var front, last := s[..|s| - 1], s[|s| - 1];
      assert s == front + [last];
      DistinctIsOnce(front);
      assert last !in front;
      assert multiset(front)[last] == 0;
    }
  }

  lemma {:induction false} OnceIsDistinct<T>(s: seq<T>)
    requires forall x :: multiset(s)[x] <= 1
    ensures Distinct(s)
  {
    forall i, j | 0 <= i < j < |s| ensures s[i] != s[j] {
      var front, rest := s[..j], s[j + 1..];
      assert s == front + ([s[j]] + rest);
      assert multiset(s) == multiset(front) + (multiset{s[j]} + multiset(rest));
      assert front[i] in multiset(front);
      assert multiset(s)[s[j]] <= 1;
    }
  }

  lemma SameMembers<T>(a: seq<T>, b: seq<T>)
    requires multiset(a) == multiset(b)
    ensures |a| == |b| && forall x :: x in a <==> x in b
  {
    assert |multiset(a)| == |a| && |multiset(b)| == |b|;
    forall x ensures x in a <==> x in b {
      assert x in a <==> x in multiset(a);
      assert x in b <==> x in multiset(b);
    }
  }

  lemma {:induction false} SubsetCount<T>(a: set<T>, b: set<T>)
    requires a <= b
    ensures |a| <= |b|
    ensures |a| == |b| ==> a == b
  {
    assert b == a + (b - a);
    if |a| == |b| {
      assert b - a == {};
    }
  }
}
