/**
 Stable sorting and filtering of sequences, shared by the tools that sort a list in
 place (`list.sort` keeps the arrival order of equal keys).
 */
module Sorting {
  import opened Collections

  ghost predicate SortedBy<T>(key: T -> int, s: seq<T>) {
    forall i, j :: 0 <= i < j < |s| ==> key(s[i]) <= key(s[j])
  }

  /** The elements of `s` that satisfy `p`, in order. */
  function Filter<T>(p: T -> bool, s: seq<T>): (r: seq<T>)
    ensures |r| <= |s|
  {
    if s == [] then []
    else
      var front := Filter(p, s[..|s| - 1]);
      if p(s[|s| - 1]) then front + [s[|s| - 1]] else front
  }

  lemma {:induction false} FilterMembers<T>(p: T -> bool, s: seq<T>)
    ensures forall x :: x in Filter(p, s) <==> x in s && p(x)
  {
    if s != [] {
      assert s == s[..|s| - 1] + [s[|s| - 1]];
      FilterMembers(p, s[..|s| - 1]);
    }
  }

  lemma {:induction false} FilterCount<T>(p: T -> bool, s: seq<T>, x: T)
    ensures multiset(Filter(p, s))[x] == if p(x) then multiset(s)[x] else 0
  {
    if s != [] {
      assert s == s[..|s| - 1] + [s[|s| - 1]];
      FilterCount(p, s[..|s| - 1], x);
    }
  }

  lemma {:induction false} FilterConcat<T>(p: T -> bool, a: seq<T>, b: seq<T>)
    ensures Filter(p, a + b) == Filter(p, a) + Filter(p, b)
  {
    if b == [] {
      assert a + b == a;
    } else {
      assert (a + b)[..|a + b| - 1] == a + b[..|b| - 1];
      FilterConcat(p, a, b[..|b| - 1]);
    }
  }

  lemma {:induction false} FilterAll<T>(p: T -> bool, s: seq<T>)
    requires forall x :: x in s ==> p(x)
    ensures Filter(p, s) == s
  {
    if s != [] {
      assert s == s[..|s| - 1] + [s[|s| - 1]];
      FilterAll(p, s[..|s| - 1]);
    }
  }

  lemma {:induction false} FilterNone<T>(p: T -> bool, s: seq<T>)
    requires forall x :: x in s ==> !p(x)
    ensures Filter(p, s) == []
  {
    if s != [] {
      assert s == s[..|s| - 1] + [s[|s| - 1]];
      FilterNone(p, s[..|s| - 1]);
    }
  }

  /** Inserts `x` after every element whose key is not larger. */
  function Insert<T>(key: T -> int, s: seq<T>, x: T): (r: seq<T>)
    ensures |r| == |s| + 1
  {
    if s == [] || key(s[|s| - 1]) <= key(x) then s + [x]
    else Insert(key, s[..|s| - 1], x) + [s[|s| - 1]]
  }

  function StableSort<T>(key: T -> int, s: seq<T>): (r: seq<T>)
    ensures |r| == |s|
  {
    if s == [] then [] else Insert(key, StableSort(key, s[..|s| - 1]), s[|s| - 1])
  }

  lemma {:induction false} InsertPermutes<T>(key: T -> int, s: seq<T>, x: T)
    ensures multiset(Insert(key, s, x)) == multiset(s) + multiset{x}
  {
    if s != [] {
      assert s == s[..|s| - 1] + [s[|s| - 1]];
      InsertPermutes(key, s[..|s| - 1], x);
    }
  }

  lemma {:induction false} StableSortPermutes<T>(key: T -> int, s: seq<T>)
    ensures multiset(StableSort(key, s)) == multiset(s)
    ensures forall x :: x in StableSort(key, s) <==> x in s
  {
    if s != [] {
      assert s == s[..|s| - 1] + [s[|s| - 1]];
      StableSortPermutes(key, s[..|s| - 1]);
      InsertPermutes(key, StableSort(key, s[..|s| - 1]), s[|s| - 1]);
    }
    SameMembers(StableSort(key, s), s);
  }

  lemma StableSortSnoc<T>(key: T -> int, s: seq<T>, x: T)
    ensures StableSort(key, s + [x]) == Insert(key, StableSort(key, s), x)
  {
    assert (s + [x])[..|s|] == s;
  }

  lemma {:induction false} InsertSorted<T>(key: T -> int, s: seq<T>, x: T)
    requires SortedBy(key, s)
    ensures SortedBy(key, Insert(key, s, x))
  {
    if s != [] && key(s[|s| - 1]) > key(x) {
      var front := s[..|s| - 1];
      InsertSorted(key, front, x);
      InsertPermutes(key, front, x);
      var r := Insert(key, front, x);
      forall i | 0 <= i < |r| ensures key(r[i]) <= key(s[|s| - 1]) {
        assert r[i] in multiset(front) + multiset{x};
      }
    }
  }

  /** The result is in key order. */
  lemma {:induction false} StableSortSorted<T>(key: T -> int, s: seq<T>)
    ensures SortedBy(key, StableSort(key, s))
  {
    if s != [] {
      StableSortSorted(key, s[..|s| - 1]);
      InsertSorted(key, StableSort(key, s[..|s| - 1]), s[|s| - 1]);
    }
  }

  lemma {:induction false} StableSortIdentity<T>(key: T -> int, s: seq<T>)
    requires SortedBy(key, s)
    ensures StableSort(key, s) == s
  {
    if s != [] {
      StableSortIdentity(key, s[..|s| - 1]);
    }
  }

  lemma SortedSplit<T>(key: T -> int, s: seq<T>, n: nat)
    requires n <= |s| && SortedBy(key, s)
    ensures SortedBy(key, s[..n]) && SortedBy(key, s[n..])
    ensures s == s[..n] + s[n..]
  {
  }

  lemma {:induction false} InsertSkipsSmaller<T>(key: T -> int, a: seq<T>, b: seq<T>, x: T)
    requires forall y :: y in a ==> key(y) <= key(x)
    ensures Insert(key, a + b, x) == a + Insert(key, b, x)
  {
    if b == [] {
      assert a + b == a;
    } else if key(b[|b| - 1]) > key(x) {
      assert (a + b)[..|a + b| - 1] == a + b[..|b| - 1];
      InsertSkipsSmaller(key, a, b[..|b| - 1], x);
    }
  }

  lemma FilterSnoc<T>(p: T -> bool, s: seq<T>, x: T)
    ensures Filter(p, s + [x]) == Filter(p, s) + if p(x) then [x] else []
  {
    assert (s + [x])[..|s|] == s;
  }

  lemma InsertSnocLarger<T>(key: T -> int, s: seq<T>, last: T, x: T)
    requires key(last) > key(x)
    ensures Insert(key, s + [last], x) == Insert(key, s, x) + [last]
  {
    assert (s + [last])[..|s|] == s;
  }

  lemma FilterLastKey<T>(key: T -> int, p: T -> bool, s: seq<T>, bound: int)
    requires SortedBy(key, s)
    requires s != [] ==> key(s[|s| - 1]) <= bound
    ensures forall y :: y in Filter(p, s) ==> key(y) <= bound
  {
    FilterMembers(p, s);
  }

  lemma {:induction false} FilterInsert<T>(key: T -> int, p: T -> bool, s: seq<T>, x: T)
    requires SortedBy(key, s)
    ensures Filter(p, Insert(key, s, x))
         == if p(x) then Insert(key, Filter(p, s), x) else Filter(p, s)
  {
    if s == [] || key(s[|s| - 1]) <= key(x) {
      FilterSnoc(p, s, x);
      FilterLastKey(key, p, s, key(x));
    } else {
      var front, last := s[..|s| - 1], s[|s| - 1];
      FilterInsert(key, p, front, x);
      FilterSnoc(p, Insert(key, front, x), last);
      assert s == front + [last];
      FilterSnoc(p, front, last);
      if p(x) && p(last) {
        InsertSnocLarger(key, Filter(p, front), last, x);
      }
    }
  }

  /** Sorting commutes with filtering. With `p` selecting one key value this is stability:
      equal keys keep their arrival order. */
  lemma {:induction false} FilterStableSort<T>(key: T -> int, p: T -> bool, s: seq<T>)
    ensures Filter(p, StableSort(key, s)) == StableSort(key, Filter(p, s))
  {
    if s != [] {
      var front, last := s[..|s| - 1], s[|s| - 1];
      FilterStableSort(key, p, front);
      StableSortSorted(key, front);
      FilterInsert(key, p, StableSort(key, front), last);
      if p(last) {
        StableSortSnoc(key, Filter(p, front), last);
      }
    }
  }
}
