/** Sequence tools shared by the model: filtering, stable sorting, string order. */
module Prelude {

  datatype Option<+T> = None | Some(value: T)

  /** What a check of the program answers: (True, None) or (False, reason). */
  datatype Verdict<+E> = Accept | Reject(reason: E)

  /** True when no two positions of s hold the same value. */
  ghost predicate Distinct<T>(s: seq<T>) {
    forall i, j :: 0 <= i < j < |s| ==> s[i] != s[j]
  }

  // ---------------------------------------------------------------- filtering

  function Filter<T>(s: seq<T>, keep: T -> bool): (r: seq<T>)
    ensures |r| <= |s|
    ensures forall i :: 0 <= i < |r| ==> keep(r[i]) && r[i] in s
    ensures forall x :: x in s && keep(x) ==> x in r
  {
    if s == [] then []
    else if keep(s[0]) then [s[0]] + Filter(s[1..], keep)
    else Filter(s[1..], keep)
  }

  lemma {:induction false} FilterConcat<T>(a: seq<T>, b: seq<T>, keep: T -> bool)
    ensures Filter(a + b, keep) == Filter(a, keep) + Filter(b, keep)
  {
    if a == [] {
      assert a + b == b;
    } else {
      assert (a + b)[1..] == a[1..] + b;
      FilterConcat(a[1..], b, keep);
    }
  }

  lemma {:induction false} FilterFirst<T>(s: seq<T>, keep: T -> bool)
    requires s != []
    ensures Filter(s, keep) == (if keep(s[0]) then [s[0]] else []) + Filter(s[1..], keep)
  {
  }

  lemma {:induction false} FilterAll<T>(s: seq<T>, keep: T -> bool)
    requires forall x :: x in s ==> keep(x)
    ensures Filter(s, keep) == s
  {
    if s != [] {
      FilterAll(s[1..], keep);
    }
  }

  lemma {:induction false} FilterNone<T>(s: seq<T>, keep: T -> bool)
    requires forall x :: x in s ==> !keep(x)
    ensures Filter(s, keep) == []
  {
    if s != [] {
      FilterNone(s[1..], keep);
    }
  }

  lemma {:induction false} FilterDropsPrefix<T>(p: seq<T>, s: seq<T>, keep: T -> bool)
    requires forall i :: 0 <= i < |p| ==> !keep(p[i])
    requires forall i :: 0 <= i < |s| ==> keep(s[i])
    ensures Filter(p + s, keep) == s
  {
    FilterConcat(p, s, keep);
    FilterNone(p, keep);
    FilterAll(s, keep);
  }

  lemma {:induction false} FilterCutsPrefix<T>(s: seq<T>, n: nat, keep: T -> bool)
    requires n <= |s|
    requires forall i :: 0 <= i < n ==> !keep(s[i])
    requires forall i :: n <= i < |s| ==> keep(s[i])
    ensures Filter(s, keep) == s[n..]
  {
    hide Filter;
    assert s[..n] + s[n..] == s;
    FilterDropsPrefix(s[..n], s[n..], keep);
  }

  lemma {:induction false} FilterCommutes<T>(s: seq<T>, p: T -> bool, q: T -> bool)
    ensures Filter(Filter(s, p), q) == Filter(Filter(s, q), p)
  {
    if s != [] {
      FilterCommutes(s[1..], p, q);
    }
  }

  lemma {:induction false} FilterDistinct<T>(s: seq<T>, keep: T -> bool)
    requires Distinct(s)
    ensures Distinct(Filter(s, keep))
  {
    if s != [] {
      FilterDistinct(s[1..], keep);
      assert forall i :: 0 <= i < |s[1..]| ==> s[1..][i] != s[0];
      assert s[0] !in s[1..];
      assert s[0] !in Filter(s[1..], keep);
    }
  }

  lemma SomeMember<T>(s: set<T>) returns (x: T)
    requires s != {}
    ensures x in s
  {
    x :| x in s;
  }

  lemma {:induction false} LeastExists(s: set<int>)
    requires s != {}
    ensures exists h :: h in s && forall k :: k in s ==> h <= k
    decreases |s|
  {
    var x := SomeMember(s);
    if s != {x} {
      var rest := s - {x};
      assert s == rest + {x};
      LeastExists(rest);
    }
  }

  // ------------------------------------------------------------ stable sorting

  ghost predicate SortedBy<T>(s: seq<T>, key: T -> real) {
    forall i, j :: 0 <= i < j < |s| ==> key(s[i]) <= key(s[j])
  }

  function InsertBy<T>(x: T, s: seq<T>, key: T -> real): (r: seq<T>)
    ensures |r| == |s| + 1
  {
    if s == [] then [x]
    else if key(x) <= key(s[0]) then [x] + s
    else [s[0]] + InsertBy(x, s[1..], key)
  }

  /** Python's sorted(s, key=key): ascending and stable. */
  function SortBy<T>(s: seq<T>, key: T -> real): (r: seq<T>)
    ensures |r| == |s|
  {
    if s == [] then [] else InsertBy(s[0], SortBy(s[1..], key), key)
  }

  lemma {:induction false} InsertKeepsSorted<T>(x: T, s: seq<T>, key: T -> real)
    requires SortedBy(s, key)
    ensures SortedBy(InsertBy(x, s, key), key)
  {
    if s != [] && key(x) > key(s[0]) {
      InsertKeepsSorted(x, s[1..], key);
      var r := InsertBy(x, s[1..], key);
      InsertIsPermutation(x, s[1..], key);
      forall i | 0 <= i < |r| ensures key(s[0]) <= key(r[i]) {
        assert r[i] in multiset(r);
        assert r[i] == x || r[i] in s[1..];
      }
    }
  }

  lemma {:induction false} InsertIsPermutation<T>(x: T, s: seq<T>, key: T -> real)
    ensures multiset(InsertBy(x, s, key)) == multiset(s) + multiset{x}
  {
    assert s != [] ==> s == [s[0]] + s[1..];
    if s != [] && key(x) > key(s[0]) {
      var r := InsertBy(x, s[1..], key);
      assert InsertBy(x, s, key) == [s[0]] + r;
      InsertIsPermutation(x, s[1..], key);
      hide InsertBy;
    }
  }

  lemma {:induction false} SortKeepsMembers<T>(s: seq<T>, key: T -> real)
    ensures forall y :: y in s <==> y in SortBy(s, key)
  {
    SortByIsSort(s, key);
    forall y ensures y in s <==> y in SortBy(s, key) {
      assert y in s <==> y in multiset(s);
    }
  }

  /** SortBy sorts, and only reorders. */
  lemma {:induction false} SortByIsSort<T>(s: seq<T>, key: T -> real)
    ensures SortedBy(SortBy(s, key), key)
    ensures multiset(SortBy(s, key)) == multiset(s)
  {
    if s != [] {
      SortByIsSort(s[1..], key);
      InsertKeepsSorted(s[0], SortBy(s[1..], key), key);
      InsertIsPermutation(s[0], SortBy(s[1..], key), key);
      assert s == [s[0]] + s[1..];
    }
  }

  lemma {:induction false} InsertKeepsDistinct<T>(x: T, s: seq<T>, key: T -> real)
    requires Distinct(s) && x !in s
    ensures Distinct(InsertBy(x, s, key))
  {
    if s != [] && key(x) > key(s[0]) {
      assert forall i :: 0 <= i < |s[1..]| ==> s[1..][i] == s[i + 1];
      InsertKeepsDistinct(x, s[1..], key);
      var r := InsertBy(x, s[1..], key);
      InsertIsPermutation(x, s[1..], key);
      forall i | 0 <= i < |r| ensures r[i] != s[0] {
        assert r[i] in multiset(r);
        assert r[i] == x || r[i] in s[1..];
      }
    }
  }

  lemma {:induction false} SortKeepsDistinct<T>(s: seq<T>, key: T -> real)
    requires Distinct(s)
    ensures Distinct(SortBy(s, key))
  {
    if s != [] {
      assert forall i :: 0 <= i < |s[1..]| ==> s[1..][i] == s[i + 1];
      SortKeepsDistinct(s[1..], key);
      SortKeepsMembers(s[1..], key);
      InsertKeepsDistinct(s[0], SortBy(s[1..], key), key);
    }
  }

  lemma {:induction false} InsertBeforeLargest<T>(x: T, s: seq<T>, y: T, key: T -> real)
    requires key(x) < key(y)
    ensures InsertBy(x, s + [y], key) == InsertBy(x, s, key) + [y]
  {
    if s == [] {
      assert [] + [y] == [y];
      assert InsertBy(x, [y], key) == [x] + [y];
    } else {
      assert (s + [y])[1..] == s[1..] + [y];
      InsertBeforeLargest(x, s[1..], y, key);
      if key(x) <= key(s[0]) {
        assert [x] + (s + [y]) == ([x] + s) + [y];
      }
    }
  }

  /** Appending an element larger than all others appends it to the sorted sequence. */
  lemma {:induction false} SortAppendLargest<T>(s: seq<T>, y: T, key: T -> real)
    requires forall x :: x in s ==> key(x) < key(y)
    ensures SortBy(s + [y], key) == SortBy(s, key) + [y]
  {
    if s == [] {
      assert s + [y] == [y];
      assert SortBy([y], key) == InsertBy(y, SortBy([], key), key);
    } else {
      assert (s + [y])[0] == s[0] && (s + [y])[1..] == s[1..] + [y];
      SortAppendLargest(s[1..], y, key);
      InsertBeforeLargest(s[0], SortBy(s[1..], key), y, key);
    }
  }

  lemma {:induction false} FilterInsert<T>(x: T, s: seq<T>, key: T -> real, keep: T -> bool)
    requires SortedBy(s, key)
    ensures Filter(InsertBy(x, s, key), keep)
         == if keep(x) then InsertBy(x, Filter(s, keep), key) else Filter(s, keep)
  {
    if s != [] {
      var rest := Filter(s[1..], keep);
      if key(x) <= key(s[0]) {
        assert ([x] + s)[1..] == s;
        assert forall y :: y in s ==> key(x) <= key(y);
        InsertFirst(x, Filter(s, keep), key);
      } else {
        var r := InsertBy(x, s[1..], key);
        assert ([s[0]] + r)[1..] == r;
        FilterInsert(x, s[1..], key, keep);
        assert InsertBy(x, [s[0]] + rest, key) == [s[0]] + InsertBy(x, rest, key) by {
          assert ([s[0]] + rest)[1..] == rest;
        }
      }
    }
  }

  lemma {:induction false} InsertFirst<T>(x: T, s: seq<T>, key: T -> real)
    requires forall y :: y in s ==> key(x) <= key(y)
    ensures InsertBy(x, s, key) == [x] + s
  {
    assert s != [] ==> s[0] in s;
  }

  /** A stable sort commutes with taking away elements. */
  lemma {:induction false} FilterSort<T>(s: seq<T>, key: T -> real, keep: T -> bool)
    ensures Filter(SortBy(s, key), keep) == SortBy(Filter(s, keep), key)
  {
    if s != [] {
      FilterSort(s[1..], key, keep);
      SortByIsSort(s[1..], key);
      FilterInsert(s[0], SortBy(s[1..], key), key, keep);
      if keep(s[0]) {
        assert ([s[0]] + Filter(s[1..], keep))[1..] == Filter(s[1..], keep);
      }
    }
  }

  function MapSeq<X, Y>(s: seq<X>, f: X -> Y): (r: seq<Y>)
    ensures |r| == |s|
  {
    if s == [] then [] else [f(s[0])] + MapSeq(s[1..], f)
  }

  lemma {:induction false} MapAt<X, Y>(s: seq<X>, f: X -> Y, i: nat)
    requires i < |s|
    ensures MapSeq(s, f)[i] == f(s[i])
  {
    if i > 0 {
      MapAt(s[1..], f, i - 1);
    }
  }

  lemma {:induction false} InsertMap<X(!new), Y>(x: X, s: seq<X>, f: X -> Y, key: Y -> real, keyX: X -> real)
    requires forall z :: keyX(z) == key(f(z))
    ensures InsertBy(f(x), MapSeq(s, f), key) == MapSeq(InsertBy(x, s, keyX), f)
  {
    if s != [] {
      if keyX(x) <= keyX(s[0]) {
        assert ([x] + s)[1..] == s;
      } else {
        InsertMap(x, s[1..], f, key, keyX);
        assert ([s[0]] + InsertBy(x, s[1..], keyX))[1..] == InsertBy(x, s[1..], keyX);
        assert ([f(s[0])] + MapSeq(s[1..], f))[1..] == MapSeq(s[1..], f);
      }
    }
  }

  /** Sorting images by a key is sorting the originals by the key of their images. */
  lemma {:induction false} SortMap<X(!new), Y>(s: seq<X>, f: X -> Y, key: Y -> real, keyX: X -> real)
    requires forall z :: keyX(z) == key(f(z))
    ensures SortBy(MapSeq(s, f), key) == MapSeq(SortBy(s, keyX), f)
  {
    if s != [] {
      SortMap(s[1..], f, key, keyX);
      InsertMap(s[0], SortBy(s[1..], keyX), f, key, keyX);
      assert ([f(s[0])] + MapSeq(s[1..], f))[1..] == MapSeq(s[1..], f);
    }
  }

  lemma {:induction false} MapAppend<X, Y>(s: seq<X>, x: X, f: X -> Y)
    ensures MapSeq(s + [x], f) == MapSeq(s, f) + [f(x)]
  {
    if s == [] {
      assert s + [x] == [x];
    } else {
      assert (s + [x])[1..] == s[1..] + [x];
      MapAppend(s[1..], x, f);
    }
  }

  // --------------------------------------------------------------- string order

  /** Python's < on strings: by first difference, a proper prefix being smaller. */
  predicate StringLess(a: string, b: string) {
    if b == "" then false
    else if a == "" then true
    else a[0] < b[0] || (a[0] == b[0] && StringLess(a[1..], b[1..]))
  }

  /** Either a ends where b goes on, or at the first difference a has the smaller character. */
  ghost predicate Differs(a: string, b: string, k: nat) {
    && k <= |a| && k < |b| && a[..k] == b[..k] && (k == |a| || a[k] < b[k])
  }

  lemma {:induction false} StringLessMeaning(a: string, b: string)
    ensures StringLess(a, b) <==> exists k: nat :: Differs(a, b, k)
  {
    if a == "" && b != "" {
      assert Differs(a, b, 0);
    } else if a != "" && b != "" {
      StringLessMeaning(a[1..], b[1..]);
      if a[0] < b[0] {
        assert Differs(a, b, 0);
      }
      if k: nat :| a[0] == b[0] && Differs(a[1..], b[1..], k) {
        assert a[..k + 1] == [a[0]] + a[1..][..k] && b[..k + 1] == [b[0]] + b[1..][..k];
        assert Differs(a, b, k + 1);
      }
      if k: nat :| Differs(a, b, k) {
        if k > 0 {
          assert a[0] == a[..k][0] == b[..k][0] == b[0];
          assert a[1..][..k - 1] == a[..k][1..] && b[1..][..k - 1] == b[..k][1..];
          assert Differs(a[1..], b[1..], k - 1);
        }
      }
    }
  }

  lemma {:induction false} StringLessIrreflexive(a: string)
    ensures !StringLess(a, a)
  {
    if a != "" {
      StringLessIrreflexive(a[1..]);
    }
  }

  lemma {:induction false} StringLessTransitive(a: string, b: string, c: string)
    requires StringLess(a, b) && StringLess(b, c)
    ensures StringLess(a, c)
  {
    if a != "" && a[0] == b[0] && b[0] == c[0] {
      StringLessTransitive(a[1..], b[1..], c[1..]);
    }
  }

  lemma {:induction false} StringLessTotal(a: string, b: string)
    ensures StringLess(a, b) || a == b || StringLess(b, a)
  {
    if a != "" && b != "" && a[0] == b[0] {
      StringLessTotal(a[1..], b[1..]);
      if a[1..] == b[1..] {
        assert a == [a[0]] + a[1..] && b == [b[0]] + b[1..];
      }
    }
  }
}
