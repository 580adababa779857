/** The stable sort behind List.sort with a key comparator: insertion of each
    element after every earlier element whose key is not larger. */
module Sorting {

  predicate SortedBy<T>(s: seq<T>, key: T -> int)
  {
    forall i, j :: 0 <= i < j < |s| ==> key(s[i]) <= key(s[j])
  }

  /** x inserted into s before the first element with a larger key. */
  function Insert<T>(x: T, s: seq<T>, key: T -> int): (r: seq<T>)
    ensures multiset(r) == multiset(s) + multiset{x}
  {
    if s == [] then [x]
    else if key(x) < key(s[0]) then [x] + s
    else
      assert s == [s[0]] + s[1..];
      [s[0]] + Insert(x, s[1..], key)
  }

  /** Insertion keeps a sorted sequence sorted. */
  lemma {:induction false} InsertSorted<T>(x: T, s: seq<T>, key: T -> int)
    requires SortedBy(s, key)
    ensures SortedBy(Insert(x, s, key), key)
  {
    if s == [] {
    } else if key(x) < key(s[0]) {
      var r := [x] + s;
      forall i, j | 0 <= i < j < |r|
        ensures key(r[i]) <= key(r[j])
      {
        assert r[j] == s[j - 1];
        if i > 0 {
          assert r[i] == s[i - 1];
        }
      }
    } else {
      var tail := s[1..];
      assert SortedBy(tail, key) by {
        forall i, j | 0 <= i < j < |tail|
          ensures key(tail[i]) <= key(tail[j])
        {
          assert tail[i] == s[i + 1] && tail[j] == s[j + 1];
        }
      }
      forall i | 0 <= i < |tail|
        ensures key(tail[i]) >= key(s[0])
      {
        assert tail[i] == s[i + 1];
      }
      InsertSorted(x, tail, key);
      InsertKeysAtLeast(x, tail, key, key(s[0]));
      var rest := Insert(x, tail, key);
      var r := [s[0]] + rest;
      forall i, j | 0 <= i < j < |r|
        ensures key(r[i]) <= key(r[j])
      {
        assert r[j] == rest[j - 1];
        if i > 0 {
          assert r[i] == rest[i - 1];
        }
      }
    }
  }

  /** A lower bound on the keys of x and of s bounds the keys of the
      insertion. */
  lemma {:induction false} InsertKeysAtLeast<T>(x: T, s: seq<T>, key: T -> int, lo: int)
    requires key(x) >= lo && forall i :: 0 <= i < |s| ==> key(s[i]) >= lo
    ensures forall i :: 0 <= i < |Insert(x, s, key)| ==> key(Insert(x, s, key)[i]) >= lo
  {
    if s != [] && key(x) >= key(s[0]) {
      var tail := s[1..];
      forall i | 0 <= i < |tail|
        ensures key(tail[i]) >= lo
      {
        assert tail[i] == s[i + 1];
      }
      InsertKeysAtLeast(x, tail, key, lo);
      var rest := Insert(x, tail, key);
      forall i | 0 <= i < |rest| + 1
        ensures key(([s[0]] + rest)[i]) >= lo
      {
        if i > 0 {
          assert ([s[0]] + rest)[i] == rest[i - 1];
        }
      }
    } else if s != [] {
      forall i | 0 <= i < |s| + 1
        ensures key(([x] + s)[i]) >= lo
      {
        if i > 0 {
          assert ([x] + s)[i] == s[i - 1];
        }
      }
    }
  }

  /** SortByKey: the elements of s ordered by key; SortStable shows that
      equal keys keep their order from s. */
  function SortByKey<T>(s: seq<T>, key: T -> int): (r: seq<T>)
    ensures |r| == |s|
    ensures multiset(r) == multiset(s)
    ensures SortedBy(r, key)
  {
    if s == [] then []
    else
      var init := s[..|s| - 1];
      assert s == init + [s[|s| - 1]];
      var r := Insert(s[|s| - 1], SortByKey(init, key), key);
      InsertSorted(s[|s| - 1], SortByKey(init, key), key);
      assert |r| == |multiset(r)|;
      r
  }

  /** The elements of s whose key is k, in their order in s. */
  function KeyRun<T>(s: seq<T>, key: T -> int, k: int): seq<T>
  {
    if s == [] then []
    else (if key(s[0]) == k then [s[0]] else []) + KeyRun(s[1..], key, k)
  }

  /** No element with key k, no run. */
  lemma {:induction false} NoRun<T>(s: seq<T>, key: T -> int, k: int)
    requires forall i :: 0 <= i < |s| ==> key(s[i]) != k
    ensures KeyRun(s, key, k) == []
  {
    if s != [] {
      assert forall i :: 0 <= i < |s[1..]| ==> s[1..][i] == s[i + 1];
      NoRun(s[1..], key, k);
    }
  }

  /** The run of a sequence extended at the end. */
  lemma {:induction false} RunAppend<T>(s: seq<T>, x: T, key: T -> int, k: int)
    ensures KeyRun(s + [x], key, k) == KeyRun(s, key, k) + (if key(x) == k then [x] else [])
  {
    if s == [] {
      assert [x][1..] == [];
    } else {
      assert (s + [x])[1..] == s[1..] + [x];
      RunAppend(s[1..], x, key, k);
    }
  }

  /** The run of a sequence with one more element in front. */
  lemma RunCons<T>(y: T, t: seq<T>, key: T -> int, k: int)
    ensures KeyRun([y] + t, key, k) == (if key(y) == k then [y] else []) + KeyRun(t, key, k)
  {
    assert ([y] + t)[1..] == t;
  }

  /** The tail of a sorted sequence is sorted. */
  lemma SortedTail<T>(s: seq<T>, key: T -> int)
    requires s != [] && SortedBy(s, key)
    ensures SortedBy(s[1..], key)
    ensures forall i :: 0 <= i < |s| ==> key(s[0]) <= key(s[i])
  {
    forall i, j | 0 <= i < j < |s[1..]|
      ensures key(s[1..][i]) <= key(s[1..][j])
    {
      assert s[1..][i] == s[i + 1] && s[1..][j] == s[j + 1];
    }
  }

  /** x goes in front of a sorted sequence whose keys all exceed its own. */
  lemma InsertFrontRun<T>(x: T, s: seq<T>, key: T -> int, k: int)
    requires s != [] && SortedBy(s, key) && key(x) < key(s[0])
    ensures KeyRun(Insert(x, s, key), key, k) == KeyRun(s, key, k) + (if key(x) == k then [x] else [])
  {
    RunCons(x, s, key, k);
    if key(x) == k {
      SortedTail(s, key);
      NoRun(s, key, k);
    }
  }

  /** Inserting into a sorted sequence puts x after every element with its
      key: the run of key(x) gains x at its end, every other run is kept. */
  lemma {:induction false} InsertRun<T>(x: T, s: seq<T>, key: T -> int, k: int)
    requires SortedBy(s, key)
    ensures KeyRun(Insert(x, s, key), key, k) == KeyRun(s, key, k) + (if key(x) == k then [x] else [])
  {
    if s == [] {
      RunCons(x, [], key, k);
      assert [x] + [] == [x];
    } else if key(x) < key(s[0]) {
      InsertFrontRun(x, s, key, k);
    } else {
      var tail := s[1..];
      SortedTail(s, key);
      var rest := Insert(x, tail, key);
      assert Insert(x, s, key) == [s[0]] + rest;
      InsertRun(x, tail, key, k);
      SkipRun(s[0], tail, rest, key, k, if key(x) == k then [x] else []);
      assert s == [s[0]] + tail;
    }
  }

  /** An element in front of both sides of a run equation. */
  lemma SkipRun<T>(y: T, t: seq<T>, rest: seq<T>, key: T -> int, k: int, e: seq<T>)
    requires KeyRun(rest, key, k) == KeyRun(t, key, k) + e
    ensures KeyRun([y] + rest, key, k) == KeyRun([y] + t, key, k) + e
  {
    RunCons(y, rest, key, k);
    RunCons(y, t, key, k);
    var h: seq<T> := if key(y) == k then [y] else [];
    assert h + (KeyRun(t, key, k) + e) == (h + KeyRun(t, key, k)) + e;
  }

  /** The sort is stable: the elements of every key come out in the order
      they had in s. */
  lemma {:induction false} SortStable<T>(s: seq<T>, key: T -> int, k: int)
    ensures KeyRun(SortByKey(s, key), key, k) == KeyRun(s, key, k)
    decreases |s|
  {
    if s != [] {
      var init, last := s[..|s| - 1], s[|s| - 1];
      assert s == init + [last];
      SortStable(init, key, k);
      InsertRun(last, SortByKey(init, key), key, k);
      RunAppend(init, last, key, k);
    }
  }

  predicate Distinct<T(==)>(s: seq<T>)
  {
    forall i, j :: 0 <= i < j < |s| ==> s[i] != s[j]
  }

  /** In a list without repeats every value occurs at most once. */
  lemma {:induction false} DistinctCount<T>(s: seq<T>, x: T)
    requires Distinct(s)
    ensures multiset(s)[x] <= 1
    decreases |s|
  {
    if s != [] {
      var n := |s| - 1;
      assert s == s[..n] + [s[n]];
      DistinctCount(s[..n], x);
      if s[n] == x {
        assert x !in multiset(s[..n]);
      }
    }
  }

  /** A value at two positions occurs at least twice. */
  lemma RepeatCount<T>(s: seq<T>, i: nat, j: nat)
    requires i < j < |s| && s[i] == s[j]
    ensures multiset(s)[s[i]] >= 2
  {
    assert s == s[..i] + [s[i]] + s[i + 1..j] + [s[j]] + s[j + 1..];
  }

  /** A permutation of a list without repeats has none. */
  lemma PermutationDistinct<T>(a: seq<T>, b: seq<T>)
    requires multiset(a) == multiset(b) && Distinct(b)
    ensures Distinct(a)
  {
    forall i, j | 0 <= i < j < |a|
      ensures a[i] != a[j]
    {
      if a[i] == a[j] {
        RepeatCount(a, i, j);
        DistinctCount(b, a[i]);
      }
    }
  }

  /** Two permutations of each other have the same elements. */
  lemma SameElements<T>(a: seq<T>, b: seq<T>)
    requires multiset(a) == multiset(b)
    ensures forall j :: 0 <= j < |a| ==> a[j] in b
    ensures forall m :: 0 <= m < |b| ==> b[m] in a
  {
    forall j | 0 <= j < |a|
      ensures a[j] in b
    {
      assert a[j] in multiset(b);
    }
    forall m | 0 <= m < |b|
      ensures b[m] in a
    {
      assert b[m] in multiset(a);
    }
  }

  /** A list without repeats has as many elements as its set. */
  lemma {:induction false} DistinctCard<T>(s: seq<T>)
    requires Distinct(s)
    ensures |set x | x in s| == |s|
    decreases |s|
  {
    if s != [] {
      var n := |s| - 1;
      var init := s[..n];
      assert Distinct(init) by {
        forall i, j | 0 <= i < j < |init|
          ensures init[i] != init[j]
        {
          assert init[i] == s[i] && init[j] == s[j];
        }
      }
      DistinctCard(init);
      assert s[n] !in init by {
        forall i | 0 <= i < n
          ensures init[i] != s[n]
        {
          assert init[i] == s[i];
        }
      }
      assert s == init + [s[n]];
      assert (set x | x in s) == (set x | x in init) + {s[n]};
    }
  }

  lemma DistinctAppend<T>(s: seq<T>, x: T)
    requires Distinct(s) && x !in s
    ensures Distinct(s + [x])
  {
  }
}
