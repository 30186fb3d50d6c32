/**
 * Sequence operations the service performs through JavaScript arrays:
 * `filter`, a stable `sort` with a descending comparator, and `slice(0, limit)`.
 */
module Seqs {

  /** No element occurs twice. */
  predicate Distinct<T(==)>(s: seq<T>)
  {
    forall i, j :: 0 <= i < j < |s| ==> s[i] != s[j]
  }

  /** The set of elements of a sequence. */
  function Elems<T>(s: seq<T>): set<T>
  {
    set x | x in s
  }

  /** `Array.prototype.filter`: keeps, in order, the elements satisfying `p`. */
  function Filter<T>(s: seq<T>, p: T -> bool): (r: seq<T>)
    ensures |r| <= |s|
  {
    if s == [] then [] else (if p(s[0]) then [s[0]] else []) + Filter(s[1..], p)
  }

  /** `Filter` keeps every occurrence of the elements satisfying `p` and nothing else. */
  lemma {:induction false} FilterSpec<T(!new)>(s: seq<T>, p: T -> bool)
    ensures forall x :: x in Filter(s, p) <==> x in s && p(x)
    ensures forall x :: multiset(Filter(s, p))[x] == if p(x) then multiset(s)[x] else 0
  {
    if s != [] {
      FilterSpec(s[1..], p);
      assert s == [s[0]] + s[1..];
    }
  }

  lemma {:induction false} FilterNone<T>(s: seq<T>, p: T -> bool)
    requires forall x :: !p(x)
    ensures Filter(s, p) == []
  {
    if s != [] {
      FilterNone(s[1..], p);
    }
  }

  lemma {:induction false} FilterAppend<T>(s: seq<T>, x: T, p: T -> bool)
    ensures Filter(s + [x], p) == Filter(s, p) + (if p(x) then [x] else [])
  {
    var tail := if p(x) then [x] else [];
    if s == [] {
      assert s + [x] == [x];
      assert Filter([x], p) == tail + Filter([], p);
    } else {
      var head := if p(s[0]) then [s[0]] else [];
      assert (s + [x])[0] == s[0];
      assert (s + [x])[1..] == s[1..] + [x];
      FilterAppend(s[1..], x, p);
      calc {
        Filter(s + [x], p);
        head + Filter(s[1..] + [x], p);
        head + (Filter(s[1..], p) + tail);
        (head + Filter(s[1..], p)) + tail;
        Filter(s, p) + tail;
      }
    }
  }

  lemma {:induction false} FilterDistinct<T(!new)>(s: seq<T>, p: T -> bool)
    requires Distinct(s)
    ensures Distinct(Filter(s, p))
  {
    if s != [] {
      assert Distinct(s[1..]);
      FilterDistinct(s[1..], p);
      FilterSpec(s[1..], p);
      assert s[0] !in s[1..];
    }
  }

  /** A sequence has at least as many positions as distinct elements. */
  lemma {:induction false} ElemsCard<T>(s: seq<T>)
    ensures |Elems(s)| <= |s|
    ensures Distinct(s) ==> |Elems(s)| == |s|
  {
    if s != [] {
      ElemsCard(s[1..]);
      assert Elems(s) == {s[0]} + Elems(s[1..]);
      if Distinct(s) {
        assert s[0] !in Elems(s[1..]);
        assert Distinct(s[1..]);
      }
    }
  }

  /** Non-increasing by `key`: what a `(a, b) => key(b) - key(a)` comparator produces. */
  ghost predicate SortedDesc<T>(s: seq<T>, key: T -> int)
  {
    forall i, j :: 0 <= i < j < |s| ==> key(s[i]) >= key(s[j])
  }

  /**
   * Inserts `x`, which comes before every element of `s` in the input order,
   * in front of the first element whose key does not exceed its own.
   */
  function Insert<T>(x: T, s: seq<T>, key: T -> int): (r: seq<T>)
    ensures multiset(r) == multiset(s) + multiset{x}
  {
    if s == [] || key(s[0]) <= key(x) then [x] + s
    else
      assert s == [s[0]] + s[1..];
      [s[0]] + Insert(x, s[1..], key)
  }

  lemma {:induction false} InsertSorted<T>(x: T, s: seq<T>, key: T -> int)
    requires SortedDesc(s, key)
    ensures SortedDesc(Insert(x, s, key), key)
  {
    if s == [] || key(s[0]) <= key(x) {
      forall y | y in s
        ensures key(x) >= key(y)
      {
        var j :| 0 <= j < |s| && s[j] == y;
        assert key(s[0]) >= key(s[j]) by { if j > 0 { assert 0 < j; } }
      }
      ConsSorted(x, s, key);
    } else {
      var rest := Insert(x, s[1..], key);
      assert SortedDesc(s[1..], key);
      InsertSorted(x, s[1..], key);
      forall y | y in rest
        ensures key(s[0]) >= key(y)
      {
        assert y in multiset(rest);
        if y != x {
          var j :| 0 <= j < |s[1..]| && s[1..][j] == y;
          assert s[j + 1] == y;
        }
      }
      ConsSorted(s[0], rest, key);
    }
  }

  /** Putting an element that ranks no lower than all of a sorted sequence in front keeps it sorted. */
  lemma ConsSorted<T>(a: T, t: seq<T>, key: T -> int)
    requires SortedDesc(t, key)
    requires forall y :: y in t ==> key(a) >= key(y)
    ensures SortedDesc([a] + t, key)
  {
    var r := [a] + t;
    forall i, j | 0 <= i < j < |r|
      ensures key(r[i]) >= key(r[j])
    {
      if i > 0 {
        assert r[i] == t[i - 1] && r[j] == t[j - 1];
      } else {
        assert r[j] == t[j - 1];
      }
    }
  }

  /**
   * A stable sort in descending order of `key`: the behaviour of
   * `Array.prototype.sort` (stable since ECMAScript 2019) with a comparator
   * returning `key(b) - key(a)`.
   */
  function SortDesc<T>(s: seq<T>, key: T -> int): (r: seq<T>)
    ensures multiset(r) == multiset(s)
    ensures SortedDesc(r, key)
  {
    if s == [] then []
    else
      assert s == [s[0]] + s[1..];
      var rest := SortDesc(s[1..], key);
      InsertSorted(s[0], rest, key);
      Insert(s[0], rest, key)
  }

  /** The elements whose key is `k`, in order. */
  function WithKey<T>(s: seq<T>, key: T -> int, k: int): seq<T>
  {
    if s == [] then [] else (if key(s[0]) == k then [s[0]] else []) + WithKey(s[1..], key, k)
  }

  lemma WithKeyCons<T>(a: T, t: seq<T>, key: T -> int, k: int)
    ensures WithKey([a] + t, key, k) == (if key(a) == k then [a] else []) + WithKey(t, key, k)
  {
    assert ([a] + t)[1..] == t;
  }

  lemma {:induction false} InsertWithKey<T>(x: T, s: seq<T>, key: T -> int, k: int)
    ensures WithKey(Insert(x, s, key), key, k)
         == (if key(x) == k then [x] else []) + WithKey(s, key, k)
  {
    if s == [] || key(s[0]) <= key(x) {
      assert Insert(x, s, key) == [x] + s;
      WithKeyCons(x, s, key, k);
    } else {
      InsertWithKey(x, s[1..], key, k);
      InsertWithKeyStep(x, s, key, k);
    }
  }

  /** One step of `InsertWithKey`: `x` passes over the head of `s`, whose key is larger. */
  lemma InsertWithKeyStep<T>(x: T, s: seq<T>, key: T -> int, k: int)
    requires s != [] && key(s[0]) > key(x)
    requires WithKey(Insert(x, s[1..], key), key, k)
          == (if key(x) == k then [x] else []) + WithKey(s[1..], key, k)
    ensures WithKey(Insert(x, s, key), key, k)
         == (if key(x) == k then [x] else []) + WithKey(s, key, k)
  {
    var rest := Insert(x, s[1..], key);
    var kept := if key(s[0]) == k then [s[0]] else [];
    var moved := if key(x) == k then [x] else [];
    var ws := WithKey(s[1..], key, k);
    calc {
      WithKey(Insert(x, s, key), key, k);
      { assert Insert(x, s, key) == [s[0]] + rest;
        WithKeyCons(s[0], rest, key, k); }
      kept + WithKey(rest, key, k);
      kept + (moved + ws);
      { SwapEmpty(kept, moved, ws); }
      moved + (kept + ws);
      { assert s == [s[0]] + s[1..];
        WithKeyCons(s[0], s[1..], key, k); }
      moved + WithKey(s, key, k);
    }
  }

  lemma SwapEmpty<T>(a: seq<T>, b: seq<T>, c: seq<T>)
    requires a == [] || b == []
    ensures a + (b + c) == b + (a + c)
  {
    if a == [] {
      assert a + (b + c) == b + c;
      assert a + c == c;
    } else {
      assert b + c == c;
      assert b + (a + c) == a + c;
    }
  }

  /** Stability: elements with equal keys keep their relative input order. */
  lemma {:induction false} SortDescStable<T>(s: seq<T>, key: T -> int, k: int)
    ensures WithKey(SortDesc(s, key), key, k) == WithKey(s, key, k)
  {
    if s != [] {
      SortDescStable(s[1..], key, k);
      InsertWithKey(s[0], SortDesc(s[1..], key), key, k);
    }
  }

  /** A prefix of a sorted sequence is sorted, and everything it leaves out ranks no higher than what it keeps. */
  lemma SortedPrefix<T>(s: seq<T>, n: nat, key: T -> int, x: T)
    requires n <= |s| && SortedDesc(s, key) && x in s
    ensures SortedDesc(s[..n], key)
    ensures x in s[..n] || forall y :: y in s[..n] ==> key(y) >= key(x)
  {
    var j :| 0 <= j < |s| && s[j] == x;
    if j < n {
      assert s[..n][j] == x;
    } else {
      forall y | y in s[..n]
        ensures key(y) >= key(x)
      {
        var i :| 0 <= i < n && s[..n][i] == y;
        assert s[i] == y;
      }
    }
  }

  /** Taking a prefix keeps, for each key, a prefix of the elements with that key. */
  lemma {:induction false} WithKeyPrefix<T>(s: seq<T>, n: nat, key: T -> int, k: int)
    requires n <= |s|
    ensures var w := WithKey(s[..n], key, k);
      |w| <= |WithKey(s, key, k)| && w == WithKey(s, key, k)[..|w|]
  {
    if n > 0 {
      assert s[..n][1..] == s[1..][..n - 1];
      WithKeyPrefix(s[1..], n - 1, key, k);
    }
  }

  /** The number of elements `slice(0, limit)` keeps (a negative limit counts from the end). */
  function SliceEnd(len: nat, limit: int): (e: nat)
    ensures e <= len
  {
    if limit >= 0 then (if limit < len then limit else len)
    else if len + limit > 0 then len + limit else 0
  }

  /** `Array.prototype.slice(0, limit)`. */
  function SliceTo<T>(s: seq<T>, limit: int): (r: seq<T>)
    ensures r <= s
    ensures 0 <= limit ==> |r| == if limit < |s| then limit else |s|
    ensures limit < 0 ==> |r| == if -limit < |s| then |s| + limit else 0
  {
    s[..SliceEnd(|s|, limit)]
  }
}
