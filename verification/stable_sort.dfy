/**
 * The ordering `Array.prototype.sort` produces with a comparator `(a, b) => key(b) - key(a)`:
 * since ECMAScript 2019 that sort is stable, so its result is the unique sequence that is
 * sorted by descending key and keeps the input order among equal keys. Sorting ascending
 * (`key(a) - key(b)`) is the same with the key negated.
 */
module StableSort {

  predicate SortedDesc<T>(s: seq<T>, key: T -> int) {
    forall i, j :: 0 <= i < j < |s| ==> key(s[i]) >= key(s[j])
  }

  /** The elements of `s` whose key is `k`, in their order in `s`. */
  function WithKey<T>(s: seq<T>, key: T -> int, k: int): seq<T>
    decreases |s|
  {
    if s == [] then [] else (if key(s[0]) == k then [s[0]] else []) + WithKey(s[1..], key, k)
  }

  /** Places `x` before the first element of `s` whose key is not larger than its own. */
  function Insert<T(==)>(x: T, s: seq<T>, key: T -> int): (r: seq<T>)
    ensures multiset(r) == multiset(s) + multiset{x}
    decreases |s|
  {
    if s == [] || key(x) >= key(s[0]) then [x] + s
    else
      assert s == [s[0]] + s[1..];
      [s[0]] + Insert(x, s[1..], key)
  }

  lemma {:induction false} InsertSorted<T>(x: T, s: seq<T>, key: T -> int)
    requires SortedDesc(s, key)
    ensures SortedDesc(Insert(x, s, key), key)
    ensures forall i :: 0 <= i < |Insert(x, s, key)| ==> key(Insert(x, s, key)[i]) <= Max(x, s, key)
    decreases |s|
  {
    if s != [] && key(x) < key(s[0]) {
      var rest := Insert(x, s[1..], key);
      InsertSorted(x, s[1..], key);
      MaxBound(x, s, key);
      var r := [s[0]] + rest;
      assert forall i :: 1 <= i < |r| ==> r[i] == rest[i - 1];
    } else if s != [] {
      var r := [x] + s;
      assert forall i :: 1 <= i < |r| ==> r[i] == s[i - 1];
    }
  }

  /** The largest of `key(x)` and the first key of `s` (the largest when `s` is sorted). */
  function Max<T>(x: T, s: seq<T>, key: T -> int): int {
    if s == [] || key(x) >= key(s[0]) then key(x) else key(s[0])
  }

  lemma MaxBound<T>(x: T, s: seq<T>, key: T -> int)
    requires s != [] && key(x) < key(s[0]) && SortedDesc(s, key)
    ensures Max(x, s[1..], key) <= key(s[0])
  {
  }

  /** Stable sort by descending key (insertion sort from the back of the input). */
  function SortDesc<T(==)>(s: seq<T>, key: T -> int): (r: seq<T>)
    ensures SortedDesc(r, key)
    ensures multiset(r) == multiset(s)
    decreases |s|
  {
    if s == [] then []
    else
      assert s == [s[0]] + s[1..];
      InsertSorted(s[0], SortDesc(s[1..], key), key);
      Insert(s[0], SortDesc(s[1..], key), key)
  }

  lemma WithKeyCons<T>(x: T, s: seq<T>, key: T -> int, k: int)
    ensures WithKey([x] + s, key, k) == Single(x, key, k) + WithKey(s, key, k)
  {
    assert ([x] + s)[1..] == s;
  }

  /** The one-element key class of `x`: `[x]` when its key is `k`, else empty. */
  function Single<T>(x: T, key: T -> int, k: int): seq<T> {
    if key(x) == k then [x] else []
  }

  /** Inserting keeps the relative order of every key class, with `x` first in its own. */
  lemma {:induction false} InsertWithKey<T>(x: T, s: seq<T>, key: T -> int, k: int)
    ensures WithKey(Insert(x, s, key), key, k) == WithKey([x] + s, key, k)
    decreases |s|
  {
    if s != [] && key(x) < key(s[0]) {
      var s0, tail := s[0], s[1..];
      var rest := Insert(x, tail, key);
      assert Insert(x, s, key) == [s0] + rest;
      calc {
        WithKey(Insert(x, s, key), key, k);
        { WithKeyCons(s0, rest, key, k); }
        Single(s0, key, k) + WithKey(rest, key, k);
        { InsertWithKey(x, tail, key, k); }
        Single(s0, key, k) + WithKey([x] + tail, key, k);
        { WithKeyCons(x, tail, key, k); }
        Single(s0, key, k) + (Single(x, key, k) + WithKey(tail, key, k));
        { assert Single(s0, key, k) == [] || Single(x, key, k) == []; }
        Single(x, key, k) + (Single(s0, key, k) + WithKey(tail, key, k));
        { WithKeyCons(s0, tail, key, k); assert s == [s0] + tail; }
        Single(x, key, k) + WithKey(s, key, k);
        { WithKeyCons(x, s, key, k); }
        WithKey([x] + s, key, k);
      }
    }
  }

  /** Stability: among equal keys the sorted sequence keeps the input order. */
  lemma {:induction false} SortDescStable<T>(s: seq<T>, key: T -> int, k: int)
    ensures WithKey(SortDesc(s, key), key, k) == WithKey(s, key, k)
    decreases |s|
  {
    if s != [] {
      SortDescStable(s[1..], key, k);
      InsertWithKey(s[0], SortDesc(s[1..], key), key, k);
      WithKeyCons(s[0], SortDesc(s[1..], key), key, k);
      assert s == [s[0]] + s[1..];
      WithKeyCons(s[0], s[1..], key, k);
    }
  }

  lemma {:induction false} WithKeyMembers<T>(s: seq<T>, key: T -> int, k: int)
    ensures forall i :: 0 <= i < |WithKey(s, key, k)| ==> key(WithKey(s, key, k)[i]) == k
    ensures forall i :: 0 <= i < |s| && key(s[i]) == k ==> WithKey(s, key, k) != []
    decreases |s|
  {
    if s != [] {
      WithKeyMembers(s[1..], key, k);
      assert forall i :: 1 <= i < |s| ==> s[i] == s[1..][i - 1];
    }
  }

  /**
   * Two sequences sorted by descending key that agree on every key class are equal: the
   * stable order is unique.
   */
  lemma {:induction false} SortedUnique<T>(r: seq<T>, t: seq<T>, key: T -> int)
    requires SortedDesc(r, key) && SortedDesc(t, key)
    requires forall k :: WithKey(r, key, k) == WithKey(t, key, k)
    ensures r == t
    decreases |r|
  {
    if r == [] || t == [] {
      if r != [] {
        WithKeyMembers(r, key, key(r[0]));
      } else if t != [] {
        WithKeyMembers(t, key, key(t[0]));
      }
    } else {
      var a, b := r[0], t[0];
      WithKeyMembers(r, key, key(a));
      WithKeyMembers(t, key, key(b));
      if key(a) > key(b) {
        var w := WithKey(t, key, key(a));
        assert w != [];
        WithKeyMembers(t, key, key(a));
        assert key(w[0]) == key(a);
        WithKeyIn(t, key, key(a), 0);
        assert false;
      } else if key(b) > key(a) {
        var w := WithKey(r, key, key(b));
        assert w != [];
        WithKeyIn(r, key, key(b), 0);
        assert false;
      }
      assert r == [a] + r[1..] && t == [b] + t[1..];
      WithKeyCons(a, r[1..], key, key(a));
      WithKeyCons(b, t[1..], key, key(a));
      assert WithKey(r, key, key(a)) == WithKey(t, key, key(a));
      assert WithKey(r, key, key(a))[0] == a;
      assert a == b;
      forall k
        ensures WithKey(r[1..], key, k) == WithKey(t[1..], key, k)
      {
        var rt, tt := r[1..], t[1..];
        WithKeyCons(a, rt, key, k);
        WithKeyCons(a, tt, key, k);
        assert WithKey(r, key, k) == WithKey(t, key, k);
        assert Single(a, key, k) + WithKey(rt, key, k) == Single(a, key, k) + WithKey(tt, key, k);
        var n := |Single(a, key, k)|;
        assert WithKey(rt, key, k) == (Single(a, key, k) + WithKey(rt, key, k))[n..];
        assert WithKey(tt, key, k) == (Single(a, key, k) + WithKey(tt, key, k))[n..];
      }
      SortedUnique(r[1..], t[1..], key);
    }
  }

  /** Every element of a key class comes from the sequence. */
  lemma {:induction false} WithKeyIn<T>(s: seq<T>, key: T -> int, k: int, i: nat)
    requires i < |WithKey(s, key, k)|
    ensures exists j :: 0 <= j < |s| && s[j] == WithKey(s, key, k)[i] && key(s[j]) == k
    decreases |s|
  {
    if key(s[0]) == k && i == 0 {
      assert s[0] == WithKey(s, key, k)[0];
    } else {
      var i' := if key(s[0]) == k then i - 1 else i;
      WithKeyIn(s[1..], key, k, i');
      var j :| 0 <= j < |s[1..]| && s[1..][j] == WithKey(s[1..], key, k)[i'] && key(s[1..][j]) == k;
      assert s[j + 1] == WithKey(s, key, k)[i];
    }
  }

  /** Any result of a stable sort by descending key is `SortDesc`. */
  lemma SortDescUnique<T>(s: seq<T>, r: seq<T>, key: T -> int)
    requires SortedDesc(r, key)
    requires forall k :: WithKey(r, key, k) == WithKey(s, key, k)
    ensures r == SortDesc(s, key)
  {
    forall k
      ensures WithKey(r, key, k) == WithKey(SortDesc(s, key), key, k)
    {
      SortDescStable(s, key, k);
    }
    SortedUnique(r, SortDesc(s, key), key);
  }
}
