/** `Array.prototype.sort` with a comparator, as the beam-table code uses it: a
    stable sort. Each comparator in the source compares a fixed list of numeric
    fields in priority order, so it is described here by a key function giving
    that list, and elements are ordered lexicographically by their keys.

    `Sort` is the specification (insertion of each element after every element
    whose key is not greater, which is the stable order); `SortInPlace` sorts an
    array in place and is proved to produce exactly `Sort` of its old contents. */
module StableSort {

  /** Lexicographic order on key lists. */
  predicate LexLe(a: seq<real>, b: seq<real>)
    decreases |a|
  {
    a == [] || (b != [] && (a[0] < b[0] || (a[0] == b[0] && LexLe(a[1..], b[1..]))))
  }

  lemma {:induction false} LexLeReflexive(a: seq<real>)
    ensures LexLe(a, a)
    decreases |a|
  {
    if a != [] {
      LexLeReflexive(a[1..]);
    }
  }

  lemma {:induction false} LexLeTotal(a: seq<real>, b: seq<real>)
    ensures LexLe(a, b) || LexLe(b, a)
    decreases |a|
  {
    if a != [] && b != [] && a[0] == b[0] {
      LexLeTotal(a[1..], b[1..]);
    }
  }

  lemma {:induction false} LexLeTransitive(a: seq<real>, b: seq<real>, c: seq<real>)
    requires LexLe(a, b) && LexLe(b, c)
    ensures LexLe(a, c)
    decreases |a|
  {
    if a != [] && a[0] == b[0] && b[0] == c[0] {
      LexLeTransitive(a[1..], b[1..], c[1..]);
    }
  }

  lemma {:induction false} LexLeAntisymmetric(a: seq<real>, b: seq<real>)
    requires LexLe(a, b) && LexLe(b, a)
    ensures a == b
    decreases |a|
  {
    if a != [] {
      LexLeAntisymmetric(a[1..], b[1..]);
      assert a == [a[0]] + a[1..] && b == [b[0]] + b[1..];
    }
  }

  /** `s` is in non-decreasing key order. */
  predicate Sorted<T>(s: seq<T>, key: T -> seq<real>)
  {
    forall i, j :: 0 <= i < j < |s| ==> LexLe(key(s[i]), key(s[j]))
  }

  /** Inserts `x` into `t` after every element whose key is not greater than its own. */
  function InsertLast<T>(t: seq<T>, x: T, key: T -> seq<real>): seq<T>
    decreases |t|
  {
    if t == [] then [x]
    else if LexLe(key(t[|t| - 1]), key(x)) then t + [x]
    else InsertLast(t[..|t| - 1], x, key) + [t[|t| - 1]]
  }

  /** The stable sort of `s` by `key`. */
  function Sort<T>(s: seq<T>, key: T -> seq<real>): seq<T>
    decreases |s|
  {
    if s == [] then [] else InsertLast(Sort(s[..|s| - 1], key), s[|s| - 1], key)
  }

  /** The elements of `s` whose key is `k`, in their order in `s`. */
  function KeyFilter<T>(s: seq<T>, key: T -> seq<real>, k: seq<real>): seq<T>
    decreases |s|
  {
    if s == [] then []
    else KeyFilter(s[..|s| - 1], key, k) + (if key(s[|s| - 1]) == k then [s[|s| - 1]] else [])
  }

  lemma {:induction false} KeyFilterAppend<T>(a: seq<T>, b: seq<T>, key: T -> seq<real>, k: seq<real>)
    ensures KeyFilter(a + b, key, k) == KeyFilter(a, key, k) + KeyFilter(b, key, k)
    decreases |b|
  {
    if b == [] {
      assert a + b == a;
    } else {
      assert (a + b)[..|a + b| - 1] == a + b[..|b| - 1];
      KeyFilterAppend(a, b[..|b| - 1], key, k);
    }
  }

  lemma {:induction false} InsertLastPermutation<T>(t: seq<T>, x: T, key: T -> seq<real>)
    ensures |InsertLast(t, x, key)| == |t| + 1
    ensures multiset(InsertLast(t, x, key)) == multiset(t) + multiset{x}
    decreases |t|
  {
    if t != [] && !LexLe(key(t[|t| - 1]), key(x)) {
      InsertLastPermutation(t[..|t| - 1], x, key);
      assert t == t[..|t| - 1] + [t[|t| - 1]];
    }
  }

  lemma {:induction false} InsertLastSorted<T>(t: seq<T>, x: T, key: T -> seq<real>)
    requires Sorted(t, key)
    ensures Sorted(InsertLast(t, x, key), key)
    decreases |t|
  {
    if t != [] {
      var last := t[|t| - 1];
      var r := InsertLast(t, x, key);
      if LexLe(key(last), key(x)) {
        forall i, j | 0 <= i < j < |r| ensures LexLe(key(r[i]), key(r[j])) {
          if j == |t| && i < |t| - 1 {
            LexLeTransitive(key(r[i]), key(last), key(x));
          }
        }
      } else {
        var init := t[..|t| - 1];
        var u := InsertLast(init, x, key);
        InsertLastSorted(init, x, key);
        InsertLastPermutation(init, x, key);
        LexLeTotal(key(last), key(x));
        forall i | 0 <= i < |u| ensures LexLe(key(u[i]), key(last)) {
          assert u[i] in multiset(u);
          if u[i] != x {
            assert u[i] in multiset(init);
            var m :| 0 <= m < |init| && init[m] == u[i];
            assert t[m] == u[i];
          }
        }
        assert r == u + [last];
      }
    }
  }

  lemma KeyFilterSingle<T>(x: T, key: T -> seq<real>, k: seq<real>)
    ensures KeyFilter([x], key, k) == if key(x) == k then [x] else []
  {
    assert [x][..0] == [];
  }

  lemma {:induction false} InsertLastStable<T>(t: seq<T>, x: T, key: T -> seq<real>, k: seq<real>)
    requires Sorted(t, key)
    ensures KeyFilter(InsertLast(t, x, key), key, k)
         == KeyFilter(t, key, k) + (if key(x) == k then [x] else [])
    decreases |t|
  {
    if t == [] {
      KeyFilterSingle(x, key, k);
    } else if LexLe(key(t[|t| - 1]), key(x)) {
      KeyFilterSingle(x, key, k);
      KeyFilterAppend(t, [x], key, k);
    } else {
      var init := t[..|t| - 1];
      SortedPrefix(t, key);
      InsertLastStable(init, x, key, k);
      InsertLastStableShift(t, x, key, k);
    }
  }

  lemma SortedPrefix<T>(t: seq<T>, key: T -> seq<real>)
    requires t != [] && Sorted(t, key)
    ensures Sorted(t[..|t| - 1], key)
  {
    var init := t[..|t| - 1];
    forall i, j | 0 <= i < j < |init| ensures LexLe(key(init[i]), key(init[j])) {
      assert init[i] == t[i] && init[j] == t[j];
    }
  }

  /** The step of `InsertLastStable` where `x` moves past the last element. */
  lemma InsertLastStableShift<T>(t: seq<T>, x: T, key: T -> seq<real>, k: seq<real>)
    requires t != [] && !LexLe(key(t[|t| - 1]), key(x))
    requires KeyFilter(InsertLast(t[..|t| - 1], x, key), key, k)
          == KeyFilter(t[..|t| - 1], key, k) + (if key(x) == k then [x] else [])
    ensures KeyFilter(InsertLast(t, x, key), key, k)
         == KeyFilter(t, key, k) + (if key(x) == k then [x] else [])
  {
    var last := t[|t| - 1];
    var init := t[..|t| - 1];
    var u := InsertLast(init, x, key);
    assert InsertLast(t, x, key) == u + [last];
    KeyFilterAppend(u, [last], key, k);
    KeyFilterSingle(last, key, k);
    var a := KeyFilter(init, key, k);
    var xs := if key(x) == k then [x] else [];
    var ls := if key(last) == k then [last] else [];
    assert KeyFilter(t, key, k) == a + ls;
    assert KeyFilter(InsertLast(t, x, key), key, k) == (a + xs) + ls;
    if key(x) == k && key(last) == k {
      LexLeReflexive(key(x));
    } else if xs == [] {
      assert (a + xs) + ls == a + ls == (a + ls) + xs;
    } else {
      assert (a + xs) + ls == a + xs == (a + ls) + xs;
    }
  }

  /** The sort returns a permutation of its input. */
  lemma {:induction false} SortPermutation<T>(s: seq<T>, key: T -> seq<real>)
    ensures |Sort(s, key)| == |s|
    ensures multiset(Sort(s, key)) == multiset(s)
    decreases |s|
  {
    if s != [] {
      var init := s[..|s| - 1];
      SortPermutation(init, key);
      InsertLastPermutation(Sort(init, key), s[|s| - 1], key);
      assert s == init + [s[|s| - 1]];
    }
  }

  /** The sort returns its elements in non-decreasing key order. */
  lemma {:induction false} SortSorted<T>(s: seq<T>, key: T -> seq<real>)
    ensures Sorted(Sort(s, key), key)
    decreases |s|
  {
    if s != [] {
      SortSorted(s[..|s| - 1], key);
      InsertLastSorted(Sort(s[..|s| - 1], key), s[|s| - 1], key);
    }
  }

  /** The sort is stable: the elements that share a key keep their relative order. */
  lemma {:induction false} SortStable<T>(s: seq<T>, key: T -> seq<real>, k: seq<real>)
    ensures KeyFilter(Sort(s, key), key, k) == KeyFilter(s, key, k)
    decreases |s|
  {
    if s != [] {
      var init := s[..|s| - 1];
      SortStable(init, key, k);
      SortSorted(init, key);
      InsertLastStable(Sort(init, key), s[|s| - 1], key, k);
    }
  }

  /** Sorts `a` in place by insertion: each element in turn is moved left past
      every element of the sorted prefix whose key is strictly greater. */
  method SortInPlace<T>(a: array<T>, key: T -> seq<real>)
    modifies a
    ensures a[..] == Sort(old(a[..]), key)
  {
    ghost var s := a[..];
    var i := 0;
    while i < a.Length
      invariant 0 <= i <= a.Length
      invariant a[..i] == Sort(s[..i], key)
      invariant a[i..] == s[i..]
    {
      InsertIntoPrefix(a, i, key);
      assert s[..i + 1][..i] == s[..i];
      assert s[..i + 1] == s[..i] + [s[i]];
      i := i + 1;
    }
    assert s[..a.Length] == s;
  }

  /** One step of the insertion sort: `a[i]` is moved into the prefix `a[..i]`. */
  method InsertIntoPrefix<T>(a: array<T>, i: nat, key: T -> seq<real>)
    requires i < a.Length
    modifies a
    ensures a[..i + 1] == InsertLast(old(a[..i]), old(a[i]), key)
    ensures a[i + 1..] == old(a[i + 1..])
  {
    var x := a[i];
    ghost var t := a[..i];
    var j := i;
    assert t[..j] == t && t[j..] == [];
    while j > 0 && !LexLe(key(a[j - 1]), key(x))
      invariant 0 <= j <= i
      invariant forall k :: 0 <= k < j ==> a[k] == t[k]
      invariant forall k :: j < k <= i ==> a[k] == t[k - 1]
      invariant forall k :: i < k < a.Length ==> a[k] == old(a[k])
      invariant InsertLast(t, x, key) == InsertLast(t[..j], x, key) + t[j..]
    {
      InsertLastShift(t, j, x, key);
      a[j] := a[j - 1];
      j := j - 1;
    }
    a[j] := x;
    InsertPlaced(t, j, x, key, a[..i + 1]);
    assert a[i + 1..] == old(a[i + 1..]);
  }

  /** After the shifts, the prefix holds `t[..j]`, then `x`, then `t[j..]`: the insertion. */
  lemma InsertPlaced<T>(t: seq<T>, j: nat, x: T, key: T -> seq<real>, p: seq<T>)
    requires j <= |t| && |p| == |t| + 1
    requires j == 0 || LexLe(key(t[j - 1]), key(x))
    requires InsertLast(t, x, key) == InsertLast(t[..j], x, key) + t[j..]
    requires forall k :: 0 <= k < j ==> p[k] == t[k]
    requires p[j] == x
    requires forall k :: j < k < |p| ==> p[k] == t[k - 1]
    ensures p == InsertLast(t, x, key)
  {
    InsertLastStop(t, j, x, key);
    Spliced(t, j, x, p);
  }

  lemma Spliced<T>(t: seq<T>, j: nat, x: T, p: seq<T>)
    requires j <= |t| && |p| == |t| + 1
    requires forall k :: 0 <= k < j ==> p[k] == t[k]
    requires p[j] == x
    requires forall k :: j < k < |p| ==> p[k] == t[k - 1]
    ensures p == t[..j] + [x] + t[j..]
  {
    var q := t[..j] + [x] + t[j..];
    forall k | 0 <= k < |p| ensures p[k] == q[k] {
      if k < j {
        assert q[k] == t[k];
      } else if k > j {
        assert q[k] == t[j..][k - j - 1] == t[k - 1];
      }
    }
  }

  lemma InsertLastShift<T>(t: seq<T>, j: nat, x: T, key: T -> seq<real>)
    requires 0 < j <= |t| && !LexLe(key(t[j - 1]), key(x))
    ensures InsertLast(t[..j], x, key) + t[j..] == InsertLast(t[..j - 1], x, key) + t[j - 1..]
  {
    assert t[..j][..j - 1] == t[..j - 1];
    assert t[j - 1..] == [t[j - 1]] + t[j..];
  }

  lemma InsertLastStop<T>(t: seq<T>, j: nat, x: T, key: T -> seq<real>)
    requires j <= |t| && (j == 0 || LexLe(key(t[j - 1]), key(x)))
    ensures InsertLast(t[..j], x, key) == t[..j] + [x]
  {
  }
}
