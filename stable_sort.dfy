/** A stable sort by an integer key, as `Array.prototype.sort` performs it when
    given a comparator of the shape `(a, b) => key(a) - key(b)`.

    ECMAScript requires that sort to be stable, so elements whose keys are equal
    keep their received order. `SortBy` is the reference definition (an insertion
    sort on sequences); `SortedBy` and `Stable` are the declarative properties, and
    `SortByCharacterized` and `SortByUnique` show the two agree. `SortInPlace`
    is the in-place array algorithm, proved to leave `SortBy` of the old
    contents in the array. */
module StableSort {

  /** Keys are non-decreasing from left to right. */
  ghost predicate SortedBy<T>(s: seq<T>, key: T -> int) {
    forall i, j :: 0 <= i < j < |s| ==> key(s[i]) <= key(s[j])
  }

  /** The elements of `s` whose key is `k`, in their order in `s`. */
  function WithKey<T>(s: seq<T>, key: T -> int, k: int): (r: seq<T>)
    ensures |r| <= |s|
  {
    if s == [] then []
    else WithKey(s[..|s| - 1], key, k) + (if key(s[|s| - 1]) == k then [s[|s| - 1]] else [])
  }

  /** `r` keeps, for every key, the relative order `s` had. */
  ghost predicate Stable<T>(s: seq<T>, r: seq<T>, key: T -> int) {
    forall k :: WithKey(r, key, k) == WithKey(s, key, k)
  }

  /** Inserts `x` into `s` after every element whose key is at most `x`'s. */
  function Insert<T>(s: seq<T>, x: T, key: T -> int): seq<T>
  {
    if s == [] || key(s[|s| - 1]) <= key(x) then s + [x]
    else Insert(s[..|s| - 1], x, key) + [s[|s| - 1]]
  }

  /** Stable sort by `key`: each element in turn is inserted into the sorted prefix. */
  function SortBy<T>(s: seq<T>, key: T -> int): seq<T>
  {
    if s == [] then [] else Insert(SortBy(s[..|s| - 1], key), s[|s| - 1], key)
  }

  // ---- properties of Insert ----

  lemma {:induction false} InsertMultiset<T>(s: seq<T>, x: T, key: T -> int)
    ensures multiset(Insert(s, x, key)) == multiset(s) + multiset{x}
  {
    if s == [] || key(s[|s| - 1]) <= key(x) {
    } else {
      var init, last := s[..|s| - 1], s[|s| - 1];
      InsertMultiset(init, x, key);
      assert s == init + [last];
    }
  }

  lemma {:induction false} InsertSorted<T>(s: seq<T>, x: T, key: T -> int)
    requires SortedBy(s, key)
    ensures SortedBy(Insert(s, x, key), key)
  {
    if s == [] || key(s[|s| - 1]) <= key(x) {
    } else {
      var init, last := s[..|s| - 1], s[|s| - 1];
      InsertSorted(init, x, key);
      InsertMultiset(init, x, key);
      var r := Insert(init, x, key);
      forall y | y in multiset(r) ensures key(y) <= key(last) {
        if y != x {
          assert y in multiset(init);
          var i :| 0 <= i < |init| && init[i] == y;
          assert s[i] == y;
        }
      }
      forall i, j | 0 <= i < j < |r + [last]| ensures key((r + [last])[i]) <= key((r + [last])[j]) {
        if j == |r| {
          assert (r + [last])[i] == r[i];
          assert r[i] in multiset(r);
        }
      }
    }
  }

  lemma WithKeySingleton<T>(y: T, key: T -> int, k: int)
    ensures WithKey([y], key, k) == if key(y) == k then [y] else []
  {
    assert [y][..0] == [];
  }

  lemma {:induction false} InsertWithKey<T>(s: seq<T>, x: T, key: T -> int, k: int)
    ensures WithKey(Insert(s, x, key), key, k) == WithKey(s + [x], key, k)
  {
    if s == [] || key(s[|s| - 1]) <= key(x) {
    } else {
      var init, last := s[..|s| - 1], s[|s| - 1];
      var r := Insert(init, x, key);
      assert Insert(s, x, key) == r + [last];
      InsertWithKey(init, x, key, k);
      WithKeyAppend(r, [last], key, k);
      WithKeyAppend(init, [x], key, k);
      assert s + [x] == init + ([last] + [x]);
      WithKeyAppend(init, [last] + [x], key, k);
      WithKeyAppend([last], [x], key, k);
      WithKeySingleton(x, key, k);
      WithKeySingleton(last, key, k);
    }
  }

  // ---- properties of SortBy ----

  lemma {:induction false} SortByMultiset<T>(s: seq<T>, key: T -> int)
    ensures multiset(SortBy(s, key)) == multiset(s)
  {
    if s != [] {
      var init, last := s[..|s| - 1], s[|s| - 1];
      SortByMultiset(init, key);
      InsertMultiset(SortBy(init, key), last, key);
      assert s == init + [last];
    }
  }

  lemma {:induction false} SortBySorted<T>(s: seq<T>, key: T -> int)
    ensures SortedBy(SortBy(s, key), key)
  {
    if s != [] {
      SortBySorted(s[..|s| - 1], key);
      InsertSorted(SortBy(s[..|s| - 1], key), s[|s| - 1], key);
    }
  }

  lemma {:induction false} WithKeyAppend<T>(a: seq<T>, b: seq<T>, key: T -> int, k: int)
    ensures WithKey(a + b, key, k) == WithKey(a, key, k) + WithKey(b, key, k)
    decreases |b|
  {
    if b == [] {
      assert a + b == a;
    } else {
      var init, last := b[..|b| - 1], b[|b| - 1];
      WithKeyAppend(a, init, key, k);
      assert (a + b)[..|a + b| - 1] == a + init;
      assert b[..|b| - 1] == init;
    }
  }

  lemma {:induction false} SortByStable<T>(s: seq<T>, key: T -> int)
    ensures Stable(s, SortBy(s, key), key)
  {
    if s != [] {
      var init, last := s[..|s| - 1], s[|s| - 1];
      SortByStable(init, key);
      SortBySorted(init, key);
      forall k ensures WithKey(SortBy(s, key), key, k) == WithKey(s, key, k) {
        InsertWithKey(SortBy(init, key), last, key, k);
        WithKeyAppend(SortBy(init, key), [last], key, k);
        WithKeyAppend(init, [last], key, k);
        assert s == init + [last];
      }
    }
  }

  /** The reference sort is a stable permutation into key order. */
  lemma SortByCharacterized<T>(s: seq<T>, key: T -> int)
    ensures |SortBy(s, key)| == |s|
    ensures multiset(SortBy(s, key)) == multiset(s)
    ensures SortedBy(SortBy(s, key), key)
    ensures Stable(s, SortBy(s, key), key)
  {
    SortByMultiset(s, key);
    assert |multiset(SortBy(s, key))| == |multiset(s)|;
    SortBySorted(s, key);
    SortByStable(s, key);
  }

  // ---- uniqueness: sorted and stable determine the result ----

  lemma {:induction false} WithKeyMember<T>(s: seq<T>, key: T -> int, i: nat)
    requires i < |s|
    ensures s[i] in WithKey(s, key, key(s[i]))
  {
    var init := s[..|s| - 1];
    if i < |s| - 1 {
      WithKeyMember(init, key, i);
      assert init[i] == s[i];
    }
  }

  lemma {:induction false} WithKeyElements<T>(s: seq<T>, key: T -> int, k: int, x: T)
    requires x in WithKey(s, key, k)
    ensures x in s && key(x) == k
  {
    var init := s[..|s| - 1];
    if x in WithKey(init, key, k) {
      WithKeyElements(init, key, k, x);
    }
  }

  lemma {:induction false} WithKeyCons<T>(x: T, s: seq<T>, key: T -> int, k: int)
    ensures WithKey([x] + s, key, k) == (if key(x) == k then [x] else []) + WithKey(s, key, k)
  {
    WithKeyAppend([x], s, key, k);
    assert [x][..0] == [];
  }

  /** In key order, the first element has the least key of all. */
  lemma HeadLeast<T>(t: seq<T>, key: T -> int, x: T)
    requires SortedBy(t, key) && x in t
    ensures key(t[0]) <= key(x)
  {
    var i :| 0 <= i < |t| && t[i] == x;
    if i > 0 {
      assert key(t[0]) <= key(t[i]);
    }
  }

  /** Two sequences in key order that agree on every key class start alike. */
  lemma SortedHeadsEqual<T>(r: seq<T>, t: seq<T>, key: T -> int)
    requires SortedBy(r, key) && SortedBy(t, key) && r != [] && t != []
    requires WithKey(r, key, key(r[0])) == WithKey(t, key, key(r[0]))
    requires WithKey(r, key, key(t[0])) == WithKey(t, key, key(t[0]))
    ensures r[0] == t[0]
  {
    var kr := key(r[0]);
    WithKeyMember(r, key, 0);
    WithKeyMember(t, key, 0);
    WithKeyElements(t, key, kr, r[0]);
    WithKeyElements(r, key, key(t[0]), t[0]);
    HeadLeast(t, key, r[0]);
    HeadLeast(r, key, t[0]);
    assert key(t[0]) == kr;
    HeadOfClass(r, key);
    HeadOfClass(t, key);
  }

  /** The class of the first element's key starts with that element. */
  lemma HeadOfClass<T>(r: seq<T>, key: T -> int)
    requires r != []
    ensures WithKey(r, key, key(r[0])) != [] && WithKey(r, key, key(r[0]))[0] == r[0]
  {
    WithKeyCons(r[0], r[1..], key, key(r[0]));
    assert [r[0]] + r[1..] == r;
  }

  lemma TailClasses<T>(r: seq<T>, t: seq<T>, key: T -> int, k: int)
    requires r != [] && t != [] && r[0] == t[0]
    requires WithKey(r, key, k) == WithKey(t, key, k)
    ensures WithKey(r[1..], key, k) == WithKey(t[1..], key, k)
  {
    WithKeyCons(r[0], r[1..], key, k);
    WithKeyCons(t[0], t[1..], key, k);
    assert [r[0]] + r[1..] == r;
    assert [t[0]] + t[1..] == t;
    var p := if key(r[0]) == k then [r[0]] else [];
    assert (p + WithKey(r[1..], key, k))[|p|..] == WithKey(r[1..], key, k);
    assert (p + WithKey(t[1..], key, k))[|p|..] == WithKey(t[1..], key, k);
  }

  /** Two sequences in key order that agree on every key class are equal. */
  lemma {:induction false} SortedClassesEqual<T>(r: seq<T>, t: seq<T>, key: T -> int)
    requires SortedBy(r, key) && SortedBy(t, key)
    requires forall k :: WithKey(r, key, k) == WithKey(t, key, k)
    ensures r == t
    decreases |r| + |t|
  {
    if r == [] && t == [] {
    } else if r == [] {
      WithKeyMember(t, key, 0);
    } else if t == [] {
      WithKeyMember(r, key, 0);
    } else {
      SortedHeadsEqual(r, t, key);
      forall k ensures WithKey(r[1..], key, k) == WithKey(t[1..], key, k) {
        TailClasses(r, t, key, k);
      }
      SortedClassesEqual(r[1..], t[1..], key);
    }
  }

  /** Any stable rearrangement of `s` into key order is `SortBy(s, key)`. */
  lemma SortByUnique<T>(s: seq<T>, r: seq<T>, key: T -> int)
    requires SortedBy(r, key) && Stable(s, r, key)
    ensures r == SortBy(s, key)
  {
    SortBySorted(s, key);
    SortByStable(s, key);
    SortedClassesEqual(r, SortBy(s, key), key);
  }

  /** Sorting a list that is already in key order changes nothing; in particular
      sorting is idempotent. */
  lemma SortBySortedIdentity<T>(s: seq<T>, key: T -> int)
    requires SortedBy(s, key)
    ensures SortBy(s, key) == s
  {
    SortByUnique(s, s, key);
  }

  lemma SortByIdempotent<T>(s: seq<T>, key: T -> int)
    ensures SortBy(SortBy(s, key), key) == SortBy(s, key)
  {
    SortBySorted(s, key);
    SortBySortedIdentity(SortBy(s, key), key);
  }

  // ---- the in-place algorithm ----

  /** One step of the insertion loop: `x` moves past `s[j - 1]`. */
  lemma InsertPastLarger<T>(s: seq<T>, x: T, key: T -> int, j: nat)
    requires 0 < j <= |s| && key(s[j - 1]) > key(x)
    ensures Insert(s[..j], x, key) + s[j..] == Insert(s[..j - 1], x, key) + s[j - 1..]
  {
    assert s[..j][..j - 1] == s[..j - 1];
    assert s[j - 1..] == [s[j - 1]] + s[j..];
  }

  /** Swapping `x` with its left neighbour moves it one place left. */
  lemma ShiftLeftOnce<T>(s: seq<T>, sorted: seq<T>, x: T, j: nat)
    requires 0 < j <= |sorted| && s == sorted[..j] + [x] + sorted[j..]
    ensures s[j - 1] == sorted[j - 1] && s[j] == x
    ensures s[j - 1 := x][j := sorted[j - 1]] == sorted[..j - 1] + [x] + sorted[j - 1..]
  {
    var t := s[j - 1 := x][j := sorted[j - 1]];
    var u := sorted[..j - 1] + [x] + sorted[j - 1..];
    assert |t| == |u|;
    forall k | 0 <= k < |t| ensures t[k] == u[k] {
      if k < j - 1 {
        assert t[k] == s[k] == sorted[k];
      } else if k > j {
        assert t[k] == s[k] == sorted[k - 1];
      }
    }
  }

  /** Moves `a[i]` left past every element of the sorted prefix `a[..i]` whose
      key is larger, so that `a[..i + 1]` becomes `Insert(a[..i], a[i])`. */
  method InsertAt<T>(a: array<T>, i: nat, key: T -> int)
    requires i < a.Length
    modifies a
    ensures a[..i + 1] == Insert(old(a[..i]), old(a[i]), key)
    ensures a[i + 1..] == old(a[i + 1..])
  {
    ghost var sorted := a[..i];
    var x := a[i];
    var j := i;
    assert sorted[..j] == sorted && sorted[j..] == [];
    assert a[..i + 1] == sorted[..j] + [x] + sorted[j..];
    while j > 0 && key(a[j - 1]) > key(x)
      invariant 0 <= j <= i
      invariant a[..i + 1] == sorted[..j] + [x] + sorted[j..]
      invariant a[i + 1..] == old(a[i + 1..])
      invariant Insert(sorted, x, key) == Insert(sorted[..j], x, key) + sorted[j..]
    {
      ghost var before, rest := a[..i + 1], a[i + 1..];
      ShiftLeftOnce(before, sorted, x, j);
      InsertPastLarger(sorted, x, key, j);
      a[j - 1], a[j] := a[j], a[j - 1];
      assert a[..i + 1] == before[j - 1 := x][j := sorted[j - 1]];
      assert a[i + 1..] == rest;
      j := j - 1;
    }
    assert Insert(sorted[..j], x, key) == sorted[..j] + [x];
  }

  /** Insertion sort on the array itself: afterwards the array holds `SortBy` of
      what it held before. */
  method SortInPlace<T>(a: array<T>, key: T -> int)
    modifies a
    ensures a[..] == SortBy(old(a[..]), key)
  {
    ghost var input := a[..];
    var i := 0;
    while i < a.Length
      invariant 0 <= i <= a.Length
      invariant a[..i] == SortBy(input[..i], key)
      invariant a[i..] == input[i..]
    {
      assert a[i] == input[i];
      InsertAt(a, i, key);
      assert input[..i + 1][..i] == input[..i];
      i := i + 1;
    }
    assert input[..a.Length] == input;
  }
}
