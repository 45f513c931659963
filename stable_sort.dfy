/** `Array.prototype.sort` with a "descending by key" comparator (`(a, b) => key(b) - key(a)`).
    The sort is stable (ECMAScript 2019 and later), so its result is fixed: the elements in
    non-increasing key order, and elements with equal keys in their original order. The model
    is an insertion sort; `SortDesc` is its functional definition and `SortDescending` the
    in-place version on an array. */
module StableSort {
  import opened Lists

  ghost predicate SortedDesc<T>(s: seq<T>, key: T -> real)
  {
    forall i, j :: 0 <= i < j < |s| ==> key(s[i]) >= key(s[j])
  }

  /** The elements of `s` whose key is `k`, in order. */
  function WithKey<T>(s: seq<T>, key: T -> real, k: real): seq<T>
  {
    Filter(s, x => key(x) == k)
  }

  /** Inserts `x` after the last element whose key is not smaller than its own. */
  function InsertDesc<T>(t: seq<T>, x: T, key: T -> real): (r: seq<T>)
    ensures |r| == |t| + 1
  {
    if |t| == 0 then [x]
    else if key(t[|t| - 1]) < key(x) then InsertDesc(t[..|t| - 1], x, key) + [t[|t| - 1]]
    else t + [x]
  }

  function SortDesc<T>(s: seq<T>, key: T -> real): (r: seq<T>)
    ensures |r| == |s|
  {
    if |s| == 0 then [] else InsertDesc(SortDesc(s[..|s| - 1], key), s[|s| - 1], key)
  }

  lemma {:induction false} InsertDescMultiset<T>(t: seq<T>, x: T, key: T -> real)
    ensures multiset(InsertDesc(t, x, key)) == multiset(t) + multiset{x}
    decreases |t|
  {
    if |t| > 0 && key(t[|t| - 1]) < key(x) {
      InsertDescMultiset(t[..|t| - 1], x, key);
      assert t == t[..|t| - 1] + [t[|t| - 1]];
    }
  }

  lemma {:induction false} InsertDescSorted<T>(t: seq<T>, x: T, key: T -> real)
    requires SortedDesc(t, key)
    ensures SortedDesc(InsertDesc(t, x, key), key)
    decreases |t|
  {
    if |t| > 0 {
      var last := t[|t| - 1];
      var t' := t[..|t| - 1];
      if key(last) < key(x) {
        InsertDescSorted(t', x, key);
        var u := InsertDesc(t', x, key);
        InsertDescMultiset(t', x, key);
        forall i | 0 <= i < |u| ensures key(u[i]) >= key(last) {
          assert u[i] in multiset(u);
          if u[i] != x {
            assert u[i] in multiset(t');
            var k :| 0 <= k < |t'| && t'[k] == u[i];
            assert t[k] == u[i];
          }
        }
      }
    }
  }

  lemma {:induction false} InsertDescStable<T>(t: seq<T>, x: T, key: T -> real, k: real)
    ensures WithKey(InsertDesc(t, x, key), key, k) ==
            WithKey(t, key, k) + (if key(x) == k then [x] else [])
    decreases |t|
  {
    var p := (y: T) => key(y) == k;
    if |t| == 0 {
    } else {
      var last := t[|t| - 1];
      var t' := t[..|t| - 1];
      assert t == t' + [last];
      FilterAppend(t', [last], p);
      if key(last) < key(x) {
        InsertDescStable(t', x, key, k);
        FilterAppend(InsertDesc(t', x, key), [last], p);
        if key(x) == k {
          assert Filter([last], p) == [];
        }
      } else {
        FilterAppend(t, [x], p);
      }
    }
  }

  /** What the source relies on: the result is ordered by non-increasing key, is a permutation
      of the input, and keeps the input order among elements with the same key. */
  lemma {:induction false} SortDescCorrect<T>(s: seq<T>, key: T -> real)
    ensures SortedDesc(SortDesc(s, key), key)
    ensures multiset(SortDesc(s, key)) == multiset(s)
    ensures forall k :: WithKey(SortDesc(s, key), key, k) == WithKey(s, key, k)
    decreases |s|
  {
    if |s| > 0 {
      var s' := s[..|s| - 1];
      var x := s[|s| - 1];
      assert s == s' + [x];
      SortDescCorrect(s', key);
      InsertDescSorted(SortDesc(s', key), x, key);
      InsertDescMultiset(SortDesc(s', key), x, key);
      forall k ensures WithKey(SortDesc(s, key), key, k) == WithKey(s, key, k) {
        InsertDescStable(SortDesc(s', key), x, key, k);
        FilterAppend(s', [x], y => key(y) == k);
      }
    }
  }

  /** Every element of the sorted sequence comes from the input, and every input element is kept. */
  lemma SortDescMembers<T>(s: seq<T>, key: T -> real)
    ensures forall i :: 0 <= i < |s| ==> s[i] in SortDesc(s, key)
    ensures forall i :: 0 <= i < |s| ==> SortDesc(s, key)[i] in s
  {
    SortDescCorrect(s, key);
    var r := SortDesc(s, key);
    forall i | 0 <= i < |s| ensures s[i] in r && r[i] in s {
      assert s[i] in multiset(s);
      assert r[i] in multiset(r);
    }
  }

  /** Where `InsertDesc` puts `x`: after the prefix `t[..j]` when the last element of that prefix
      has a key at least that of `x` and every later element a smaller key. */
  lemma {:induction false} InsertAt<T>(t: seq<T>, j: nat, x: T, key: T -> real)
    requires j <= |t| && (j == 0 || key(t[j - 1]) >= key(x))
    requires forall k :: j <= k < |t| ==> key(t[k]) < key(x)
    ensures InsertDesc(t, x, key) == t[..j] + [x] + t[j..]
    decreases |t|
  {
    if |t| > j {
      var t' := t[..|t| - 1];
      InsertAt(t', j, x, key);
      assert t'[..j] == t[..j];
      assert t'[j..] + [t[|t| - 1]] == t[j..];
    } else {
      assert t[..j] == t;
    }
  }

  /** One insertion-sort step on `a[..i+1]`: shifts the elements whose key is smaller than
      that of `a[i]` one place right and drops `a[i]` into the gap. */
  method InsertStep<T>(a: array<T>, i: nat, key: T -> real, ghost t: seq<T>)
    requires i < a.Length && a[..i] == t
    modifies a
    ensures a[..i + 1] == InsertDesc(t, old(a[i]), key)
    ensures a[i + 1..] == old(a[i + 1..])
  {
    var x := a[i];
    var j := i;
    assert |t| == i;
    while j > 0 && key(a[j - 1]) < key(x)
      invariant 0 <= j <= i
      invariant forall k :: 0 <= k < j ==> a[k] == t[k]
      invariant forall k :: j < k <= i ==> a[k] == t[k - 1]
      invariant forall k :: i < k < a.Length ==> a[k] == old(a[k])
      invariant forall k :: j <= k < i ==> key(t[k]) < key(x)
    {
      a[j] := a[j - 1];
      assert a[j] == t[j - 1];
      j := j - 1;
    }
    InsertAt(t, j, x, key);
    a[j] := x;
    Reassembled(a[..i + 1], t, j, x);
  }

  /** A sequence that agrees with `t` before `j`, holds `x` at `j` and `t` shifted by one after it. */
  lemma Reassembled<T>(b: seq<T>, t: seq<T>, j: nat, x: T)
    requires j <= |t| && |b| == |t| + 1
    requires forall k :: 0 <= k < j ==> b[k] == t[k]
    requires b[j] == x
    requires forall k :: j < k < |b| ==> b[k] == t[k - 1]
    ensures b == t[..j] + [x] + t[j..]
  {
  }

  /** `a.sort((p, q) => key(q) - key(p))`: sorts `a` in place. */
  method SortDescending<T>(a: array<T>, key: T -> real)
    modifies a
    ensures a[..] == SortDesc(old(a[..]), key)
  {
    ghost var s := a[..];
    var i := 0;
    while i < a.Length
      invariant 0 <= i <= a.Length
      invariant a[..i] == SortDesc(s[..i], key)
      invariant a[i..] == s[i..]
    {
      assert s[..i + 1][..i] == s[..i];
      InsertStep(a, i, key, a[..i]);
      i := i + 1;
    }
    assert s[..a.Length] == s;
  }
}
