/**
 * Python's `sorted(xs, key=k, reverse=True)`: a stable sort into non-increasing key order.
 * Keys are pairs compared lexicographically, which covers both an `int` key and a tuple
 * `(bool, timestamp)` key.
 */
module Sorting {

  datatype Key = Key(major: int, minor: int)

  /** `a > b` under tuple comparison. */
  predicate Above(a: Key, b: Key) {
    a.major > b.major || (a.major == b.major && a.minor > b.minor)
  }

  /** Non-increasing key order. */
  predicate SortedDesc<T>(xs: seq<T>, key: T -> Key) {
    forall i, j :: 0 <= i < j < |xs| ==> !Above(key(xs[j]), key(xs[i]))
  }

  /** The elements of `xs` whose key is `k`, in their order in `xs`. */
  function WithKey<T>(xs: seq<T>, key: T -> Key, k: Key): seq<T> {
    if xs == [] then []
    else (if key(xs[0]) == k then [xs[0]] else []) + WithKey(xs[1..], key, k)
  }

  /** Places `x` in front of the first element whose key is strictly below its own. */
  function Insert<T>(x: T, ys: seq<T>, key: T -> Key): seq<T> {
    if ys == [] || Above(key(x), key(ys[0])) then [x] + ys
    else [ys[0]] + Insert(x, ys[1..], key)
  }

  /** Insertion sort that takes the elements of `xs` from first to last. */
  function SortDesc<T>(xs: seq<T>, key: T -> Key): seq<T> {
    if xs == [] then [] else Insert(xs[|xs| - 1], SortDesc(xs[..|xs| - 1], key), key)
  }

  // ---------------------------------------------------------------- permutation

  lemma {:induction false} InsertPermutes<T>(x: T, ys: seq<T>, key: T -> Key)
    ensures multiset(Insert(x, ys, key)) == multiset(ys) + multiset{x}
  {
    if !(ys == [] || Above(key(x), key(ys[0]))) {
      InsertPermutes(x, ys[1..], key);
      assert ys == [ys[0]] + ys[1..];
    }
  }

  /** The sorted list is a permutation of the input. */
  lemma {:induction false} SortDescPermutes<T>(xs: seq<T>, key: T -> Key)
    ensures multiset(SortDesc(xs, key)) == multiset(xs)
  {
    if xs != [] {
      var init := xs[..|xs| - 1];
      SortDescPermutes(init, key);
      InsertPermutes(xs[|xs| - 1], SortDesc(init, key), key);
      assert xs == init + [xs[|xs| - 1]];
    }
  }

  // ---------------------------------------------------------------- order

  lemma {:induction false} InsertSorted<T>(x: T, ys: seq<T>, key: T -> Key)
    requires SortedDesc(ys, key)
    ensures SortedDesc(Insert(x, ys, key), key)
    ensures |Insert(x, ys, key)| == |ys| + 1
    ensures Insert(x, ys, key)[0] == x || Insert(x, ys, key)[0] == ys[0]
  {
    if ys == [] || Above(key(x), key(ys[0])) {
      var r := [x] + ys;
      forall i, j | 0 <= i < j < |r| ensures !Above(key(r[j]), key(r[i])) {
        if i == 0 {
          assert r[j] == ys[j - 1];
          assert !Above(key(ys[j - 1]), key(ys[0])) || j - 1 == 0;
        } else {
          assert r[i] == ys[i - 1] && r[j] == ys[j - 1];
        }
      }
    } else {
      var tail := ys[1..];
      assert SortedDesc(tail, key) by {
        forall i, j | 0 <= i < j < |tail| ensures !Above(key(tail[j]), key(tail[i])) {
          assert tail[i] == ys[i + 1] && tail[j] == ys[j + 1];
        }
      }
      InsertSorted(x, tail, key);
      var it := Insert(x, tail, key);
      var r := [ys[0]] + it;
      forall i, j | 0 <= i < j < |r| ensures !Above(key(r[j]), key(r[i])) {
        if i == 0 {
          assert r[j] == it[j - 1];
          InsertElements(x, tail, key, j - 1);
          if it[j - 1] != x {
            var m :| 0 <= m < |tail| && tail[m] == it[j - 1];
            assert tail[m] == ys[m + 1];
          }
        } else {
          assert r[i] == it[i - 1] && r[j] == it[j - 1];
        }
      }
    }
  }

  lemma {:induction false} InsertElements<T>(x: T, ys: seq<T>, key: T -> Key, k: nat)
    requires k < |Insert(x, ys, key)|
    ensures Insert(x, ys, key)[k] == x || exists m :: 0 <= m < |ys| && ys[m] == Insert(x, ys, key)[k]
  {
    if ys == [] || Above(key(x), key(ys[0])) {
      if k > 0 {
        assert Insert(x, ys, key)[k] == ys[k - 1];
      }
    } else if k > 0 {
      InsertElements(x, ys[1..], key, k - 1);
      if Insert(x, ys[1..], key)[k - 1] != x {
        var m :| 0 <= m < |ys[1..]| && ys[1..][m] == Insert(x, ys[1..], key)[k - 1];
        assert ys[m + 1] == Insert(x, ys, key)[k];
      }
    }
  }

  /** The sorted list is in non-increasing key order. */
  lemma {:induction false} SortDescSorted<T>(xs: seq<T>, key: T -> Key)
    ensures SortedDesc(SortDesc(xs, key), key)
    ensures |SortDesc(xs, key)| == |xs|
  {
    if xs != [] {
      SortDescSorted(xs[..|xs| - 1], key);
      InsertSorted(xs[|xs| - 1], SortDesc(xs[..|xs| - 1], key), key);
    }
  }

  // ---------------------------------------------------------------- stability

  lemma {:induction false} WithKeyAppend<T>(xs: seq<T>, ys: seq<T>, key: T -> Key, k: Key)
    ensures WithKey(xs + ys, key, k) == WithKey(xs, key, k) + WithKey(ys, key, k)
  {
    if xs == [] {
      assert xs + ys == ys;
    } else {
      assert (xs + ys)[0] == xs[0] && (xs + ys)[1..] == xs[1..] + ys;
      WithKeyAppend(xs[1..], ys, key, k);
    }
  }

  /** In a sorted list no element after one with a smaller key than `x` has the key of `x`. */
  lemma {:induction false} InsertWithKey<T>(x: T, ys: seq<T>, key: T -> Key, k: Key)
    requires SortedDesc(ys, key)
    ensures WithKey(Insert(x, ys, key), key, k)
      == WithKey(ys, key, k) + (if key(x) == k then [x] else [])
  {
    if ys == [] {
    } else if Above(key(x), key(ys[0])) {
      if key(x) == k {
        NoneWithKey(ys, key, k);
      }
      WithKeyAppend([x], ys, key, k);
    } else {
      var tail := ys[1..];
      assert SortedDesc(tail, key) by {
        forall i, j | 0 <= i < j < |tail| ensures !Above(key(tail[j]), key(tail[i])) {
          assert tail[i] == ys[i + 1] && tail[j] == ys[j + 1];
        }
      }
      InsertWithKey(x, tail, key, k);
      assert ([ys[0]] + Insert(x, tail, key))[1..] == Insert(x, tail, key);
    }
  }

  /** In a sorted list whose head is below `k`, no element has key `k`. */
  lemma {:induction false} NoneWithKey<T>(ys: seq<T>, key: T -> Key, k: Key)
    requires SortedDesc(ys, key) && ys != [] && Above(k, key(ys[0]))
    ensures WithKey(ys, key, k) == []
  {
    if |ys| > 1 {
      var tail := ys[1..];
      assert SortedDesc(tail, key) by {
        forall i, j | 0 <= i < j < |tail| ensures !Above(key(tail[j]), key(tail[i])) {
          assert tail[i] == ys[i + 1] && tail[j] == ys[j + 1];
        }
      }
      assert !Above(key(ys[1]), key(ys[0]));
      NoneWithKey(tail, key, k);
    }
  }

  /** Stability: elements with equal keys keep their input order. */
  lemma {:induction false} SortDescStable<T>(xs: seq<T>, key: T -> Key, k: Key)
    ensures WithKey(SortDesc(xs, key), key, k) == WithKey(xs, key, k)
  {
    if xs != [] {
      var init := xs[..|xs| - 1];
      var x := xs[|xs| - 1];
      SortDescStable(init, key, k);
      SortDescSorted(init, key);
      InsertWithKey(x, SortDesc(init, key), key, k);
      assert xs == init + [x];
      WithKeyAppend(init, [x], key, k);
    }
  }

  // ---------------------------------------------------------------- the first element

  lemma {:induction false} WithKeyFirst<T>(xs: seq<T>, key: T -> Key, i: nat)
    requires i < |xs|
    requires forall j :: 0 <= j < i ==> key(xs[j]) != key(xs[i])
    ensures WithKey(xs, key, key(xs[i])) != [] && WithKey(xs, key, key(xs[i]))[0] == xs[i]
    decreases i
  {
    if i > 0 {
      forall j | 0 <= j < i - 1 ensures key(xs[1..][j]) != key(xs[1..][i - 1]) {
        assert xs[1..][j] == xs[j + 1];
      }
      WithKeyFirst(xs[1..], key, i - 1);
    }
  }

  /**
   * `sorted(xs, key=k, reverse=True)[0]` is the first element of `xs` whose key is the
   * largest: no element has a greater key and every earlier element has a smaller one.
   */
  lemma SortDescHead<T>(xs: seq<T>, key: T -> Key)
    requires xs != []
    ensures |SortDesc(xs, key)| == |xs|
    ensures exists i :: (0 <= i < |xs| && xs[i] == SortDesc(xs, key)[0]
                         && (forall j :: 0 <= j < |xs| ==> !Above(key(xs[j]), key(xs[i])))
                         && (forall j :: 0 <= j < i ==> Above(key(xs[i]), key(xs[j]))))
  {
    var sorted := SortDesc(xs, key);
    SortDescSorted(xs, key);
    SortDescPermutes(xs, key);
    var h := sorted[0];
    var k := key(h);
    forall j | 0 <= j < |xs| ensures !Above(key(xs[j]), k) {
      assert xs[j] in multiset(sorted);
      var t :| 0 <= t < |sorted| && sorted[t] == xs[j];
      if t > 0 {
        assert !Above(key(sorted[t]), key(sorted[0]));
      }
    }
    assert h in multiset(xs);
    var i0 := FirstWithKey(xs, key, k);
    WithKeyFirst(xs, key, i0);
    WithKeyFirst(sorted, key, 0);
    SortDescStable(xs, key, k);
    forall j | 0 <= j < i0 ensures Above(key(xs[i0]), key(xs[j])) {
      assert !Above(key(xs[j]), k);
    }
  }

  /** The first index of `xs` whose key is `k`, given that some element has it. */
  lemma FirstWithKey<T>(xs: seq<T>, key: T -> Key, k: Key) returns (i: nat)
    requires exists m :: 0 <= m < |xs| && key(xs[m]) == k
    ensures i < |xs| && key(xs[i]) == k
    ensures forall j :: 0 <= j < i ==> key(xs[j]) != k
  {
    i := 0;
    while key(xs[i]) != k
      invariant i < |xs|
      invariant forall j :: 0 <= j < i ==> key(xs[j]) != k
      decreases |xs| - i
    {
      i := i + 1;
    }
  }
}
