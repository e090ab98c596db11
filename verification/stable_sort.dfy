/** `Array.prototype.sort` with a numeric comparator `(a, b) => key(a) -
    key(b)`. The ECMAScript standard (since its 2019 edition) requires the
    sort to be stable, and a stable sort by a total key has exactly one
    result; it is written here as an insertion sort. */
module StableSort {
  import opened Seqs

  predicate SortedBy<T>(s: seq<T>, key: T -> int) {
    forall i, j :: 0 <= i < j < |s| ==> key(s[i]) <= key(s[j])
  }

  /** The elements whose key is `v`. */
  function WithKey<T>(key: T -> int, v: int): T -> bool {
    x => key(x) == v
  }

  /** `t` with `x` placed after every element whose key is at most `x`'s. */
  function Insert<T(==)>(t: seq<T>, x: T, key: T -> int): (r: seq<T>)
    ensures |r| == |t| + 1
  {
    if |t| == 0 then [x]
    else if key(t[|t| - 1]) <= key(x) then t + [x]
    else
      var init := t[..|t| - 1];
      assert t == init + [t[|t| - 1]];
      Insert(init, x, key) + [t[|t| - 1]]
  }

  function Sort<T(==)>(s: seq<T>, key: T -> int): (r: seq<T>)
    ensures |r| == |s|
  {
    if |s| == 0 then []
    else
      var init := s[..|s| - 1];
      assert s == init + [s[|s| - 1]];
      Insert(Sort(init, key), s[|s| - 1], key)
  }

  lemma {:induction false} InsertPermutes<T>(t: seq<T>, x: T, key: T -> int)
    ensures multiset(Insert(t, x, key)) == multiset(t) + multiset{x}
  {
    if |t| > 0 && key(t[|t| - 1]) > key(x) {
      var init, last := t[..|t| - 1], t[|t| - 1];
      assert t == init + [last];
      InsertPermutes(init, x, key);
    }
  }

  /** The result is a permutation of the input. */
  lemma {:induction false} SortPermutes<T>(s: seq<T>, key: T -> int)
    ensures multiset(Sort(s, key)) == multiset(s)
  {
    if |s| > 0 {
      var init, last := s[..|s| - 1], s[|s| - 1];
      assert s == init + [last];
      SortPermutes(init, key);
      InsertPermutes(Sort(init, key), last, key);
    }
  }

  lemma {:induction false} InsertSorted<T>(t: seq<T>, x: T, key: T -> int)
    requires SortedBy(t, key)
    ensures SortedBy(Insert(t, x, key), key)
    ensures forall i :: 0 <= i < |Insert(t, x, key)| ==>
              Insert(t, x, key)[i] == x || Insert(t, x, key)[i] in t
  {
    if |t| > 0 && key(t[|t| - 1]) > key(x) {
      var init, last := t[..|t| - 1], t[|t| - 1];
      InsertSorted(init, x, key);
      var r := Insert(init, x, key);
      forall i | 0 <= i < |r| ensures key(r[i]) <= key(last) {
        if r[i] != x {
          assert r[i] in init;
          var j :| 0 <= j < |init| && init[j] == r[i];
          assert t[j] == r[i];
        }
      }
      forall i | 0 <= i < |r| ensures r[i] == x || r[i] in t {
        if r[i] != x {
          assert r[i] in init;
        }
      }
    }
  }

  /** The result is ordered by key. */
  lemma {:induction false} SortSorted<T>(s: seq<T>, key: T -> int)
    ensures SortedBy(Sort(s, key), key)
  {
    if |s| > 0 {
      SortSorted(s[..|s| - 1], key);
      InsertSorted(Sort(s[..|s| - 1], key), s[|s| - 1], key);
    }
  }

  lemma FilterOne<T>(x: T, keep: T -> bool)
    ensures Filter([x], keep) == if keep(x) then [x] else []
  {
    assert [x][1..] == [];
  }

  lemma {:induction false} InsertStable<T>(t: seq<T>, x: T, key: T -> int, v: int)
    ensures Filter(Insert(t, x, key), WithKey(key, v))
            == Filter(t, WithKey(key, v)) + Filter([x], WithKey(key, v))
  {
    var p := WithKey(key, v);
    if |t| == 0 {
      assert Filter(t, p) == [];
    } else if key(t[|t| - 1]) <= key(x) {
      FilterConcat(t, [x], p);
    } else {
      var init, last := t[..|t| - 1], t[|t| - 1];
      assert t == init + [last];
      assert Insert(t, x, key) == Insert(init, x, key) + [last];
      InsertStable(init, x, key, v);
      InsertBeforeLast(init, last, x, key, v);
    }
  }

  /** The step of `InsertStable` where `x` goes before the last element. */
  lemma InsertBeforeLast<T>(init: seq<T>, last: T, x: T, key: T -> int, v: int)
    requires key(last) > key(x)
    requires Filter(Insert(init, x, key), WithKey(key, v))
             == Filter(init, WithKey(key, v)) + Filter([x], WithKey(key, v))
    ensures Filter(Insert(init, x, key) + [last], WithKey(key, v))
            == Filter(init + [last], WithKey(key, v)) + Filter([x], WithKey(key, v))
  {
    var p := WithKey(key, v);
    FilterConcat(Insert(init, x, key), [last], p);
    FilterConcat(init, [last], p);
    FilterOne(x, p);
    FilterOne(last, p);
  }

  /** Elements with equal keys keep their relative order. */
  lemma {:induction false} SortStable<T>(s: seq<T>, key: T -> int, v: int)
    ensures Filter(Sort(s, key), WithKey(key, v)) == Filter(s, WithKey(key, v))
  {
    if |s| > 0 {
      var init, last := s[..|s| - 1], s[|s| - 1];
      assert s == init + [last];
      assert Sort(s, key) == Insert(Sort(init, key), last, key);
      SortStable(init, key, v);
      InsertStable(Sort(init, key), last, key, v);
      FilterConcat(init, [last], WithKey(key, v));
    }
  }
}
