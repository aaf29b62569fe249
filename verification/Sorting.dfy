/** `sort_by`: the stable sort of a sequence by a key. */
module Sorting {

  ghost predicate TotalOrder<K(!new)>(le: (K, K) -> bool) {
    && (forall a, b :: le(a, b) || le(b, a))
    && (forall a, b :: le(a, b) && le(b, a) ==> a == b)
    && (forall a, b, c :: le(a, b) && le(b, c) ==> le(a, c))
  }

  /** Inserts in front of the first element whose key is not smaller. */
  function Insert<T, K>(x: T, xs: seq<T>, key: T -> K, le: (K, K) -> bool): seq<T> {
    if xs == [] then [x]
    else if le(key(x), key(xs[0])) then [x] + xs
    else [xs[0]] + Insert(x, xs[1..], key, le)
  }

  function Sort<T, K>(xs: seq<T>, key: T -> K, le: (K, K) -> bool): seq<T> {
    if xs == [] then [] else Insert(xs[0], Sort(xs[1..], key, le), key, le)
  }

  /** The elements with one key, in order. */
  function With<T, K(==)>(xs: seq<T>, key: T -> K, k: K): seq<T> {
    if xs == [] then []
    else if key(xs[0]) == k then [xs[0]] + With(xs[1..], key, k)
    else With(xs[1..], key, k)
  }

  ghost predicate Sorted<T, K>(xs: seq<T>, key: T -> K, le: (K, K) -> bool) {
    |xs| > 1 ==> le(key(xs[0]), key(xs[1])) && Sorted(xs[1..], key, le)
  }

  lemma {:induction false} InsertKeeps<T, K(!new)>(x: T, xs: seq<T>, key: T -> K, le: (K, K) -> bool)
    requires TotalOrder(le) && Sorted(xs, key, le)
    ensures Sorted(Insert(x, xs, key, le), key, le)
    ensures Insert(x, xs, key, le) != []
    ensures var y := Insert(x, xs, key, le)[0]; y == x || (xs != [] && y == xs[0])
  {
    if xs != [] {
      if le(key(x), key(xs[0])) {
        assert ([x] + xs)[1..] == xs;
      } else {
        InsertKeeps(x, xs[1..], key, le);
        var tail := Insert(x, xs[1..], key, le);
        assert ([xs[0]] + tail)[1..] == tail;
        assert xs[1..] != [] ==> xs[1..][0] == xs[1];
      }
    }
  }

  lemma {:induction false} InsertWith<T, K(!new)>(x: T, xs: seq<T>, key: T -> K, le: (K, K) -> bool, k: K)
    requires TotalOrder(le)
    ensures With(Insert(x, xs, key, le), key, k) == With([x] + xs, key, k)
  {
    assert ([x] + xs)[1..] == xs;
    if xs != [] && !le(key(x), key(xs[0])) {
      var tail := Insert(x, xs[1..], key, le);
      InsertWith(x, xs[1..], key, le, k);
      assert ([xs[0]] + tail)[1..] == tail;
      assert ([x] + xs[1..])[1..] == xs[1..];
      assert key(x) != key(xs[0]);
    }
  }

  /** The result is sorted, and the elements with equal keys keep their order. */
  lemma {:induction false} SortIsStable<T, K(!new)>(xs: seq<T>, key: T -> K, le: (K, K) -> bool, k: K)
    requires TotalOrder(le)
    ensures Sorted(Sort(xs, key, le), key, le)
    ensures With(Sort(xs, key, le), key, k) == With(xs, key, k)
  {
    if xs != [] {
      SortIsStable(xs[1..], key, le, k);
      var tail := Sort(xs[1..], key, le);
      InsertKeeps(xs[0], tail, key, le);
      InsertWith(xs[0], tail, key, le, k);
      assert ([xs[0]] + tail)[1..] == tail;
    }
  }

  lemma {:induction false} FirstIsLeast<T, K(!new)>(xs: seq<T>, key: T -> K, le: (K, K) -> bool, k: K)
    requires TotalOrder(le) && Sorted(xs, key, le) && With(xs, key, k) != []
    ensures xs != [] && le(key(xs[0]), k)
  {
    if key(xs[0]) != k {
      FirstIsLeast(xs[1..], key, le, k);
      assert xs[1..][0] == xs[1];
    }
  }

  lemma EmptyTogether<T, K(!new)>(xs: seq<T>, ys: seq<T>, key: T -> K)
    requires forall k: K :: With(xs, key, k) == With(ys, key, k)
    ensures xs == [] <==> ys == []
  {
    if xs != [] {
      assert With(xs, key, key(xs[0])) != [];
    }
    if ys != [] {
      assert With(ys, key, key(ys[0])) != [];
    }
  }

  /** A sorted sequence is determined by its elements with each key. */
  lemma {:induction false} SortedIsUnique<T, K(!new)>(xs: seq<T>, ys: seq<T>, key: T -> K, le: (K, K) -> bool)
    requires TotalOrder(le) && Sorted(xs, key, le) && Sorted(ys, key, le)
    requires forall k: K :: With(xs, key, k) == With(ys, key, k)
    ensures xs == ys
  {
    EmptyTogether(xs, ys, key);
    if xs != [] {
      var k := key(xs[0]);
      assert With(xs, key, k)[0] == xs[0];
      FirstIsLeast(ys, key, le, k);
      var k' := key(ys[0]);
      assert With(ys, key, k')[0] == ys[0];
      assert With(xs, key, k') == With(ys, key, k');
      FirstIsLeast(xs, key, le, k');
      assert k == k' && xs[0] == ys[0];
      forall j: K ensures With(xs[1..], key, j) == With(ys[1..], key, j) {
        assert With(xs, key, j) == With(ys, key, j);
        if j == k {
          assert With(xs, key, j)[1..] == With(xs[1..], key, j);
          assert With(ys, key, j)[1..] == With(ys[1..], key, j);
        }
      }
      SortedIsUnique(xs[1..], ys[1..], key, le);
    }
  }

  /** Sequences with the same elements for each key, in the same order, sort to the same sequence. */
  lemma SameGroupsSameSort<T, K(!new)>(xs: seq<T>, ys: seq<T>, key: T -> K, le: (K, K) -> bool)
    requires TotalOrder(le)
    requires forall k: K :: With(xs, key, k) == With(ys, key, k)
    ensures Sort(xs, key, le) == Sort(ys, key, le)
  {
    forall k: K ensures With(Sort(xs, key, le), key, k) == With(Sort(ys, key, le), key, k) {
      SortIsStable(xs, key, le, k);
      SortIsStable(ys, key, le, k);
      assert With(xs, key, k) == With(ys, key, k);
    }
    assert Sorted(Sort(xs, key, le), key, le) && Sorted(Sort(ys, key, le), key, le) by {
      if xs != [] { SortIsStable(xs, key, le, key(xs[0])); }
      if ys != [] { SortIsStable(ys, key, le, key(ys[0])); }
    }
    SortedIsUnique(Sort(xs, key, le), Sort(ys, key, le), key, le);
  }

  lemma {:induction false} WithAppend<T, K>(xs: seq<T>, ys: seq<T>, key: T -> K, k: K)
    ensures With(xs + ys, key, k) == With(xs, key, k) + With(ys, key, k)
  {
    if xs == [] {
      assert xs + ys == ys;
    } else {
      assert (xs + ys)[0] == xs[0] && (xs + ys)[1..] == xs[1..] + ys;
      WithAppend(xs[1..], ys, key, k);
    }
  }

  /** Sorting only moves elements. */
  lemma {:induction false} SortKeepsElements<T>(xs: seq<T>, key: T -> (string, string),
      le: ((string, string), (string, string)) -> bool)
    ensures multiset(Sort(xs, key, le)) == multiset(xs)
  {
    if xs != [] {
      SortKeepsElements(xs[1..], key, le);
      InsertAdds(xs[0], Sort(xs[1..], key, le), key, le);
      assert xs == [xs[0]] + xs[1..];
    }
  }

  lemma {:induction false} InsertAdds<T>(x: T, xs: seq<T>, key: T -> (string, string),
      le: ((string, string), (string, string)) -> bool)
    ensures multiset(Insert(x, xs, key, le)) == multiset{x} + multiset(xs)
  {
    if xs != [] && !le(key(x), key(xs[0])) {
      InsertAdds(x, xs[1..], key, le);
      assert xs == [xs[0]] + xs[1..];
    }
  }

  // ---- The order of pairs of texts

  /** The order of texts by code points, which is the order of their UTF-8 bytes. */
  predicate TextLe(a: string, b: string) {
    a == [] || (b != [] && (a[0] < b[0] || (a[0] == b[0] && TextLe(a[1..], b[1..]))))
  }

  lemma {:induction false} TextTotal(a: string, b: string)
    ensures TextLe(a, b) || TextLe(b, a)
  {
    if a != [] && b != [] && a[0] == b[0] {
      TextTotal(a[1..], b[1..]);
    }
  }

  lemma {:induction false} TextAntisymmetric(a: string, b: string)
    requires TextLe(a, b) && TextLe(b, a)
    ensures a == b
  {
    if a != [] && b != [] {
      TextAntisymmetric(a[1..], b[1..]);
      assert a == [a[0]] + a[1..] && b == [b[0]] + b[1..];
    }
  }

  lemma {:induction false} TextTransitive(a: string, b: string, c: string)
    requires TextLe(a, b) && TextLe(b, c)
    ensures TextLe(a, c)
  {
    if a != [] && b != [] && c != [] && a[0] == b[0] == c[0] {
      TextTransitive(a[1..], b[1..], c[1..]);
    }
  }

  predicate PairLe(a: (string, string), b: (string, string)) {
    if a.0 == b.0 then TextLe(a.1, b.1) else TextLe(a.0, b.0)
  }

  lemma PairLeIsTotal()
    ensures TotalOrder(PairLe)
  {
    forall a, b ensures PairLe(a, b) || PairLe(b, a) {
      TextTotal(a.0, b.0);
      TextTotal(a.1, b.1);
    }
    forall a, b | PairLe(a, b) && PairLe(b, a) ensures a == b {
      if a.0 == b.0 { TextAntisymmetric(a.1, b.1); } else { TextAntisymmetric(a.0, b.0); }
    }
    forall a, b, c | PairLe(a, b) && PairLe(b, c) ensures PairLe(a, c) {
      if a.0 == b.0 == c.0 {
        TextTransitive(a.1, b.1, c.1);
      } else if a.0 != b.0 && b.0 != c.0 {
        TextTransitive(a.0, b.0, c.0);
        if a.0 == c.0 {
          TextAntisymmetric(a.0, b.0);
        }
      }
    }
  }
}
