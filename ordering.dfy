/** Python's ordering of `str` values (code point by code point, a proper
    prefix first) and `sorted`/`list.sort(key=...)` over it. */
module Ordering {

  /** `a <= b` on Python strings. */
  predicate LexLe(a: string, b: string) {
    a == [] || (b != [] && (a[0] < b[0] || (a[0] == b[0] && LexLe(a[1..], b[1..]))))
  }

  lemma {:induction false} LexLeTotal(a: string, b: string)
    ensures LexLe(a, b) || LexLe(b, a)
  {
    if a != [] && b != [] && a[0] == b[0] {
      LexLeTotal(a[1..], b[1..]);
    }
  }

  lemma {:induction false} LexLeTransitive(a: string, b: string, c: string)
    requires LexLe(a, b) && LexLe(b, c)
    ensures LexLe(a, c)
  {
    if a != [] && a[0] == b[0] && b[0] == c[0] {
      LexLeTransitive(a[1..], b[1..], c[1..]);
    }
  }

  lemma {:induction false} LexLeAntisymmetric(a: string, b: string)
    requires LexLe(a, b) && LexLe(b, a)
    ensures a == b
  {
    if a != [] {
      LexLeAntisymmetric(a[1..], b[1..]);
      assert a == [a[0]] + a[1..];
      assert b == [b[0]] + b[1..];
    }
  }

  /** Every earlier key is at most every later key. */
  predicate SortedBy<T>(xs: seq<T>, key: T -> string) {
    forall i, j :: 0 <= i < j < |xs| ==> LexLe(key(xs[i]), key(xs[j]))
  }

  /** Puts `x` before the first element whose key is not below it. */
  function Insert<T>(x: T, ys: seq<T>, key: T -> string): seq<T>
  {
    if ys == [] then [x]
    else if LexLe(key(x), key(ys[0])) then [x] + ys
    else [ys[0]] + Insert(x, ys[1..], key)
  }

  /** Insertion sort; an element is placed before the equal keys that come
      after it in `xs`, so equal keys keep their order, as in Python. */
  function SortBy<T>(xs: seq<T>, key: T -> string): seq<T>
  {
    if xs == [] then [] else Insert(xs[0], SortBy(xs[1..], key), key)
  }

  lemma {:induction false} InsertPermutes<T>(x: T, ys: seq<T>, key: T -> string)
    ensures multiset(Insert(x, ys, key)) == multiset(ys) + multiset{x}
  {
    if ys != [] && !LexLe(key(x), key(ys[0])) {
      InsertPermutes(x, ys[1..], key);
      assert ys == [ys[0]] + ys[1..];
    }
  }

  lemma {:induction false} InsertCorrect<T>(x: T, ys: seq<T>, key: T -> string)
    requires SortedBy(ys, key)
    ensures multiset(Insert(x, ys, key)) == multiset(ys) + multiset{x}
    ensures SortedBy(Insert(x, ys, key), key)
  {
    InsertPermutes(x, ys, key);
    var r := Insert(x, ys, key);
    if ys == [] {
    } else if LexLe(key(x), key(ys[0])) {
      forall i, j | 0 <= i < j < |r| ensures LexLe(key(r[i]), key(r[j])) {
        if i == 0 && j > 1 {
          LexLeTransitive(key(x), key(ys[0]), key(ys[j - 1]));
        }
      }
    } else {
      var tail := ys[1..];
      InsertCorrect(x, tail, key);
      LexLeTotal(key(x), key(ys[0]));
      HeadBelowInsert(ys, x, key);
      var t := Insert(x, tail, key);
      assert r == [ys[0]] + t;
    }
  }

  /** The head of a sorted list stays at most every element after `x` is
      inserted into its tail, when `x` is not below it. */
  lemma HeadBelowInsert<T>(ys: seq<T>, x: T, key: T -> string)
    requires ys != [] && SortedBy(ys, key) && LexLe(key(ys[0]), key(x))
    ensures forall k :: 0 <= k < |Insert(x, ys[1..], key)| ==> LexLe(key(ys[0]), key(Insert(x, ys[1..], key)[k]))
  {
    var tail := ys[1..];
    var t := Insert(x, tail, key);
    InsertPermutes(x, tail, key);
    forall k | 0 <= k < |t| ensures LexLe(key(ys[0]), key(t[k])) {
      assert t[k] in multiset(t);
      if t[k] != x {
        assert t[k] in multiset(tail);
        var m :| 0 <= m < |tail| && tail[m] == t[k];
        assert ys[m + 1] == t[k];
      }
    }
  }

  /** `SortBy` returns the same elements, in key order. */
  lemma {:induction false} SortByCorrect<T>(xs: seq<T>, key: T -> string)
    ensures multiset(SortBy(xs, key)) == multiset(xs)
    ensures SortedBy(SortBy(xs, key), key)
  {
    if xs != [] {
      SortByCorrect(xs[1..], key);
      InsertCorrect(xs[0], SortBy(xs[1..], key), key);
      assert xs == [xs[0]] + xs[1..];
    }
  }
}
