/** Python's `sorted(xs, key=k)` for string-valued keys: a stable sort in ascending code-point
    (lexicographic) order of the keys. */
module Sorting {

  /** Python's `a <= b` on strings: lexicographic by code point, a prefix before its extensions. */
  predicate LexLe(a: string, b: string)
    decreases |a|
  {
    |a| == 0 || (|b| > 0 && (a[0] < b[0] || (a[0] == b[0] && LexLe(a[1..], b[1..]))))
  }

  lemma {:induction false} LexLeReflexive(a: string)
    ensures LexLe(a, a)
    decreases |a|
  {
    if |a| > 0 {
      LexLeReflexive(a[1..]);
    }
  }

  lemma {:induction false} LexLeTotal(a: string, b: string)
    ensures LexLe(a, b) || LexLe(b, a)
    decreases |a|
  {
    if |a| > 0 && |b| > 0 && a[0] == b[0] {
      LexLeTotal(a[1..], b[1..]);
    }
  }

  lemma {:induction false} LexLeTransitive(a: string, b: string, c: string)
    requires LexLe(a, b) && LexLe(b, c)
    ensures LexLe(a, c)
    decreases |a|
  {
    if |a| > 0 && a[0] == b[0] && b[0] == c[0] {
      LexLeTransitive(a[1..], b[1..], c[1..]);
    }
  }

  lemma {:induction false} LexLeAntisymmetric(a: string, b: string)
    requires LexLe(a, b) && LexLe(b, a)
    ensures a == b
    decreases |a|
  {
    if |a| > 0 {
      LexLeAntisymmetric(a[1..], b[1..]);
      assert a == [a[0]] + a[1..];
      assert b == [b[0]] + b[1..];
    }
  }

  ghost predicate SortedBy<T>(s: seq<T>, key: T -> string) {
    forall i, j :: 0 <= i < j < |s| ==> LexLe(key(s[i]), key(s[j]))
  }

  /** The elements of `s` whose key is `k`, in their order in `s`. */
  function WithKey<T>(s: seq<T>, key: T -> string, k: string): seq<T> {
    if |s| == 0 then []
    else if key(s[0]) == k then [s[0]] + WithKey(s[1..], key, k)
    else WithKey(s[1..], key, k)
  }

  /** Puts `x` in front of the first element whose key is not below its own. */
  function Insert<T>(x: T, s: seq<T>, key: T -> string): seq<T> {
    if |s| == 0 then [x]
    else if LexLe(key(x), key(s[0])) then [x] + s
    else [s[0]] + Insert(x, s[1..], key)
  }

  /** `sorted(s, key=key)`. */
  function SortBy<T>(s: seq<T>, key: T -> string): seq<T> {
    if |s| == 0 then [] else Insert(s[0], SortBy(s[1..], key), key)
  }

  lemma {:induction false} InsertPermutes<T>(x: T, s: seq<T>, key: T -> string)
    ensures multiset(Insert(x, s, key)) == multiset(s) + multiset{x}
    decreases |s|
  {
    if |s| > 0 && !LexLe(key(x), key(s[0])) {
      InsertPermutes(x, s[1..], key);
      assert s == [s[0]] + s[1..];
    }
  }

  /** The sorted sequence holds exactly the input's elements, each as often. */
  lemma {:induction false} SortByPermutes<T>(s: seq<T>, key: T -> string)
    ensures multiset(SortBy(s, key)) == multiset(s)
    decreases |s|
  {
    if |s| > 0 {
      SortByPermutes(s[1..], key);
      InsertPermutes(s[0], SortBy(s[1..], key), key);
      assert s == [s[0]] + s[1..];
    }
  }

  lemma {:induction false} InsertSorted<T>(x: T, s: seq<T>, key: T -> string)
    requires SortedBy(s, key)
    ensures SortedBy(Insert(x, s, key), key)
    ensures |Insert(x, s, key)| == |s| + 1
    ensures forall j :: 0 <= j < |Insert(x, s, key)| ==> Insert(x, s, key)[j] == x || Insert(x, s, key)[j] in s
    decreases |s|
  {
    var r := Insert(x, s, key);
    if |s| == 0 {
    } else if LexLe(key(x), key(s[0])) {
      forall i, j | 0 <= i < j < |r| ensures LexLe(key(r[i]), key(r[j])) {
        if i == 0 {
          if j > 1 { LexLeTransitive(key(x), key(s[0]), key(s[j - 1])); } else { assert r[j] == s[0]; }
        } else {
          assert r[i] == s[i - 1] && r[j] == s[j - 1];
        }
      }
    } else {
      var t := s[1..];
      assert SortedBy(t, key);
      InsertSorted(x, t, key);
      var rt := Insert(x, t, key);
      assert r == [s[0]] + rt;
      LexLeTotal(key(x), key(s[0]));
      forall j | 0 <= j < |rt| ensures LexLe(key(s[0]), key(rt[j])) {
        if rt[j] != x {
          var m :| 0 <= m < |t| && t[m] == rt[j];
          assert t[m] == s[m + 1];
        }
      }
      forall i, j | 0 <= i < j < |r| ensures LexLe(key(r[i]), key(r[j])) {
        if i == 0 {
          assert r[j] == rt[j - 1];
        } else {
          assert r[i] == rt[i - 1] && r[j] == rt[j - 1];
        }
      }
    }
  }

  /** The result is in ascending key order. */
  lemma {:induction false} SortBySorted<T>(s: seq<T>, key: T -> string)
    ensures SortedBy(SortBy(s, key), key)
    decreases |s|
  {
    if |s| > 0 {
      SortBySorted(s[1..], key);
      InsertSorted(s[0], SortBy(s[1..], key), key);
    }
  }

  lemma {:induction false} InsertKeepsKeyOrder<T>(x: T, s: seq<T>, key: T -> string, k: string)
    ensures WithKey(Insert(x, s, key), key, k) == (if key(x) == k then [x] else []) + WithKey(s, key, k)
    decreases |s|
  {
    var here: seq<T> := if key(x) == k then [x] else [];
    if |s| == 0 {
      assert WithKey([x], key, k) == here + WithKey([x][1..], key, k);
    } else if LexLe(key(x), key(s[0])) {
      var r := [x] + s;
      assert r[0] == x && r[1..] == s;
      assert WithKey(r, key, k) == here + WithKey(s, key, k);
    } else {
      LexLeReflexive(key(x));
      var t := Insert(x, s[1..], key);
      var r := [s[0]] + t;
      assert r[0] == s[0] && r[1..] == t;
      InsertKeepsKeyOrder(x, s[1..], key, k);
      var rest := WithKey(s[1..], key, k);
      if key(s[0]) == k {
        assert here == [];
        assert WithKey(r, key, k) == [s[0]] + WithKey(t, key, k);
        assert WithKey(s, key, k) == [s[0]] + rest;
      } else {
        assert WithKey(r, key, k) == WithKey(t, key, k);
        assert WithKey(s, key, k) == rest;
      }
    }
  }

  /** Stability: elements with equal keys keep their input order. */
  lemma {:induction false} SortByStable<T>(s: seq<T>, key: T -> string, k: string)
    ensures WithKey(SortBy(s, key), key, k) == WithKey(s, key, k)
    decreases |s|
  {
    if |s| > 0 {
      SortByStable(s[1..], key, k);
      InsertKeepsKeyOrder(s[0], SortBy(s[1..], key), key, k);
    }
  }
}
