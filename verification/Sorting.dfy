/** Sorting by a key in lexicographic order, and what a sorted list does not depend on. */
module Sorting {

  type Key = seq<int>

  predicate Less(a: Key, b: Key)
  {
    b != [] && (a == [] || a[0] < b[0] || (a[0] == b[0] && Less(a[1..], b[1..])))
  }

  predicate Le(a: Key, b: Key)
  {
    a == b || Less(a, b)
  }

  lemma {:induction false} LessTransitive(a: Key, b: Key, c: Key)
    requires Less(a, b) && Less(b, c)
    ensures Less(a, c)
  {
    if a != [] && a[0] == b[0] == c[0] {
      LessTransitive(a[1..], b[1..], c[1..]);
    }
  }

  lemma {:induction false} LessTotal(a: Key, b: Key)
    ensures Less(a, b) || a == b || Less(b, a)
  {
    if a != [] && b != [] && a[0] == b[0] {
      LessTotal(a[1..], b[1..]);
      assert a == [a[0]] + a[1..] && b == [b[0]] + b[1..];
    }
  }

  lemma {:induction false} LessAsymmetric(a: Key, b: Key)
    requires Less(a, b)
    ensures !Less(b, a) && a != b
  {
    if a != [] && a[0] == b[0] {
      LessAsymmetric(a[1..], b[1..]);
    }
  }

  lemma LeTransitive(a: Key, b: Key, c: Key)
    requires Le(a, b) && Le(b, c)
    ensures Le(a, c)
  {
    if a != b && b != c {
      LessTransitive(a, b, c);
    }
  }

  lemma LeAntisymmetric(a: Key, b: Key)
    requires Le(a, b) && Le(b, a)
    ensures a == b
  {
    if a != b {
      LessAsymmetric(a, b);
    }
  }

  predicate IsSorted<T>(key: T -> Key, s: seq<T>)
  {
    forall i, j :: 0 <= i < j < |s| ==> Le(key(s[i]), key(s[j]))
  }

  predicate IsStrict<T>(key: T -> Key, s: seq<T>)
  {
    forall i, j :: 0 <= i < j < |s| ==> Less(key(s[i]), key(s[j]))
  }

  predicate DistinctKeys<T, K(==)>(key: T -> K, s: seq<T>)
  {
    forall i, j :: 0 <= i < j < |s| ==> key(s[i]) != key(s[j])
  }

  function KeySet<T, K>(key: T -> K, s: seq<T>): set<K>
  {
    set i | 0 <= i < |s| :: key(s[i])
  }

  /** A list stays distinct exactly while the next key is new. */
  lemma DistinctNext<T, K>(key: T -> K, s: seq<T>, n: nat)
    requires n < |s| && DistinctKeys(key, s[..n])
    ensures KeySet(key, s[..n + 1]) == KeySet(key, s[..n]) + {key(s[n])}
    ensures key(s[n]) in KeySet(key, s[..n]) ==> !DistinctKeys(key, s)
    ensures key(s[n]) !in KeySet(key, s[..n]) ==> DistinctKeys(key, s[..n + 1])
  {
    var before, after := s[..n], s[..n + 1];
    assert after[n] == s[n] && forall i :: 0 <= i < n ==> after[i] == before[i] == s[i];
    assert forall i :: 0 <= i < n ==> key(before[i]) in KeySet(key, before);
    assert forall i :: 0 <= i < n + 1 ==> key(after[i]) in KeySet(key, after);
    assert forall k :: k in KeySet(key, after) ==> k in KeySet(key, before) + {key(s[n])};
  }

  function Insert<T>(key: T -> Key, s: seq<T>, x: T): (r: seq<T>)
  {
    if s == [] then [x]
    else if Less(key(x), key(s[|s| - 1])) then Insert(key, s[..|s| - 1], x) + [s[|s| - 1]]
    else s + [x]
  }

  function Sort<T>(key: T -> Key, s: seq<T>): (r: seq<T>)
  {
    if s == [] then [] else Insert(key, Sort(key, s[..|s| - 1]), s[|s| - 1])
  }

  /** Nothing in a sorted list is above its last element. */
  lemma {:induction false} AppendSorted<T>(key: T -> Key, s: seq<T>, x: T)
    requires IsSorted(key, s) && forall i :: 0 <= i < |s| ==> Le(key(s[i]), key(x))
    ensures IsSorted(key, s + [x])
  {
  }

  lemma {:induction false} InsertKeeps<T>(key: T -> Key, s: seq<T>, x: T)
    requires IsSorted(key, s)
    ensures IsSorted(key, Insert(key, s, x)) && multiset(Insert(key, s, x)) == multiset(s) + multiset{x}
  {
    if s != [] {
      var front, last := s[..|s| - 1], s[|s| - 1];
      assert s == front + [last];
      if Less(key(x), key(last)) {
        InsertKeeps(key, front, x);
        var r := Insert(key, front, x);
        forall i | 0 <= i < |r| ensures Le(key(r[i]), key(last)) {
          assert r[i] in multiset(front) + multiset{x};
        }
        AppendSorted(key, r, last);
      } else {
        LessTotal(key(x), key(last));
        forall i | 0 <= i < |s| ensures Le(key(s[i]), key(x)) {
          LeTransitive(key(s[i]), key(last), key(x));
        }
        AppendSorted(key, s, x);
      }
    }
  }

  lemma {:induction false} SortSorts<T>(key: T -> Key, s: seq<T>)
    ensures IsSorted(key, Sort(key, s)) && multiset(Sort(key, s)) == multiset(s)
  {
    if s != [] {
      var front := s[..|s| - 1];
      SortSorts(key, front);
      InsertKeeps(key, Sort(key, front), s[|s| - 1]);
      assert s == front + [s[|s| - 1]];
    }
  }

  lemma {:induction false} LastsAgree<T>(key: T -> Key, a: seq<T>, b: seq<T>)
    requires IsSorted(key, a) && IsSorted(key, b) && multiset(a) == multiset(b) && a != [] && b != []
    ensures key(a[|a| - 1]) == key(b[|b| - 1]) && b[|b| - 1] in a
  {
    var x, y := a[|a| - 1], b[|b| - 1];
    assert x in multiset(b) && y in multiset(a);
    var i :| 0 <= i < |b| && b[i] == x;
    var j :| 0 <= j < |a| && a[j] == y;
    assert Le(key(x), key(y)) && Le(key(y), key(x));
    LeAntisymmetric(key(x), key(y));
  }

  /** Equal keys mean equal elements. */
  predicate KeyDetermines<T(==)>(key: T -> Key, s: seq<T>)
  {
    forall i, j :: 0 <= i < |s| && 0 <= j < |s| && key(s[i]) == key(s[j]) ==> s[i] == s[j]
  }

  lemma {:induction false} WithoutLast<T>(key: T -> Key, s: seq<T>)
    requires s != []
    ensures s == s[..|s| - 1] + [s[|s| - 1]] && multiset(s[..|s| - 1]) == multiset(s) - multiset{s[|s| - 1]}
    ensures IsSorted(key, s) ==> IsSorted(key, s[..|s| - 1])
    ensures KeyDetermines(key, s) ==> KeyDetermines(key, s[..|s| - 1])
  {
    var front := s[..|s| - 1];
    assert s == front + [s[|s| - 1]];
    assert forall i :: 0 <= i < |front| ==> front[i] == s[i];
  }

  /** One multiset has one sorted list, when equal keys mean equal elements. */
  lemma {:induction false} SortedUnique<T>(key: T -> Key, a: seq<T>, b: seq<T>)
    requires IsSorted(key, a) && IsSorted(key, b) && multiset(a) == multiset(b) && KeyDetermines(key, a)
    ensures a == b
  {
    assert |a| == |multiset(a)| == |multiset(b)| == |b|;
    if a != [] {
      LastsAgree(key, a, b);
      WithoutLast(key, a);
      WithoutLast(key, b);
      SortedUnique(key, a[..|a| - 1], b[..|b| - 1]);
    }
  }

  lemma {:induction false} KeyDeterminesPermutes<T>(key: T -> Key, a: seq<T>, b: seq<T>)
    requires multiset(a) == multiset(b) && KeyDetermines(key, a)
    ensures KeyDetermines(key, b)
  {
    forall i, j | 0 <= i < |b| && 0 <= j < |b| && key(b[i]) == key(b[j]) ensures b[i] == b[j] {
      assert b[i] in multiset(a) && b[j] in multiset(a);
      var k :| 0 <= k < |a| && a[k] == b[i];
      var l :| 0 <= l < |a| && a[l] == b[j];
    }
  }

  /** Sorting forgets the order of its input, when equal keys mean equal elements. */
  lemma {:induction false} SortIgnoresOrder<T>(key: T -> Key, a: seq<T>, b: seq<T>)
    requires multiset(a) == multiset(b) && KeyDetermines(key, a)
    ensures Sort(key, a) == Sort(key, b)
  {
    SortSorts(key, a);
    SortSorts(key, b);
    KeyDeterminesPermutes(key, a, Sort(key, a));
    SortedUnique(key, Sort(key, a), Sort(key, b));
  }

  /** Distinct keys survive reordering. */
  lemma {:induction false} DistinctKeysPermute<T, K>(key: T -> K, a: seq<T>, b: seq<T>)
    requires multiset(a) == multiset(b) && DistinctKeys(key, a)
    ensures DistinctKeys(key, b)
  {
    forall i, j | 0 <= i < j < |b| ensures key(b[i]) != key(b[j]) {
      assert b[i] in multiset(a) && b[j] in multiset(a);
      if b[i] == b[j] {
        var k, l := Twice(b, i, j, a);
      }
    }
  }

  lemma {:induction false} Twice<T>(b: seq<T>, i: nat, j: nat, a: seq<T>) returns (k: nat, l: nat)
    requires i < j < |b| && b[i] == b[j] && multiset(a) == multiset(b)
    ensures k < l < |a| && a[k] == a[l] == b[i]
  {
    var x := b[i];
    assert b == b[..j] + [b[j]] + b[j + 1..] && x in b[..j] by { assert b[..j][i] == x; }
    assert multiset(b)[x] >= 2;
    assert x in multiset(a);
    l :| 0 <= l < |a| && a[l] == x;
    assert a == a[..l] + [a[l]] + a[l + 1..];
    assert multiset(a) == multiset(a[..l]) + multiset{x} + multiset(a[l + 1..]);
    if x in a[..l] {
      k :| 0 <= k < l && a[k] == x;
    } else {
      assert x in a[l + 1..];
      k := l;
      var m :| 0 <= m < |a[l + 1..]| && a[l + 1..][m] == x;
      l := l + 1 + m;
    }
  }

  function Map<T, U>(f: T -> U, s: seq<T>): (r: seq<U>)
    ensures |r| == |s| && forall i :: 0 <= i < |s| ==> r[i] == f(s[i])
  {
    if s == [] then [] else Map(f, s[..|s| - 1]) + [f(s[|s| - 1])]
  }

  lemma {:induction false} MapConcat<T, U>(f: T -> U, a: seq<T>, b: seq<T>)
    ensures Map(f, a + b) == Map(f, a) + Map(f, b)
  {
  }

  lemma {:induction false} Removed<T>(b: seq<T>, i: nat)
    requires i < |b|
    ensures multiset(b) == multiset(b[..i] + b[i + 1..]) + multiset{b[i]}
    ensures multiset(b[..i] + b[i + 1..]) == multiset(b) - multiset{b[i]}
  {
    assert b == b[..i] + [b[i]] + b[i + 1..];
  }

  lemma {:induction false} MapRemoved<T, U>(f: T -> U, b: seq<T>, i: nat)
    requires i < |b|
    ensures multiset(Map(f, b)) == multiset(Map(f, b[..i] + b[i + 1..])) + multiset{f(b[i])}
  {
    MapConcat(f, b[..i], b[i + 1..]);
    assert Map(f, b)[..i] + Map(f, b)[i + 1..] == Map(f, b[..i] + b[i + 1..]);
    Removed(Map(f, b), i);
  }

  /** Mapping a permutation gives a permutation. */
  lemma {:induction false} MapPermutes<T, U>(f: T -> U, a: seq<T>, b: seq<T>)
    requires multiset(a) == multiset(b)
    ensures multiset(Map(f, a)) == multiset(Map(f, b))
  {
    assert |a| == |multiset(a)| == |multiset(b)| == |b|;
    if a != [] {
      var n := |a| - 1;
      assert a[n] in multiset(b);
      var i :| 0 <= i < |b| && b[i] == a[n];
      var a', b' := a[..n] + a[n + 1..], b[..i] + b[i + 1..];
      assert multiset(a') == multiset(b') by {
        Removed(a, n);
        Removed(b, i);
      }
      MapPermutes(f, a', b');
      MapRemoved(f, a, n);
      MapRemoved(f, b, i);
    }
  }

  /** A sorted list with distinct keys is strictly sorted, and only then. */
  lemma StrictMeansDistinct<T>(key: T -> Key, s: seq<T>)
    requires IsSorted(key, s)
    ensures IsStrict(key, s) <==> DistinctKeys(key, s)
  {
    forall i, j | 0 <= i < j < |s| ensures Less(key(s[i]), key(s[j])) <==> key(s[i]) != key(s[j]) {
      if Less(key(s[i]), key(s[j])) {
        LessAsymmetric(key(s[i]), key(s[j]));
      }
    }
  }

  /** Neighbours with equal keys show every repetition in a sorted list. */
  lemma {:induction false} NeighboursShow<T>(key: T -> Key, s: seq<T>, i: nat, j: nat) returns (k: nat)
    requires IsSorted(key, s) && i < j < |s| && key(s[i]) == key(s[j])
    ensures k + 1 < |s| && key(s[k]) == key(s[k + 1])
  {
    k := i;
    if i + 1 < j {
      assert Le(key(s[i]), key(s[i + 1])) && Le(key(s[i + 1]), key(s[j]));
      LeAntisymmetric(key(s[i]), key(s[i + 1]));
    }
  }
}
