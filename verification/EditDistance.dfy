/** The edit distance behind command suggestions: the two-row program, the recursion it computes, and what that
    means. */
module EditDistance {

  function Min(a: nat, b: nat): nat
  {
    if a <= b then a else b
  }

  function Mismatch(x: char, y: char): nat
  {
    if x == y then 0 else 1
  }

  function Front(s: string): string
    requires s != []
  {
    s[..|s| - 1]
  }

  function Last(s: string): char
    requires s != []
  {
    s[|s| - 1]
  }

  /** The recursive distance: the last characters are matched, or one of them is inserted or deleted. */
  function Distance(a: string, b: string): nat
    decreases |a| + |b|
  {
    if a == [] then |b|
    else if b == [] then |a|
    else
      Min(Min(Distance(Front(a), Front(b)) + Mismatch(Last(a), Last(b)), Distance(a, Front(b)) + 1),
          Distance(Front(a), b) + 1)
  }

  // ----- the two-row program

  /** The distances from a prefix of `a` to every prefix of `b`. */
  ghost function Row(a: string, b: string, i: nat): (row: seq<nat>)
    requires i <= |a|
    ensures |row| == |b| + 1 && forall j :: 0 <= j <= |b| ==> row[j] == Distance(a[..i], b[..j])
  {
    seq(|b| + 1, j requires 0 <= j <= |b| => Distance(a[..i], b[..j]))
  }

  /** `next` follows from `row` by one more character. */
  ghost predicate NextTo(row: seq<nat>, next: seq<nat>, i: nat, c: char, b: string)
  {
    && |row| == |next| == |b| + 1 && next[0] == i + 1
    && forall j :: 0 <= j < |b| ==> next[j + 1] == Min(Min(row[j] + Mismatch(c, b[j]), next[j] + 1), row[j + 1] + 1)
  }

  lemma {:induction false} RowsFollow(a: string, b: string, i: nat)
    requires i < |a|
    ensures NextTo(Row(a, b, i), Row(a, b, i + 1), i, a[i], b)
  {
    var row, next := Row(a, b, i), Row(a, b, i + 1);
    assert b[..0] == [] && next[0] == Distance(a[..i + 1], b[..0]);
    forall j | 0 <= j < |b|
      ensures next[j + 1] == Min(Min(row[j] + Mismatch(a[i], b[j]), next[j] + 1), row[j + 1] + 1)
    {
      assert Front(a[..i + 1]) == a[..i] && Front(b[..j + 1]) == b[..j];
    }
  }

  method FillRow(i: nat, c: char, b: string, previous: array<nat>, current: array<nat>, ghost next: seq<nat>)
    requires previous.Length == current.Length == |b| + 1 && previous != current && NextTo(previous[..], next, i, c, b)
    modifies current
    ensures current[..] == next
  {
    current[0] := i + 1;
    for j := 0 to |b|
      invariant current[..j + 1] == next[..j + 1]
    {
      var substitution := previous[j] + Mismatch(c, b[j]);
      var insertion := current[j] + 1;
      var deletion := previous[j + 1] + 1;
      current[j + 1] := Min(Min(substitution, insertion), deletion);
    }
  }

  /** The two-row program. */
  method Compute(a: string, b: string) returns (d: nat)
    ensures d == Distance(a, b)
  {
    var previous := new nat[|b| + 1](i => i);
    var current := new nat[|b| + 1](_ => 0);
    assert previous[..] == Row(a, b, 0);
    for i := 0 to |a|
      invariant previous != current && previous.Length == current.Length == |b| + 1 && fresh(previous) && fresh(current)
      invariant previous[..] == Row(a, b, i)
    {
      RowsFollow(a, b, i);
      FillRow(i, a[i], b, previous, current, Row(a, b, i + 1));
      previous, current := current, previous;
    }
    assert a[..|a|] == a && b[..|b|] == b && previous[|b|] == previous[..][|b|];
    return previous[|b|];
  }

  // ----- a metric

  lemma {:induction false} LengthBounds(a: string, b: string)
    ensures |a| <= Distance(a, b) + |b| && |b| <= Distance(a, b) + |a| && Distance(a, b) <= |a| + |b|
    decreases |a| + |b|
  {
    if a != [] && b != [] {
      LengthBounds(Front(a), Front(b));
      LengthBounds(a, Front(b));
      LengthBounds(Front(a), b);
    }
  }

  lemma {:induction false} ZeroExactly(a: string, b: string)
    ensures Distance(a, b) == 0 <==> a == b
    decreases |a| + |b|
  {
    if a != [] && b != [] {
      ZeroExactly(Front(a), Front(b));
      assert a == Front(a) + [Last(a)] && b == Front(b) + [Last(b)];
    }
  }

  lemma {:induction false} Symmetric(a: string, b: string)
    ensures Distance(a, b) == Distance(b, a)
    decreases |a| + |b|
  {
    if a != [] && b != [] {
      Symmetric(Front(a), Front(b));
      Symmetric(a, Front(b));
      Symmetric(Front(a), b);
    }
  }

  lemma {:induction false} Triangle(a: string, b: string, c: string)
    ensures Distance(a, c) <= Distance(a, b) + Distance(b, c)
    decreases |a| + |b| + |c|
  {
    LengthBounds(a, b);
    LengthBounds(b, c);
    LengthBounds(a, c);
    if a != [] && b != [] && c != [] {
      if Distance(a, b) == Distance(Front(a), b) + 1 {
        Triangle(Front(a), b, c);
      } else if Distance(b, c) == Distance(b, Front(c)) + 1 {
        Triangle(a, b, Front(c));
      } else {
        TriangleThroughFront(a, b, c);
      }
    }
  }

  /** Both sides drop the last character of the middle string. */
  lemma {:induction false} TriangleThroughFront(a: string, b: string, c: string)
    requires a != [] && b != [] && c != []
    requires Distance(a, b) != Distance(Front(a), b) + 1 && Distance(b, c) != Distance(b, Front(c)) + 1
    ensures Distance(a, c) <= Distance(a, b) + Distance(b, c)
    decreases |a| + |b| + |c|, 0
  {
    var a', b', c' := Front(a), Front(b), Front(c);
    if Distance(a, b) == Distance(a, b') + 1 {
      if Distance(b, c) == Distance(b', c) + 1 {
        Triangle(a, b', c);
      } else {
        Triangle(a, b', c');
      }
    } else if Distance(b, c) == Distance(b', c) + 1 {
      Triangle(a', b', c);
    } else {
      Triangle(a', b', c');
    }
  }

  // ----- the least number of edits

  function Without(s: string, i: nat): string
    requires i < |s|
  {
    s[..i] + s[i + 1..]
  }

  /** `x` is `y` without one character. */
  predicate Shortens(y: string, x: string)
  {
    exists i :: 0 <= i < |y| && x == Without(y, i)
  }

  predicate Replaces(x: string, y: string)
  {
    exists i :: 0 <= i < |x| == |y| && Without(x, i) == Without(y, i)
  }

  /** One character inserted, deleted or replaced. */
  predicate OneEdit(x: string, y: string)
  {
    Shortens(y, x) || Shortens(x, y) || Replaces(x, y)
  }

  /** A walk from the first string to the last by single edits. */
  predicate IsEditPath(path: seq<string>)
  {
    path != [] && forall k :: 0 <= k < |path| - 1 ==> OneEdit(path[k], path[k + 1])
  }

  /** A shared ending costs nothing. */
  lemma {:induction false} CommonEnding(a: string, b: string, tail: string)
    ensures Distance(a + tail, b + tail) <= Distance(a, b)
    decreases |tail|
  {
    if tail != [] {
      CommonEnding(a, b, Front(tail));
      assert Front(a + tail) == a + Front(tail) && Front(b + tail) == b + Front(tail);
    } else {
      assert a + tail == a && b + tail == b;
    }
  }

  lemma {:induction false} OneEditIsNear(x: string, y: string)
    requires OneEdit(x, y)
    ensures Distance(x, y) <= 1
  {
    if Shortens(y, x) {
      var i :| 0 <= i < |y| && x == Without(y, i);
      ShorterByOne(y, i);
    } else if Shortens(x, y) {
      var i :| 0 <= i < |x| && y == Without(x, i);
      ShorterByOne(x, i);
      Symmetric(x, y);
    } else {
      ReplacedOne(x, y);
    }
  }

  lemma {:induction false} ReplacedOne(x: string, y: string)
    requires Replaces(x, y)
    ensures Distance(x, y) <= 1
  {
    var i :| 0 <= i < |x| == |y| && Without(x, i) == Without(y, i);
    var p, tail := x[..i], x[i + 1..];
    assert p == Without(x, i)[..i] == y[..i] && tail == Without(x, i)[i..] == y[i + 1..];
    assert x == (p + [x[i]]) + tail && y == (p + [y[i]]) + tail;
    CommonEnding(p + [x[i]], p + [y[i]], tail);
    assert Front(p + [x[i]]) == p && Front(p + [y[i]]) == p;
    ZeroExactly(p, p);
  }

  lemma {:induction false} ShorterByOne(y: string, i: nat)
    requires i < |y|
    ensures Distance(Without(y, i), y) <= 1
  {
    var p, tail := y[..i], y[i + 1..];
    assert y == (p + [y[i]]) + tail;
    CommonEnding(p, p + [y[i]], tail);
    assert Front(p + [y[i]]) == p;
    ZeroExactly(p, p);
    if p == [] {
      assert Distance(p, p + [y[i]]) == 1;
    }
  }

  lemma {:induction false} PathFront(path: seq<string>)
    requires IsEditPath(path) && |path| > 1
    ensures IsEditPath(path[..|path| - 1]) && OneEdit(path[|path| - 2], path[|path| - 1])
  {
    var front := path[..|path| - 1];
    forall k | 0 <= k < |front| - 1 ensures OneEdit(front[k], front[k + 1]) {
      assert OneEdit(path[k], path[k + 1]);
    }
    assert OneEdit(path[|path| - 2], path[|path| - 2 + 1]);
  }

  /** No walk of single edits is shorter than the distance. */
  lemma {:induction false} NoShorterPath(path: seq<string>)
    requires IsEditPath(path)
    ensures Distance(path[0], path[|path| - 1]) <= |path| - 1
  {
    var n := |path|;
    if n == 1 {
      ZeroExactly(path[0], path[0]);
    } else {
      PathFront(path);
      NoShorterPath(path[..n - 1]);
      OneEditIsNear(path[n - 2], path[n - 1]);
      Triangle(path[0], path[n - 2], path[n - 1]);
    }
  }

  function Extended(path: seq<string>, c: char): (r: seq<string>)
    ensures |r| == |path| && forall k :: 0 <= k < |path| ==> r[k] == path[k] + [c]
  {
    seq(|path|, k requires 0 <= k < |path| => path[k] + [c])
  }

  lemma WithoutExtends(s: string, i: nat, c: char)
    requires i < |s|
    ensures Without(s + [c], i) == Without(s, i) + [c]
  {
  }

  lemma {:induction false} ShortensExtends(y: string, x: string, c: char)
    requires Shortens(y, x)
    ensures Shortens(y + [c], x + [c])
  {
    var i :| 0 <= i < |y| && x == Without(y, i);
    WithoutExtends(y, i, c);
  }

  lemma {:induction false} OneEditExtends(x: string, y: string, c: char)
    requires OneEdit(x, y)
    ensures OneEdit(x + [c], y + [c])
  {
    if Shortens(y, x) {
      ShortensExtends(y, x, c);
    } else if Shortens(x, y) {
      ShortensExtends(x, y, c);
    } else {
      var i :| 0 <= i < |x| == |y| && Without(x, i) == Without(y, i);
      WithoutExtends(x, i, c);
      WithoutExtends(y, i, c);
    }
  }

  lemma {:induction false} PathExtends(path: seq<string>, c: char)
    requires IsEditPath(path)
    ensures IsEditPath(Extended(path, c))
  {
    forall k | 0 <= k < |path| - 1 ensures OneEdit(Extended(path, c)[k], Extended(path, c)[k + 1]) {
      assert OneEdit(path[k], path[k + 1]);
      OneEditExtends(path[k], path[k + 1], c);
    }
  }

  lemma {:induction false} PathAfter(path: seq<string>, s: string)
    requires IsEditPath(path) && OneEdit(path[|path| - 1], s)
    ensures IsEditPath(path + [s])
  {
    var next := path + [s];
    forall k | 0 <= k < |next| - 1 ensures OneEdit(next[k], next[k + 1]) {
      assert k < |path| - 1 ==> OneEdit(path[k], path[k + 1]);
    }
  }

  lemma {:induction false} PathBefore(s: string, path: seq<string>)
    requires IsEditPath(path) && OneEdit(s, path[0])
    ensures IsEditPath([s] + path)
  {
    var next := [s] + path;
    forall k | 0 <= k < |next| - 1 ensures OneEdit(next[k], next[k + 1]) {
      assert k > 0 ==> OneEdit(path[k - 1], path[k - 1 + 1]);
    }
  }

  lemma FrontIsNear(s: string)
    requires s != []
    ensures OneEdit(Front(s), s) && OneEdit(s, Front(s))
  {
    assert Front(s) == Without(s, |s| - 1);
  }

  /** A walk from `a` to `b` in `n` steps. */
  predicate Walks(path: seq<string>, a: string, b: string, n: nat)
  {
    IsEditPath(path) && path[0] == a && path[|path| - 1] == b && |path| == n + 1
  }

  /** Some walk of single edits has as many steps as the distance. */
  lemma {:induction false} ShortestPath(a: string, b: string) returns (path: seq<string>)
    ensures Walks(path, a, b, Distance(a, b))
    decreases |a| + |b|
  {
    if a == [] && b == [] {
      path := [a];
    } else if b != [] && (a == [] || Distance(a, b) == Distance(a, Front(b)) + 1) {
      path := ShortestPath(a, Front(b));
      FrontIsNear(b);
      PathAfter(path, b);
      path := path + [b];
    } else if b == [] || Distance(a, b) == Distance(Front(a), b) + 1 {
      path := ShortestPath(Front(a), b);
      FrontIsNear(a);
      PathBefore(a, path);
      path := [a] + path;
    } else {
      var inner := ShortestPath(Front(a), Front(b));
      path := MatchLast(a, b, inner, Distance(Front(a), Front(b)));
    }
  }

  lemma ReplacedLast(a: string, c: char)
    requires a != []
    ensures OneEdit(a, Front(a) + [c])
  {
    assert Without(a, |a| - 1) == Front(a) == Without(Front(a) + [c], |a| - 1);
  }

  lemma {:induction false} MatchLast(a: string, b: string, inner: seq<string>, n: nat) returns (path: seq<string>)
    requires a != [] && b != [] && Walks(inner, Front(a), Front(b), n)
    ensures Walks(path, a, b, n + Mismatch(Last(a), Last(b)))
  {
    path := Extended(inner, Last(b));
    PathExtends(inner, Last(b));
    assert Front(b) + [Last(b)] == b && Front(a) + [Last(a)] == a;
    if Last(a) != Last(b) {
      ReplacedLast(a, Last(b));
      PathBefore(a, path);
      path := [a] + path;
    }
  }
}
