/** Texts measured without white space: what is the same or shorter stays so inside every longer text. */
module Shrinking {
  import opened TextScan

  function Size(s: string): nat { |Strip(s)| }

  /** `a` is `b`, or a shorter text. */
  predicate Shrinks(a: string, b: string)
  {
    a == b || Size(a) < Size(b)
  }

  lemma {:induction false} SizeConcat(a: string, b: string)
    ensures Size(a + b) == Size(a) + Size(b)
  {
    if a == [] {
      assert a + b == b;
    } else {
      SizeConcat(a[1..], b);
      assert (a + b)[1..] == a[1..] + b;
    }
  }

  lemma StripTwice(s: string)
    ensures Strip(Strip(s)) == Strip(s)
  {
    StripIsFree(s);
    StripOfFree(Strip(s));
  }

  lemma {:induction false} SizeAtMost(s: string)
    ensures Size(s) <= |s|
  {
    if s != [] {
      SizeAtMost(s[1..]);
    }
  }

  lemma ShrinksWrap(x: string, a: string, b: string, y: string)
    requires Shrinks(a, b)
    ensures Shrinks(x + a + y, x + b + y)
  {
    SizeConcat(x, a);
    SizeConcat(x + a, y);
    SizeConcat(x, b);
    SizeConcat(x + b, y);
  }

  lemma ShrinksStrip(a: string, b: string)
    requires Shrinks(a, b)
    ensures Shrinks(Strip(a), Strip(b))
  {
    StripTwice(a);
    StripTwice(b);
  }

  ghost predicate AllShrink(a: seq<string>, b: seq<string>)
  {
    |a| == |b| && forall i :: 0 <= i < |a| ==> Shrinks(a[i], b[i])
  }

  lemma {:induction false} ShrinksJoin(a: seq<string>, b: seq<string>, separator: string)
    requires AllShrink(a, b)
    ensures Shrinks(Join(a, separator), Join(b, separator))
  {
    if |a| > 1 {
      ShrinksJoin(a[1..], b[1..], separator);
      ShrinksBoth(a[0], b[0], separator, Join(a[1..], separator), Join(b[1..], separator));
    }
  }

  lemma ShrinksBoth(a: string, b: string, middle: string, c: string, d: string)
    requires Shrinks(a, b) && Shrinks(c, d)
    ensures Shrinks(a + middle + c, b + middle + d)
  {
    SizeConcat(a, middle);
    SizeConcat(a + middle, c);
    SizeConcat(b, middle);
    SizeConcat(b + middle, d);
  }

  /** Every part of a joined text is at most as long as the text. */
  lemma {:induction false} PartSize(parts: seq<string>, separator: string, i: nat)
    requires i < |parts|
    ensures Size(parts[i]) <= Size(Join(parts, separator))
  {
    if |parts| > 1 {
      SizeConcat(parts[0], separator);
      SizeConcat(parts[0] + separator, Join(parts[1..], separator));
      if i > 0 {
        PartSize(parts[1..], separator, i - 1);
      }
    }
  }

  lemma WrapSize(x: string, a: string, y: string)
    ensures Size(a) <= Size(x + a + y)
  {
    SizeConcat(x, a);
    SizeConcat(x + a, y);
  }
}
