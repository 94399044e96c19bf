/** The lexicographic order of text, by which ordered maps and sets iterate. */
module StringOrder {

  predicate Le(a: string, b: string)
  {
    a == [] || (b != [] && (a[0] < b[0] || (a[0] == b[0] && Le(a[1..], b[1..]))))
  }

  lemma {:induction false} LeTotal(a: string, b: string)
    ensures Le(a, b) || Le(b, a)
  {
    if a != [] && b != [] && a[0] == b[0] {
      LeTotal(a[1..], b[1..]);
    }
  }

  lemma {:induction false} LeTransitive(a: string, b: string, c: string)
    requires Le(a, b) && Le(b, c)
    ensures Le(a, c)
  {
    if a != [] && a[0] == b[0] == c[0] {
      LeTransitive(a[1..], b[1..], c[1..]);
    }
  }

  predicate IsLeast(keys: set<string>, least: string)
  {
    least in keys && forall key :: key in keys ==> Le(least, key)
  }

  /** The first key of an ordered map. */
  method Least(keys: set<string>) returns (least: string)
    requires keys != {}
    ensures least in keys && IsLeast(keys, least)
  {
    least :| least in keys;
    LeTotal(least, least);
    var todo := keys - {least};
    while todo != {}
      invariant todo <= keys && least in keys
      invariant forall key :: key in keys && key !in todo ==> Le(least, key)
      decreases todo
    {
      var next :| next in todo;
      todo := todo - {next};
      if Le(next, least) {
        forall key | key in keys && key !in todo ensures Le(next, key) {
          if key == next {
            LeTotal(key, key);
          } else {
            LeTransitive(next, least, key);
          }
        }
        least := next;
      } else {
        LeTotal(next, least);
      }
    }
  }
}
