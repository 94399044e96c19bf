/** What links reach from roots. */
module Chains {
  /** A chain of links that starts at a root. */
  ghost predicate IsChain<T(!new)>(roots: iset<T>, links: iset<(T, T)>, path: seq<T>)
  {
    if path == [] then false
    else if |path| == 1 then path[0] in roots
    else IsChain(roots, links, path[..|path| - 1]) && (path[|path| - 2], path[|path| - 1]) in links
  }

  ghost predicate Reached<T(!new)>(roots: iset<T>, links: iset<(T, T)>, last: T)
  {
    exists path: seq<T> :: path != [] && IsChain(roots, links, path) && path[|path| - 1] == last
  }

  lemma {:induction false} RootReached<T(!new)>(roots: iset<T>, links: iset<(T, T)>, root: T)
    requires root in roots
    ensures Reached(roots, links, root)
  {
    assert IsChain(roots, links, [root]) && [root][0] == root;
  }

  lemma {:induction false} LinkReached<T(!new)>(roots: iset<T>, links: iset<(T, T)>, parent: T, kid: T)
    requires Reached(roots, links, parent) && (parent, kid) in links
    ensures Reached(roots, links, kid)
  {
    var path: seq<T> :| path != [] && IsChain(roots, links, path) && path[|path| - 1] == parent;
    var longer := path + [kid];
    assert longer[..|path|] == path && longer[|path| - 1] == parent && longer[|path|] == kid;
    assert IsChain(roots, links, longer);
  }

  /** A set that holds the roots and follows the links holds all that is reached. */
  ghost predicate Follows<T(!new)>(roots: iset<T>, links: iset<(T, T)>, all: iset<T>)
  {
    roots <= all && forall link :: link in links && link.0 in all ==> link.1 in all
  }

  lemma {:induction false} ChainStays<T(!new)>(roots: iset<T>, links: iset<(T, T)>, all: iset<T>, path: seq<T>)
    requires Follows(roots, links, all) && path != [] && IsChain(roots, links, path)
    ensures path[|path| - 1] in all
  {
    if |path| > 1 {
      ChainStays(roots, links, all, path[..|path| - 1]);
      var link := (path[|path| - 2], path[|path| - 1]);
      assert link in links && link.0 in all;
    }
  }

  lemma ReachedStays<T(!new)>(roots: iset<T>, links: iset<(T, T)>, all: iset<T>, last: T)
    requires Follows(roots, links, all) && Reached(roots, links, last)
    ensures last in all
  {
    var path: seq<T> :| path != [] && IsChain(roots, links, path) && path[|path| - 1] == last;
    ChainStays(roots, links, all, path);
  }

  lemma ReachedGrows<T(!new)>(roots: iset<T>, links: iset<(T, T)>, roots': iset<T>, links': iset<(T, T)>, last: T)
    requires Reached(roots, links, last) && roots <= roots' && links <= links'
    ensures Reached(roots', links', last)
  {
    var all := iset x | Reached(roots', links', x);
    forall root | root in roots ensures root in all {
      RootReached(roots', links', root);
    }
    forall link | link in links && link.0 in all ensures link.1 in all {
      assert (link.0, link.1) == link;
      LinkReached(roots', links', link.0, link.1);
    }
    ReachedStays(roots, links, all, last);
  }
}
