/** Retained origins and needed applications: each stands for the other. */
module Correspondence {
  import opened Options
  import opened Chains
  import opened Types
  import opened Provenance
  import opened TextScan
  import opened TypeText
  import opened RenderFrames
  import opened SymbolNames
  import opened OriginGrowth
  import opened Abilities
  import opened Layout
  import opened Declarations
  import opened Demand
  import opened SourceDemand

  // ----- normal forms

  lemma RebuildTwice(ty: Type, a: seq<Type>, b: seq<Type>)
    requires |a| == |b| == |Children(ty)|
    ensures Rebuild(Rebuild(ty, a), b) == Rebuild(ty, b)
  {
    if ty.Applied? {
      ShapeOfArguments(ty.arguments, a, b);
    }
  }

  ghost predicate SameCanons(a: seq<Type>, b: seq<Type>)
  {
    |a| == |b| && forall i :: 0 <= i < |a| ==> Canon(a[i]) == Canon(b[i])
  }

  lemma {:induction false} CanonOfRebuild(ty: Type, a: seq<Type>, b: seq<Type>)
    requires |a| == |Children(ty)| && SameCanons(a, b)
    ensures Canon(Rebuild(ty, a)) == Canon(Rebuild(ty, b))
  {
    var x, y := Rebuild(ty, a), Rebuild(ty, b);
    if ty.Tuple? && a == [] {
      assert a == b;
    } else {
      assert CanonAll(x, a) == CanonAll(y, b);
      RebuildTwice(ty, a, CanonAll(x, a));
      RebuildTwice(ty, b, CanonAll(y, b));
    }
  }

  lemma {:induction false} CanonTwice(ty: Type)
    ensures Canon(Canon(ty)) == Canon(ty)
  {
    if ty != Tuple([]) {
      var kids := CanonAll(ty, Children(ty));
      forall i | 0 <= i < |kids| ensures Canon(kids[i]) == Canon(Children(ty)[i]) {
        CanonTwice(Children(ty)[i]);
      }
      CanonOfRebuild(ty, kids, Children(ty));
      RebuildSame(ty);
    }
  }

  // ----- rewriting commutes with substitution

  /** The source type is rewritten to a type with this normal form. */
  ghost predicate Becomes(templates: Templates, origins: Origins, s: Type, normal: Type)
  {
    exists r :: Rewrites(templates, origins, map[], s, r) && Canon(r) == normal
  }

  /** Two substitutions with the same parameters: what one has, the other has rewritten and normalised. */
  ghost predicate Pairs(templates: Templates, origins: Origins, before: map<string, Type>, after: map<string, Type>)
  {
    && before.Keys == after.Keys
    && forall p :: p in before ==> Resolved(templates, after[p]) && Becomes(templates, origins, before[p], after[p])
  }

  ghost predicate AllBecome(templates: Templates, origins: Origins, tys: seq<Type>, rs: seq<Type>)
  {
    |rs| == |tys| && forall i :: 0 <= i < |tys| ==> Becomes(templates, origins, tys[i], Canon(rs[i]))
  }

  ghost function Rewriting(templates: Templates, origins: Origins, s: Type, normal: Type): (r: Type)
    requires Becomes(templates, origins, s, normal)
    ensures Rewrites(templates, origins, map[], s, r) && Canon(r) == normal
  {
    var r :| Rewrites(templates, origins, map[], s, r) && Canon(r) == normal;
    r
  }

  ghost function Rewritings(templates: Templates, origins: Origins, tys: seq<Type>, rs: seq<Type>): (kids: seq<Type>)
    requires AllBecome(templates, origins, tys, rs)
    ensures SameCanons(kids, rs) && forall i :: 0 <= i < |tys| ==> Rewrites(templates, origins, map[], tys[i], kids[i])
  {
    seq(|tys|, i requires 0 <= i < |tys| => Rewriting(templates, origins, tys[i], Canon(rs[i])))
  }

  lemma {:induction false} SubstitutedBecomes(templates: Templates, origins: Origins, before: map<string, Type>,
                                              after: map<string, Type>, u: Type, r: Type)
    requires Pairs(templates, origins, before, after) && Rewrites(templates, origins, after, u, r)
    ensures Substitute(u, before).Some?
    ensures Becomes(templates, origins, Substitute(u, before).value, Canon(r))
    decreases u, 1
  {
    if u.Named? {
      if u.name in after {
        RewritesResolved(templates, origins, after[u.name], r);
        CanonOfNormal(templates, origins, before[u.name], r);
      } else {
        assert Rewrites(templates, origins, map[], u, u);
      }
    } else if u.Applied? && u.head in templates {
      ApplicationBecomes(templates, origins, before, after, u, r);
    } else {
      CompoundBecomes(templates, origins, before, after, u, r);
    }
  }

  lemma CanonOfNormal(templates: Templates, origins: Origins, s: Type, normal: Type)
    requires Becomes(templates, origins, s, normal)
    ensures Canon(normal) == normal
  {
    var r :| Rewrites(templates, origins, map[], s, r) && Canon(r) == normal;
    CanonTwice(r);
  }

  lemma {:induction false} ChildrenBecome(templates: Templates, origins: Origins, before: map<string, Type>,
                                          after: map<string, Type>, u: Type, kids: seq<Type>)
    returns (subs: seq<Type>, rs: seq<Type>)
    requires Pairs(templates, origins, before, after) && |kids| == |Children(u)|
    requires forall i :: 0 <= i < |kids| ==> Rewrites(templates, origins, after, Children(u)[i], kids[i])
    ensures |subs| == |kids| && forall i :: 0 <= i < |kids| ==> Substitute(Children(u)[i], before) == Some(subs[i])
    ensures SameCanons(rs, kids) && forall i :: 0 <= i < |kids| ==> Rewrites(templates, origins, map[], subs[i], rs[i])
    decreases u, 0, 0
  {
    forall i | 0 <= i < |kids|
      ensures Substitute(Children(u)[i], before).Some?
      ensures Becomes(templates, origins, Substitute(Children(u)[i], before).value, Canon(kids[i]))
    {
      SubstitutedBecomes(templates, origins, before, after, Children(u)[i], kids[i]);
    }
    subs := SubstituteAll(u, Children(u), before).value;
    assert AllBecome(templates, origins, subs, kids);
    rs := Rewritings(templates, origins, subs, kids);
  }

  lemma {:induction false} ApplicationBecomes(templates: Templates, origins: Origins, before: map<string, Type>,
                                              after: map<string, Type>, u: Type, r: Type)
    requires Pairs(templates, origins, before, after) && Rewrites(templates, origins, after, u, r)
    requires u.Applied? && u.head in templates
    ensures Substitute(u, before).Some? && r.Named?
    ensures Rewrites(templates, origins, map[], Substitute(u, before).value, r)
    ensures Becomes(templates, origins, Substitute(u, before).value, Canon(r))
    decreases u, 0
  {
    var kids := RequestOf(templates, origins, after, u, r);
    var subs, rs := ChildrenBecome(templates, origins, before, after, u, kids);
    var s := SubstitutedApplication(u, before);
    assert Children(s) == subs;
    assert Canons(rs) == Canons(kids);
    RequestIsRewriting(templates, origins, map[], s, rs, r.name);
  }

  lemma {:induction false} CompoundBecomes(templates: Templates, origins: Origins, before: map<string, Type>,
                                           after: map<string, Type>, u: Type, r: Type)
    requires Pairs(templates, origins, before, after) && Rewrites(templates, origins, after, u, r)
    requires !u.Named? && !(u.Applied? && u.head in templates)
    ensures Substitute(u, before).Some?
    ensures Becomes(templates, origins, Substitute(u, before).value, Canon(r))
    decreases u, 0
  {
    var subs, rs := ChildrenBecome(templates, origins, before, after, u, Children(r));
    assert SubstituteAll(u, Children(u), before).value == subs;
    RebuiltRewrites(templates, origins, u, subs, rs);
    CanonOfRebuild(u, rs, Children(r));
  }

  lemma {:induction false} RebuiltRewrites(templates: Templates, origins: Origins, u: Type, subs: seq<Type>,
                                           rs: seq<Type>)
    requires !u.Named? && !(u.Applied? && u.head in templates) && |subs| == |rs| == |Children(u)|
    requires forall i :: 0 <= i < |subs| ==> Rewrites(templates, origins, map[], subs[i], rs[i])
    ensures Rewrites(templates, origins, map[], Rebuild(u, subs), Rebuild(u, rs))
  {
    RebuildTwice(u, subs, rs);
  }

  // ----- a retained origin stands for a needed application

  /** A needed application is rewritten to the name. */
  ghost predicate StandsFor(items: seq<Item>, origins: Origins, name: string, s: Type)
  {
    Needed(items, s) && Rewrites(TemplatesOf(items), origins, map[], s, Named(name))
  }

  ghost predicate Stands(items: seq<Item>, origins: Origins, name: string)
  {
    exists s :: StandsFor(items, origins, name, s)
  }

  ghost predicate OriginsResolved(templates: Templates, origins: Origins)
  {
    forall name :: name in origins ==> AllResolved(templates, origins[name].arguments)
  }

  lemma {:induction false} AskedContained(templates: Templates, origins: Origins, subst: map<string, Type>, ty: Type,
                                          name: string)
    returns (u: Type)
    requires Asks(templates, origins, subst, ty, name)
    ensures Contains(templates, ty, u) && u.Applied? && u.head in templates
    ensures Rewrites(templates, origins, subst, u, Named(name))
  {
    if ty.Applied? && ty.head in templates && Rewrites(templates, origins, subst, ty, Named(name)) {
      u := ty;
    } else {
      var i :| 0 <= i < |Children(ty)| && Asks(templates, origins, subst, Children(ty)[i], name);
      u := AskedContained(templates, origins, subst, Children(ty)[i], name);
    }
  }

  lemma SomeAskedContained(templates: Templates, origins: Origins, subst: map<string, Type>, tys: seq<Type>,
                           name: string)
    returns (j: nat, u: Type)
    requires SomeAsks(templates, origins, subst, tys, name)
    ensures j < |tys| && Contains(templates, tys[j], u)
    ensures u.Applied? && u.head in templates && Rewrites(templates, origins, subst, u, Named(name))
  {
    j :| 0 <= j < |tys| && Asks(templates, origins, subst, tys[j], name);
    u := AskedContained(templates, origins, subst, tys[j], name);
  }

  /** The arguments of an application and those of the origin it is rewritten to. */
  lemma {:induction false} ArgumentsPair(templates: Templates, origins: Origins, s: Type, name: string)
    requires s.Applied? && s.head in templates && Rewrites(templates, origins, map[], s, Named(name))
    ensures name in origins && origins[name].template == s.head && |origins[name].arguments| == |Children(s)|
    ensures forall i :: 0 <= i < |Children(s)| ==>
            Becomes(templates, origins, Children(s)[i], origins[name].arguments[i])
  {
    var kids := RequestOf(templates, origins, map[], s, Named(name));
    assert Requested(templates, origins, s, kids, name);
    forall i | 0 <= i < |kids| ensures Becomes(templates, origins, Children(s)[i], origins[name].arguments[i]) {
      assert Rewrites(templates, origins, map[], Children(s)[i], kids[i]);
    }
  }

  lemma {:induction false} SubstitutionsPair(templates: Templates, origins: Origins, params: seq<Param>, a: seq<Type>,
                                             b: seq<Type>)
    requires |params| == |a| == |b| && AllResolved(templates, b)
    requires forall i :: 0 <= i < |a| ==> Becomes(templates, origins, a[i], b[i])
    ensures Pairs(templates, origins, Substitution(params, a), Substitution(params, b))
  {
    SubstitutionKeys(params, a, b);
    forall p | p in Substitution(params, a)
      ensures Resolved(templates, Substitution(params, b)[p])
      ensures Becomes(templates, origins, Substitution(params, a)[p], Substitution(params, b)[p])
    {
      var i := SubstitutionPair(params, a, b, p);
    }
  }

  lemma {:induction false} AskedNeeded(templates: Templates, origins: Origins, p: Type, parent: string, name: string)
    returns (s: Type)
    requires p.Applied? && p.head in templates && Rewrites(templates, origins, map[], p, Named(parent))
    requires OriginAsks(templates, origins, parent, name) && AllResolved(templates, origins[parent].arguments)
    ensures SomeFieldNeeds(templates, p, s) && Rewrites(templates, origins, map[], s, Named(name))
  {
    ArgumentsPair(templates, origins, p, parent);
    var d, arguments := templates[p.head], origins[parent].arguments;
    var before, after := Substitution(d.params, Children(p)), Substitution(d.params, arguments);
    SubstitutionsPair(templates, origins, d.params, Children(p), arguments);
    var j, u := SomeAskedContained(templates, origins, after, FieldTypes(d.fields), name);
    ApplicationBecomes(templates, origins, before, after, u, Named(name));
    s := Substitute(u, before).value;
    assert FieldNeeds(templates, p, j, u, s);
  }

  lemma {:induction false} AskedStands(items: seq<Item>, origins: Origins, parent: string, name: string)
    requires Stands(items, origins, parent) && OriginAsks(TemplatesOf(items), origins, parent, name)
    requires AllResolved(TemplatesOf(items), origins[parent].arguments)
    ensures Stands(items, origins, name)
  {
    var p :| StandsFor(items, origins, parent, p);
    NeededApplies(items, p);
    var s := AskedNeeded(TemplatesOf(items), origins, p, parent, name);
    assert (p, s) in NeedLinks(items);
    LinkReached(NeedRoots(items), NeedLinks(items), p, s);
    assert StandsFor(items, origins, name, s);
  }

  lemma {:induction false} RootStands(items: seq<Item>, origins: Origins, name: string)
    requires AskedFor(items, origins, name)
    ensures Stands(items, origins, name)
  {
    var i: nat :| ItemAsks(items, origins, i, name);
    var j, s := SomeAskedContained(TemplatesOf(items), origins, map[], FieldTypes(items[i].definition.fields), name);
    assert ItemNeeds(items, i, s);
    assert s in NeedRoots(items);
    RootReached(NeedRoots(items), NeedLinks(items), s);
    assert StandsFor(items, origins, name, s);
  }

  /** Every demanded origin stands for a needed application. */
  lemma {:induction false} DemandedStands(items: seq<Item>, origins: Origins, name: string)
    requires Demanded(items, origins, name) && OriginsResolved(TemplatesOf(items), origins)
    ensures Stands(items, origins, name)
  {
    var all := iset n | Stands(items, origins, n);
    forall n | n in Roots(items, origins) ensures n in all {
      RootStands(items, origins, n);
    }
    forall link | link in Links(items, origins) && link.0 in all ensures link.1 in all {
      AskedStands(items, origins, link.0, link.1);
    }
    ReachedStays(Roots(items, origins), Links(items, origins), all, name);
  }

  // ----- a needed application has a retained origin

  lemma {:induction false} ContainedRewrites(templates: Templates, origins: Origins, subst: map<string, Type>, ty: Type,
                                             r: Type, u: Type)
    returns (name: string)
    requires Rewrites(templates, origins, subst, ty, r) && Contains(templates, ty, u)
    ensures u.Applied? && u.head in templates && Rewrites(templates, origins, subst, u, Named(name))
  {
    if ty.Applied? && ty.head in templates {
      var kids := RequestOf(templates, origins, subst, ty, r);
      if u == ty {
        name := r.name;
        assert r == Named(name);
      } else {
        var i :| 0 <= i < |Children(ty)| && Contains(templates, Children(ty)[i], u);
        name := ContainedRewrites(templates, origins, subst, Children(ty)[i], kids[i], u);
      }
    } else {
      var i :| 0 <= i < |Children(ty)| && Contains(templates, Children(ty)[i], u);
      name := ContainedRewrites(templates, origins, subst, Children(ty)[i], Children(r)[i], u);
    }
  }

  ghost predicate HasName(items: seq<Item>, origins: Origins, s: Type)
  {
    exists name :: StandsFor(items, origins, name, s)
  }

  lemma {:induction false} RootNamed(items: seq<Item>, out: Output, s: Type)
    requires DistinctNames(items) && Declares(SourceOf(items), out) && s in NeedRoots(items)
    ensures HasName(items, out.origins, s)
  {
    var i: nat :| ItemNeeds(items, i, s);
    var fields := items[i].definition.fields;
    var j :| 0 <= j < |FieldTypes(fields)| && Contains(TemplatesOf(items), FieldTypes(fields)[j], s);
    DeclaredAt(items, i);
    var r := out.declarations[items[i].name].fields[j].ty;
    var name := ContainedRewrites(TemplatesOf(items), out.origins, map[], fields[j].ty, r, s);
    RootReached(NeedRoots(items), NeedLinks(items), s);
    assert StandsFor(items, out.origins, name, s);
  }

  lemma {:induction false} FieldNamed(templates: Templates, out: Output, p: Type, parent: string, j: nat, u: Type,
                                      s: Type)
    returns (name: string)
    requires p.Applied? && p.head in templates && Rewrites(templates, out.origins, map[], p, Named(parent))
    requires parent in out.origins && parent in out.declarations
    requires Specializes(templates, out.origins, out.origins[parent], out.declarations[parent])
    requires FieldNeeds(templates, p, j, u, s)
    ensures Rewrites(templates, out.origins, map[], s, Named(name))
  {
    ArgumentsPair(templates, out.origins, p, parent);
    var d, arguments := templates[p.head], out.origins[parent].arguments;
    SubstitutionsPair(templates, out.origins, d.params, Children(p), arguments);
    var before, after := Substitution(d.params, Children(p)), Substitution(d.params, arguments);
    name := ContainedRewrites(templates, out.origins, after, d.fields[j].ty, out.declarations[parent].fields[j].ty, u);
    ApplicationBecomes(templates, out.origins, before, after, u, Named(name));
  }

  lemma {:induction false} LinkNamed(items: seq<Item>, out: Output, p: Type, s: Type)
    requires Declares(SourceOf(items), out) && HasName(items, out.origins, p) && (p, s) in NeedLinks(items)
    ensures HasName(items, out.origins, s)
  {
    var templates := TemplatesOf(items);
    var parent :| StandsFor(items, out.origins, parent, p);
    var j: nat, u: Type :| FieldNeeds(templates, p, j, u, s);
    ArgumentsPair(templates, out.origins, p, parent);
    assert Specializes(templates, out.origins, out.origins[parent], out.declarations[parent]);
    var name := FieldNamed(templates, out, p, parent, j, u, s);
    LinkReached(NeedRoots(items), NeedLinks(items), p, s);
    assert StandsFor(items, out.origins, name, s);
  }

  /** Every needed application has a name in a complete output. */
  lemma {:induction false} NeededNamed(items: seq<Item>, out: Output, s: Type)
    requires DistinctNames(items) && Declares(SourceOf(items), out) && Needed(items, s)
    ensures HasName(items, out.origins, s)
  {
    var all := iset x: Type | HasName(items, out.origins, x);
    forall x | x in NeedRoots(items) ensures x in all {
      RootNamed(items, out, x);
    }
    forall link | link in NeedLinks(items) && link.0 in all ensures link.1 in all {
      assert (link.0, link.1) == link;
      LinkNamed(items, out, link.0, link.1);
    }
    ReachedStays(NeedRoots(items), NeedLinks(items), all, s);
  }

  // ----- symbols agree

  lemma {:induction false} ArgumentFrameRebuilt(arguments: seq<TypeArgument>, tys: seq<Type>, texts: seq<string>)
    requires |tys| == |texts| == |TypeArguments(arguments)|
    ensures ArgumentFrame(WithTypeArguments(arguments, tys), texts) == ArgumentFrame(arguments, texts)
  {
    if arguments != [] {
      var keep := arguments[0].TypeArg?;
      var r := WithTypeArguments(arguments, tys);
      assert r[1..] == WithTypeArguments(arguments[1..], if keep then tys[1..] else tys);
      ArgumentFrameRebuilt(arguments[1..], if keep then tys[1..] else tys, if keep then texts[1..] else texts);
    }
  }

  lemma FrameRebuilt(origins: Origins, ty: Type, kids: seq<Type>, texts: seq<string>)
    requires !ty.Named? && |kids| == |texts| == |Children(ty)|
    ensures Below(origins, Rebuild(ty, kids)) == kids
    ensures Frame(origins, Rebuild(ty, kids), texts) == Frame(map[], ty, texts)
  {
    if ty.Applied? {
      ArgumentFrameRebuilt(ty.arguments, kids, texts);
    }
  }

  /** Where no name is a retained symbol, the identity of a rewritten type is its source text. */
  lemma {:induction false} TextAgrees(templates: Templates, origins: Origins, s: Type, r: Type, height: nat)
    requires Rewrites(templates, origins, map[], s, r) && Uncaptured(origins, {}, s) && Fits(origins, Canon(r), height)
    ensures Render(origins, Canon(r), height) == SourceText(templates, s)
    decreases s, 1
  {
    if s.Applied? && s.head in templates {
      RenderIsFrame(origins, Canon(r), height);
      var kids := RequestOf(templates, origins, map[], s, r);
      assert Requested(templates, origins, s, kids, r.name);
      TextsAgree(templates, origins, s, kids, height - 1);
    } else if s.Named? {
      RenderIsFrame(origins, Canon(r), height);
    } else {
      CompoundText(templates, origins, s, r, height);
    }
  }

  lemma CanonRebuilds(ty: Type)
    requires ty != Tuple([])
    ensures Canon(ty) == Rebuild(ty, Canons(Children(ty)))
  {
    assert CanonAll(ty, Children(ty)) == Canons(Children(ty));
  }

  lemma {:induction false} CompoundText(templates: Templates, origins: Origins, s: Type, r: Type, height: nat)
    requires Rewrites(templates, origins, map[], s, r) && Uncaptured(origins, {}, s) && Fits(origins, Canon(r), height)
    requires !s.Named? && !(s.Applied? && s.head in templates)
    ensures Render(origins, Canon(r), height) == SourceText(templates, s)
    decreases s, 0, 1
  {
    var kids := Children(r);
    if s == Tuple([]) {
      assert r == s;
    } else {
      CanonRebuilds(r);
      RebuildTwice(s, kids, Canons(kids));
      FrameRebuilt(origins, s, Canons(kids), SourceTexts(templates, s, Children(s)));
      RenderIsFrame(origins, Canon(r), height);
      TextsAgree(templates, origins, s, kids, height - 1);
    }
  }

  lemma {:induction false} TextsAgree(templates: Templates, origins: Origins, s: Type, kids: seq<Type>, height: nat)
    requires |kids| == |Children(s)| && Uncaptured(origins, {}, s) && AllFits(origins, Canons(kids), height)
    requires forall i :: 0 <= i < |kids| ==> Rewrites(templates, origins, map[], Children(s)[i], kids[i])
    ensures RenderAll(origins, Canons(kids), height) == SourceTexts(templates, s, Children(s))
    decreases s, 0, 0
  {
    forall i | 0 <= i < |kids|
      ensures Render(origins, Canons(kids)[i], height) == SourceText(templates, Children(s)[i])
    {
      TextAgrees(templates, origins, Children(s)[i], kids[i], height);
    }
  }

  /** The symbol of an application is the one its source text gives, unless a name in it is a retained symbol. */
  lemma {:induction false} SymbolAgrees(templates: Templates, origins: Origins, s: Type, name: string)
    requires Sound(origins) && s.Applied? && s.head in templates && Rewrites(templates, origins, map[], s, Named(name))
    requires Uncaptured(origins, {}, s) && name in origins && Encodes(origins, name)
    ensures name == SourceSymbol(templates, s)
  {
    var kids := RequestOf(templates, origins, map[], s, Named(name));
    assert Requested(templates, origins, s, kids, name);
    var height := ArgumentsFit(origins, origins[name].arguments);
    TextsAgree(templates, origins, s, kids, height);
  }
}
