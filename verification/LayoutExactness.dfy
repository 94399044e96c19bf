/** Kept layouts show every capture, so keeping them is the same as capturing nothing. */
module LayoutExactness {
  import opened Options
  import opened Chains
  import opened Types
  import opened Provenance
  import opened SymbolNames
  import opened OriginGrowth
  import opened Abilities
  import opened Layout
  import opened Declarations
  import opened Demand
  import opened SourceDemand
  import opened Correspondence
  import opened Captures

  /** The same layout to every depth. */
  ghost predicate Same(source: Source, out: Output, s: Type, r: Type)
  {
    forall depth: nat :: SourceLayout(source, s, depth) == TargetLayout(out, r, depth)
  }

  lemma SameCanon(source: Source, out: Output, s: Type, r: Type)
    requires Same(source, out, s, Canon(r))
    ensures Same(source, out, s, r)
  {
    forall depth: nat ensures SourceLayout(source, s, depth) == TargetLayout(out, r, depth) {
      TargetOfCanon(out, r, depth);
    }
  }

  /** An undeclared name with the same layout is no symbol. */
  lemma SameName(source: Source, out: Output, name: string)
    requires Declares(source, out) && Same(source, out, Named(name), Named(name))
    ensures name !in out.origins
  {
    assert SourceLayout(source, Named(name), 0) == TargetLayout(out, Named(name), 0);
  }

  lemma SameCompound(source: Source, out: Output, s: Type, r: Type, i: nat)
    requires Same(source, out, s, r) && !s.Named? && !s.Prim? && !(s.Applied? && s.head in source.templates)
    requires !r.Named? && !r.Prim? && i < |Children(s)| == |Children(r)|
    ensures Same(source, out, Children(s)[i], Children(r)[i])
  {
    forall depth: nat ensures SourceLayout(source, Children(s)[i], depth) == TargetLayout(out, Children(r)[i], depth) {
      assert SourceLayout(source, s, depth) == TargetLayout(out, r, depth);
      assert SourceLayouts(source, s, Children(s), depth) == TargetLayouts(out, r, Children(r), depth);
    }
  }

  lemma SameRecord(source: Source, out: Output, s: Type, name: string, depth: nat)
    requires Same(source, out, s, Named(name)) && AppliesTemplate(source, s) && name in out.origins
    requires name in out.declarations
    ensures var d, arguments := source.templates[s.head], out.origins[name].arguments;
            && SourceLayouts(source, s, Children(s), depth) == TargetLayouts(out, Tuple(arguments), arguments, depth)
            && SourceFields(source, d.fields, Substitution(d.params, Children(s)), depth) ==
               TargetFields(out, out.declarations[name].fields, depth)
  {
    assert SourceLayout(source, s, depth + 1) == TargetLayout(out, Named(name), depth + 1);
  }

  lemma SameArgument(source: Source, out: Output, s: Type, name: string, i: nat)
    requires Same(source, out, s, Named(name)) && AppliesTemplate(source, s) && name in out.origins
    requires name in out.declarations
    requires i < |Children(s)| == |out.origins[name].arguments|
    ensures Same(source, out, Children(s)[i], out.origins[name].arguments[i])
  {
    forall depth: nat
      ensures SourceLayout(source, Children(s)[i], depth) == TargetLayout(out, out.origins[name].arguments[i], depth)
    {
      SameRecord(source, out, s, name, depth);
      assert SourceLayouts(source, s, Children(s), depth)[i] == SourceLayout(source, Children(s)[i], depth);
    }
  }

  lemma SameField(source: Source, out: Output, s: Type, name: string, j: nat, x: Type)
    requires Same(source, out, s, Named(name)) && AppliesTemplate(source, s) && name in out.origins
    requires name in out.declarations
    requires var d := source.templates[s.head];
             && j < |d.fields| == |out.declarations[name].fields|
             && Substitute(d.fields[j].ty, Substitution(d.params, Children(s))) == Some(x)
    ensures Same(source, out, x, out.declarations[name].fields[j].ty)
  {
    var d := source.templates[s.head];
    var subst, fields := Substitution(d.params, Children(s)), out.declarations[name].fields;
    forall depth: nat ensures SourceLayout(source, x, depth) == TargetLayout(out, fields[j].ty, depth) {
      SameRecord(source, out, s, name, depth);
      assert SourceFields(source, d.fields, subst, depth)[j].layout == TargetFields(out, fields, depth)[j].layout;
    }
  }

  lemma SameDeclaredField(source: Source, out: Output, name: string, j: nat)
    requires Same(source, out, Named(name), Named(name)) && name in source.concretes && name in out.declarations
    requires name !in out.origins
    requires j < |source.concretes[name].fields| == |out.declarations[name].fields|
    ensures Same(source, out, source.concretes[name].fields[j].ty, out.declarations[name].fields[j].ty)
  {
    var before, after := source.concretes[name].fields, out.declarations[name].fields;
    SubstituteNothing(before[j].ty);
    forall depth: nat ensures SourceLayout(source, before[j].ty, depth) == TargetLayout(out, after[j].ty, depth) {
      assert SourceLayout(source, Named(name), depth + 1) == TargetLayout(out, Named(name), depth + 1);
      assert SourceFields(source, before, map[], depth)[j].layout == TargetFields(out, after, depth)[j].layout;
    }
  }

  // ----- into a type

  /** The components of a field with the same layout have the same layout. */
  lemma {:induction false} SameChild(source: Source, out: Output, before: map<string, Type>, after: map<string, Type>,
                                     u: Type, r: Type, i: nat)
    returns (kid: Type)
    requires Declares(source, out)
    requires Rewrites(source.templates, out.origins, after, u, r) && Substitute(u, before).Some?
    requires Same(source, out, Substitute(u, before).value, r) && i < |Children(u)|
    ensures Rewrites(source.templates, out.origins, after, Children(u)[i], kid)
    ensures Substitute(Children(u)[i], before).Some?
    ensures Same(source, out, Substitute(Children(u)[i], before).value, kid)
  {
    var s := Substitute(u, before).value;
    if u.Applied? && u.head in source.templates {
      kid := SameChildOfApplication(source, out, before, after, u, r, i);
    } else {
      kid := Children(r)[i];
      assert Children(s)[i] == Substitute(Children(u)[i], before).value;
      SameCompound(source, out, s, r, i);
    }
  }

  lemma {:induction false} SameChildOfApplication(source: Source, out: Output, before: map<string, Type>,
                                                  after: map<string, Type>, u: Type, r: Type, i: nat)
    returns (kid: Type)
    requires Declares(source, out)
    requires Rewrites(source.templates, out.origins, after, u, r) && Substitute(u, before).Some?
    requires Same(source, out, Substitute(u, before).value, r) && i < |Children(u)| && u.Applied?
    requires u.head in source.templates
    ensures Rewrites(source.templates, out.origins, after, Children(u)[i], kid)
    ensures Substitute(Children(u)[i], before).Some?
    ensures Same(source, out, Substitute(Children(u)[i], before).value, kid)
  {
    var kids := RequestOf(source.templates, out.origins, after, u, r);
    SubstitutedParts(u, before);
    var s := SubstitutedApplication(u, before);
    kid := kids[i];
    SameRequested(source, out, u, s, kids, r.name, i);
  }

  lemma SubstitutedParts(u: Type, before: map<string, Type>)
    requires Substitute(u, before).Some? && !u.Named?
    ensures forall i :: 0 <= i < |Children(u)| ==> Substitute(Children(u)[i], before).Some?
  {
  }

  lemma {:induction false} SameRequested(source: Source, out: Output, u: Type, s: Type, kids: seq<Type>, name: string,
                                         i: nat)
    requires Declares(source, out) && u.Applied? && u.head in source.templates
    requires Requested(source.templates, out.origins, u, kids, name)
    requires s.Applied? && s.head == u.head && OnlyTypes(s) && i < |Children(s)| == |Children(u)| == |kids|
    requires Same(source, out, s, Named(name))
    ensures Same(source, out, Children(s)[i], kids[i])
  {
    assert Specializes(source.templates, out.origins, out.origins[name], out.declarations[name]);
    SameArgument(source, out, s, name, i);
    SameCanon(source, out, Children(s)[i], kids[i]);
  }

  /** A field with the same layout mentions no symbol. */
  lemma {:induction false} SameMentions(source: Source, out: Output, before: map<string, Type>,
                                        after: map<string, Type>, u: Type, r: Type, name: string)
    requires Declares(source, out) && before.Keys == after.Keys
    requires Rewrites(source.templates, out.origins, after, u, r) && Substitute(u, before).Some?
    requires Same(source, out, Substitute(u, before).value, r) && Mentions(u, name) && name !in after
    ensures name !in out.origins
    decreases u
  {
    if u.Named? {
      SameName(source, out, name);
    } else {
      var i := MentionedChild(u, name);
      var kid := SameChild(source, out, before, after, u, r, i);
      SameMentions(source, out, before, after, Children(u)[i], kid, name);
    }
  }

  /** An application in a field with the same layout has the layout of its name. */
  lemma {:induction false} SameContained(source: Source, out: Output, before: map<string, Type>,
                                         after: map<string, Type>, u: Type, r: Type, v: Type)
    returns (name: string)
    requires Declares(source, out) && Pairs(source.templates, out.origins, before, after)
    requires Rewrites(source.templates, out.origins, after, u, r) && Substitute(u, before).Some?
    requires Same(source, out, Substitute(u, before).value, r) && Contains(source.templates, u, v)
    ensures v.Applied? && v.head in source.templates && Substitute(v, before).Some?
    ensures Rewrites(source.templates, out.origins, map[], Substitute(v, before).value, Named(name))
    ensures Same(source, out, Substitute(v, before).value, Named(name))
    decreases u
  {
    if v == u && u.Applied? && u.head in source.templates {
      ApplicationBecomes(source.templates, out.origins, before, after, u, r);
      name := r.name;
      assert r == Named(name);
    } else {
      var i :| 0 <= i < |Children(u)| && Contains(source.templates, Children(u)[i], v);
      var kid := SameChild(source, out, before, after, u, r, i);
      name := SameContained(source, out, before, after, Children(u)[i], kid, v);
    }
  }

  // ----- through a module

  /** The application has a name of the same layout. */
  ghost predicate ShownBy(items: seq<Item>, out: Output, s: Type, name: string)
  {
    StandsFor(items, out.origins, name, s) && Same(SourceOf(items), out, s, Named(name))
  }

  ghost predicate Shown(items: seq<Item>, out: Output, s: Type)
  {
    exists name :: ShownBy(items, out, s, name)
  }

  lemma NoPairs(templates: Templates, origins: Origins)
    ensures Pairs(templates, origins, map[], map[])
  {
  }

  lemma {:induction false} KeptSame(items: seq<Item>, out: Output, i: nat, j: nat)
    requires DistinctNames(items) && Declares(SourceOf(items), out) && LayoutsKept(SourceOf(items), out)
    requires i < |items| && !IsTemplate(items[i]) && j < |items[i].definition.fields|
    ensures var ty := items[i].definition.fields[j].ty;
            exists r :: Rewrites(TemplatesOf(items), out.origins, map[], ty, r) && Same(SourceOf(items), out, ty, r)
  {
    var source, name := SourceOf(items), items[i].name;
    DeclaredAt(items, i);
    assert RewrittenDefinition(source.templates, out.origins, map[], source.concretes[name], out.declarations[name]);
    forall depth: nat ensures SourceLayout(source, Named(name), depth) == TargetLayout(out, Named(name), depth) {
    }
    SameDeclaredField(source, out, name, j);
  }

  lemma {:induction false} RootShown(items: seq<Item>, out: Output, s: Type)
    requires DistinctNames(items) && Declares(SourceOf(items), out) && LayoutsKept(SourceOf(items), out)
    requires s in NeedRoots(items)
    ensures Shown(items, out, s)
  {
    var i: nat :| ItemNeeds(items, i, s);
    var tys := FieldTypes(items[i].definition.fields);
    var j :| 0 <= j < |tys| && Contains(TemplatesOf(items), tys[j], s);
    KeptSame(items, out, i, j);
    var r :| Rewrites(TemplatesOf(items), out.origins, map[], tys[j], r) && Same(SourceOf(items), out, tys[j], r);
    SubstituteNothing(tys[j]);
    SubstituteNothing(s);
    NoPairs(TemplatesOf(items), out.origins);
    var name := SameContained(SourceOf(items), out, map[], map[], tys[j], r, s);
    RootReached(NeedRoots(items), NeedLinks(items), s);
    assert ShownBy(items, out, s, name);
  }

  /** The fields of an application that is shown, before and after. */
  lemma {:induction false} ShownField(items: seq<Item>, out: Output, p: Type, name: string, j: nat)
    returns (before: map<string, Type>, after: map<string, Type>, r: Type)
    requires Declares(SourceOf(items), out) && ShownBy(items, out, p, name)
    requires p.Applied? && p.head in TemplatesOf(items) && j < |TemplatesOf(items)[p.head].fields|
    ensures var d := TemplatesOf(items)[p.head];
            && |d.params| == |Children(p)| && before == Substitution(d.params, Children(p)) &&
               after.Keys == ParamNames(d.params)
            && Pairs(TemplatesOf(items), out.origins, before, after) &&
               Rewrites(TemplatesOf(items), out.origins, after, d.fields[j].ty, r)
            && Substitute(d.fields[j].ty, before).Some? &&
               Same(SourceOf(items), out, Substitute(d.fields[j].ty, before).value, r)
  {
    var source, d := SourceOf(items), TemplatesOf(items)[p.head];
    ArgumentsPair(source.templates, out.origins, p, name);
    var arguments := out.origins[name].arguments;
    assert Specializes(source.templates, out.origins, out.origins[name], out.declarations[name]);
    SubstitutionsPair(source.templates, out.origins, d.params, Children(p), arguments);
    before, after := Substitution(d.params, Children(p)), Substitution(d.params, arguments);
    SubstitutionNames(d.params, arguments);
    r := out.declarations[name].fields[j].ty;
    SubstitutedBecomes(source.templates, out.origins, before, after, d.fields[j].ty, r);
    var kids := RequestOf(source.templates, out.origins, map[], p, Named(name));
    SameField(source, out, p, name, j, Substitute(d.fields[j].ty, before).value);
  }

  lemma {:induction false} LinkShown(items: seq<Item>, out: Output, p: Type, s: Type)
    requires Declares(SourceOf(items), out) && Shown(items, out, p) && (p, s) in NeedLinks(items)
    ensures Shown(items, out, s)
  {
    var parent :| ShownBy(items, out, p, parent);
    var j: nat, u: Type :| FieldNeeds(TemplatesOf(items), p, j, u, s);
    var before, after, r := ShownField(items, out, p, parent, j);
    var name := SameContained(SourceOf(items), out, before, after, TemplatesOf(items)[p.head].fields[j].ty, r, u);
    LinkReached(NeedRoots(items), NeedLinks(items), p, s);
    assert ShownBy(items, out, s, name);
  }

  lemma {:induction false} NeededShown(items: seq<Item>, out: Output, s: Type)
    requires DistinctNames(items) && Declares(SourceOf(items), out) && LayoutsKept(SourceOf(items), out)
    requires Needed(items, s)
    ensures Shown(items, out, s)
  {
    var all := iset x: Type | Shown(items, out, x);
    forall x | x in NeedRoots(items) ensures x in all {
      RootShown(items, out, x);
    }
    forall link | link in NeedLinks(items) && link.0 in all ensures link.1 in all {
      assert (link.0, link.1) == link;
      LinkShown(items, out, link.0, link.1);
    }
    ReachedStays(NeedRoots(items), NeedLinks(items), all, s);
  }

  lemma {:induction false} ItemShows(items: seq<Item>, out: Output, i: nat, name: string)
    requires DistinctNames(items) && Declares(SourceOf(items), out) && LayoutsKept(SourceOf(items), out)
    requires ItemWrites(items, i, name)
    ensures name !in out.origins
  {
    var tys := FieldTypes(items[i].definition.fields);
    var j :| 0 <= j < |tys| && Mentions(tys[j], name);
    KeptSame(items, out, i, j);
    var r :| Rewrites(TemplatesOf(items), out.origins, map[], tys[j], r) && Same(SourceOf(items), out, tys[j], r);
    SubstituteNothing(tys[j]);
    SameMentions(SourceOf(items), out, map[], map[], tys[j], r, name);
  }

  lemma {:induction false} TemplateShows(items: seq<Item>, out: Output, s: Type, name: string)
    requires DistinctNames(items) && Declares(SourceOf(items), out) && LayoutsKept(SourceOf(items), out)
    requires Needed(items, s) && s.Applied? && TemplateWrites(TemplatesOf(items), s.head, name)
    ensures name !in out.origins
  {
    NeededShown(items, out, s);
    var own :| ShownBy(items, out, s, own);
    var tys := FieldTypes(TemplatesOf(items)[s.head].fields);
    var j :| 0 <= j < |tys| && Mentions(tys[j], name);
    var before, after, r := ShownField(items, out, s, own, j);
    SameMentions(SourceOf(items), out, before, after, tys[j], r, name);
  }

  /** Where layouts are kept, no retained symbol is a name the module writes. */
  lemma {:induction false} KeptIsFree(items: seq<Item>, out: Output)
    requires DistinctNames(items) && Declares(SourceOf(items), out) && LayoutsKept(SourceOf(items), out)
    ensures NoneWritten(items, out.origins)
  {
    forall name | Writes(items, name) ensures name !in out.origins {
      if i: nat :| ItemWrites(items, i, name) {
        ItemShows(items, out, i, name);
      } else {
        var s: Type :| Needed(items, s) && s.Applied? && TemplateWrites(TemplatesOf(items), s.head, name);
        TemplateShows(items, out, s, name);
      }
    }
  }

  /** Specialization keeps every layout to every depth exactly when the module is self-contained. */
  lemma {:induction false} LayoutsKeptExactly(items: seq<Item>, out: Output)
    requires DistinctNames(items) && Complete(SourceOf(items), out)
    requires AllDemanded(items, out.origins) && OriginsResolved(TemplatesOf(items), out.origins)
    ensures LayoutsKept(SourceOf(items), out) <==> SelfContained(items)
  {
    if LayoutsKept(SourceOf(items), out) {
      KeptIsFree(items, out);
      FreeIsSelfContained(items, out);
    }
    if SelfContained(items) {
      SelfContainedIsFree(items, out.origins);
      NoneWrittenIsNoCapture(items, out);
      UncapturedKeepsLayouts(SourceOf(items), out);
    }
  }
}
