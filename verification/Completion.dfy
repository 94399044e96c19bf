/** A finished worklist: what was rewritten and emitted is complete, and holds no name from nowhere. */
module Completion {
  import opened Options
  import opened Types
  import opened Provenance
  import opened TypeText
  import opened RenderFrames
  import opened SymbolNames
  import opened OriginGrowth
  import opened Abilities
  import opened Layout
  import opened Declarations
  import opened Demand
  import opened SourceDemand
  import opened Correspondence
  import opened Worklist

  // ----- known names

  /** The names a module writes, and parameters in scope. */
  ghost function Within(written: iset<string>, bound: set<string>): iset<string>
  {
    iset name | name in written || name in bound
  }

  lemma {:induction false} KnownIf(written: iset<string>, origins: Origins, ty: Type)
    requires forall name :: Mentions(ty, name) ==> name in written || name in origins
    ensures Known(written, origins, ty)
  {
    forall i | 0 <= i < |Children(ty)| ensures Known(written, origins, Children(ty)[i]) {
      assert forall name :: Mentions(Children(ty)[i], name) ==> Mentions(ty, name);
      KnownIf(written, origins, Children(ty)[i]);
    }
    assert ty.Named? ==> Mentions(ty, ty.name);
  }

  lemma {:induction false} ItemKnown(items: seq<Item>, origins: Origins, i: nat)
    requires i < |items| && !IsTemplate(items[i])
    ensures AllKnown(Written(items), origins, FieldTypes(items[i].definition.fields))
  {
    var tys := FieldTypes(items[i].definition.fields);
    forall j | 0 <= j < |tys| ensures Known(Written(items), origins, tys[j]) {
      forall name | Mentions(tys[j], name) ensures name in Written(items) {
        assert ItemWrites(items, i, name);
      }
      KnownIf(Written(items), origins, tys[j]);
    }
  }

  /** A demanded template mentions its parameters and names the module writes. */
  lemma {:induction false} TemplateKnown(items: seq<Item>, origins: Origins, name: string)
    requires name in origins && Demanded(items, origins, name) && OriginsResolved(TemplatesOf(items), origins)
    ensures origins[name].template in TemplatesOf(items)
    ensures var template := TemplatesOf(items)[origins[name].template];
            AllKnown(Within(Written(items), ParamNames(template.params)), origins, FieldTypes(template.fields))
  {
    DemandedStands(items, origins, name);
    var s :| StandsFor(items, origins, name, s);
    NeededApplies(items, s);
    ArgumentsPair(TemplatesOf(items), origins, s, name);
    var template := TemplatesOf(items)[s.head];
    var tys, known := FieldTypes(template.fields), Within(Written(items), ParamNames(template.params));
    forall j | 0 <= j < |tys| ensures Known(known, origins, tys[j]) {
      forall m | Mentions(tys[j], m) ensures m in known {
        if m !in ParamNames(template.params) {
          assert TemplateWrites(TemplatesOf(items), s.head, m);
        }
      }
      KnownIf(known, origins, tys[j]);
    }
  }

  /** Rewriting adds retained names and no others. */
  lemma {:induction false} RewritesKnown(templates: Templates, written: iset<string>, origins: Origins,
                                         subst: map<string, Type>, ty: Type, r: Type)
    requires Rewrites(templates, origins, subst, ty, r) && Known(Within(written, subst.Keys), origins, ty)
    requires forall p :: p in subst ==> Known(written, origins, subst[p])
    ensures Known(written, origins, r)
    decreases if subst == map[] then 0 else 1, ty
  {
    if ty.Named? {
      if ty.name in subst {
        var none: map<string, Type> := map[];
        assert Within(written, none.Keys) == written;
        RewritesKnown(templates, written, origins, none, subst[ty.name], r);
      }
    } else if ty.Applied? && ty.head in templates {
      var kids := RequestOf(templates, origins, subst, ty, r);
      assert Children(r) == [];
    } else {
      forall i | 0 <= i < |Children(r)| ensures Known(written, origins, Children(r)[i]) {
        RewritesKnown(templates, written, origins, subst, Children(ty)[i], Children(r)[i]);
      }
    }
  }

  /** Every name in a declared field is a retained symbol, which is declared, or a name the module writes. */
  ghost predicate Closed(items: seq<Item>, out: Output)
  {
    && out.origins.Keys <= out.declarations.Keys
    && forall name :: name in out.declarations ==>
       AllKnown(Written(items), out.origins, FieldTypes(out.declarations[name].fields))
  }

  lemma {:induction false} KeptClosed(items: seq<Item>, out: Output, name: string)
    requires Declares(SourceOf(items), out) && name in SourceOf(items).concretes
    ensures AllKnown(Written(items), out.origins, FieldTypes(out.declarations[name].fields))
  {
    var i := DeclaredNames(items, name);
    ItemKnown(items, out.origins, i);
    var before, after := FieldTypes(items[i].definition.fields), FieldTypes(out.declarations[name].fields);
    var none: map<string, Type> := map[];
    assert Within(Written(items), none.Keys) == Written(items);
    assert RewrittenDefinition(TemplatesOf(items), out.origins, none, items[i].definition, out.declarations[name]);
    forall j | 0 <= j < |after| ensures Known(Written(items), out.origins, after[j]) {
      RewritesKnown(TemplatesOf(items), Written(items), out.origins, none, before[j], after[j]);
    }
  }

  lemma {:induction false} EmittedClosed(items: seq<Item>, out: Output, name: string)
    requires Declares(SourceOf(items), out) && Traced(Written(items), out.origins) && name in out.origins
    requires Demanded(items, out.origins, name) && OriginsResolved(TemplatesOf(items), out.origins)
    ensures AllKnown(Written(items), out.origins, FieldTypes(out.declarations[name].fields))
  {
    TemplateKnown(items, out.origins, name);
    var origin := out.origins[name];
    var template := TemplatesOf(items)[origin.template];
    assert Specializes(TemplatesOf(items), out.origins, origin, out.declarations[name]);
    var subst := Substitution(template.params, origin.arguments);
    SubstitutionNames(template.params, origin.arguments);
    forall p | p in subst ensures Known(Written(items), out.origins, subst[p]) {
      var k := SubstitutionPair(template.params, origin.arguments, origin.arguments, p);
    }
    var before, after := FieldTypes(template.fields), FieldTypes(out.declarations[name].fields);
    forall j | 0 <= j < |after| ensures Known(Written(items), out.origins, after[j]) {
      RewritesKnown(TemplatesOf(items), Written(items), out.origins, subst, before[j], after[j]);
    }
  }

  /** The output holds no name from nowhere. */
  lemma {:induction false} OutputIsClosed(items: seq<Item>, out: Output)
    requires Declares(SourceOf(items), out) && Traced(Written(items), out.origins)
    requires AllDemanded(items, out.origins) && OriginsResolved(TemplatesOf(items), out.origins)
    ensures Closed(items, out)
  {
    forall name | name in out.declarations
      ensures AllKnown(Written(items), out.origins, FieldTypes(out.declarations[name].fields))
    {
      if name in out.origins {
        EmittedClosed(items, out, name);
      } else {
        KeptClosed(items, out, name);
      }
    }
  }

  // ----- complete outputs

  lemma {:induction false} KeptNames(items: seq<Item>, kept: seq<Item>, origins: Origins)
    requires DistinctNames(items) && NamesAllowed(items)
    requires KeptRewritten(TemplatesOf(items), origins, Kept(items), kept)
    ensures DistinctNames(kept) && forall i :: 0 <= i < |kept| ==> !HasMarker(kept[i].name) && !IsTemplate(kept[i])
  {
    KeptDeclarations(items);
    forall i | 0 <= i < |kept|
      ensures kept[i].name == Kept(items)[i].name && !HasMarker(kept[i].name) && !IsTemplate(kept[i])
    {
      var j := KeptAt(items, i);
    }
  }

  lemma {:induction false} KeptPart(items: seq<Item>, origins: Origins, kept: seq<Item>, out: seq<Item>, name: string)
    requires DistinctNames(items) && NamesAllowed(items)
    requires KeptRewritten(TemplatesOf(items), origins, Kept(items), kept)
    requires DistinctNames(out) && kept <= out && name in DeclarationsOf(items)
    ensures !HasMarker(name) && name in DeclarationsOf(out)
    ensures RewrittenDefinition(TemplatesOf(items), origins, map[], DeclarationsOf(items)[name],
                                DeclarationsOf(out)[name])
  {
    KeptDeclarations(items);
    KeptNames(items, kept, origins);
    var i := DeclaredNames(Kept(items), name);
    assert out[i] == kept[i];
    DeclaredAt(out, i);
  }

  /** Each declaration is the specialization of a retained origin, under its symbol. */
  ghost predicate AllSpecialized(templates: Templates, origins: Origins, names: seq<string>, specialized: seq<Item>)
  {
    && |specialized| == |names| && Distinct(names) && Elements(names) == origins.Keys
    && forall i :: 0 <= i < |names| ==>
         && specialized[i].name == names[i] && !IsTemplate(specialized[i]) && names[i] in origins
         && Specializes(templates, origins, origins[names[i]], specialized[i].definition)
  }

  /** Where no symbol was lost, every declaration has the symbol of its origin. */
  lemma {:induction false} EmissionSpecialized(templates: Templates, written: iset<string>, origins: Origins,
                                               emitted: set<string>, names: seq<string>, specialized: seq<Item>)
    requires Emission(templates, written, origins, emitted, names, specialized) && Tracked(origins, map[], emitted)
    requires Sound(origins) && AllEncode(origins)
    ensures AllSpecialized(templates, origins, names, specialized) && |specialized| == |origins| == |emitted|
  {
    AllEmitted(origins, emitted, names);
    forall i | 0 <= i < |names| ensures specialized[i].name == names[i] {
      assert SpecializationOf(templates, written, origins, names[i], specialized[i]);
      if Lost(written, origins, names[i]) {
        LostIsNotEncoded(written, origins, names[i]);
      }
    }
  }

  lemma {:induction false} EmittedPart(templates: Templates, origins: Origins, names: seq<string>,
                                       specialized: seq<Item>, out: seq<Item>, at: nat, name: string)
    requires AllSpecialized(templates, origins, names, specialized) && name in origins
    requires DistinctNames(out) && at + |specialized| == |out| && out[at..] == specialized
    ensures name in DeclarationsOf(out) && Specializes(templates, origins, origins[name], DeclarationsOf(out)[name])
  {
    assert name in Elements(names);
    var i :| 0 <= i < |names| && names[i] == name;
    assert out[at..][i] == out[at + i] == specialized[i];
    DeclaredAt(out, at + i);
  }

  lemma {:induction false} OutputNames(items: seq<Item>, origins: Origins, kept: seq<Item>, names: seq<string>,
                                       specialized: seq<Item>)
    requires DistinctNames(items) && NamesAllowed(items)
    requires KeptRewritten(TemplatesOf(items), origins, Kept(items), kept)
    requires Sound(origins) && AllSpecialized(TemplatesOf(items), origins, names, specialized)
    ensures DistinctNames(kept + specialized)
  {
    KeptNames(items, kept, origins);
    var out := kept + specialized;
    forall i, j | 0 <= i < j < |out| ensures out[i].name != out[j].name {
      if i < |kept| <= j {
        assert HasMarker(names[j - |kept|]) && out[j] == specialized[j - |kept|];
      } else if |kept| <= i {
        assert out[i] == specialized[i - |kept|] && out[j] == specialized[j - |kept|];
      }
    }
  }

  lemma {:induction false} NothingElse(items: seq<Item>, origins: Origins, kept: seq<Item>, names: seq<string>,
                                       specialized: seq<Item>)
    requires DistinctNames(items) && KeptRewritten(TemplatesOf(items), origins, Kept(items), kept)
    requires AllSpecialized(TemplatesOf(items), origins, names, specialized)
    ensures DeclarationsOf(kept + specialized).Keys <= DeclarationsOf(items).Keys + origins.Keys
  {
    forall name | name in DeclarationsOf(kept + specialized) ensures name in DeclarationsOf(items).Keys + origins.Keys {
      var i := DeclaredNames(kept + specialized, name);
      if i < |kept| {
        var j := KeptAt(items, i);
        DeclaredAt(items, j);
      } else {
        assert names[i - |kept|] in origins;
      }
    }
  }

  /** When nothing is pending, the rewritten and the emitted declarations are exactly what the source asks for. */
  lemma {:induction false} RunIsComplete(items: seq<Item>, origins: Origins, kept: seq<Item>, names: seq<string>,
                                         specialized: seq<Item>)
    requires DistinctNames(items) && NamesAllowed(items)
    requires KeptRewritten(TemplatesOf(items), origins, Kept(items), kept)
    requires Sound(origins) && AllEncode(origins) && AllSpecialized(TemplatesOf(items), origins, names, specialized)
    ensures DistinctNames(kept + specialized)
    ensures Complete(SourceOf(items), Output(DeclarationsOf(kept + specialized), origins))
  {
    var source, out := SourceOf(items), kept + specialized;
    OutputNames(items, origins, kept, names, specialized);
    assert out[|kept|..] == specialized;
    forall name | name in origins
      ensures name in DeclarationsOf(out)
      ensures Specializes(source.templates, origins, origins[name], DeclarationsOf(out)[name])
    {
      EmittedPart(source.templates, origins, names, specialized, out, |kept|, name);
    }
    forall name | name in source.concretes
      ensures !HasMarker(name) && name in DeclarationsOf(out)
      ensures RewrittenDefinition(source.templates, origins, map[], source.concretes[name], DeclarationsOf(out)[name])
    {
      KeptPart(items, origins, kept, out, name);
    }
    NothingElse(items, origins, kept, names, specialized);
  }

  // ----- the checks on what was retained

  /** The last checks: declarations and origins agree, provenance is bounded, and every symbol is the one its origin
      encodes. */
  ghost predicate OriginsValid(kept: seq<Item>, specialized: seq<Item>, origins: Origins)
  {
    && (forall i :: 0 <= i < |specialized| ==> specialized[i].name in origins)
    && (forall i :: 0 <= i < |kept| ==> kept[i].name !in origins)
    && BoundedProvenance(origins, MAX_GENERIC_NESTING) && AllEncode(origins)
  }

  method ValidateOrigins(kept: seq<Item>, specialized: seq<Item>, origins: Origins) returns (ok: bool)
    ensures ok <==> OriginsValid(kept, specialized, origins)
  {
    for i := 0 to |kept|
      invariant forall k :: 0 <= k < i ==> kept[k].name !in origins
    {
      if kept[i].name in origins {
        return false;
      }
    }
    for i := 0 to |specialized|
      invariant forall k :: 0 <= k < i ==> specialized[k].name in origins
    {
      if specialized[i].name !in origins {
        return false;
      }
    }
    ok := ValidateHeights(origins);
    if ok {
      ok := SymbolsEncode(origins);
    }
  }

  lemma BoundedArguments(origins: Origins, tys: seq<Type>) returns (height: nat)
    requires BoundedProvenance(origins, MAX_GENERIC_NESTING)
    ensures AllFits(origins, tys, height)
  {
    height := TypeNesting(Tuple(tys)) + MAX_GENERIC_NESTING;
    forall i | 0 <= i < |tys| ensures Fits(origins, tys[i], height) {
      NestingBelow(Tuple(tys), tys, i);
      BoundedUnfolds(origins, MAX_GENERIC_NESTING, tys[i]);
      FitsMonotone(origins, tys[i], TypeNesting(tys[i]) + MAX_GENERIC_NESTING, height);
    }
  }

  /** Re-encodes every retained origin; bounded provenance makes the texts finite. */
  method SymbolsEncode(origins: Origins) returns (ok: bool)
    requires BoundedProvenance(origins, MAX_GENERIC_NESTING)
    ensures ok <==> AllEncode(origins)
  {
    var todo := origins.Keys;
    while todo != {}
      invariant todo <= origins.Keys && forall name :: name in origins && name !in todo ==> Encodes(origins, name)
      decreases todo
    {
      var name :| name in todo;
      var origin := origins[name];
      ghost var height := BoundedArguments(origins, origin.arguments);
      TextStays(origins, origin.arguments, height);
      if MonomorphName(origin.template, origin.arguments, origins, height) != Some(name) {
        return false;
      }
      assert Encodes(origins, name);
      todo := todo - {name};
    }
    return true;
  }
}
