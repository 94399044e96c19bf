/** Abilities while a module is specialized: growth without captures leaves them as they are, so a template that
    declares no abilities never fails the check of the ones derived for it, except where a Cell took a built-in name. */
module AbilityGrowth {
  import opened Options
  import opened Types
  import opened Provenance
  import opened TextScan
  import opened SymbolNames
  import opened OriginGrowth
  import opened Abilities
  import opened Layout
  import opened Declarations
  import opened Demand
  import opened SourceDemand
  import opened Correspondence
  import opened Captures
  import opened Worklist
  import opened Completion
  import opened Rejections
  import opened Monomorphization

  // ----- names that growth leaves alone

  /** Every name in the type is one of these. */
  ghost predicate Among(names: iset<string>, ty: Type)
  {
    forall name :: Mentions(ty, name) ==> name in names
  }

  ghost predicate AllAmong(names: iset<string>, tys: seq<Type>)
  {
    forall i :: 0 <= i < |tys| ==> Among(names, tys[i])
  }

  /** None of the names is newly retained, and their fields hold no others. */
  ghost predicate Steady(env: Env, after: Origins, names: iset<string>)
  {
    && Extends(env.origins, after)
    && forall name :: name in names ==>
         && (name in after ==> name in env.origins)
         && AllAmong(names, StructuralFields(env, name, BaseName(env, name)))
  }

  lemma AmongBelow(names: iset<string>, ty: Type)
    requires Among(names, ty)
    ensures AllAmong(names, Children(ty))
  {
    forall i | 0 <= i < |Children(ty)| ensures Among(names, Children(ty)[i]) {
      assert forall name :: Mentions(Children(ty)[i], name) ==> Mentions(ty, name);
    }
  }

  lemma {:induction false} AbilitiesSteady(env: Env, after: Origins, names: iset<string>, ty: Type,
                                           visiting: set<string>)
    requires Steady(env, after, names) && Among(names, ty)
    ensures AbilitiesFor(env.(origins := after), ty, visiting) == AbilitiesFor(env, ty, visiting)
    decreases |Universe(env) - visiting|, ty, 2
  {
    AmongBelow(names, ty);
    match ty
    case Array(inner, _) =>
      assert Children(ty)[0] == inner;
      AbilitiesSteady(env, after, names, inner, visiting);
    case Tuple(items) =>
      if items != [] {
        AllSteady(env, after, names, items, visiting);
      }
    case Named(name) =>
      assert Mentions(ty, name);
      NameSteady(env, after, names, name, visiting);
    case _ =>
  }

  lemma {:induction false} AllSteady(env: Env, after: Origins, names: iset<string>, tys: seq<Type>,
                                     visiting: set<string>)
    requires Steady(env, after, names) && AllAmong(names, tys) && tys != []
    ensures AbilitiesForAll(env.(origins := after), tys, visiting) == AbilitiesForAll(env, tys, visiting)
    decreases |Universe(env) - visiting|, tys, 0
  {
    AbilitiesSteady(env, after, names, tys[0], visiting);
    if |tys| > 1 {
      AllSteady(env, after, names, tys[1..], visiting);
    }
  }

  lemma {:induction false} CellsSteady(env: Env, after: Origins, names: iset<string>, tys: seq<Type>,
                                       visiting: set<string>)
    requires Steady(env, after, names) && AllAmong(names, tys)
    ensures ContainsCell(env.(origins := after), tys, visiting) == ContainsCell(env, tys, visiting)
    decreases |Universe(env) - visiting|, tys, 0
  {
    if tys != [] {
      AbilitiesSteady(env, after, names, tys[0], visiting);
      CellsSteady(env, after, names, tys[1..], visiting);
    }
  }

  lemma SteadyName(env: Env, after: Origins, names: iset<string>, name: string)
    requires Steady(env, after, names) && name in names
    ensures BaseName(env.(origins := after), name) == BaseName(env, name)
    ensures StructuralFields(env.(origins := after), name, BaseName(env, name)) ==
            StructuralFields(env, name, BaseName(env, name))
    ensures AllAmong(names, StructuralFields(env, name, BaseName(env, name)))
  {
  }

  /** The fields of the name are looked into; met a second time on the way, they are not. */
  predicate LookedInto(env: Env, name: string, visiting: set<string>)
  {
    (name in env.concretes || BaseName(env, name) in env.templates) && name !in visiting
  }

  /** The abilities of a name, given its base and whether its fields hold a Cell; they are not looked into otherwise. */
  function OwnAbilities(env: Env, name: string, base: string, lookedInto: bool, holdsCell: bool): set<Ability>
    requires lookedInto ==> name in env.concretes || base in env.templates
  {
    if base in env.cellTypes then {Cell, Fixed, Serializable}
    else if base in INDEX_NAMES then FIXED_VALUE
    else if base in HANDLES then {Copy, Drop}
    else if base in DYNAMIC_NAMES then DYNAMIC_VALUE
    else if !lookedInto then {}
    else
      var declared := if name in env.concretes then env.concretes[name].abilities else env.templates[base].abilities;
      WithCell(declared, holdsCell)
  }

  lemma LookedIntoAbilities(env: Env, name: string, visiting: set<string>)
    requires LookedInto(env, name, visiting)
    requires BaseName(env, name) !in env.cellTypes + INDEX_NAMES + HANDLES + DYNAMIC_NAMES
    ensures var base := BaseName(env, name);
            var declared :=
              if name in env.concretes then env.concretes[name].abilities else env.templates[base].abilities;
            AbilitiesFor(env, Named(name), visiting) ==
            WithCell(declared, ContainsCell(env, StructuralFields(env, name, base), visiting + {name}))
  {
  }

  lemma NameAbilities(env: Env, name: string, visiting: set<string>, fields: seq<Type>)
    requires fields == StructuralFields(env, name, BaseName(env, name))
    ensures AbilitiesFor(env, Named(name), visiting) ==
            OwnAbilities(env, name, BaseName(env, name), LookedInto(env, name, visiting),
                         ContainsCell(env, fields, visiting + {name}))
  {
    var base := BaseName(env, name);
    if base in env.cellTypes + INDEX_NAMES + HANDLES + DYNAMIC_NAMES {
    } else if LookedInto(env, name, visiting) {
      LookedIntoAbilities(env, name, visiting);
    } else {
      assert AbilitiesFor(env, Named(name), visiting) == {};
    }
  }

  lemma NameCongruent(env: Env, after: Origins, name: string, fields: seq<Type>, visiting: set<string>)
    requires BaseName(env.(origins := after), name) == BaseName(env, name)
    requires StructuralFields(env.(origins := after), name, BaseName(env, name)) == fields
    requires StructuralFields(env, name, BaseName(env, name)) == fields
    requires LookedInto(env, name, visiting) ==>
               ContainsCell(env.(origins := after), fields, visiting + {name}) ==
               ContainsCell(env, fields, visiting + {name})
    ensures AbilitiesFor(env.(origins := after), Named(name), visiting) == AbilitiesFor(env, Named(name), visiting)
  {
    NameAbilities(env, name, visiting, fields);
    NameAbilities(env.(origins := after), name, visiting, fields);
  }

  lemma {:induction false} FieldsSteady(env: Env, after: Origins, names: iset<string>, name: string,
                                        fields: seq<Type>, visiting: set<string>)
    requires Steady(env, after, names) && AllAmong(names, fields) && LookedInto(env, name, visiting)
    ensures ContainsCell(env.(origins := after), fields, visiting + {name}) ==
            ContainsCell(env, fields, visiting + {name})
    decreases |Universe(env) - visiting|, Named(name), 0
  {
    VisitingShrinks(env, name, visiting);
    CellsSteady(env, after, names, fields, visiting + {name});
  }

  lemma {:induction false} NameSteady(env: Env, after: Origins, names: iset<string>, name: string,
                                      visiting: set<string>)
    requires Steady(env, after, names) && name in names
    ensures AbilitiesFor(env.(origins := after), Named(name), visiting) == AbilitiesFor(env, Named(name), visiting)
    decreases |Universe(env) - visiting|, Named(name), 1
  {
    var fields := StructuralFields(env, name, BaseName(env, name));
    SteadyName(env, after, names, name);
    if LookedInto(env, name, visiting) {
      FieldsSteady(env, after, names, name, fields, visiting);
    }
    NameCongruent(env, after, name, fields, visiting);
  }

  // ----- the names of a module

  ghost function NamesOf(items: seq<Item>, origins: Origins): iset<string>
  {
    iset name | name in origins || name in Written(items)
  }

  lemma KnownAmong(items: seq<Item>, origins: Origins, tys: seq<Type>)
    requires AllKnown(Written(items), origins, tys)
    ensures AllAmong(NamesOf(items, origins), tys)
  {
    forall i, name | 0 <= i < |tys| && Mentions(tys[i], name) ensures name in NamesOf(items, origins) {
      KnownMention(Written(items), origins, tys[i], name);
    }
  }

  lemma {:induction false} KnownMention(written: iset<string>, origins: Origins, ty: Type, name: string)
    requires Known(written, origins, ty) && Mentions(ty, name)
    ensures name in origins || name in written
  {
    if ty != Named(name) {
      var i :| 0 <= i < |Children(ty)| && Mentions(Children(ty)[i], name);
      KnownMention(written, origins, Children(ty)[i], name);
    }
  }

  lemma {:induction false} ConcreteDeclared(items: seq<Item>, name: string) returns (i: nat)
    requires name in ConcretesOf(items)
    ensures i < |items| && !IsTemplate(items[i])
    ensures ConcretesOf(items)[name].fields == FieldTypes(items[i].definition.fields)
  {
    var last := |items| - 1;
    if !items[last].cell && !IsTemplate(items[last]) && items[last].name == name {
      i := last;
    } else {
      i := ConcreteDeclared(items[..last], name);
    }
  }

  lemma {:induction false} TemplatesTakeParams(items: seq<Item>, name: string)
    requires name in TemplatesOf(items)
    ensures TemplatesOf(items)[name].params != []
  {
    if items != [] {
      var last := |items| - 1;
      if !(IsTemplate(items[last]) && items[last].name == name) {
        TemplatesTakeParams(items[..last], name);
      }
    }
  }

  lemma {:induction false} SpecializedKnown(items: seq<Item>, env: Env, name: string, item: Item)
    requires Coherent(items, env) && SpecializationOf(env.templates, Written(items), env.origins, name, item)
    ensures AllKnown(Written(items), env.origins, FieldTypes(item.definition.fields))
  {
    RetainedResolved(env.templates, Written(items), env.origins);
    TemplateKnown(items, env.origins, name);
    var origin := env.origins[name];
    var template, subst :=
      env.templates[origin.template], Substitution(env.templates[origin.template].params, origin.arguments);
    SubstitutionNames(template.params, origin.arguments);
    forall p | p in subst ensures Known(Written(items), env.origins, subst[p]) {
      var k := SubstitutionPair(template.params, origin.arguments, origin.arguments, p);
    }
    var before, after := FieldTypes(template.fields), FieldTypes(item.definition.fields);
    forall j | 0 <= j < |after| ensures Known(Written(items), env.origins, after[j]) {
      RewritesKnown(env.templates, Written(items), env.origins, subst, before[j], after[j]);
    }
  }

  lemma {:induction false} ConcreteKnown(items: seq<Item>, env: Env, name: string)
    requires Coherent(items, env) && name in env.concretes
    ensures AllKnown(Written(items), env.origins, env.concretes[name].fields)
  {
    if name in ConcretesOf(items) && env.concretes[name] == ConcretesOf(items)[name] {
      var i := ConcreteDeclared(items, name);
      ItemKnown(items, env.origins, i);
    } else {
      var own, item :|
        Registered(env.templates, Written(items), env.origins, env.concretes[name], own, item) && item.name == name;
      SpecializedKnown(items, env, own, item);
    }
  }

  lemma {:induction false} SubstitutedAmong(names: iset<string>, fields: seq<Field>, subst: map<string, Type>)
    requires forall p :: p in subst ==> Among(names, subst[p])
    requires forall j, name :: 0 <= j < |fields| && Mentions(fields[j].ty, name) && name !in subst ==> name in names
    ensures AllAmong(names, SubstitutedFields(fields, subst))
  {
    if fields != [] {
      SubstitutedAmong(names, fields[1..], subst);
      var first := Substitute(fields[0].ty, subst);
      if first.Some? {
        forall name | Mentions(first.value, name) ensures name in names {
          SubstitutedMentions(fields[0].ty, subst, name);
        }
      }
    }
  }

  lemma {:induction false} OriginAmong(items: seq<Item>, env: Env, name: string)
    requires Coherent(items, env) && name in env.origins && env.origins[name].template in env.templates
    requires |env.templates[env.origins[name].template].params| == |env.origins[name].arguments|
    ensures var d, arguments := env.templates[env.origins[name].template], env.origins[name].arguments;
            AllAmong(NamesOf(items, env.origins), SubstitutedFields(d.fields, Substitution(d.params, arguments)))
  {
    var names, origin := NamesOf(items, env.origins), env.origins[name];
    var d, subst :=
      env.templates[origin.template], Substitution(env.templates[origin.template].params, origin.arguments);
    RetainedResolved(env.templates, Written(items), env.origins);
    TemplateKnown(items, env.origins, name);
    SubstitutionNames(d.params, origin.arguments);
    KnownAmong(items, env.origins, origin.arguments);
    forall p | p in subst ensures Among(names, subst[p]) {
      var k := SubstitutionPair(d.params, origin.arguments, origin.arguments, p);
    }
    forall j, n | 0 <= j < |d.fields| && Mentions(d.fields[j].ty, n) && n !in subst ensures n in names {
      assert FieldTypes(d.fields)[j] == d.fields[j].ty;
      KnownMention(Within(Written(items), ParamNames(d.params)), env.origins, d.fields[j].ty, n);
    }
    SubstitutedAmong(names, d.fields, subst);
  }

  lemma {:induction false} FieldsAmong(items: seq<Item>, env: Env, name: string)
    requires Coherent(items, env)
    ensures AllAmong(NamesOf(items, env.origins), StructuralFields(env, name, BaseName(env, name)))
  {
    var base := BaseName(env, name);
    if name in env.concretes {
      ConcreteKnown(items, env, name);
      KnownAmong(items, env.origins, env.concretes[name].fields);
    } else if base in env.concretes {
      ConcreteKnown(items, env, base);
      KnownAmong(items, env.origins, env.concretes[base].fields);
    } else if base in env.templates {
      TemplateAmong(items, env, name, base);
    }
  }

  lemma TemplateStructure(env: Env, name: string, base: string)
    requires base in env.templates && name !in env.concretes && base !in env.concretes
    requires env.templates[base].params != []
    ensures var d := env.templates[base];
            StructuralFields(env, name, base) ==
            if name in env.origins && |d.params| == |env.origins[name].arguments|
            then SubstitutedFields(d.fields, Substitution(d.params, env.origins[name].arguments)) else []
  {
  }

  lemma {:induction false} TemplateAmong(items: seq<Item>, env: Env, name: string, base: string)
    requires Coherent(items, env) && base == BaseName(env, name) && base in env.templates
    requires name !in env.concretes && base !in env.concretes
    ensures AllAmong(NamesOf(items, env.origins), StructuralFields(env, name, base))
  {
    TemplatesTakeParams(items, base);
    TemplateStructure(env, name, base);
    if name in env.origins && |env.templates[base].params| == |env.origins[name].arguments| {
      OriginAmong(items, env, name);
    }
  }

  /** Where growth captures no name, it leaves the abilities of every name of the module as they were. */
  lemma {:induction false} GrowthIsSteady(items: seq<Item>, env: Env, after: Origins)
    requires Coherent(items, env) && Extends(env.origins, after) && NoneWritten(items, after)
    ensures Steady(env, after, NamesOf(items, env.origins))
  {
    forall name | name in NamesOf(items, env.origins)
      ensures (name in after ==> name in env.origins)
      ensures AllAmong(NamesOf(items, env.origins), StructuralFields(env, name, BaseName(env, name)))
    {
      FieldsAmong(items, env, name);
    }
  }

  lemma ArgumentsAdmittedAlike(env: Env, grown: Env, params: seq<Param>, arguments: seq<Type>)
    requires forall i :: 0 <= i < |arguments| ==>
             AbilitiesFor(grown, arguments[i], {}) == AbilitiesFor(env, arguments[i], {})
    ensures InstantiationAdmitted(grown, params, arguments) <==> InstantiationAdmitted(env, params, arguments)
  {
    if |params| == |arguments| {
      assert forall i :: 0 <= i < |params| ==>
        (ArgumentAdmitted(grown, params[i], arguments[i]) <==> ArgumentAdmitted(env, params[i], arguments[i]));
    }
  }

  lemma {:induction false} AdmissionStays(items: seq<Item>, env: Env, after: Origins, name: string, params: seq<Param>)
    requires Coherent(items, env) && Extends(env.origins, after) && NoneWritten(items, after) && name in env.origins
    ensures InstantiationAdmitted(env.(origins := after), params, env.origins[name].arguments) <==>
            InstantiationAdmitted(env, params, env.origins[name].arguments)
  {
    var names, arguments := NamesOf(items, env.origins), env.origins[name].arguments;
    assert Steady(env, after, names) by {
      GrowthIsSteady(items, env, after);
    }
    assert AllAmong(names, arguments) by {
      RetainedKnown(items, env, name);
      KnownAmong(items, env.origins, arguments);
    }
    forall i | 0 <= i < |arguments|
      ensures AbilitiesFor(env.(origins := after), arguments[i], {}) == AbilitiesFor(env, arguments[i], {})
    {
      AbilitiesSteady(env, after, names, arguments[i], {});
    }
    ArgumentsAdmittedAlike(env, env.(origins := after), params, arguments);
  }

  lemma RetainedKnown(items: seq<Item>, env: Env, name: string)
    requires Coherent(items, env) && name in env.origins
    ensures AllKnown(Written(items), env.origins, env.origins[name].arguments)
  {
    assert Retained(env.templates, Written(items), env.origins, name);
  }

  // ----- derived abilities at an emission

  lemma {:induction false} RewrittenInstances(templates: Templates, origins: Origins, subst: map<string, Type>,
                                              ty: Type, r: Type)
    requires Rewrites(templates, origins, subst, ty, r) && forall p :: p in subst ==> Resolved(templates, subst[p])
    ensures Instances(subst, ty, r)
    decreases ty
  {
    match ty
    case Named(name) =>
      if name in subst {
        RewritesResolved(templates, origins, subst[name], r);
      }
    case Array(inner, _) =>
      assert Children(ty)[0] == inner && Children(r)[0] == r.inner;
      RewrittenInstances(templates, origins, subst, inner, r.inner);
    case Tuple(items) =>
      forall i | 0 <= i < |items| ensures Instances(subst, items[i], r.items[i]) {
        assert Children(ty)[i] == items[i] && Children(r)[i] == r.items[i];
        RewrittenInstances(templates, origins, subst, items[i], r.items[i]);
      }
    case _ =>
  }

  lemma MarkedIsNoBuiltin(name: string)
    requires HasMarker(name)
    ensures name !in BUILTINS
  {
    assert |name| >= 8;
  }

  lemma {:induction false} FieldInstances(items: seq<Item>, env: Env, name: string, rs: seq<Field>)
    requires Coherent(items, env) && name in env.origins && env.origins[name].template in env.templates
    requires |env.templates[env.origins[name].template].params| == |env.origins[name].arguments|
    requires var d := env.templates[env.origins[name].template];
             FieldsRewritten(env.templates, env.origins, Substitution(d.params, env.origins[name].arguments),
                             d.fields, rs)
    ensures var d := env.templates[env.origins[name].template];
            AllInstances(Substitution(d.params, env.origins[name].arguments), FieldTypes(d.fields), FieldTypes(rs))
  {
    var d, arguments := env.templates[env.origins[name].template], env.origins[name].arguments;
    var subst := Substitution(d.params, arguments);
    assert Retained(env.templates, Written(items), env.origins, name);
    forall p | p in subst ensures Resolved(env.templates, subst[p]) {
      var k := SubstitutionPair(d.params, arguments, arguments, p);
    }
    forall j | 0 <= j < |rs| ensures Instances(subst, FieldTypes(d.fields)[j], FieldTypes(rs)[j]) {
      assert FieldRewritten(env.templates, env.origins, subst, d.fields[j], rs[j]);
      RewrittenInstances(env.templates, env.origins, subst, d.fields[j].ty, rs[j].ty);
    }
  }

  /** At an emission of a self-contained module, or one that captures no name, the check of derived abilities, made on
      the rewritten fields in the grown state, fails only where a Cell took a built-in name. */
  lemma {:induction false} DerivedAtEmission(items: seq<Item>, env: Env, after: Origins, name: string, rs: seq<Field>)
    requires Coherent(items, env) && Coherent(items, env.(origins := after)) && Extends(env.origins, after)
    requires SelfContained(items) || NoneWritten(items, after)
    requires name in env.origins && env.origins[name].template in env.templates
    requires var d := env.templates[env.origins[name].template];
             && d.abilities == DerivedAbilities(d.params, FieldTypes(d.fields))
             && InstantiationAdmitted(env, d.params, env.origins[name].arguments)
             && FieldsRewritten(env.templates, after, Substitution(d.params, env.origins[name].arguments), d.fields, rs)
    ensures var d := env.templates[env.origins[name].template];
            ConcreteAbilitiesHold(env.(origins := after), d.abilities, FieldTypes(rs)) <==>
            d.abilities <= {Fixed, Serializable} || !SomeExposed(env.cellTypes, d.params, FieldTypes(d.fields))
  {
    var d, grown := env.templates[env.origins[name].template], env.(origins := after);
    if SelfContained(items) {
      SelfContainedKeepsSymbols(items, grown);
    }
    AdmissionStays(items, env, after, name, d.params);
    FieldInstances(items, grown, name, rs);
    forall n | n in BUILTINS ensures n !in after {
      if HasMarker(n) {
        MarkedIsNoBuiltin(n);
      }
    }
    DerivedAbilitiesExactly(grown, d.params, FieldTypes(d.fields), after[name].arguments, FieldTypes(rs));
  }
}
