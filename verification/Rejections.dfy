/** Why a module is refused: every failure has one of these causes, in the state the run stopped in. */
module Rejections {
  import opened Options
  import opened Types
  import opened Provenance
  import opened OriginGrowth
  import opened Abilities
  import opened Layout
  import opened Declarations
  import opened RenderFrames
  import opened Demand
  import opened SourceDemand
  import opened Worklist

  /** Where every origin encodes its symbol, rewriting has one result. */
  lemma {:induction false} RewritesDetermined(templates: Templates, origins: Origins, subst: map<string, Type>,
                                              ty: Type, r: Type, q: Type)
    requires Sound(origins) && AllEncode(origins)
    requires Rewrites(templates, origins, subst, ty, r) && Rewrites(templates, origins, subst, ty, q)
    ensures r == q
    decreases if subst == map[] then 0 else 1, ty
  {
    if ty.Named? {
      if ty.name in subst {
        RewritesDetermined(templates, origins, map[], subst[ty.name], r, q);
      }
    } else if ty.Applied? && ty.head in templates {
      var kids := RequestOf(templates, origins, subst, ty, r);
      var others := RequestOf(templates, origins, subst, ty, q);
      forall i | 0 <= i < |kids| ensures kids[i] == others[i] {
        RewritesDetermined(templates, origins, subst, Children(ty)[i], kids[i], others[i]);
      }
      assert kids == others;
      RetainedOnce(origins, r.name, q.name);
    } else {
      forall i | 0 <= i < |Children(ty)| ensures Children(r)[i] == Children(q)[i] {
        RewritesDetermined(templates, origins, subst, Children(ty)[i], Children(r)[i], Children(q)[i]);
      }
      assert Children(r) == Children(q);
    }
  }

  /** An application of a template that cannot be named: a constant among its arguments, or a refused request. */
  ghost predicate Unnamed(templates: Templates, origins: Origins, subst: map<string, Type>, ty: Type)
    requires ty.Applied? && ty.head in templates
  {
    || !OnlyTypes(ty)
    || exists kids: seq<Type> ::
         AllRewrites(templates, origins, subst, Children(ty), kids) &&
         Refused(origins, templates[ty.head].kind, ty.head, kids)
  }

  /** Somewhere inside `ty` there is an application written as text, an applied parameter, or an application without a
      name. */
  ghost predicate Stuck(templates: Templates, origins: Origins, subst: map<string, Type>, ty: Type)
    decreases if subst == map[] then 0 else 1, ty
  {
    if ty.Named? then
      if ty.name in subst then Stuck(templates, origins, map[], subst[ty.name]) else !Nominal(ty.name)
    else
      || (ty.Applied? && ty.head in subst)
      || (exists i :: 0 <= i < |Children(ty)| && Stuck(templates, origins, subst, Children(ty)[i]))
      || (ty.Applied? && ty.head in templates && Unnamed(templates, origins, subst, ty))
  }

  ghost predicate SomeStuck(templates: Templates, origins: Origins, subst: map<string, Type>, tys: seq<Type>)
  {
    exists i :: 0 <= i < |tys| && Stuck(templates, origins, subst, tys[i])
  }

  /** The retained origins, each of which encodes its symbol. */
  ghost predicate Encoded(origins: Origins)
  {
    && Sound(origins) && AllEncode(origins)
    && forall name :: name in origins ==> Shallow(origins[name].arguments)
  }

  /** What was rewritten is not stuck. */
  lemma {:induction false} RewritesNotStuck(templates: Templates, origins: Origins, subst: map<string, Type>, ty: Type,
                                            r: Type)
    requires Encoded(origins) && Rewrites(templates, origins, subst, ty, r)
    ensures !Stuck(templates, origins, subst, ty)
    decreases if subst == map[] then 0 else 1, ty
  {
    if ty.Named? {
      if ty.name in subst {
        RewritesNotStuck(templates, origins, map[], subst[ty.name], r);
      }
    } else if ty.Applied? && ty.head in templates {
      var kids := RequestOf(templates, origins, subst, ty, r);
      forall i | 0 <= i < |Children(ty)| ensures !Stuck(templates, origins, subst, Children(ty)[i]) {
        RewritesNotStuck(templates, origins, subst, Children(ty)[i], kids[i]);
      }
      RequestIsNamed(templates, origins, subst, ty, kids, r.name);
    } else {
      forall i | 0 <= i < |Children(ty)| ensures !Stuck(templates, origins, subst, Children(ty)[i]) {
        RewritesNotStuck(templates, origins, subst, Children(ty)[i], Children(r)[i]);
      }
    }
  }

  lemma {:induction false} RequestIsNamed(templates: Templates, origins: Origins, subst: map<string, Type>, ty: Type,
                                          kids: seq<Type>, name: string)
    requires Encoded(origins) && ty.Applied? && ty.head in templates
    requires AllRewrites(templates, origins, subst, Children(ty), kids) && Requested(templates, origins, ty, kids, name)
    ensures !Unnamed(templates, origins, subst, ty)
  {
    RetainedNotRefused(templates, origins, name, kids);
    forall others: seq<Type> | AllRewrites(templates, origins, subst, Children(ty), others) ensures others == kids {
      forall i | 0 <= i < |kids| ensures others[i] == kids[i] {
        RewritesDetermined(templates, origins, subst, Children(ty)[i], others[i], kids[i]);
      }
    }
  }

  /** A retained request is not refused again. */
  lemma {:induction false} RetainedNotRefused(templates: Templates, origins: Origins, name: string,
                                              arguments: seq<Type>)
    requires Encoded(origins) && name in origins && origins[name].arguments == Canons(arguments)
    ensures !Refused(origins, origins[name].kind, origins[name].template, arguments)
  {
    var origin := origins[name];
    CanonsShallow(arguments);
    forall height: nat | AllFits(origins, origin.arguments, height) ensures !Clashes(origins, origin, height) {
      assert Encodes(origins, name);
    }
  }

  // ----- declarations and requests

  /** A declaration cannot be rewritten, or has a field without an ability it declares. */
  ghost predicate FieldsBlocked(env: Env, subst: map<string, Type>, abilities: set<Ability>, fields: seq<Field>)
  {
    || SomeStuck(env.templates, env.origins, subst, FieldTypes(fields))
    || exists rs: seq<Field> ::
         FieldsRewritten(env.templates, env.origins, subst, fields, rs) &&
         !ConcreteAbilitiesHold(env, abilities, FieldTypes(rs))
  }

  lemma {:induction false} FieldsNotStuck(templates: Templates, origins: Origins, subst: map<string, Type>,
                                          fields: seq<Field>, rs: seq<Field>)
    requires Encoded(origins) && FieldsRewritten(templates, origins, subst, fields, rs)
    ensures !SomeStuck(templates, origins, subst, FieldTypes(fields))
  {
    forall i | 0 <= i < |fields| ensures !Stuck(templates, origins, subst, FieldTypes(fields)[i]) {
      assert FieldRewritten(templates, origins, subst, fields[i], rs[i]);
      RewritesNotStuck(templates, origins, subst, fields[i].ty, rs[i].ty);
    }
  }

  lemma {:induction false} FieldsNotBlocked(env: Env, subst: map<string, Type>, abilities: set<Ability>,
                                            fields: seq<Field>, rs: seq<Field>)
    requires Encoded(env.origins) && FieldsRewritten(env.templates, env.origins, subst, fields, rs)
    requires ConcreteAbilitiesHold(env, abilities, FieldTypes(rs))
    ensures !FieldsBlocked(env, subst, abilities, fields)
  {
    FieldsNotStuck(env.templates, env.origins, subst, fields, rs);
    forall qs: seq<Field> | FieldsRewritten(env.templates, env.origins, subst, fields, qs)
      ensures FieldTypes(qs) == FieldTypes(rs)
    {
      forall i | 0 <= i < |fields| ensures qs[i].ty == rs[i].ty {
        assert FieldRewritten(env.templates, env.origins, subst, fields[i], rs[i]) &&
               FieldRewritten(env.templates, env.origins, subst, fields[i], qs[i]);
        RewritesDetermined(env.templates, env.origins, subst, fields[i].ty, qs[i].ty, rs[i].ty);
      }
    }
  }

  lemma StuckIsBlocked(env: Env, subst: map<string, Type>, abilities: set<Ability>, fields: seq<Field>)
    requires SomeStuck(env.templates, env.origins, subst, FieldTypes(fields))
    ensures FieldsBlocked(env, subst, abilities, fields)
  {
  }

  lemma LackingIsBlocked(env: Env, subst: map<string, Type>, abilities: set<Ability>, fields: seq<Field>,
                         rs: seq<Field>)
    requires FieldsRewritten(env.templates, env.origins, subst, fields, rs)
    requires !ConcreteAbilitiesHold(env, abilities, FieldTypes(rs))
    ensures FieldsBlocked(env, subst, abilities, fields)
  {
  }

  /** The abilities a kept declaration must have: Cell declarations are not checked. */
  function CheckedAbilities(item: Item): set<Ability>
  {
    if item.cell then {} else item.definition.abilities
  }

  ghost predicate ItemBlocked(env: Env, item: Item)
  {
    FieldsBlocked(env, map[], CheckedAbilities(item), item.definition.fields)
  }

  /** A specialization has an argument that is not admitted, or its fields are blocked. */
  ghost predicate RequestBlocked(env: Env, origin: Origin)
    requires origin.template in env.templates
  {
    var template := env.templates[origin.template];
    || !InstantiationAdmitted(env, template.params, origin.arguments)
    || FieldsBlocked(env, Substitution(template.params, origin.arguments), template.abilities, template.fields)
  }

  ghost predicate SomeItemBlocked(items: seq<Item>, env: Env)
  {
    exists i :: 0 <= i < |items| && !IsTemplate(items[i]) && ItemBlocked(env, items[i])
  }

  ghost predicate SomeRequestBlocked(env: Env)
  {
    exists name :: name in env.origins && env.origins[name].template in env.templates &&
      RequestBlocked(env, env.origins[name])
  }

  /** What stops a run: a declaration, too many specializations, a specialization, provenance that is too high, or a
      lost symbol. */
  ghost predicate Blocked(items: seq<Item>, env: Env)
  {
    || SomeItemBlocked(items, env) || SomeRequestBlocked(env) || |env.origins| > MAX_GENERIC_INSTANTIATIONS
    || !BoundedProvenance(env.origins, MAX_GENERIC_NESTING) || !AllEncode(env.origins)
  }

  lemma ItemBlocks(items: seq<Item>, env: Env, i: nat)
    requires i < |items| && !IsTemplate(items[i]) && ItemBlocked(env, items[i])
    ensures Blocked(items, env)
  {
  }

  lemma RequestBlocks(items: seq<Item>, env: Env, written: iset<string>, name: string)
    requires Sound(env.origins) && name in env.origins && env.origins[name].template in env.templates
    requires RequestBlocked(env, env.origins[name]) || Lost(written, env.origins, name)
    ensures Blocked(items, env)
  {
    if Lost(written, env.origins, name) {
      LostIsNotEncoded(written, env.origins, name);
    }
  }

  /** What is registered for an emitted specialization is what it emitted. */
  ghost predicate Registered(templates: Templates, written: iset<string>, origins: Origins, concrete: Concrete,
                             name: string, item: Item)
  {
    && SpecializationOf(templates, written, origins, name, item)
    && concrete == Concrete(templates[origins[name].template].abilities, FieldTypes(item.definition.fields))
  }

  ghost predicate IsRegistered(templates: Templates, written: iset<string>, origins: Origins, symbol: string,
                               concrete: Concrete)
  {
    exists name, item :: Registered(templates, written, origins, concrete, name, item) && item.name == symbol
  }

  ghost predicate ConcretesKnown(declared: map<string, Concrete>, written: iset<string>, env: Env)
  {
    && declared.Keys <= env.concretes.Keys
    && forall name :: name in env.concretes ==>
         || (name in declared && env.concretes[name] == declared[name])
         || IsRegistered(env.templates, written, env.origins, name, env.concretes[name])
  }

  /** What every state of a run keeps: its declarations, and specializations the module demands. */
  ghost predicate Coherent(items: seq<Item>, env: Env)
  {
    && env.templates == TemplatesOf(items) && env.cellTypes == CellTypesOf(items)
    && AllRetained(env.templates, Written(items), env.origins) && AllDemanded(items, env.origins)
    && ConcretesKnown(ConcretesOf(items), Written(items), env)
  }

  lemma {:induction false} RegisteredGrows(templates: Templates, written: iset<string>, before: Origins, after: Origins,
                                           symbol: string, concrete: Concrete)
    requires IsRegistered(templates, written, before, symbol, concrete) && Sound(before) && Sound(after)
    requires Extends(before, after)
    ensures IsRegistered(templates, written, after, symbol, concrete)
  {
    var name, item :| Registered(templates, written, before, concrete, name, item) && item.name == symbol;
    SpecializationGrows(templates, written, before, after, name, item);
    assert Registered(templates, written, after, concrete, name, item);
  }

  lemma {:induction false} ConcretesGrow(declared: map<string, Concrete>, written: iset<string>, env: Env,
                                         after: Origins)
    requires ConcretesKnown(declared, written, env) && Sound(env.origins) && Sound(after) && Extends(env.origins, after)
    ensures ConcretesKnown(declared, written, env.(origins := after))
  {
    forall name | name in env.concretes && !(name in declared && env.concretes[name] == declared[name])
      ensures IsRegistered(env.templates, written, after, name, env.concretes[name])
    {
      RegisteredGrows(env.templates, written, env.origins, after, name, env.concretes[name]);
    }
  }

  /** Rewriting grows a coherent state by what is demanded. */
  lemma {:induction false} CoherentGrows(items: seq<Item>, env: Env, after: Origins)
    requires Coherent(items, env) && Extends(env.origins, after)
    requires AllRetained(env.templates, Written(items), after) && AllDemanded(items, after)
    ensures Coherent(items, env.(origins := after))
  {
    ConcretesGrow(ConcretesOf(items), Written(items), env, after);
  }

  lemma {:induction false} ConcretesAdd(declared: map<string, Concrete>, written: iset<string>, env: Env,
                                        symbol: string, concrete: Concrete)
    requires ConcretesKnown(declared, written, env)
    requires IsRegistered(env.templates, written, env.origins, symbol, concrete)
    ensures ConcretesKnown(declared, written, env.(concretes := env.concretes[symbol := concrete]))
  {
    var after := env.concretes[symbol := concrete];
    forall n | n in after && !(n in declared && after[n] == declared[n])
      ensures IsRegistered(env.templates, written, env.origins, n, after[n])
    {
      if n != symbol {
        assert after[n] == env.concretes[n];
      }
    }
  }

  /** Emitting registers what was emitted. */
  lemma {:induction false} CoherentRegisters(items: seq<Item>, env: Env, symbol: string, concrete: Concrete)
    requires Coherent(items, env) && IsRegistered(env.templates, Written(items), env.origins, symbol, concrete)
    ensures Coherent(items, env.(concretes := env.concretes[symbol := concrete]))
  {
    ConcretesAdd(ConcretesOf(items), Written(items), env, symbol, concrete);
  }

  /** The state after emitting the specialization of a retained name. */
  ghost predicate Emits(before: Env, after: Env, name: string, item: Item)
  {
    && name in after.origins && after.origins[name].template in after.templates
    && after.concretes ==
       before.concretes[item.name :=
         Concrete(after.templates[after.origins[name].template].abilities, FieldTypes(item.definition.fields))]
  }

  lemma {:induction false} CoherentEmits(items: seq<Item>, before: Env, after: Env, name: string, r: Option<Item>)
    requires Coherent(items, before) && after.templates == before.templates && after.cellTypes == before.cellTypes
    requires Extends(before.origins, after.origins) && AllRetained(after.templates, Written(items), after.origins)
    requires name in before.origins
    requires NewFromOrigin(before.templates, before.origins, after.origins, before.origins[name])
    requires r.None? ==> after.concretes == before.concretes
    requires r.Some? ==>
             SpecializationOf(after.templates, Written(items), after.origins, name, r.value) &&
             Emits(before, after, name, r.value)
    ensures Coherent(items, after)
  {
    DemandedByOrigin(items, before.origins, after.origins, name);
    CoherentGrows(items, before, after.origins);
    var grown := before.(origins := after.origins);
    if r.Some? {
      var symbol := r.value.name;
      assert Registered(after.templates, Written(items), after.origins, after.concretes[symbol], name, r.value);
      CoherentRegisters(items, grown, symbol, after.concretes[symbol]);
      assert after == grown.(concretes := before.concretes[symbol := after.concretes[symbol]]);
    } else {
      assert after == grown;
    }
  }
}
