/** The order of emission and the abilities of a specialization: when registering it changes what it is admitted to. */
module AdmissionOrder {
  import opened Options
  import opened Types
  import opened Provenance
  import opened Abilities
  import opened AbilityGrowth
  import opened Layout
  import opened Declarations
  import opened Demand
  import opened Correspondence
  import opened Captures
  import opened Worklist

  // ----- substituted and rewritten types

  /** The type shows a template application, outside references and the arguments of an application. */
  predicate Shows(templates: Templates, ty: Type)
  {
    match ty
    case Array(inner, _) => Shows(templates, inner)
    case Tuple(items) => exists i :: 0 <= i < |items| && Shows(templates, items[i])
    case Applied(head, _) => head in templates
    case _ => false
  }

  ghost predicate Settled(templates: Templates, subst: map<string, Type>)
  {
    forall p :: p in subst ==> Resolved(templates, subst[p])
  }

  /** What is rewritten can be substituted. */
  lemma {:induction false} RewrittenSubstitutes(templates: Templates, origins: Origins, subst: map<string, Type>,
                                                ty: Type, r: Type)
    requires Rewrites(templates, origins, subst, ty, r)
    ensures Substitute(ty, subst).Some?
    decreases ty
  {
    if !ty.Named? {
      forall i | 0 <= i < |Children(ty)| ensures Substitute(Children(ty)[i], subst).Some? {
        var below :| Rewrites(templates, origins, subst, Children(ty)[i], below);
        RewrittenSubstitutes(templates, origins, subst, Children(ty)[i], below);
      }
    }
  }

  lemma {:induction false} AllAlike(env: Env, tys: seq<Type>, rs: seq<Type>, visiting: set<string>)
    requires |tys| == |rs| > 0
    requires forall i :: 0 <= i < |tys| ==> AbilitiesFor(env, tys[i], visiting) == AbilitiesFor(env, rs[i], visiting)
    ensures AbilitiesForAll(env, tys, visiting) == AbilitiesForAll(env, rs, visiting)
  {
    if |tys| > 1 {
      AllAlike(env, tys[1..], rs[1..], visiting);
    }
  }

  /** Where no application shows, substituting and rewriting give the same abilities. */
  lemma {:induction false} HiddenAlike(env: Env, subst: map<string, Type>, ty: Type, r: Type, visiting: set<string>)
    requires Rewrites(env.templates, env.origins, subst, ty, r) && Settled(env.templates, subst)
    requires Substitute(ty, subst).Some? && !Shows(env.templates, ty)
    ensures AbilitiesFor(env, Substitute(ty, subst).value, visiting) == AbilitiesFor(env, r, visiting)
    decreases ty
  {
    var s := Substitute(ty, subst).value;
    match ty
    case Named(name) =>
      if name in subst {
        RewritesResolved(env.templates, env.origins, subst[name], r);
      }
    case Array(inner, _) =>
      assert Children(ty)[0] == inner && Children(r)[0] == r.inner && Children(s)[0] == s.inner;
      HiddenAlike(env, subst, inner, r.inner, visiting);
    case Tuple(items) =>
      forall i | 0 <= i < |items|
        ensures AbilitiesFor(env, s.items[i], visiting) == AbilitiesFor(env, r.items[i], visiting)
      {
        assert Children(ty)[i] == items[i] && Children(r)[i] == r.items[i];
        HiddenAlike(env, subst, items[i], r.items[i], visiting);
      }
      if items != [] {
        AllAlike(env, s.items, r.items, visiting);
      }
    case _ =>
  }

  /** Where an application shows, the substituted type is never a Cell. */
  lemma {:induction false} ShownIsNoCell(env: Env, subst: map<string, Type>, ty: Type, visiting: set<string>)
    requires Substitute(ty, subst).Some? && Shows(env.templates, ty)
    ensures Cell !in AbilitiesFor(env, Substitute(ty, subst).value, visiting)
    decreases ty
  {
    var s := Substitute(ty, subst).value;
    match ty
    case Array(inner, _) =>
      assert Children(ty)[0] == inner;
      ShownIsNoCell(env, subst, inner, visiting);
    case Tuple(items) =>
      var i :| 0 <= i < |items| && Shows(env.templates, items[i]);
      ShownIsNoCell(env, subst, items[i], visiting);
      AllHave(env, s.items, visiting, i);
    case _ =>
  }

  /** Which of the types are Cells. */
  function Cells(env: Env, tys: seq<Type>, visiting: set<string>): set<int>
  {
    set i | 0 <= i < |tys| && Cell in AbilitiesFor(env, tys[i], visiting)
  }

  /** Which of the fields show a template application. */
  function Shown(templates: Templates, fields: seq<Field>): set<int>
  {
    set i | 0 <= i < |fields| && Shows(templates, fields[i].ty)
  }

  lemma {:induction false} CellsFound(env: Env, tys: seq<Type>, visiting: set<string>)
    ensures ContainsCell(env, tys, visiting) <==> Cells(env, tys, visiting) != {}
  {
    if tys != [] {
      var rest := tys[1..];
      CellsFound(env, rest, visiting);
      if Cells(env, rest, visiting) != {} {
        var i :| i in Cells(env, rest, visiting);
        assert tys[i + 1] == rest[i];
        assert i + 1 in Cells(env, tys, visiting);
      }
      if Cell in AbilitiesFor(env, tys[0], visiting) {
        assert 0 in Cells(env, tys, visiting);
      }
      forall i | i in Cells(env, tys, visiting) ensures i == 0 || i - 1 in Cells(env, rest, visiting) {
      }
    }
  }

  lemma {:induction false} SubstitutedAt(fields: seq<Field>, subst: map<string, Type>)
    requires forall i :: 0 <= i < |fields| ==> Substitute(fields[i].ty, subst).Some?
    ensures |SubstitutedFields(fields, subst)| == |fields|
    ensures forall i :: 0 <= i < |fields| ==>
            SubstitutedFields(fields, subst)[i] == Substitute(fields[i].ty, subst).value
  {
    if fields != [] {
      SubstitutedAt(fields[1..], subst);
    }
  }

  // ----- what registering a specialization changes

  function Registering(env: Env, name: string, abilities: set<Ability>, fields: seq<Type>): Env
  {
    env.(concretes := env.concretes[name := Concrete(abilities, fields)])
  }

  /** A retained specialization that is not emitted yet. */
  predicate Waits(env: Env, name: string)
  {
    && name in env.origins && name !in env.concretes
    && (forall n :: n in env.origins ==> env.origins[n].template != name)
    && var base := env.origins[name].template;
    && base in env.templates && base !in env.concretes && base !in env.cellTypes + BUILTINS + HANDLES
    && Cell !in env.templates[base].abilities
    && |env.templates[base].params| == |env.origins[name].arguments|
  }

  /** While a name is being visited, registering it changes nothing. */
  lemma {:induction false} RegisteredUnseen(env: Env, name: string, c: Concrete, ty: Type, visiting: set<string>)
    requires Waits(env, name) && name in visiting
    ensures AbilitiesFor(Registering(env, name, c.abilities, c.fields), ty, visiting) == AbilitiesFor(env, ty, visiting)
    decreases |Universe(env) - visiting|, ty, 2
  {
    match ty
    case Array(inner, _) => RegisteredUnseen(env, name, c, inner, visiting);
    case Tuple(items) =>
      if items != [] {
        AllUnseen(env, name, c, items, visiting);
      }
    case Named(n) => NameUnseen(env, name, c, n, visiting);
    case _ =>
  }

  lemma {:induction false} AllUnseen(env: Env, name: string, c: Concrete, tys: seq<Type>, visiting: set<string>)
    requires Waits(env, name) && name in visiting && tys != []
    ensures AbilitiesForAll(Registering(env, name, c.abilities, c.fields), tys, visiting) ==
            AbilitiesForAll(env, tys, visiting)
    decreases |Universe(env) - visiting|, tys, 0
  {
    RegisteredUnseen(env, name, c, tys[0], visiting);
    if |tys| > 1 {
      AllUnseen(env, name, c, tys[1..], visiting);
    }
  }

  lemma {:induction false} CellsUnseen(env: Env, name: string, c: Concrete, tys: seq<Type>, visiting: set<string>)
    requires Waits(env, name) && name in visiting
    ensures ContainsCell(Registering(env, name, c.abilities, c.fields), tys, visiting) ==
            ContainsCell(env, tys, visiting)
    decreases |Universe(env) - visiting|, tys, 0
  {
    if tys != [] {
      RegisteredUnseen(env, name, c, tys[0], visiting);
      CellsUnseen(env, name, c, tys[1..], visiting);
    }
  }

  lemma {:induction false} FieldsUnseen(env: Env, name: string, c: Concrete, n: string, fields: seq<Type>,
                                        visiting: set<string>)
    requires Waits(env, name) && name in visiting && LookedInto(env, n, visiting)
    ensures ContainsCell(Registering(env, name, c.abilities, c.fields), fields, visiting + {n}) ==
            ContainsCell(env, fields, visiting + {n})
    decreases |Universe(env) - visiting|, Named(n), 0
  {
    VisitingShrinks(env, n, visiting);
    CellsUnseen(env, name, c, fields, visiting + {n});
  }

  lemma OtherStructure(env: Env, name: string, c: Concrete, n: string, visiting: set<string>)
    requires Waits(env, name) && n != name
    ensures var after := Registering(env, name, c.abilities, c.fields);
            && BaseName(after, n) == BaseName(env, n)
            && StructuralFields(after, n, BaseName(env, n)) == StructuralFields(env, n, BaseName(env, n))
            && LookedInto(after, n, visiting) == LookedInto(env, n, visiting)
  {
  }

  lemma OwnUnseen(env: Env, name: string, c: Concrete, visiting: set<string>)
    requires Waits(env, name) && name in visiting
    ensures AbilitiesFor(Registering(env, name, c.abilities, c.fields), Named(name), visiting) == {}
    ensures AbilitiesFor(env, Named(name), visiting) == {}
  {
  }

  lemma OtherUnseen(env: Env, name: string, c: Concrete, n: string, fields: seq<Type>, visiting: set<string>)
    requires Waits(env, name) && n != name && fields == StructuralFields(env, n, BaseName(env, n))
    requires LookedInto(env, n, visiting) ==>
               ContainsCell(Registering(env, name, c.abilities, c.fields), fields, visiting + {n}) ==
               ContainsCell(env, fields, visiting + {n})
    ensures AbilitiesFor(Registering(env, name, c.abilities, c.fields), Named(n), visiting) ==
            AbilitiesFor(env, Named(n), visiting)
  {
    OtherStructure(env, name, c, n, visiting);
    NameAbilities(env, n, visiting, fields);
    NameAbilities(Registering(env, name, c.abilities, c.fields), n, visiting, fields);
  }

  lemma {:induction false} NameUnseen(env: Env, name: string, c: Concrete, n: string, visiting: set<string>)
    requires Waits(env, name) && name in visiting
    ensures AbilitiesFor(Registering(env, name, c.abilities, c.fields), Named(n), visiting) ==
            AbilitiesFor(env, Named(n), visiting)
    decreases |Universe(env) - visiting|, Named(n), 1
  {
    if n == name {
      OwnUnseen(env, name, c, visiting);
    } else {
      var fields := StructuralFields(env, n, BaseName(env, n));
      if LookedInto(env, n, visiting) {
        FieldsUnseen(env, name, c, n, fields, visiting);
      }
      OtherUnseen(env, name, c, n, fields, visiting);
    }
  }

  /** Emission discloses a Cell: a field is one once rewritten, and each such field shows an application. */
  predicate Discloses(env: Env, fields: seq<Field>, rewritten: seq<Field>, visiting: set<string>)
  {
    Cells(env, FieldTypes(rewritten), visiting) != {} &&
    Cells(env, FieldTypes(rewritten), visiting) <= Shown(env.templates, fields)
  }

  lemma SubstitutedCell(env: Env, subst: map<string, Type>, ty: Type, r: Type, visiting: set<string>)
    requires Rewrites(env.templates, env.origins, subst, ty, r) && Settled(env.templates, subst)
    ensures Substitute(ty, subst).Some?
    ensures Cell in AbilitiesFor(env, Substitute(ty, subst).value, visiting) <==>
            !Shows(env.templates, ty) && Cell in AbilitiesFor(env, r, visiting)
  {
    RewrittenSubstitutes(env.templates, env.origins, subst, ty, r);
    if Shows(env.templates, ty) {
      ShownIsNoCell(env, subst, ty, visiting);
    } else {
      HiddenAlike(env, subst, ty, r, visiting);
    }
  }

  /** Substituting finds the Cells that rewriting finds, but for the fields that show an application. */
  lemma {:induction false} SubstitutedCells(env: Env, subst: map<string, Type>, fields: seq<Field>,
                                            rewritten: seq<Field>, visiting: set<string>)
    requires FieldsRewritten(env.templates, env.origins, subst, fields, rewritten) && Settled(env.templates, subst)
    ensures Cells(env, SubstitutedFields(fields, subst), visiting) ==
            Cells(env, FieldTypes(rewritten), visiting) - Shown(env.templates, fields)
  {
    var tys, rs := SubstitutedFields(fields, subst), FieldTypes(rewritten);
    forall i | 0 <= i < |fields|
      ensures Substitute(fields[i].ty, subst).Some?
      ensures Cell in AbilitiesFor(env, Substitute(fields[i].ty, subst).value, visiting) <==>
              !Shows(env.templates, fields[i].ty) && Cell in AbilitiesFor(env, rs[i], visiting)
    {
      assert FieldRewritten(env.templates, env.origins, subst, fields[i], rewritten[i]);
      SubstitutedCell(env, subst, fields[i].ty, rewritten[i].ty, visiting);
    }
    SubstitutedAt(fields, subst);
  }

  lemma RestEmpty(all: set<int>, part: set<int>)
    ensures all <= part <==> all - part == {}
  {
    forall i | i in all && all - part == {} ensures i in part {
      assert i !in all - part;
    }
  }

  /** Rewriting finds a Cell exactly where substituting finds one or emission discloses one. */
  lemma DisclosedCells(env: Env, subst: map<string, Type>, fields: seq<Field>, rewritten: seq<Field>,
                       visiting: set<string>)
    requires FieldsRewritten(env.templates, env.origins, subst, fields, rewritten) && Settled(env.templates, subst)
    ensures ContainsCell(env, FieldTypes(rewritten), visiting) <==>
            ContainsCell(env, SubstitutedFields(fields, subst), visiting) || Discloses(env, fields, rewritten, visiting)
    ensures Discloses(env, fields, rewritten, visiting) ==>
            !ContainsCell(env, SubstitutedFields(fields, subst), visiting)
  {
    SubstitutedCells(env, subst, fields, rewritten, visiting);
    RestEmpty(Cells(env, FieldTypes(rewritten), visiting), Shown(env.templates, fields));
    CellsFound(env, FieldTypes(rewritten), visiting);
    CellsFound(env, SubstitutedFields(fields, subst), visiting);
  }

  lemma WaitingAbilities(env: Env, name: string)
    requires Waits(env, name)
    ensures var d := env.templates[env.origins[name].template];
            var fields := SubstitutedFields(d.fields, Substitution(d.params, env.origins[name].arguments));
            AbilitiesFor(env, Named(name), {}) == WithCell(d.abilities, ContainsCell(env, fields, {name}))
  {
    var d := env.templates[env.origins[name].template];
    NameAbilities(env, name, {}, SubstitutedFields(d.fields, Substitution(d.params, env.origins[name].arguments)));
    assert {} + {name} == {name};
  }

  lemma RegisteredAbilities(env: Env, name: string, fields: seq<Type>)
    requires Waits(env, name)
    ensures var d := env.templates[env.origins[name].template];
            AbilitiesFor(Registering(env, name, d.abilities, fields), Named(name), {}) ==
            WithCell(d.abilities, ContainsCell(env, fields, {name}))
  {
    var d := env.templates[env.origins[name].template];
    NameAbilities(Registering(env, name, d.abilities, fields), name, {}, fields);
    assert {} + {name} == {name};
    CellsUnseen(env, name, Concrete(d.abilities, fields), fields, {name});
  }

  /** Emitting a specialization leaves its abilities as they were, exactly when it discloses no Cell; a Cell disclosed
      was not seen before and is seen after. */
  lemma {:induction false} EmissionKeepsAbilities(env: Env, name: string, rewritten: seq<Field>)
    requires Waits(env, name) && AllResolved(env.templates, env.origins[name].arguments)
    requires var d := env.templates[env.origins[name].template];
             FieldsRewritten(env.templates, env.origins, Substitution(d.params, env.origins[name].arguments),
                             d.fields, rewritten)
    ensures var d := env.templates[env.origins[name].template];
            var before, after := AbilitiesFor(env, Named(name), {}),
              AbilitiesFor(Registering(env, name, d.abilities, FieldTypes(rewritten)), Named(name), {});
            && (before == after <==> !Discloses(env, d.fields, rewritten, {name}))
            && (Discloses(env, d.fields, rewritten, {name}) ==> Cell !in before && Cell in after)
  {
    var d, arguments := env.templates[env.origins[name].template], env.origins[name].arguments;
    forall p | p in Substitution(d.params, arguments)
      ensures Resolved(env.templates, Substitution(d.params, arguments)[p])
    {
      var k := SubstitutionPair(d.params, arguments, arguments, p);
    }
    DisclosedCells(env, Substitution(d.params, arguments), d.fields, rewritten, {name});
    WaitingAbilities(env, name);
    RegisteredAbilities(env, name, FieldTypes(rewritten));
  }

  /** A layout parameter admits an emitted specialization exactly when it admitted it before and no Cell is
      disclosed. */
  lemma EmissionKeepsAdmission(env: Env, name: string, rewritten: seq<Field>, param: Param)
    requires Waits(env, name) && AllResolved(env.templates, env.origins[name].arguments) && !param.phantom
    requires var d := env.templates[env.origins[name].template];
             FieldsRewritten(env.templates, env.origins, Substitution(d.params, env.origins[name].arguments),
                             d.fields, rewritten)
    ensures var d := env.templates[env.origins[name].template];
            ArgumentAdmitted(Registering(env, name, d.abilities, FieldTypes(rewritten)), param, Named(name)) <==>
            ArgumentAdmitted(env, param, Named(name)) && !Discloses(env, d.fields, rewritten, {name})
  {
    EmissionKeepsAbilities(env, name, rewritten);
  }
}
