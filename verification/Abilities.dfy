/** Value abilities: what a template guarantees from its constraints, and what a concrete type has. */
module Abilities {
  import opened Options
  import opened Types
  import opened Provenance

  datatype Ability = Copy | Drop | Store | Fixed | Serializable | NonLinear | Cell

  const FIXED_VALUE: set<Ability> := {Copy, Drop, Store, Fixed, Serializable, NonLinear}
  const REFERENCE: set<Ability> := {Copy, Drop, NonLinear}
  const DYNAMIC_VALUE: set<Ability> := {Copy, Drop, Store, Serializable, NonLinear}
  const HANDLES: set<string> := {"ScriptHandle", "VerifierHandle", "InstanceScriptHandle"}
  const INDEX_NAMES: set<string> := {"usize", "isize"}
  const DYNAMIC_NAMES: set<string> := {"String", "Vec"}

  datatype Param = Param(name: string, constraints: set<Ability>, phantom: bool)

  /** A field of a struct, or of the enum variant with the given index. */
  datatype Field = Field(variant: nat, name: string, ty: Type)

  datatype Definition = Definition(kind: Kind, params: seq<Param>, abilities: set<Ability>, variants: seq<string>,
                                   fields: seq<Field>)

  datatype Concrete = Concrete(abilities: set<Ability>, fields: seq<Type>)

  /** What ability questions depend on. */
  datatype Env = Env(origins: Origins, templates: map<string, Definition>, concretes: map<string, Concrete>,
                     cellTypes: set<string>)

  // ----- template guarantees

  function Constraints(params: seq<Param>): (c: map<string, set<Ability>>)
  {
    if params == [] then map[]
    else Constraints(params[..|params| - 1])[params[|params| - 1].name := params[|params| - 1].constraints]
  }

  /** The abilities a field type guarantees whatever the arguments are. */
  function Guaranteed(ty: Type, constraints: map<string, set<Ability>>): (r: set<Ability>)
    decreases ty, 1
  {
    match ty
    case Prim(_) => FIXED_VALUE
    case Array(inner, _) => Guaranteed(inner, constraints)
    case Tuple(items) => if items == [] then FIXED_VALUE else GuaranteedByAll(items, constraints)
    case Ref(_) => REFERENCE
    case MutRef(_) => REFERENCE
    case Named(name) =>
      if name in constraints then constraints[name]
      else if name in INDEX_NAMES then FIXED_VALUE
      else if name in DYNAMIC_NAMES then DYNAMIC_VALUE
      else {}
    case Applied(_, _) => {}
  }

  function GuaranteedByAll(tys: seq<Type>, constraints: map<string, set<Ability>>): (r: set<Ability>)
    requires tys != []
    ensures forall i :: 0 <= i < |tys| ==> r <= Guaranteed(tys[i], constraints)
    decreases tys, 0
  {
    if |tys| == 1 then Guaranteed(tys[0], constraints)
    else Guaranteed(tys[0], constraints) * GuaranteedByAll(tys[1..], constraints)
  }

  function DerivedAbilities(params: seq<Param>, fields: seq<Type>): set<Ability>
  {
    if fields == [] then FIXED_VALUE else GuaranteedByAll(fields, Constraints(params)) - {Cell}
  }

  // ----- concrete abilities

  function Universe(env: Env): set<string>
  {
    env.origins.Keys + env.templates.Keys + env.concretes.Keys
  }

  function BaseName(env: Env, name: string): string
  {
    if name in env.origins then env.origins[name].template else name
  }

  function Substitution(params: seq<Param>, arguments: seq<Type>): (subst: map<string, Type>)
    requires |params| == |arguments|
  {
    if params == [] then map[]
    else
      var last := |params| - 1;
      Substitution(params[..last], arguments[..last])[params[last].name := arguments[last]]
  }

  function SubstitutedFields(fields: seq<Field>, subst: map<string, Type>): seq<Type>
  {
    if fields == [] then []
    else
      var first := Substitute(fields[0].ty, subst);
      (if first.Some? then [first.value] else []) + SubstitutedFields(fields[1..], subst)
  }

  function StructuralFields(env: Env, name: string, base: string): seq<Type>
  {
    if name in env.concretes then env.concretes[name].fields
    else if base in env.concretes then env.concretes[base].fields
    else
      var arguments := if name in env.origins then env.origins[name].arguments else [];
      if base in env.templates && |env.templates[base].params| == |arguments| then
        SubstitutedFields(env.templates[base].fields, Substitution(env.templates[base].params, arguments))
      else []
  }

  /** A declaration that holds a Cell is one, and keeps no ability that a Cell has not. */
  function WithCell(declared: set<Ability>, holdsCell: bool): set<Ability>
  {
    if holdsCell then declared * {Fixed, Serializable} + {Cell} else declared + {NonLinear}
  }

  /** The abilities of a concrete type; a name met again on the way has none. */
  function AbilitiesFor(env: Env, ty: Type, visiting: set<string>): (r: set<Ability>)
    decreases |Universe(env) - visiting|, ty, 1
  {
    match ty
    case Prim(_) => FIXED_VALUE
    case Array(inner, _) => AbilitiesFor(env, inner, visiting)
    case Tuple(items) => if items == [] then FIXED_VALUE else AbilitiesForAll(env, items, visiting)
    case Ref(_) => REFERENCE
    case MutRef(_) => REFERENCE
    case Applied(head, arguments) =>
      if head == "Vec" && |arguments| == 1 && arguments[0].TypeArg? then DYNAMIC_VALUE
      else if head in HANDLES then {Copy, Drop}
      else {}
    case Named(name) =>
      var base := BaseName(env, name);
      if base in env.cellTypes then {Cell, Fixed, Serializable}
      else if base in INDEX_NAMES then FIXED_VALUE
      else if base in HANDLES then {Copy, Drop}
      else if base in DYNAMIC_NAMES then DYNAMIC_VALUE
      else if name in env.concretes || base in env.templates then
        if name in visiting then {}
        else
          var declared := if name in env.concretes then env.concretes[name].abilities
                          else env.templates[base].abilities;
          VisitingShrinks(env, name, visiting);
          WithCell(declared, ContainsCell(env, StructuralFields(env, name, base), visiting + {name}))
      else {}
  }

  function AbilitiesForAll(env: Env, tys: seq<Type>, visiting: set<string>): (r: set<Ability>)
    requires tys != []
    ensures forall a :: (forall i :: 0 <= i < |tys| ==> a in AbilitiesFor(env, tys[i], visiting)) ==> a in r
    decreases |Universe(env) - visiting|, tys, 0
  {
    if |tys| == 1 then AbilitiesFor(env, tys[0], visiting)
    else AbilitiesFor(env, tys[0], visiting) * AbilitiesForAll(env, tys[1..], visiting)
  }

  function ContainsCell(env: Env, tys: seq<Type>, visiting: set<string>): bool
    decreases |Universe(env) - visiting|, tys, 0
  {
    tys != [] && (Cell in AbilitiesFor(env, tys[0], visiting) || ContainsCell(env, tys[1..], visiting))
  }

  lemma VisitingShrinks(env: Env, name: string, visiting: set<string>)
    requires name !in visiting
    requires name in env.concretes || BaseName(env, name) in env.templates
    ensures |Universe(env) - (visiting + {name})| < |Universe(env) - visiting|
  {
    SubsetCardinality(Universe(env) - (visiting + {name}), Universe(env) - visiting, name);
  }

  /** Every declared ability is had by every field. */
  predicate ConcreteAbilitiesHold(env: Env, declared: set<Ability>, fields: seq<Type>)
  {
    forall a, i :: a in declared && 0 <= i < |fields| ==> a in AbilitiesFor(env, fields[i], {})
  }

  // ----- admission of an argument list

  predicate ArgumentAdmitted(env: Env, param: Param, argument: Type)
  {
    var has := AbilitiesFor(env, argument, {});
    && TypeNesting(argument) <= MAX_GENERIC_NESTING
    && param.constraints <= has
    && (!param.phantom ==> Cell !in has && {Fixed, Serializable, NonLinear} <= has)
  }

  /** The struct and enum cases of the instantiation check. */
  predicate InstantiationAdmitted(env: Env, params: seq<Param>, arguments: seq<Type>)
  {
    |params| == |arguments| && forall i :: 0 <= i < |params| ==> ArgumentAdmitted(env, params[i], arguments[i])
  }

  // ----- when derived abilities are sound

  const BUILTINS: set<string> := INDEX_NAMES + DYNAMIC_NAMES
  const CELL_VALUE: set<Ability> := {Cell, Fixed, Serializable}

  /** No generated symbol is a built-in value name: symbols carry a marker that these names do not. */
  predicate BuiltinsUnretained(env: Env)
  {
    forall name :: name in BUILTINS ==> name !in env.origins
  }

  /** A Cell declaration took the name of a built-in value that the field type holds, outside references. */
  predicate Exposed(cellTypes: set<string>, params: seq<Param>, ty: Type)
  {
    match ty
    case Array(inner, _) => Exposed(cellTypes, params, inner)
    case Tuple(items) => exists i :: 0 <= i < |items| && Exposed(cellTypes, params, items[i])
    case Named(name) => name in BUILTINS && name in cellTypes && name !in Constraints(params)
    case _ => false
  }

  predicate SomeExposed(cellTypes: set<string>, params: seq<Param>, fields: seq<Type>)
  {
    exists i :: 0 <= i < |fields| && Exposed(cellTypes, params, fields[i])
  }

  lemma {:induction false} ConstraintsMet(env: Env, params: seq<Param>, arguments: seq<Type>, name: string)
    requires InstantiationAdmitted(env, params, arguments)
    ensures Constraints(params).Keys == Substitution(params, arguments).Keys
    ensures name in Constraints(params) ==>
            Constraints(params)[name] <= AbilitiesFor(env, Substitution(params, arguments)[name], {})
  {
    if params != [] {
      var last := |params| - 1;
      assert params[..last] + [params[last]] == params;
      ConstraintsMet(env, params[..last], arguments[..last], name);
      assert ArgumentAdmitted(env, params[last], arguments[last]);
    }
  }

  /** `r` is an instance of `ty`: parameters replaced, references and applications by any of their kind. */
  predicate Instances(subst: map<string, Type>, ty: Type, r: Type)
  {
    match ty
    case Prim(_) => r == ty
    case Array(inner, _) => r.Array? && Instances(subst, inner, r.inner)
    case Tuple(items) =>
      r.Tuple? && |r.items| == |items| && forall i :: 0 <= i < |items| ==> Instances(subst, items[i], r.items[i])
    case Ref(_) => r.Ref?
    case MutRef(_) => r.MutRef?
    case Named(name) => r == if name in subst then subst[name] else ty
    case Applied(_, _) => true
  }

  lemma {:induction false} SubstitutedInstances(subst: map<string, Type>, ty: Type)
    requires Substitute(ty, subst).Some?
    ensures Instances(subst, ty, Substitute(ty, subst).value)
  {
    match ty
    case Array(inner, _) =>
      assert Children(ty) == [inner];
      SubstitutedInstances(subst, inner);
    case Tuple(items) =>
      forall i | 0 <= i < |items| ensures Instances(subst, items[i], Substitute(ty, subst).value.items[i]) {
        SubstitutedInstances(subst, items[i]);
      }
    case _ =>
  }

  /** A guaranteed ability is had by every instance, unless a Cell exposed there lacks it. */
  lemma {:induction false} GuaranteedIsHad(env: Env, params: seq<Param>, arguments: seq<Type>, ty: Type, r: Type,
                                           a: Ability)
    requires BuiltinsUnretained(env) && InstantiationAdmitted(env, params, arguments)
    requires Instances(Substitution(params, arguments), ty, r) && a in Guaranteed(ty, Constraints(params))
    requires a in CELL_VALUE || !Exposed(env.cellTypes, params, ty)
    ensures a in AbilitiesFor(env, r, {})
    decreases ty
  {
    match ty
    case Array(inner, _) => GuaranteedIsHad(env, params, arguments, inner, r.inner, a);
    case Tuple(items) =>
      forall i | 0 <= i < |items| ensures a in AbilitiesFor(env, r.items[i], {}) {
        GuaranteedIsHad(env, params, arguments, items[i], r.items[i], a);
      }
    case Named(name) => ConstraintsMet(env, params, arguments, name);
    case _ =>
  }

  lemma {:induction false} AllHave(env: Env, tys: seq<Type>, visiting: set<string>, i: nat)
    requires i < |tys|
    ensures AbilitiesForAll(env, tys, visiting) <= AbilitiesFor(env, tys[i], visiting)
  {
    if i > 0 {
      AllHave(env, tys[1..], visiting, i - 1);
    }
  }

  /** An exposed type has no ability that a Cell has not. */
  lemma {:induction false} ExposedLacks(env: Env, params: seq<Param>, arguments: seq<Type>, ty: Type, r: Type)
    requires BuiltinsUnretained(env) && InstantiationAdmitted(env, params, arguments)
    requires Instances(Substitution(params, arguments), ty, r) && Exposed(env.cellTypes, params, ty)
    ensures AbilitiesFor(env, r, {}) <= CELL_VALUE
    decreases ty
  {
    match ty
    case Array(inner, _) => ExposedLacks(env, params, arguments, inner, r.inner);
    case Tuple(items) =>
      var i :| 0 <= i < |items| && Exposed(env.cellTypes, params, items[i]);
      ExposedLacks(env, params, arguments, items[i], r.items[i]);
      AllHave(env, r.items, {}, i);
    case Named(name) => ConstraintsMet(env, params, arguments, name);
    case _ =>
  }

  predicate AllInstances(subst: map<string, Type>, tys: seq<Type>, rs: seq<Type>)
  {
    |rs| == |tys| && forall i :: 0 <= i < |tys| ==> Instances(subst, tys[i], rs[i])
  }

  /** A template whose abilities were derived from its constraints passes the concrete check, for every argument list
      the instantiation check admits, exactly when a Cell has the derived abilities or no field exposes one. */
  lemma DerivedAbilitiesExactly(env: Env, params: seq<Param>, fields: seq<Type>, arguments: seq<Type>,
                                actual: seq<Type>)
    requires BuiltinsUnretained(env) && InstantiationAdmitted(env, params, arguments)
    requires AllInstances(Substitution(params, arguments), fields, actual)
    ensures ConcreteAbilitiesHold(env, DerivedAbilities(params, fields), actual) <==>
            DerivedAbilities(params, fields) <= {Fixed, Serializable} || !SomeExposed(env.cellTypes, params, fields)
  {
    var derived := DerivedAbilities(params, fields);
    if derived <= {Fixed, Serializable} || !SomeExposed(env.cellTypes, params, fields) {
      forall a, i | a in derived && 0 <= i < |actual| ensures a in AbilitiesFor(env, actual[i], {}) {
        GuaranteedIsHad(env, params, arguments, fields[i], actual[i], a);
      }
    } else {
      var i :| 0 <= i < |fields| && Exposed(env.cellTypes, params, fields[i]);
      ExposedLacks(env, params, arguments, fields[i], actual[i]);
      var a :| a in derived && a !in {Fixed, Serializable};
      assert a !in AbilitiesFor(env, actual[i], {});
    }
  }

  /** The failing family at its smallest: a field of a built-in name that a Cell declaration took. */
  lemma ShadowedBuiltin(env: Env, params: seq<Param>, arguments: seq<Type>, name: string)
    requires BuiltinsUnretained(env) && InstantiationAdmitted(env, params, arguments)
    requires name in BUILTINS && name in env.cellTypes && name !in Constraints(params)
    ensures !ConcreteAbilitiesHold(env, DerivedAbilities(params, [Named(name)]), [Named(name)])
  {
    ConstraintsMet(env, params, arguments, name);
    var fields := [Named(name)];
    assert Copy in DerivedAbilities(params, fields);
    assert fields[0] == Named(name) && Exposed(env.cellTypes, params, fields[0]);
    DerivedAbilitiesExactly(env, params, fields, arguments, fields);
  }
}
