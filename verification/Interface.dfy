/** Public package interfaces, their validity, and the compatibility relation a deployment line relies on. */
module Interface {
  import opened Options
  import StringOrder

  const SCHEMA: string := "cellscript-package-interface-v5"
  const SCHEMA_VERSION: nat := 5
  const ABILITIES: seq<string> := ["copy", "drop", "store", "fixed", "serializable", "non_linear", "cell"]
  const LAYOUT_BOUNDARY: seq<string> := ["fixed", "serializable", "non_linear"]

  datatype TypeParameter = TypeParameter(name: string, phantom: bool, constraints: seq<string>)

  datatype Lifecycle = Consume | Create | Destroy | Replace | Transfer | Claim | Settle

  datatype Facts = Facts(contextReads: set<string>, lifecycleOps: set<Lifecycle>, processOps: set<string>)

  datatype Param = Param(name: string, ty: string, source: string, mutable: bool, reference: bool)

  datatype TypeItem = TypeItem(
    identity: string,
    kind: string,
    typeParameters: seq<TypeParameter>,
    valueAbilities: seq<string>,
    cellCapabilities: seq<string>,
    layoutIdentity: string,
    typeIdentity: Option<string>
  )

  datatype Callable = Callable(
    identity: string,
    kind: string,
    typeParameters: seq<TypeParameter>,
    params: seq<Param>,
    returnType: Option<string>,
    outputs: seq<Param>,
    effects: Option<Facts>,
    entryWitnessAbi: Option<string>,
    builderHash: string
  )

  datatype Constant = Constant(identity: string, ty: string)

  /** `runtime` stands for the target profile and versioned runtime ABI as one value. */
  datatype Interface = Interface(
    schema: string,
    version: nat,
    edition: string,
    types: seq<TypeItem>,
    constants: seq<Constant>,
    callables: seq<Callable>,
    runtime: string,
    builderHash: string,
    deploymentHash: string
  )

  // ----- validity

  predicate SortedUnique(identities: seq<string>)
  {
    && (forall i :: 0 <= i < |identities| ==> identities[i] != "")
    && forall i, j :: 0 <= i < j < |identities| ==>
         StringOrder.Le(identities[i], identities[j]) && identities[i] != identities[j]
  }

  function Known(all: seq<string>, abilities: seq<string>): seq<string>
  {
    if all == [] then [] else (if all[0] in abilities then [all[0]] else []) + Known(all[1..], abilities)
  }

  /** Unique, known, in canonical order, and not both Cell and non-linear. */
  predicate ValidAbilities(abilities: seq<string>)
  {
    abilities == Known(ABILITIES, abilities) && !("cell" in abilities && "non_linear" in abilities)
  }

  /** Every character outside ASCII counts as a letter. */
  predicate IsLetter(c: char)
  {
    'a' <= c <= 'z' || 'A' <= c <= 'Z' || c > '\U{7F}'
  }

  predicate ValidName(name: string)
  {
    && name != "" && (IsLetter(name[0]) || name[0] == '_')
    && forall i :: 0 <= i < |name| ==> IsLetter(name[i]) || '0' <= name[i] <= '9' || name[i] == '_'
  }

  predicate ValidTypeParameters(params: seq<TypeParameter>, layoutType: bool)
  {
    && (forall i, j :: 0 <= i < j < |params| ==> params[i].name != params[j].name)
    && forall i :: 0 <= i < |params| ==>
         && ValidName(params[i].name) && ValidAbilities(params[i].constraints)
         && (layoutType && !params[i].phantom ==> forall a :: a in LAYOUT_BOUNDARY ==> a in params[i].constraints)
  }

  function Constituents(op: Lifecycle): set<Lifecycle>
  {
    match op
    case Consume => {Consume}
    case Create => {Create}
    case Destroy => {Consume, Destroy}
    case _ => {Consume, Create, op}
  }

  predicate ValidFacts(facts: Facts)
  {
    forall op :: op in facts.lifecycleOps ==> Constituents(op) <= facts.lifecycleOps
  }

  predicate ValidCallable(item: Callable)
  {
    && (item.effects.Some? ==> ValidFacts(item.effects.value)) && (item.typeParameters == [] <==> item.effects.Some?)
    && ValidTypeParameters(item.typeParameters, false)
  }

  predicate Valid(x: Interface)
  {
    && x.schema == SCHEMA && x.version == SCHEMA_VERSION && x.edition in {"2026", "2027"}
    && SortedUnique(seq(|x.types|, i requires 0 <= i < |x.types| => x.types[i].identity))
    && SortedUnique(seq(|x.constants|, i requires 0 <= i < |x.constants| => x.constants[i].identity))
    && SortedUnique(seq(|x.callables|, i requires 0 <= i < |x.callables| => x.callables[i].identity))
    && (forall i :: 0 <= i < |x.types| ==>
         ValidTypeParameters(x.types[i].typeParameters, x.edition == "2027") &&
         ValidAbilities(x.types[i].valueAbilities))
    && forall i :: 0 <= i < |x.callables| ==> ValidCallable(x.callables[i])
  }

  // ----- compatibility

  function Elements(s: seq<string>): set<string>
  {
    set i | 0 <= i < |s| :: s[i]
  }

  predicate ParametersCompatible(before: seq<TypeParameter>, after: seq<TypeParameter>)
  {
    |before| == |after| && forall i :: 0 <= i < |before| ==>
      && before[i].name == after[i].name && before[i].phantom == after[i].phantom
      && Elements(after[i].constraints) <= Elements(before[i].constraints)
  }

  predicate TypeCompatible(before: TypeItem, after: TypeItem)
  {
    && before.identity == after.identity && before.kind == after.kind &&
       ParametersCompatible(before.typeParameters, after.typeParameters)
    && before.layoutIdentity == after.layoutIdentity && before.typeIdentity == after.typeIdentity
    && before.valueAbilities == after.valueAbilities && before.cellCapabilities == after.cellCapabilities
  }

  /** The effect ceiling: the candidate does nothing the required facts do not name. */
  predicate Accepts(required: Facts, candidate: Facts)
  {
    && candidate.contextReads <= required.contextReads && candidate.lifecycleOps <= required.lifecycleOps
    && candidate.processOps <= required.processOps
  }

  predicate EffectsCompatible(before: Option<Facts>, after: Option<Facts>)
  {
    before == after || before.None? || (after.Some? && Accepts(before.value, after.value))
  }

  predicate SameSignature(before: Callable, after: Callable)
  {
    before.kind == after.kind && before.params == after.params && before.returnType == after.returnType &&
    before.outputs == after.outputs
  }

  predicate CallableCompatible(before: Callable, after: Callable)
  {
    && before.identity == after.identity && SameSignature(before, after) &&
       ParametersCompatible(before.typeParameters, after.typeParameters)
    && before.entryWitnessAbi == after.entryWitnessAbi && EffectsCompatible(before.effects, after.effects)
    && before.builderHash == after.builderHash
  }

  predicate TypeKept(before: TypeItem, types: seq<TypeItem>)
  {
    exists j :: 0 <= j < |types| && TypeCompatible(before, types[j])
  }

  predicate CallableKept(before: Callable, callables: seq<Callable>)
  {
    exists j :: 0 <= j < |callables| && CallableCompatible(before, callables[j])
  }

  predicate ConstantKept(before: Constant, constants: seq<Constant>)
  {
    exists j :: 0 <= j < |constants| && constants[j] == before
  }

  predicate Exports(callables: seq<Callable>, identity: string)
  {
    exists j :: 0 <= j < |callables| && callables[j].identity == identity
  }

  /** Some callable is new. */
  predicate CallableAdded(before: Interface, after: Interface)
  {
    exists j :: 0 <= j < |after.callables| && !Exports(before.callables, after.callables[j].identity)
  }

  /** What an upgrade must keep. The builder contract of the module may change only with a new callable. */
  predicate Compatible(before: Interface, after: Interface)
  {
    && Valid(before) && Valid(after)
    && (forall i :: 0 <= i < |before.types| ==> TypeKept(before.types[i], after.types))
    && (forall i :: 0 <= i < |before.callables| ==> CallableKept(before.callables[i], after.callables))
    && (forall i :: 0 <= i < |before.constants| ==> ConstantKept(before.constants[i], after.constants))
    && before.runtime == after.runtime && before.deploymentHash == after.deploymentHash
    && (before.builderHash == after.builderHash || CallableAdded(before, after))
  }

  // ----- a preorder on valid interfaces

  lemma ReflexiveExactly(x: Interface)
    ensures Compatible(x, x) <==> Valid(x)
  {
    if Valid(x) {
      forall i | 0 <= i < |x.types| ensures TypeKept(x.types[i], x.types) {
        assert TypeCompatible(x.types[i], x.types[i]);
      }
      forall i | 0 <= i < |x.callables| ensures CallableKept(x.callables[i], x.callables) {
        assert CallableCompatible(x.callables[i], x.callables[i]);
      }
    }
  }

  lemma ParametersTransitive(a: seq<TypeParameter>, b: seq<TypeParameter>, c: seq<TypeParameter>)
    requires ParametersCompatible(a, b) && ParametersCompatible(b, c)
    ensures ParametersCompatible(a, c)
  {
    forall i | 0 <= i < |a| ensures Elements(c[i].constraints) <= Elements(a[i].constraints) {
      assert Elements(b[i].constraints) <= Elements(a[i].constraints);
    }
  }

  lemma {:induction false} TypeKeptTransitive(before: TypeItem, b: seq<TypeItem>, c: seq<TypeItem>)
    requires TypeKept(before, b) && forall i :: 0 <= i < |b| ==> TypeKept(b[i], c)
    ensures TypeKept(before, c)
  {
    var j :| 0 <= j < |b| && TypeCompatible(before, b[j]);
    var k :| 0 <= k < |c| && TypeCompatible(b[j], c[k]);
    ParametersTransitive(before.typeParameters, b[j].typeParameters, c[k].typeParameters);
    assert TypeCompatible(before, c[k]);
  }

  lemma {:induction false} CallableKeptTransitive(before: Callable, b: seq<Callable>, c: seq<Callable>)
    requires CallableKept(before, b) && forall i :: 0 <= i < |b| ==> CallableKept(b[i], c)
    ensures CallableKept(before, c)
  {
    var j :| 0 <= j < |b| && CallableCompatible(before, b[j]);
    var k :| 0 <= k < |c| && CallableCompatible(b[j], c[k]);
    ParametersTransitive(before.typeParameters, b[j].typeParameters, c[k].typeParameters);
    assert CallableCompatible(before, c[k]);
  }

  lemma {:induction false} ExportsKept(before: seq<Callable>, b: seq<Callable>, identity: string)
    requires (forall i :: 0 <= i < |before| ==> CallableKept(before[i], b)) && Exports(before, identity)
    ensures Exports(b, identity)
  {
    var i :| 0 <= i < |before| && before[i].identity == identity;
    var j :| 0 <= j < |b| && CallableCompatible(before[i], b[j]);
  }

  /** A callable added on either step is added over both. */
  lemma {:induction false} AddedTransitive(a: Interface, b: Interface, c: Interface)
    requires Compatible(a, b) && Compatible(b, c) && (CallableAdded(a, b) || CallableAdded(b, c))
    ensures CallableAdded(a, c)
  {
    if CallableAdded(b, c) {
      var k :| 0 <= k < |c.callables| && !Exports(b.callables, c.callables[k].identity);
      if Exports(a.callables, c.callables[k].identity) {
        ExportsKept(a.callables, b.callables, c.callables[k].identity);
      }
    } else {
      var j :| 0 <= j < |b.callables| && !Exports(a.callables, b.callables[j].identity);
      assert CallableKept(b.callables[j], c.callables);
      var k :| 0 <= k < |c.callables| && CallableCompatible(b.callables[j], c.callables[k]);
      assert !Exports(a.callables, c.callables[k].identity);
    }
  }

  lemma {:induction false} Transitive(a: Interface, b: Interface, c: Interface)
    requires Compatible(a, b) && Compatible(b, c)
    ensures Compatible(a, c)
  {
    forall i | 0 <= i < |a.types| ensures TypeKept(a.types[i], c.types) {
      TypeKeptTransitive(a.types[i], b.types, c.types);
    }
    forall i | 0 <= i < |a.callables| ensures CallableKept(a.callables[i], c.callables) {
      CallableKeptTransitive(a.callables[i], b.callables, c.callables);
    }
    forall i | 0 <= i < |a.constants| ensures ConstantKept(a.constants[i], c.constants) {
      var j :| 0 <= j < |b.constants| && b.constants[j] == a.constants[i];
      assert ConstantKept(b.constants[j], c.constants);
    }
    if a.builderHash != c.builderHash {
      AddedTransitive(a, b, c);
    }
  }

  // ----- the comparison report

  datatype Dimension = SourceApi | SerializedLayout | RuntimeAbi | EffectsCapabilities | Builder | Deployment

  datatype Change = Change(code: nat, dimension: Dimension, breaking: bool, item: string)

  predicate HasBreaking(changes: seq<Change>)
  {
    exists i :: 0 <= i < |changes| && changes[i].breaking
  }

  predicate HasBuilder(changes: seq<Change>)
  {
    exists i :: 0 <= i < |changes| && changes[i].dimension == Builder
  }

  function Push(changes: seq<Change>, change: Change): (r: seq<Change>)
    ensures HasBreaking(r) <==> HasBreaking(changes) || change.breaking
    ensures HasBuilder(r) <==> HasBuilder(changes) || change.dimension == Builder
  {
    var r := changes + [change];
    assert r[|changes|] == change && forall i :: 0 <= i < |changes| ==> r[i] == changes[i];
    r
  }

  datatype ParameterChange = Same | Relaxed | Breaking

  method CompareParameters(before: seq<TypeParameter>, after: seq<TypeParameter>) returns (r: ParameterChange)
    ensures r == Breaking <==> !ParametersCompatible(before, after)
    ensures r == Same ==>
            forall i :: 0 <= i < |before| ==> Elements(before[i].constraints) == Elements(after[i].constraints)
    ensures r == Relaxed ==>
            exists i :: 0 <= i < |before| && Elements(before[i].constraints) != Elements(after[i].constraints)
  {
    if |before| != |after| {
      return Breaking;
    }
    var relaxed := false;
    for i := 0 to |before|
      invariant ParametersCompatible(before[..i], after[..i])
      invariant relaxed <==> exists k :: 0 <= k < i && Elements(before[k].constraints) != Elements(after[k].constraints)
    {
      if before[i].name != after[i].name || before[i].phantom != after[i].phantom {
        return Breaking;
      }
      if !(Elements(after[i].constraints) <= Elements(before[i].constraints)) {
        return Breaking;
      }
      relaxed := relaxed || Elements(before[i].constraints) != Elements(after[i].constraints);
    }
    assert before[..|before|] == before && after[..|after|] == after;
    return if relaxed then Relaxed else Same;
  }

  method CompareType(before: TypeItem, after: TypeItem, changes: seq<Change>) returns (r: seq<Change>)
    requires before.identity == after.identity
    ensures HasBreaking(r) <==> HasBreaking(changes) || !TypeCompatible(before, after)
    ensures HasBuilder(r) <==> HasBuilder(changes)
  {
    r := changes;
    if before.kind != after.kind {
      r := Push(r, Change(1002, SourceApi, true, before.identity));
    }
    var parameters := CompareParameters(before.typeParameters, after.typeParameters);
    if parameters == Relaxed {
      r := Push(r, Change(1104, SourceApi, false, before.identity));
    } else if parameters == Breaking {
      r := Push(r, Change(1002, SourceApi, true, before.identity));
    }
    if before.layoutIdentity != after.layoutIdentity || before.typeIdentity != after.typeIdentity {
      r := Push(r, Change(2001, SerializedLayout, true, before.identity));
    }
    if before.valueAbilities != after.valueAbilities || before.cellCapabilities != after.cellCapabilities {
      r := Push(r, Change(4001, EffectsCapabilities, true, before.identity));
    }
  }

  method CompareCallable(before: Callable, after: Callable, changes: seq<Change>) returns (r: seq<Change>)
    requires before.identity == after.identity
    ensures HasBreaking(r) <==> HasBreaking(changes) || !CallableCompatible(before, after)
    ensures HasBuilder(r) <==> HasBuilder(changes) || before.builderHash != after.builderHash
  {
    r := changes;
    if !SameSignature(before, after) {
      r := Push(Push(r, Change(1004, SourceApi, true, before.identity)),
                Change(3002, RuntimeAbi, true, before.identity));
    }
    var parameters := CompareParameters(before.typeParameters, after.typeParameters);
    if parameters == Relaxed {
      r := Push(r, Change(1104, SourceApi, false, before.identity));
    } else if parameters == Breaking {
      r := Push(Push(r, Change(1004, SourceApi, true, before.identity)),
                Change(3002, RuntimeAbi, true, before.identity));
    }
    if before.entryWitnessAbi != after.entryWitnessAbi {
      r := Push(r, Change(3003, RuntimeAbi, true, before.identity));
    }
    if before.effects != after.effects {
      var accepted :=
        before.effects.None? || (after.effects.Some? && Accepts(before.effects.value, after.effects.value));
      r := Push(r, Change(if accepted then 4003 else 4002, EffectsCapabilities, !accepted, before.identity));
    }
    if before.builderHash != after.builderHash {
      r := Push(r, Change(5002, Builder, true, before.identity));
    }
  }

  function FindType(types: seq<TypeItem>, identity: string): (r: Option<TypeItem>)
    ensures r.Some? ==> r.value in types && r.value.identity == identity
    ensures r.None? ==> forall i :: 0 <= i < |types| ==> types[i].identity != identity
  {
    if types == [] then None
    else if types[0].identity == identity then Some(types[0])
    else FindType(types[1..], identity)
  }

  function FindCallable(callables: seq<Callable>, identity: string): (r: Option<Callable>)
    ensures r.Some? ==> r.value in callables && r.value.identity == identity
    ensures r.None? ==> !Exports(callables, identity)
  {
    if callables == [] then None
    else if callables[0].identity == identity then Some(callables[0])
    else FindCallable(callables[1..], identity)
  }

  function FindConstant(constants: seq<Constant>, identity: string): (r: Option<Constant>)
    ensures r.Some? ==> r.value in constants && r.value.identity == identity
    ensures r.None? ==> forall i :: 0 <= i < |constants| ==> constants[i].identity != identity
  {
    if constants == [] then None
    else if constants[0].identity == identity then Some(constants[0])
    else FindConstant(constants[1..], identity)
  }

  /** Identities are unique, so the item found is the one that must be kept. */
  lemma {:induction false} FoundType(before: TypeItem, x: Interface)
    requires Valid(x)
    ensures TypeKept(before, x.types) <==>
            var found := FindType(x.types, before.identity); found.Some? && TypeCompatible(before, found.value)
  {
    var found := FindType(x.types, before.identity);
    var names := seq(|x.types|, i requires 0 <= i < |x.types| => x.types[i].identity);
    if found.Some? {
      var k :| 0 <= k < |x.types| && x.types[k] == found.value;
      forall j | 0 <= j < |x.types| && x.types[j].identity == before.identity ensures j == k {
        assert names[j] == names[k];
      }
    }
  }

  lemma {:induction false} FoundCallable(before: Callable, x: Interface)
    requires Valid(x)
    ensures CallableKept(before, x.callables) <==>
            var found := FindCallable(x.callables, before.identity);
            found.Some? && CallableCompatible(before, found.value)
  {
    var found := FindCallable(x.callables, before.identity);
    var names := seq(|x.callables|, i requires 0 <= i < |x.callables| => x.callables[i].identity);
    if found.Some? {
      var k :| 0 <= k < |x.callables| && x.callables[k] == found.value;
      forall j | 0 <= j < |x.callables| && x.callables[j].identity == before.identity ensures j == k {
        assert names[j] == names[k];
      }
    }
  }

  lemma {:induction false} FoundConstant(before: Constant, x: Interface)
    requires Valid(x)
    ensures ConstantKept(before, x.constants) <==> FindConstant(x.constants, before.identity) == Some(before)
  {
    var found := FindConstant(x.constants, before.identity);
    var names := seq(|x.constants|, i requires 0 <= i < |x.constants| => x.constants[i].identity);
    if found.Some? {
      var k :| 0 <= k < |x.constants| && x.constants[k] == found.value;
      forall j | 0 <= j < |x.constants| && x.constants[j].identity == before.identity ensures j == k {
        assert names[j] == names[k];
      }
    }
  }

  method CompareTypes(before: Interface, after: Interface, changes: seq<Change>) returns (r: seq<Change>)
    requires Valid(after)
    ensures HasBreaking(r) <==>
            HasBreaking(changes) || exists i :: 0 <= i < |before.types| && !TypeKept(before.types[i], after.types)
    ensures HasBuilder(r) <==> HasBuilder(changes)
  {
    r := changes;
    for i := 0 to |before.types|
      invariant HasBreaking(r) <==>
                HasBreaking(changes) || exists k :: 0 <= k < i && !TypeKept(before.types[k], after.types)
      invariant HasBuilder(r) <==> HasBuilder(changes)
    {
      FoundType(before.types[i], after);
      var found := FindType(after.types, before.types[i].identity);
      if found.None? {
        r := Push(r, Change(1001, SourceApi, true, before.types[i].identity));
      } else {
        r := CompareType(before.types[i], found.value, r);
      }
    }
    for j := 0 to |after.types|
      invariant HasBreaking(r) <==>
                HasBreaking(changes) || exists i :: 0 <= i < |before.types| && !TypeKept(before.types[i], after.types)
      invariant HasBuilder(r) <==> HasBuilder(changes)
    {
      if FindType(before.types, after.types[j].identity).None? {
        r := Push(r, Change(1101, SourceApi, false, after.types[j].identity));
      }
    }
  }

  /** Some exported callable is not kept. */
  predicate CallableLost(before: Interface, after: Interface)
  {
    exists i :: 0 <= i < |before.callables| && !CallableKept(before.callables[i], after.callables)
  }

  method CompareCallables(before: Interface, after: Interface, changes: seq<Change>) returns (r: seq<Change>)
    requires Valid(after)
    ensures HasBreaking(r) <==> HasBreaking(changes) || CallableLost(before, after)
    ensures HasBuilder(changes) || CallableAdded(before, after) ==> HasBuilder(r)
    ensures HasBuilder(r) ==> HasBuilder(changes) || CallableAdded(before, after) || CallableLost(before, after)
  {
    r := changes;
    for i := 0 to |before.callables|
      invariant HasBreaking(r) <==>
                HasBreaking(changes) || exists k :: 0 <= k < i && !CallableKept(before.callables[k], after.callables)
      invariant HasBuilder(changes) ==> HasBuilder(r)
      invariant HasBuilder(r) ==>
                HasBuilder(changes) || exists k :: 0 <= k < i && !CallableKept(before.callables[k], after.callables)
    {
      FoundCallable(before.callables[i], after);
      var found := FindCallable(after.callables, before.callables[i].identity);
      if found.None? {
        r := Push(r, Change(1003, SourceApi, true, before.callables[i].identity));
      } else {
        r := CompareCallable(before.callables[i], found.value, r);
      }
    }
    ghost var kept := r;
    for j := 0 to |after.callables|
      invariant HasBreaking(r) <==> HasBreaking(kept)
      invariant HasBuilder(r) <==>
                HasBuilder(kept) || exists k :: 0 <= k < j && !Exports(before.callables, after.callables[k].identity)
    {
      if FindCallable(before.callables, after.callables[j].identity).None? {
        r := Push(r, Change(1102, SourceApi, false, after.callables[j].identity));
        r := Push(r, Change(5101, Builder, false, after.callables[j].identity));
      }
    }
  }

  method CompareConstants(before: Interface, after: Interface, changes: seq<Change>) returns (r: seq<Change>)
    requires Valid(after)
    ensures HasBreaking(r) <==>
            HasBreaking(changes) ||
            exists i :: 0 <= i < |before.constants| && !ConstantKept(before.constants[i], after.constants)
    ensures HasBuilder(r) <==> HasBuilder(changes)
  {
    r := changes;
    for i := 0 to |before.constants|
      invariant HasBreaking(r) <==>
                HasBreaking(changes) || exists k :: 0 <= k < i && !ConstantKept(before.constants[k], after.constants)
      invariant HasBuilder(r) <==> HasBuilder(changes)
    {
      FoundConstant(before.constants[i], after);
      var found := FindConstant(after.constants, before.constants[i].identity);
      if found.None? {
        r := Push(r, Change(1005, SourceApi, true, before.constants[i].identity));
      } else if found.value.ty != before.constants[i].ty {
        r := Push(r, Change(1006, SourceApi, true, before.constants[i].identity));
      }
    }
    for j := 0 to |after.constants|
      invariant HasBreaking(r) <==>
                HasBreaking(changes) ||
                exists i :: 0 <= i < |before.constants| && !ConstantKept(before.constants[i], after.constants)
      invariant HasBuilder(r) <==> HasBuilder(changes)
    {
      if FindConstant(before.constants, after.constants[j].identity).None? {
        r := Push(r, Change(1103, SourceApi, false, after.constants[j].identity));
      }
    }
  }

  /** The report is compatible exactly when the interfaces are. */
  method Compare(before: Interface, after: Interface) returns (changes: seq<Change>, compatible: bool)
    ensures compatible <==> Compatible(before, after)
    ensures compatible <==> !HasBreaking(changes)
  {
    changes := [];
    if !Valid(before) || !Valid(after) {
      changes := Push(changes, Change(1000, SourceApi, true, ""));
    } else {
      changes := CompareTypes(before, after, changes);
      changes := CompareCallables(before, after, changes);
      changes := CompareConstants(before, after, changes);
    }
    if before.runtime != after.runtime {
      changes := Push(changes, Change(3001, RuntimeAbi, true, ""));
    }
    if before.builderHash != after.builderHash && !HasBuilder(changes) {
      changes := Push(changes, Change(5001, Builder, true, ""));
    }
    if before.deploymentHash != after.deploymentHash {
      changes := Push(changes, Change(6001, Deployment, true, ""));
    }
    compatible := !HasBreaking(changes);
  }
}
