/** The monomorphizer: requests are named, retained, emitted once each, and closed under the fields they emit. */
module Monomorphization {
  import opened Options
  import opened Types
  import opened Provenance
  import opened SymbolNames
  import opened RenderFrames
  import opened OriginGrowth
  import opened Abilities
  import opened Layout
  import opened Declarations
  import opened Demand
  import opened SourceDemand
  import opened Correspondence
  import opened Captures
  import opened LayoutExactness
  import opened Worklist
  import opened Completion
  import opened Rejections
  import opened Execution
  import StringOrder

  class Monomorphizer {
    const templates: Templates
    const cellTypes: set<string>
    ghost const written: iset<string>
    var origins: Origins
    var concretes: map<string, Concrete>
    var pending: map<string, Origin>
    var emitted: set<string>

    ghost predicate Valid()
      reads this`origins, this`pending, this`emitted
    {
      AllRetained(templates, written, origins) && Tracked(origins, pending, emitted)
    }

    function Environment(): Env
      reads this`origins, this`concretes
    {
      Env(origins, templates, concretes, cellTypes)
    }

    ghost function Now(): State
      reads this`origins, this`concretes, this`emitted
    {
      State(Environment(), emitted)
    }

    constructor (items: seq<Item>)
      ensures Valid() && templates == TemplatesOf(items) && cellTypes == CellTypesOf(items)
      ensures concretes == ConcretesOf(items)
      ensures written == Written(items) && origins == map[] && pending == map[] && emitted == {}
    {
      templates, cellTypes, concretes := TemplatesOf(items), CellTypesOf(items), ConcretesOf(items);
      written, origins, pending, emitted := Written(items), map[], map[], {};
    }

    /** Retains the origin of a symbol, unless another origin holds the symbol. */
    method RetainOrigin(symbol: string, origin: Origin, ghost height: nat) returns (ok: bool)
      requires AllRetained(templates, written, origins) && origin.template in templates
      requires templates[origin.template].kind == origin.kind
      requires AllKnown(written, origins, origin.arguments) && AllResolved(templates, origin.arguments)
      requires Shallow(origin.arguments)
      requires AllFits(origins, origin.arguments, height)
      requires MonomorphName(origin.template, origin.arguments, origins, height) == Some(symbol)
      modifies this`origins
      ensures AllRetained(templates, written, origins)
      ensures ok <==> symbol !in old(origins) || old(origins)[symbol] == origin
      ensures origins == if ok then old(origins)[symbol := origin] else old(origins)
    {
      if symbol in origins {
        ok := origins[symbol] == origin;
      } else {
        RetainNew(templates, written, origins, symbol, origin, height);
        origins := origins[symbol := origin];
        ok := true;
      }
    }

    /** Names a specialization, retains its origin, and queues it unless it was queued before. */
    method Enqueue(kind: Kind, base: string, arguments: seq<Type>) returns (name: Option<string>)
      requires Valid() && base in templates && templates[base].kind == kind
      requires AllKnown(written, origins, arguments) && AllResolved(templates, arguments)
      modifies this`origins, this`pending
      ensures Valid() && Extends(old(origins), origins)
      ensures name.None? <==> Refused(old(origins), kind, base, arguments)
      ensures name.Some? ==> name.value in origins && origins[name.value] == Origin(kind, base, Canons(arguments))
      ensures name.Some? ==> origins.Keys <= old(origins).Keys + {name.value}
      ensures Outcome(name, origins) == Naming(old(origins), kind, base, arguments)
    {
      ghost var height := RequestFacts(templates, written, origins, kind, base, arguments);
      var normal := CanonicalArguments(Tuple(arguments), arguments, 0);
      if normal.None? {
        return None;
      }
      name := MonomorphName(base, normal.value, origins, height);
      SymbolIs(origins, Origin(kind, base, normal.value), height);
      if name.None? {
        return;
      }
      var ok := RetainOrigin(name.value, Origin(kind, base, normal.value), height);
      if !ok {
        return None;
      }
      Queue(name.value, Origin(kind, base, normal.value), old(origins));
    }

    /** Queues a retained origin under its key, unless the key is queued or emitted already. */
    method Queue(name: string, origin: Origin, ghost before: Origins)
      requires AllRetained(templates, written, origins) && Tracked(before, pending, emitted)
      requires origins == before[name := origin] && (name in before ==> before[name] == origin)
      modifies this`pending
      ensures Valid()
    {
      var key := Key(origin.kind, name);
      TrackRetained(before, pending, emitted, name, origin);
      if key !in emitted && key !in pending {
        pending := pending[key := origin];
      }
    }

    /** Replaces parameters and names template applications, bottom up. */
    method RewriteType(subst: map<string, Type>, ty: Type) returns (r: Option<Type>)
      requires Valid() && Known(Within(written, subst.Keys), origins, ty) && Settled(templates, written, origins, subst)
      modifies this`origins, this`pending
      ensures Valid() && Extends(old(origins), origins)
      ensures NewAsked(templates, old(origins), origins, subst, [ty])
      ensures r.Some? ==> Rewritten(templates, written, origins, subst, ty, r.value)
      ensures r.None? ==> Stuck(templates, origins, subst, ty)
      ensures Outcome(r, origins) == TypeOutcome(templates, old(origins), subst, ty)
      decreases if subst == map[] then 0 else 1, ty, 2
    {
      if ty.Named? {
        if ty.name in subst {
          r := RewriteSettled(subst, ty);
          return;
        }
        return if '<' in ty.name || '>' in ty.name then None else Some(ty);
      }
      if ty.Applied? && ty.head in subst {
        return None;
      }
      var kids := RewriteAll(subst, ty, Children(ty));
      NewAskedBelow(templates, old(origins), origins, subst, ty);
      if kids.None? {
        return None;
      }
      if ty.Applied? && ty.head in templates {
        if !OnlyTypes(ty) {
          return None;
        }
        r := NameApplication(subst, ty, kids.value, old(origins));
        return;
      }
      RebuiltIsRewritten(templates, written, origins, subst, ty, kids.value);
      return Some(Rebuild(ty, kids.value));
    }

    /** A parameter: its argument is rewritten under no substitution. */
    method RewriteSettled(subst: map<string, Type>, ty: Type) returns (r: Option<Type>)
      requires Valid() && Settled(templates, written, origins, subst) && ty.Named? && ty.name in subst
      modifies this`origins, this`pending
      ensures Valid() && Extends(old(origins), origins)
      ensures NewAsked(templates, old(origins), origins, subst, [ty])
      ensures r.Some? ==> Rewritten(templates, written, origins, subst, ty, r.value)
      ensures r.None? ==> Stuck(templates, origins, subst, ty)
      ensures Outcome(r, origins) == TypeOutcome(templates, old(origins), subst, ty)
      decreases 1, ty, 0
    {
      var none: map<string, Type> := map[];
      assert Within(written, none.Keys) == written;
      r := RewriteType(none, subst[ty.name]);
      ResolvedAddsNothing(templates, old(origins), origins, none, subst[ty.name]);
    }

    /** Names the application of a template to rewritten arguments. */
    method NameApplication(subst: map<string, Type>, ty: Type, kids: seq<Type>, ghost before: Origins)
      returns (r: Option<Type>)
      requires Valid() && ty.Applied? && ty.head in templates && ty.head !in subst && OnlyTypes(ty)
      requires AllRewritten(templates, written, origins, subst, Children(ty), kids)
      requires Extends(before, origins) && NewAsked(templates, before, origins, subst, [ty])
      modifies this`origins, this`pending
      ensures Valid() && Extends(old(origins), origins)
      ensures NewAsked(templates, before, origins, subst, [ty])
      ensures r.Some? ==> Rewritten(templates, written, origins, subst, ty, r.value)
      ensures r.None? ==> Unnamed(templates, origins, subst, ty)
      ensures var named := Naming(old(origins), templates[ty.head].kind, ty.head, kids);
              && origins == named.origins
              && r == if named.result.Some? then Some(Named(named.result.value)) else None
    {
      AllRewrittenApart(templates, written, origins, subst, Children(ty), kids);
      var name := Enqueue(templates[ty.head].kind, ty.head, kids);
      if name.None? {
        return None;
      }
      AllRewrittenGrows(templates, written, old(origins), origins, subst, Children(ty), kids);
      NamedIsRewritten(templates, written, origins, subst, ty, kids, name.value);
      NewAskedHere(templates, before, old(origins), origins, subst, ty, name.value);
      return Some(Named(name.value));
    }

    method RewriteAll(subst: map<string, Type>, ghost parent: Type, tys: seq<Type>) returns (r: Option<seq<Type>>)
      requires Valid() && AllKnown(Within(written, subst.Keys), origins, tys)
      requires Settled(templates, written, origins, subst)
      requires forall i :: 0 <= i < |tys| ==> tys[i] < parent
      modifies this`origins, this`pending
      ensures Valid() && Extends(old(origins), origins)
      ensures NewAsked(templates, old(origins), origins, subst, tys)
      ensures r.Some? ==> AllRewritten(templates, written, origins, subst, tys, r.value)
      ensures r.None? ==> SomeStuck(templates, origins, subst, tys)
      ensures Outcome(r, origins) == TypesOutcome(templates, old(origins), subst, parent, tys)
      decreases if subst == map[] then 0 else 1, parent, 1
    {
      ghost var start := origins;
      var done: seq<Type> := [];
      while |done| < |tys|
        invariant Valid() && |done| <= |tys| && TypesSoFar(templates, written, start, origins, subst, tys, done)
        invariant TypesGive(templates, start, origins, subst, parent, tys, done)
      {
        var next := RewriteNext(subst, parent, tys, done, start);
        if next.None? {
          return None;
        }
        done := done + [next.value];
      }
      AllTypesDone(templates, written, start, origins, subst, parent, tys, done);
      return Some(done);
    }

    /** Rewrites the next type of a list. */
    method RewriteNext(subst: map<string, Type>, ghost parent: Type, tys: seq<Type>, done: seq<Type>,
                       ghost start: Origins)
      returns (r: Option<Type>)
      requires Valid() && |done| < |tys| && forall i :: 0 <= i < |tys| ==> tys[i] < parent
      requires TypesSoFar(templates, written, start, origins, subst, tys, done)
      requires TypesGive(templates, start, origins, subst, parent, tys, done)
      requires AllKnown(Within(written, subst.Keys), start, tys) && Settled(templates, written, start, subst)
      modifies this`origins, this`pending
      ensures Valid() && Extends(start, origins) && NewAsked(templates, start, origins, subst, tys)
      ensures r.Some? ==> TypesSoFar(templates, written, start, origins, subst, tys, done + [r.value])
      ensures r.Some? ==> TypesGive(templates, start, origins, subst, parent, tys, done + [r.value])
      ensures r.None? ==> SomeStuck(templates, origins, subst, tys)
      ensures r.None? ==> TypesOutcome(templates, start, subst, parent, tys) == Outcome(None, origins)
      decreases if subst == map[] then 0 else 1, parent, 0
    {
      KnownGrows(Within(written, subst.Keys), start, origins, tys[|done|]);
      SettledGrows(templates, written, start, origins, subst);
      r := RewriteType(subst, tys[|done|]);
      NewAskedStep(templates, start, old(origins), origins, subst, tys, |done|);
      TypesStep(templates, start, old(origins), subst, parent, tys, done, Outcome(r, origins));
      if r.Some? {
        TypeFound(templates, written, start, old(origins), origins, subst, tys, done, r.value);
      }
    }

    method RewriteFields(subst: map<string, Type>, fields: seq<Field>) returns (r: Option<seq<Field>>)
      requires Valid() && Settled(templates, written, origins, subst)
      requires AllKnown(Within(written, subst.Keys), origins, FieldTypes(fields))
      modifies this`origins, this`pending
      ensures Valid() && Extends(old(origins), origins)
      ensures NewAsked(templates, old(origins), origins, subst, FieldTypes(fields))
      ensures r.Some? ==> FieldsRewritten(templates, origins, subst, fields, r.value)
      ensures r.None? ==> SomeStuck(templates, origins, subst, FieldTypes(fields))
      ensures r.Some? && AllEncode(origins) ==> !SomeStuck(templates, origins, subst, FieldTypes(fields))
      ensures Outcome(r, origins) == FieldsOutcome(templates, old(origins), subst, fields)
    {
      var tys := RewriteAll(subst, Tuple(FieldTypes(fields)), FieldTypes(fields));
      if tys.None? {
        return None;
      }
      r := Some(WithTypes(fields, tys.value));
      TypesMakeFields(templates, written, origins, subst, fields, tys.value);
      EncodedNotStuck(templates, written, origins, subst, fields, r.value);
    }

    /** Rewrites a declaration that stays in the module; structs and enums must have the abilities they declare. */
    method RewriteItem(item: Item) returns (r: Option<Item>)
      requires Valid() && !IsTemplate(item) && AllKnown(written, origins, FieldTypes(item.definition.fields))
      modifies this`origins, this`pending
      ensures Valid() && Extends(old(origins), origins)
      ensures NewAsked(templates, old(origins), origins, map[], FieldTypes(item.definition.fields))
      ensures r.Some? ==> KeptRewritten(templates, origins, [item], [r.value])
      ensures r.None? ==> ItemBlocked(Environment(), item)
      ensures r.Some? && AllEncode(origins) ==> !ItemBlocked(Environment(), item)
      ensures Outcome(r, origins) == ItemOutcome(old(Environment()), item)
    {
      ghost var none: map<string, Type> := map[];
      assert Within(written, none.Keys) == written;
      var fields := RewriteFields(map[], item.definition.fields);
      if fields.None? {
        StuckIsBlocked(Environment(), none, CheckedAbilities(item), item.definition.fields);
        return None;
      }
      if !item.cell && !ConcreteAbilitiesHold(Environment(), item.definition.abilities, FieldTypes(fields.value)) {
        LackingIsBlocked(Environment(), none, CheckedAbilities(item), item.definition.fields, fields.value);
        return None;
      }
      EncodedNotBlocked(Environment(), written, map[], CheckedAbilities(item), item.definition.fields, fields.value);
      OneKept(templates, origins, item, fields.value);
      return Some(item.(definition := item.definition.(fields := fields.value)));
    }

    /** Emits one specialization: its arguments are admitted, its fields rewritten, its abilities checked and
        registered. */
    method Instantiate(request: Origin, ghost name: string) returns (r: Option<Item>)
      requires Valid() && name in origins && origins[name] == request && request.template in templates
      requires var template := templates[request.template];
               AllKnown(Within(written, ParamNames(template.params)), origins, FieldTypes(template.fields))
      modifies this`origins, this`pending, this`concretes
      ensures Valid() && Extends(old(origins), origins) && emitted == old(emitted)
      ensures NewFromOrigin(templates, old(origins), origins, request)
      ensures r.Some? ==> SpecializationOf(templates, written, origins, name, r.value)
      ensures r.Some? ==>
              InstantiationAdmitted(old(Environment()), templates[request.template].params, request.arguments)
      ensures r.Some? ==>
        ConcreteAbilitiesHold(Env(origins, templates, old(concretes), cellTypes), templates[request.template].abilities,
                              FieldTypes(r.value.definition.fields))
      ensures r.Some? ==> Emits(old(Environment()), Environment(), name, r.value)
      ensures r.None? ==>
              concretes == old(concretes) && (RequestBlocked(Environment(), request) || Lost(written, origins, name))
      ensures (r, Environment()) == InstanceOutcome(old(Environment()), request)
    {
      assert Retained(templates, written, origins, name);
      var template := templates[request.template];
      if !InstantiationAdmitted(Environment(), template.params, request.arguments) {
        return None;
      }
      ghost var height := ArgumentsFit(origins, request.arguments);
      var symbol := MonomorphName(request.template, request.arguments, origins, height);
      SymbolIs(origins, request, height);
      if symbol.None? {
        return None;
      }
      r := Specialize(request, symbol.value, name);
    }

    /** Rewrites the fields of a template at admitted arguments. */
    method Specialize(request: Origin, symbol: string, ghost name: string) returns (r: Option<Item>)
      requires Valid() && name in origins && origins[name] == request && request.template in templates
      requires symbol == name || Lost(written, origins, name)
      requires InstantiationAdmitted(Environment(), templates[request.template].params, request.arguments)
      requires SymbolOf(origins, request) == Some(symbol)
      requires var template := templates[request.template];
               AllKnown(Within(written, ParamNames(template.params)), origins, FieldTypes(template.fields))
      modifies this`origins, this`pending, this`concretes
      ensures Valid() && Extends(old(origins), origins) && emitted == old(emitted)
      ensures NewFromOrigin(templates, old(origins), origins, request)
      ensures r.Some? ==> SpecializationOf(templates, written, origins, name, r.value)
      ensures r.Some? ==>
        ConcreteAbilitiesHold(Env(origins, templates, old(concretes), cellTypes), templates[request.template].abilities,
                              FieldTypes(r.value.definition.fields))
      ensures r.Some? ==> Emits(old(Environment()), Environment(), name, r.value)
      ensures r.None? ==> concretes == old(concretes) && RequestBlocked(Environment(), request)
      ensures (r, Environment()) == InstanceOutcome(old(Environment()), request)
    {
      var fields := RewriteTemplate(request, name);
      r := Register(request, symbol, fields, old(Environment()), name);
    }

    /** Registers a specialization whose fields were rewritten and have its abilities. */
    method Register(request: Origin, symbol: string, fields: Option<seq<Field>>, ghost before: Env, ghost name: string)
      returns (r: Option<Item>)
      requires Environment() == before.(origins := origins) && request.template in templates
      requires name in before.origins && before.origins[name] == request
      requires Sound(before.origins) && Sound(origins) && Extends(before.origins, origins)
      requires Retained(templates, written, origins, name) && (symbol == name || Lost(written, before.origins, name))
      requires InstantiationAdmitted(before, templates[request.template].params, request.arguments)
      requires SymbolOf(before.origins, request) == Some(symbol)
      requires var template := templates[request.template];
               var subst := Substitution(template.params, request.arguments);
               && Outcome(fields, origins) == FieldsOutcome(templates, before.origins, subst, template.fields)
               && (fields.Some? ==> FieldsRewritten(templates, origins, subst, template.fields, fields.value))
               && (fields.None? ==> SomeStuck(templates, origins, subst, FieldTypes(template.fields)))
      modifies this`concretes
      ensures r.Some? ==> SpecializationOf(templates, written, origins, name, r.value)
      ensures r.Some? ==>
              ConcreteAbilitiesHold(Env(origins, templates, old(concretes), cellTypes),
                                    templates[request.template].abilities, FieldTypes(r.value.definition.fields))
      ensures r.Some? ==> Emits(before, Environment(), name, r.value)
      ensures r.None? ==> concretes == old(concretes) && RequestBlocked(Environment(), request)
      ensures (r, Environment()) == InstanceOutcome(before, request)
    {
      var template := templates[request.template];
      InstanceIs(before, request, symbol, Outcome(fields, origins));
      if fields.None? || !ConcreteAbilitiesHold(Environment(), template.abilities, FieldTypes(fields.value)) {
        FieldsBlockRequest(Environment(), request, fields);
        return None;
      }
      FieldsMakeInstance(before, Environment(), written, name, symbol, fields.value);
      concretes := concretes[symbol := Concrete(template.abilities, FieldTypes(fields.value))];
      return Some(Item(symbol, false, template.(params := [], fields := fields.value)));
    }

    /** Rewrites the fields of a template at the arguments of a request. */
    method RewriteTemplate(request: Origin, ghost name: string) returns (fields: Option<seq<Field>>)
      requires Valid() && name in origins && origins[name] == request && request.template in templates
      requires |templates[request.template].params| == |request.arguments|
      requires var template := templates[request.template];
               AllKnown(Within(written, ParamNames(template.params)), origins, FieldTypes(template.fields))
      modifies this`origins, this`pending
      ensures Valid() && Extends(old(origins), origins) && Retained(templates, written, origins, name)
      ensures NewFromOrigin(templates, old(origins), origins, request)
      ensures var template := templates[request.template];
              var subst := Substitution(template.params, request.arguments);
              && Outcome(fields, origins) == FieldsOutcome(templates, old(origins), subst, template.fields)
              && (fields.Some? ==> FieldsRewritten(templates, origins, subst, template.fields, fields.value))
              && (fields.None? ==> SomeStuck(templates, origins, subst, FieldTypes(template.fields)))
    {
      assert Retained(templates, written, origins, name);
      var template := templates[request.template];
      SubstitutionSettled(templates, written, origins, template.params, request.arguments);
      SubstitutionNames(template.params, request.arguments);
      fields := RewriteFields(Substitution(template.params, request.arguments), template.fields);
      assert Retained(templates, written, origins, name);
    }

    /** Moves the request with the least key from pending to emitted. */
    method TakeLeast() returns (request: Origin, ghost name: string)
      requires Valid() && pending != map[]
      modifies this`pending, this`emitted
      ensures Valid() && Environment() == old(Environment()) && IsNext(old(Now()), name) && request == origins[name]
      ensures emitted == old(emitted) + {KeyOf(origins, name)} && pending == old(pending) - {KeyOf(origins, name)}
    {
      var least := StringOrder.Least(pending.Keys);
      request := pending[least];
      name := QueuedName(origins, pending, emitted, least);
      WaitingIsPending(Environment(), pending, emitted);
      assert Retained(templates, written, origins, name);
      TrackEmitted(origins, pending, emitted, least);
      emitted := emitted + {least};
      pending := pending - {least};
    }

    /** Emits one request and keeps the state coherent. */
    method EmitRequest(ghost items: seq<Item>, request: Origin, ghost name: string) returns (r: Option<Item>)
      requires Valid() && written == Written(items) && Coherent(items, Environment()) && name in origins
      requires origins[name] == request
      modifies this`origins, this`pending, this`concretes
      ensures Valid() && Extends(old(origins), origins) && emitted == old(emitted) && Coherent(items, Environment())
      ensures r.Some? ==> SpecializationOf(templates, written, origins, name, r.value)
      ensures r.None? ==> Blocked(items, Environment())
      ensures request.template in templates && (r, Environment()) == InstanceOutcome(old(Environment()), request)
    {
      RetainedResolved(templates, written, origins);
      TemplateKnown(items, origins, name);
      r := Instantiate(request, name);
      CoherentEmits(items, old(Environment()), Environment(), name, r);
      if r.None? {
        RequestBlocks(items, Environment(), written, name);
      }
    }

    /** Emits a request that was taken, within the budget. */
    method EmitTaken(ghost items: seq<Item>, request: Origin, ghost name: string, ghost before: State)
      returns (r: Option<Item>)
      requires Valid() && written == Written(items) && Coherent(items, Environment())
      requires Environment() == before.env && IsNext(before, name) && request == origins[name]
      requires emitted == before.emitted + {KeyOf(origins, name)}
      modifies this`origins, this`pending, this`concretes
      ensures Valid() && Extends(old(origins), origins) && Coherent(items, Environment())
      ensures r.Some? ==> SpecializationOf(templates, written, origins, name, r.value)
      ensures r.Some? ==> StepsTo(before, name, r.value, Now())
      ensures r.None? ==> Stops(before, name) && Blocked(items, Environment())
    {
      if |emitted| > MAX_GENERIC_INSTANTIATIONS {
        BudgetBlocks(items, Now(), pending);
        OverBudgetStops(before, name, emitted);
        return None;
      }
      r := EmitRequest(items, request, name);
      OutcomeDecides(before, name, r, Now());
    }

    /** Takes one request and emits it. */
    method EmitNext(ghost items: seq<Item>) returns (r: Option<Item>, ghost name: string)
      requires Valid() && written == Written(items) && pending != map[] && Coherent(items, Environment())
      modifies this
      ensures Valid() && Extends(old(origins), origins) && Coherent(items, Environment())
      ensures r.Some? ==> SpecializationOf(templates, written, origins, name, r.value)
      ensures r.Some? ==> StepsTo(old(Now()), name, r.value, Now())
      ensures r.None? ==> Stops(old(Now()), name) && Blocked(items, Environment())
    {
      ghost var before := Now();
      var request;
      request, name := TakeLeast();
      r := EmitTaken(items, request, name, before);
    }

    /** Emits pending specializations until none is left. */
    method EmitAll(ghost items: seq<Item>)
      returns (r: Option<seq<Item>>, ghost names: seq<string>, ghost states: seq<State>)
      requires Valid() && written == Written(items) && emitted == {} && Coherent(items, Environment())
      modifies this
      ensures Valid() && Extends(old(origins), origins) && Coherent(items, Environment())
      ensures r.Some? ==> pending == map[] && |emitted| <= MAX_GENERIC_INSTANTIATIONS
      ensures r.Some? ==> Emission(templates, written, origins, emitted, names, r.value)
      ensures r.Some? ==> InOrder(states, names, r.value) && states[0] == old(Now()) && states[|names|] == Now()
      ensures r.None? ==> StopsFrom(old(Now()), names, states) && Blocked(items, Environment())
    {
      var specialized: seq<Item> := [];
      names, states := [], [Now()];
      while pending != map[]
        invariant Valid() && Extends(old(origins), origins) && |emitted| <= MAX_GENERIC_INSTANTIATIONS
        invariant Coherent(items, Environment())
        invariant Emission(templates, written, origins, emitted, names, specialized)
        invariant InOrder(states, names, specialized) && states[0] == old(Now()) && states[|names|] == Now()
        decreases MAX_GENERIC_INSTANTIATIONS - |emitted|
      {
        ghost var before := Now();
        ghost var name;
        var item;
        item, name := EmitNext(items);
        if item.None? {
          StopsHere(states, names, specialized, name);
          return None, names, states;
        }
        StepIsNew(before, name, item.value, Now());
        EmissionStep(templates, written, before.env.origins, origins, before.emitted, names, specialized, name,
                     item.value);
        OrderExtends(states, names, specialized, name, item.value, Now());
        specialized, names, states := specialized + [item.value], names + [name], states + [Now()];
      }
      return Some(specialized), names, states;
    }

    /** Rewrites the module, closes it under specialization, and validates what was retained. */
    method Run(items: seq<Item>) returns (r: Option<seq<Item>>)
      requires Valid() && origins == map[] && pending == map[] && emitted == {} && written == Written(items)
      requires templates == TemplatesOf(items) && cellTypes == CellTypesOf(items) && concretes == ConcretesOf(items)
      requires DistinctNames(items) && DeclarationsAllowed(items)
      modifies this
      ensures Valid() && Coherent(items, Environment())
      ensures r.Some? ==>
              pending == map[] && |emitted| <= MAX_GENERIC_INSTANTIATIONS &&
              BoundedProvenance(origins, MAX_GENERIC_NESTING)
      ensures r.Some? ==> |r.value| == |Kept(items)| + |origins| && |origins| == |emitted| && DistinctNames(r.value)
      ensures r.Some? ==> Complete(SourceOf(items), Output(DeclarationsOf(r.value), origins))
      ensures r.Some? ==> Closed(items, Output(DeclarationsOf(r.value), origins))
      ensures r.None? ==> Blocked(items, Environment())
      ensures if r.Some? then Succeeds(items) else Fails(items)
    {
      var kept := RewriteItems(items);
      if kept.None? {
        return None;
      }
      ghost var start := Now();
      var specialized;
      ghost var names, states;
      specialized, names, states := EmitAll(items);
      if specialized.None? {
        StopIsFailure(items, start, names, states);
        return None;
      }
      r := Finish(items, kept.value, specialized.value, start, names, states);
    }

    /** The last checks of a run. */
    method Finish(ghost items: seq<Item>, kept: seq<Item>, specialized: seq<Item>, ghost start: State,
                  ghost names: seq<string>, ghost states: seq<State>)
      returns (r: Option<seq<Item>>)
      requires Valid() && pending == map[] && written == Written(items) && Coherent(items, Environment())
      requires DistinctNames(items) && DeclarationsAllowed(items) && StartsAt(items, start)
      requires Extends(start.env.origins, origins)
      requires KeptRewritten(templates, start.env.origins, Kept(items), kept)
      requires Emission(templates, written, origins, emitted, names, specialized)
      requires InOrder(states, names, specialized) && states[0] == start && states[|names|] == Now()
      ensures r.Some? ==> BoundedProvenance(origins, MAX_GENERIC_NESTING)
      ensures r.Some? ==> |r.value| == |Kept(items)| + |origins| && |origins| == |emitted| && DistinctNames(r.value)
      ensures r.Some? ==> Complete(SourceOf(items), Output(DeclarationsOf(r.value), origins))
      ensures r.Some? ==> Closed(items, Output(DeclarationsOf(r.value), origins))
      ensures r.None? ==> Blocked(items, Environment())
      ensures if r.Some? then Succeeds(items) else Fails(items)
    {
      KeptGrows(templates, start.env.origins, origins, Kept(items), kept);
      var ok := ValidateOrigins(kept, specialized, origins);
      ChecksDecide(items, Now(), kept, names, specialized);
      WaitingIsPending(Environment(), pending, emitted);
      EndDecides(items, start, names, states, specialized);
      if !ok {
        return None;
      }
      return Some(kept + specialized);
    }

    method RewriteItems(items: seq<Item>) returns (r: Option<seq<Item>>)
      requires Valid() && written == Written(items) && Coherent(items, Environment())
      modifies this`origins, this`pending
      ensures Valid() && Extends(old(origins), origins) && Coherent(items, Environment())
      ensures r.Some? ==> KeptRewritten(templates, origins, Kept(items), r.value)
      ensures r.None? ==> Blocked(items, Environment())
      ensures r.Some? ==> ItemsOutcome(old(Environment()), items) == Outcome(r, origins)
      ensures r.None? ==> ItemsOutcome(old(Environment()), items).result.None?
    {
      ghost var start := Environment();
      var done: seq<Item> := [];
      NoItems(start, items);
      for i := 0 to |items|
        invariant Valid() && Extends(start.origins, origins) && Coherent(items, Environment())
        invariant ItemsSoFar(start, origins, items, i, done)
      {
        if IsTemplate(items[i]) {
          TemplateSkipped(start, origins, items, i, done);
        } else {
          var item := RewriteNextItem(items, i, done, start);
          if item.None? {
            return None;
          }
          done := done + [item.value];
        }
      }
      AllItemsDone(start, origins, items, done);
      return Some(done);
    }

    /** Rewrites the next declaration of the module. */
    method RewriteNextItem(items: seq<Item>, i: nat, ghost done: seq<Item>, ghost start: Env) returns (r: Option<Item>)
      requires Valid() && written == Written(items) && Coherent(items, Environment())
      requires i < |items| && !IsTemplate(items[i]) && Environment() == start.(origins := origins)
      requires ItemsSoFar(start, origins, items, i, done)
      modifies this`origins, this`pending
      ensures Valid() && Extends(old(origins), origins) && Coherent(items, Environment())
      ensures r.Some? ==> ItemsSoFar(start, origins, items, i + 1, done + [r.value])
      ensures r.None? ==> ItemsOutcome(start, items).result.None? && Blocked(items, Environment())
    {
      r := RewriteKept(items, i);
      if r.None? {
        ItemStuck(start, old(origins), origins, items, i, done);
      } else {
        ItemFound(start, old(origins), origins, items, i, done, r.value);
      }
    }

    /** Rewrites one declaration and keeps the state coherent. */
    method RewriteKept(items: seq<Item>, i: nat) returns (r: Option<Item>)
      requires Valid() && written == Written(items) && Coherent(items, Environment()) && i < |items|
      requires !IsTemplate(items[i])
      modifies this`origins, this`pending
      ensures Valid() && Extends(old(origins), origins) && Coherent(items, Environment())
      ensures r.Some? ==> KeptRewritten(templates, origins, [items[i]], [r.value])
      ensures r.None? ==> Blocked(items, Environment())
      ensures Outcome(r, origins) == ItemOutcome(old(Environment()), items[i])
    {
      ItemKnown(items, origins, i);
      r := RewriteItem(items[i]);
      DemandedByItem(items, old(origins), origins, i);
      CoherentGrows(items, old(Environment()), origins);
      if r.None? {
        ItemBlocks(items, Environment(), i);
      }
    }
  }

  // ----- declarations rewritten so far

  ghost predicate ItemsSoFar(start: Env, origins: Origins, items: seq<Item>, i: nat, done: seq<Item>)
    requires i <= |items|
  {
    && KeptRewritten(start.templates, origins, Kept(items[..i]), done)
    && ItemsOutcome(start, items[..i]) == Outcome(Some(done), origins)
  }

  lemma NoItems(start: Env, items: seq<Item>)
    ensures ItemsSoFar(start, start.origins, items, 0, [])
  {
    assert items[..0] == [];
  }

  lemma AllItemsDone(start: Env, origins: Origins, items: seq<Item>, done: seq<Item>)
    requires ItemsSoFar(start, origins, items, |items|, done)
    ensures KeptRewritten(start.templates, origins, Kept(items), done)
    ensures ItemsOutcome(start, items) == Outcome(Some(done), origins)
  {
    assert items[..|items|] == items;
  }

  lemma TemplateSkipped(start: Env, origins: Origins, items: seq<Item>, i: nat, done: seq<Item>)
    requires i < |items| && IsTemplate(items[i]) && ItemsSoFar(start, origins, items, i, done)
    ensures ItemsSoFar(start, origins, items, i + 1, done)
  {
    assert items[..i + 1][..i] == items[..i];
    ItemsStep(start, items, Outcome(Some(done), origins), Outcome(None, origins), i);
  }

  lemma ItemStuck(start: Env, before: Origins, after: Origins, items: seq<Item>, i: nat, done: seq<Item>)
    requires i < |items| && !IsTemplate(items[i]) && ItemsSoFar(start, before, items, i, done)
    requires Outcome(None, after) == ItemOutcome(start.(origins := before), items[i])
    ensures ItemsOutcome(start, items).result.None?
  {
    ItemsStep(start, items, Outcome(Some(done), before), Outcome(None, after), i);
  }

  lemma ItemFound(start: Env, before: Origins, after: Origins, items: seq<Item>, i: nat, done: seq<Item>, r: Item)
    requires i < |items| && !IsTemplate(items[i]) && ItemsSoFar(start, before, items, i, done) && Extends(before, after)
    requires Outcome(Some(r), after) == ItemOutcome(start.(origins := before), items[i])
    requires KeptRewritten(start.templates, after, [items[i]], [r])
    ensures ItemsSoFar(start, after, items, i + 1, done + [r])
  {
    assert items[..i + 1][..i] == items[..i];
    ItemsStep(start, items, Outcome(Some(done), before), Outcome(Some(r), after), i);
    KeptGrows(start.templates, before, after, Kept(items[..i]), done);
    KeptAppend(start.templates, after, Kept(items[..i]), done, items[i], r);
  }

  // ----- lists rewritten so far

  ghost predicate TypesSoFar(templates: Templates, written: iset<string>, start: Origins, origins: Origins,
                             subst: map<string, Type>, tys: seq<Type>, done: seq<Type>)
    requires |done| <= |tys|
  {
    && Extends(start, origins) && NewAsked(templates, start, origins, subst, tys)
    && AllRewritten(templates, written, origins, subst, tys[..|done|], done)
  }

  lemma AllTypesDone(templates: Templates, written: iset<string>, start: Origins, origins: Origins,
                     subst: map<string, Type>, parent: Type, tys: seq<Type>, done: seq<Type>)
    requires (forall i :: 0 <= i < |tys| ==> tys[i] < parent) && |done| == |tys|
    requires TypesSoFar(templates, written, start, origins, subst, tys, done)
    requires TypesGive(templates, start, origins, subst, parent, tys, done)
    ensures AllRewritten(templates, written, origins, subst, tys, done)
    ensures TypesOutcome(templates, start, subst, parent, tys) == Outcome(Some(done), origins)
  {
    assert tys[..|done|] == tys;
  }

  lemma {:induction false} TypeFound(templates: Templates, written: iset<string>, start: Origins, before: Origins,
                                     after: Origins, subst: map<string, Type>, tys: seq<Type>, done: seq<Type>, r: Type)
    requires |done| < |tys| && TypesSoFar(templates, written, start, before, subst, tys, done)
    requires Extends(before, after) && NewAsked(templates, start, after, subst, tys)
    requires Rewritten(templates, written, after, subst, tys[|done|], r)
    ensures TypesSoFar(templates, written, start, after, subst, tys, done + [r])
  {
    AllRewrittenGrows(templates, written, before, after, subst, tys[..|done|], done);
    AllRewrittenAppend(templates, written, after, subst, tys, done, r);
  }

  lemma {:induction false} TypesMakeFields(templates: Templates, written: iset<string>, origins: Origins,
                                           subst: map<string, Type>, fields: seq<Field>, tys: seq<Type>)
    requires AllRewritten(templates, written, origins, subst, FieldTypes(fields), tys)
    ensures FieldsRewritten(templates, origins, subst, fields, WithTypes(fields, tys))
  {
    forall i | 0 <= i < |fields|
      ensures FieldRewritten(templates, origins, subst, fields[i], WithTypes(fields, tys)[i])
    {
      assert Rewritten(templates, written, origins, subst, FieldTypes(fields)[i], tys[i]);
    }
  }

  lemma EncodedNotStuck(templates: Templates, written: iset<string>, origins: Origins, subst: map<string, Type>,
                        fields: seq<Field>, rs: seq<Field>)
    requires AllRetained(templates, written, origins) && FieldsRewritten(templates, origins, subst, fields, rs)
    ensures AllEncode(origins) ==> !SomeStuck(templates, origins, subst, FieldTypes(fields))
  {
    if AllEncode(origins) {
      RetainedEncoded(templates, written, origins);
      FieldsNotStuck(templates, origins, subst, fields, rs);
    }
  }

  lemma EncodedNotBlocked(env: Env, written: iset<string>, subst: map<string, Type>, abilities: set<Ability>,
                          fields: seq<Field>, rs: seq<Field>)
    requires AllRetained(env.templates, written, env.origins)
    requires FieldsRewritten(env.templates, env.origins, subst, fields, rs)
    requires ConcreteAbilitiesHold(env, abilities, FieldTypes(rs))
    ensures AllEncode(env.origins) ==> !FieldsBlocked(env, subst, abilities, fields)
  {
    if AllEncode(env.origins) {
      RetainedEncoded(env.templates, written, env.origins);
      FieldsNotBlocked(env, subst, abilities, fields, rs);
    }
  }

  lemma {:induction false} SubstitutionSettled(templates: Templates, written: iset<string>, origins: Origins,
                                               params: seq<Param>, arguments: seq<Type>)
    requires |params| == |arguments| && AllKnown(written, origins, arguments) && AllResolved(templates, arguments)
    ensures Settled(templates, written, origins, Substitution(params, arguments))
  {
    forall p | p in Substitution(params, arguments)
      ensures Known(written, origins, Substitution(params, arguments)[p])
      ensures Resolved(templates, Substitution(params, arguments)[p])
    {
      var i := SubstitutionPair(params, arguments, arguments, p);
    }
  }

  lemma FieldsBlockRequest(env: Env, request: Origin, fields: Option<seq<Field>>)
    requires request.template in env.templates
    requires InstantiationAdmitted(env, env.templates[request.template].params, request.arguments) ==>
             var template := env.templates[request.template];
             var subst := Substitution(template.params, request.arguments);
             && (fields.None? ==> SomeStuck(env.templates, env.origins, subst, FieldTypes(template.fields)))
             && (fields.Some? ==> FieldsRewritten(env.templates, env.origins, subst, template.fields, fields.value))
    requires fields.Some? ==>
             !ConcreteAbilitiesHold(env, env.templates[request.template].abilities, FieldTypes(fields.value))
    ensures RequestBlocked(env, request)
  {
    var template := env.templates[request.template];
    if InstantiationAdmitted(env, template.params, request.arguments) {
      var subst := Substitution(template.params, request.arguments);
      if fields.None? {
        StuckIsBlocked(env, subst, template.abilities, template.fields);
      } else {
        LackingIsBlocked(env, subst, template.abilities, template.fields, fields.value);
      }
    }
  }

  lemma FieldsMakeInstance(before: Env, grown: Env, written: iset<string>, name: string, symbol: string,
                           fields: seq<Field>)
    requires grown == before.(origins := grown.origins) && name in before.origins
    requires Sound(before.origins) && Sound(grown.origins) && Extends(before.origins, grown.origins)
    requires Retained(grown.templates, written, grown.origins, name)
    requires symbol == name || Lost(written, before.origins, name)
    requires var origin := grown.origins[name];
             var template := grown.templates[origin.template];
             && |template.params| == |origin.arguments|
             && FieldsRewritten(grown.templates, grown.origins, Substitution(template.params, origin.arguments),
                                template.fields, fields)
    ensures var template := grown.templates[grown.origins[name].template];
            var item := Item(symbol, false, template.(params := [], fields := fields));
            && SpecializationOf(grown.templates, written, grown.origins, name, item)
            && Emits(before,
                     grown.(concretes := before.concretes[symbol := Concrete(template.abilities, FieldTypes(fields))]),
                     name, item)
  {
    LostOrSame(written, before.origins, grown.origins, name, symbol);
    RewrittenFieldsSpecialize(grown.templates, written, grown.origins, name, symbol, fields);
  }

  lemma LostOrSame(written: iset<string>, before: Origins, after: Origins, name: string, symbol: string)
    requires Sound(before) && Sound(after) && Extends(before, after) && name in before
    requires symbol == name || Lost(written, before, name)
    ensures symbol == name || Lost(written, after, name)
  {
    if symbol != name {
      LostGrows(written, before, after, name);
    }
  }

  lemma RetainedEncoded(templates: Templates, written: iset<string>, origins: Origins)
    requires AllRetained(templates, written, origins) && AllEncode(origins)
    ensures Encoded(origins)
  {
    forall name | name in origins ensures Shallow(origins[name].arguments) {
      assert Retained(templates, written, origins, name);
    }
  }

  lemma RetainedResolved(templates: Templates, written: iset<string>, origins: Origins)
    requires AllRetained(templates, written, origins)
    ensures OriginsResolved(templates, origins)
  {
    forall name | name in origins ensures AllResolved(templates, origins[name].arguments) {
      assert Retained(templates, written, origins, name);
    }
  }

  /** The last checks of a run fail only for height, or for a lost symbol. */
  lemma {:induction false} ValidExactly(items: seq<Item>, written: iset<string>, origins: Origins, emitted: set<string>,
                                        kept: seq<Item>, names: seq<string>, specialized: seq<Item>)
    requires DistinctNames(items) && NamesAllowed(items)
    requires KeptRewritten(TemplatesOf(items), origins, Kept(items), kept)
    requires Sound(origins) && Tracked(origins, map[], emitted)
    requires Emission(TemplatesOf(items), written, origins, emitted, names, specialized)
    ensures OriginsValid(kept, specialized, origins) <==>
            BoundedProvenance(origins, MAX_GENERIC_NESTING) && AllEncode(origins)
  {
    KeptUnretained(items, kept, origins);
    if AllEncode(origins) {
      EmissionSpecialized(TemplatesOf(items), written, origins, emitted, names, specialized);
      SpecializedRetained(TemplatesOf(items), origins, names, specialized);
    }
  }

  lemma KeptUnretained(items: seq<Item>, kept: seq<Item>, origins: Origins)
    requires DistinctNames(items) && NamesAllowed(items)
    requires KeptRewritten(TemplatesOf(items), origins, Kept(items), kept) && Sound(origins)
    ensures forall i :: 0 <= i < |kept| ==> kept[i].name !in origins
  {
    KeptNames(items, kept, origins);
  }

  lemma SpecializedRetained(templates: Templates, origins: Origins, names: seq<string>, specialized: seq<Item>)
    requires AllSpecialized(templates, origins, names, specialized)
    ensures forall i :: 0 <= i < |specialized| ==> specialized[i].name in origins
  {
  }

  lemma {:induction false} FinishedIsComplete(items: seq<Item>, written: iset<string>, origins: Origins,
                                              emitted: set<string>, kept: seq<Item>, names: seq<string>,
                                              specialized: seq<Item>)
    requires DistinctNames(items) && NamesAllowed(items)
    requires KeptRewritten(TemplatesOf(items), origins, Kept(items), kept)
    requires written == Written(items) && AllRetained(TemplatesOf(items), written, origins)
    requires AllDemanded(items, origins)
    requires AllEncode(origins) && Tracked(origins, map[], emitted)
    requires Emission(TemplatesOf(items), written, origins, emitted, names, specialized)
    ensures |specialized| == |origins| == |emitted| && DistinctNames(kept + specialized)
    ensures Complete(SourceOf(items), Output(DeclarationsOf(kept + specialized), origins))
    ensures Closed(items, Output(DeclarationsOf(kept + specialized), origins))
  {
    EmissionSpecialized(TemplatesOf(items), written, origins, emitted, names, specialized);
    RunIsComplete(items, origins, kept, names, specialized);
    RetainedResolved(TemplatesOf(items), written, origins);
    OutputIsClosed(items, Output(DeclarationsOf(kept + specialized), origins));
  }

  lemma BudgetBlocks(items: seq<Item>, state: State, pending: map<string, Origin>)
    requires Tracked(state.env.origins, pending, state.emitted) && |state.emitted| > MAX_GENERIC_INSTANTIATIONS
    ensures Blocked(items, state.env)
  {
    EmittedAtMost(state.env.origins, pending, state.emitted);
  }

  /** What the last checks say of a finished worklist. */
  lemma ChecksDecide(items: seq<Item>, state: State, kept: seq<Item>, names: seq<string>, specialized: seq<Item>)
    requires DistinctNames(items) && NamesAllowed(items) && Coherent(items, state.env)
    requires KeptRewritten(TemplatesOf(items), state.env.origins, Kept(items), kept)
    requires Tracked(state.env.origins, map[], state.emitted)
    requires Emission(TemplatesOf(items), Written(items), state.env.origins, state.emitted, names, specialized)
    ensures OriginsValid(kept, specialized, state.env.origins) <==>
            BoundedProvenance(state.env.origins, MAX_GENERIC_NESTING) && AllEncode(state.env.origins)
    ensures OriginsValid(kept, specialized, state.env.origins) ==>
            && |kept + specialized| == |Kept(items)| + |state.env.origins| && |state.env.origins| == |state.emitted|
            && DistinctNames(kept + specialized)
            && Complete(SourceOf(items), Output(DeclarationsOf(kept + specialized), state.env.origins))
            && Closed(items, Output(DeclarationsOf(kept + specialized), state.env.origins))
    ensures !OriginsValid(kept, specialized, state.env.origins) ==> Blocked(items, state.env)
  {
    ValidExactly(items, Written(items), state.env.origins, state.emitted, kept, names, specialized);
    if OriginsValid(kept, specialized, state.env.origins) {
      FinishedIsComplete(items, Written(items), state.env.origins, state.emitted, kept, names, specialized);
    }
  }

  datatype Specialized = Specialized(items: seq<Item>, origins: Origins)

  /** A whole module: refused for a cause in the last state, or specialized with nothing emitted that it does not
      demand, and with every declared layout kept exactly when it is self-contained. */
  method Monomorphize(items: seq<Item>) returns (r: Option<Specialized>, ghost last: Env)
    requires DistinctNames(items)
    ensures r.Some? <==> Succeeds(items)
    ensures r.None? ==> !DeclarationsAllowed(items) || (Coherent(items, last) && Blocked(items, last))
    ensures r.Some? ==> DeclarationsAllowed(items) && AllDemanded(items, r.value.origins)
    ensures r.Some? ==>
            |r.value.items| == |Kept(items)| + |r.value.origins| && |r.value.origins| <= MAX_GENERIC_INSTANTIATIONS
    ensures r.Some? ==> DistinctNames(r.value.items) && BoundedProvenance(r.value.origins, MAX_GENERIC_NESTING)
    ensures r.Some? ==> Complete(SourceOf(items), Output(DeclarationsOf(r.value.items), r.value.origins))
    ensures r.Some? ==> Closed(items, Output(DeclarationsOf(r.value.items), r.value.origins))
    ensures r.Some? ==>
            (LayoutsKept(SourceOf(items), Output(DeclarationsOf(r.value.items), r.value.origins)) <==>
             SelfContained(items))
  {
    var monomorphizer := new Monomorphizer(items);
    last := monomorphizer.Environment();
    if !DeclarationsAllowed(items) {
      return None, last;
    }
    var result := monomorphizer.Run(items);
    last := monomorphizer.Environment();
    if result.None? {
      FailureIsNoSuccess(items);
      return None, last;
    }
    RetainedResolved(TemplatesOf(items), Written(items), monomorphizer.origins);
    LayoutsKeptExactly(items, Output(DeclarationsOf(result.value), monomorphizer.origins));
    return Some(Specialized(result.value, monomorphizer.origins)), last;
  }

  /** A self-contained module is never refused for a lost symbol. */
  lemma SelfContainedKeepsSymbols(items: seq<Item>, env: Env)
    requires Coherent(items, env) && SelfContained(items)
    ensures AllEncode(env.origins) && NoneWritten(items, env.origins)
  {
    RetainedResolved(env.templates, Written(items), env.origins);
    forall name | name in env.origins
      ensures Encodes(env.origins, name) || Overtaken(Written(items), env.origins, name)
    {
      assert Retained(env.templates, Written(items), env.origins, name);
    }
    SelfContainedIsFree(items, env.origins);
  }
}
