/** The one execution of a module, step by step: what each rewriting leaves, which request is emitted next, and when the
    run ends or stops. */
module Execution {
  import opened Options
  import opened Types
  import opened Provenance
  import opened SymbolNames
  import opened RenderFrames
  import opened OriginGrowth
  import opened Abilities
  import opened Layout
  import opened Declarations
  import opened Worklist
  import StringOrder

  /** What a rewriting returns, and the origins it leaves. */
  datatype Outcome<T> = Outcome(result: Option<T>, origins: Origins)

  // ----- naming and rewriting

  /** The symbol of an origin at this moment. */
  ghost function SymbolOf(origins: Origins, origin: Origin): Option<string>
  {
    if exists height: nat :: AllFits(origins, origin.arguments, height) then
      var height: nat :| AllFits(origins, origin.arguments, height);
      MonomorphName(origin.template, origin.arguments, origins, height)
    else None
  }

  lemma SymbolIs(origins: Origins, origin: Origin, height: nat)
    requires AllFits(origins, origin.arguments, height)
    ensures SymbolOf(origins, origin) == MonomorphName(origin.template, origin.arguments, origins, height)
  {
    forall other: nat | AllFits(origins, origin.arguments, other)
      ensures MonomorphName(origin.template, origin.arguments, origins, other) ==
              MonomorphName(origin.template, origin.arguments, origins, height)
    {
      TextSame(origins, origin.arguments, other, height);
    }
  }

  ghost function Naming(origins: Origins, kind: Kind, base: string, arguments: seq<Type>): Outcome<string>
  {
    var origin := Origin(kind, base, Canons(arguments));
    var symbol := SymbolOf(origins, origin);
    if !Shallow(arguments) || symbol.None? || (symbol.value in origins && origins[symbol.value] != origin)
    then Outcome(None, origins)
    else Outcome(symbol, origins[symbol.value := origin])
  }

  ghost function TypeOutcome(templates: Templates, origins: Origins, subst: map<string, Type>, ty: Type): Outcome<Type>
    decreases if subst == map[] then 0 else 1, ty, 1
  {
    if ty.Named? then
      if ty.name in subst then TypeOutcome(templates, origins, map[], subst[ty.name])
      else Outcome(if Nominal(ty.name) then Some(ty) else None, origins)
    else if ty.Applied? && ty.head in subst then Outcome(None, origins)
    else
      var kids := TypesOutcome(templates, origins, subst, ty, Children(ty));
      if kids.result.None? then Outcome(None, kids.origins)
      else if ty.Applied? && ty.head in templates then
        if !OnlyTypes(ty) then Outcome(None, kids.origins)
        else
          var name := Naming(kids.origins, templates[ty.head].kind, ty.head, kids.result.value);
          Outcome(if name.result.Some? then Some(Named(name.result.value)) else None, name.origins)
      else Outcome(Some(Rebuild(ty, kids.result.value)), kids.origins)
  }

  ghost function TypesOutcome(templates: Templates, origins: Origins, subst: map<string, Type>, parent: Type,
                              tys: seq<Type>): (r: Outcome<seq<Type>>)
    requires forall i :: 0 <= i < |tys| ==> tys[i] < parent
    ensures r.result.Some? ==> |r.result.value| == |tys|
    decreases if subst == map[] then 0 else 1, parent, 0, |tys|
  {
    if tys == [] then Outcome(Some([]), origins)
    else
      var last := |tys| - 1;
      var done := TypesOutcome(templates, origins, subst, parent, tys[..last]);
      if done.result.None? then done
      else
        var next := TypeOutcome(templates, done.origins, subst, tys[last]);
        Outcome(if next.result.Some? then Some(done.result.value + [next.result.value]) else None, next.origins)
  }

  function WithTypes(fields: seq<Field>, tys: seq<Type>): (r: seq<Field>)
    requires |fields| == |tys|
    ensures |r| == |fields| && FieldTypes(r) == tys
    ensures forall i :: 0 <= i < |r| ==> r[i] == fields[i].(ty := tys[i])
  {
    seq(|fields|, i requires 0 <= i < |fields| => fields[i].(ty := tys[i]))
  }

  ghost function FieldsOutcome(templates: Templates, origins: Origins, subst: map<string, Type>, fields: seq<Field>):
    Outcome<seq<Field>>
  {
    var tys := TypesOutcome(templates, origins, subst, Tuple(FieldTypes(fields)), FieldTypes(fields));
    Outcome(if tys.result.Some? then Some(WithTypes(fields, tys.result.value)) else None, tys.origins)
  }

  // ----- declarations

  /** One kept declaration: its fields, and the abilities it declares unless it is a Cell. */
  ghost function ItemOutcome(env: Env, item: Item): Outcome<Item>
  {
    var fields := FieldsOutcome(env.templates, env.origins, map[], item.definition.fields);
    if fields.result.None? then Outcome(None, fields.origins)
    else if !item.cell && !ConcreteAbilitiesHold(env.(origins := fields.origins), item.definition.abilities,
                                                 FieldTypes(fields.result.value))
    then Outcome(None, fields.origins)
    else Outcome(Some(item.(definition := item.definition.(fields := fields.result.value))), fields.origins)
  }

  ghost function ItemsOutcome(env: Env, items: seq<Item>): Outcome<seq<Item>>
  {
    if items == [] then Outcome(Some([]), env.origins)
    else
      var last := |items| - 1;
      var done := ItemsOutcome(env, items[..last]);
      if done.result.None? || IsTemplate(items[last]) then done
      else
        var next := ItemOutcome(env.(origins := done.origins), items[last]);
        Outcome(if next.result.Some? then Some(done.result.value + [next.result.value]) else None, next.origins)
  }

  // ----- emission

  datatype State = State(env: Env, emitted: set<string>)

  /** The specialization of a request, and the state it leaves. */
  ghost function InstanceOutcome(env: Env, request: Origin): (Option<Item>, Env)
    requires request.template in env.templates
  {
    var template, symbol := env.templates[request.template], SymbolOf(env.origins, request);
    if !InstantiationAdmitted(env, template.params, request.arguments) || symbol.None? then (None, env)
    else
      var subst := Substitution(template.params, request.arguments);
      var fields := FieldsOutcome(env.templates, env.origins, subst, template.fields);
      var grown := env.(origins := fields.origins);
      if fields.result.None? || !ConcreteAbilitiesHold(grown, template.abilities, FieldTypes(fields.result.value))
      then (None, grown)
      else
        (Some(Item(symbol.value, false, template.(params := [], fields := fields.result.value))),
         grown.(concretes :=
           grown.concretes[symbol.value := Concrete(template.abilities, FieldTypes(fields.result.value))]))
  }

  /** The specialization of an admitted request, from what its fields become. */
  lemma InstanceIs(env: Env, request: Origin, symbol: string, fields: Outcome<seq<Field>>)
    requires request.template in env.templates && SymbolOf(env.origins, request) == Some(symbol)
    requires InstantiationAdmitted(env, env.templates[request.template].params, request.arguments)
    requires var template := env.templates[request.template];
             fields == FieldsOutcome(env.templates, env.origins, Substitution(template.params, request.arguments),
                                     template.fields)
    ensures var template, grown := env.templates[request.template], env.(origins := fields.origins);
            InstanceOutcome(env, request) ==
            if fields.result.None? || !ConcreteAbilitiesHold(grown, template.abilities, FieldTypes(fields.result.value))
            then (None, grown)
            else
              (Some(Item(symbol, false, template.(params := [], fields := fields.result.value))),
               grown.(concretes :=
                      grown.concretes[symbol := Concrete(template.abilities, FieldTypes(fields.result.value))]))
  {
  }

  function Waiting(state: State): set<string>
  {
    KeysOf(state.env.origins, state.env.origins.Keys) - state.emitted
  }

  /** The request that is emitted next: the one with the least key. */
  ghost predicate IsNext(state: State, name: string)
  {
    && name in state.env.origins && StringOrder.IsLeast(Waiting(state), KeyOf(state.env.origins, name))
    && state.env.origins[name].template in state.env.templates
  }

  ghost predicate WithinBudget(state: State)
  {
    |state.emitted| + 1 <= MAX_GENERIC_INSTANTIATIONS
  }

  /** The next request is emitted. */
  ghost predicate StepsTo(before: State, name: string, item: Item, after: State)
  {
    && IsNext(before, name) && WithinBudget(before)
    && InstanceOutcome(before.env, before.env.origins[name]) == (Some(item), after.env)
    && after.emitted == before.emitted + {KeyOf(before.env.origins, name)}
  }

  /** The next request cannot be emitted. */
  ghost predicate Stops(state: State, name: string)
  {
    && IsNext(state, name)
    && (!WithinBudget(state) || InstanceOutcome(state.env, state.env.origins[name]).0.None?)
  }

  /** Emission in order: each state steps to the next one. */
  ghost predicate InOrder(states: seq<State>, names: seq<string>, specialized: seq<Item>)
  {
    && |states| == |names| + 1 && |specialized| == |names|
    && forall i :: 0 <= i < |names| ==> StepsTo(states[i], names[i], specialized[i], states[i + 1])
  }

  ghost predicate StartsAt(items: seq<Item>, state: State)
  {
    var env := Env(map[], TemplatesOf(items), ConcretesOf(items), CellTypesOf(items));
    var kept := ItemsOutcome(env, items);
    kept.result.Some? && state == State(env.(origins := kept.origins), {})
  }

  /** The checks of the last state pass. */
  ghost predicate Passes(state: State)
  {
    BoundedProvenance(state.env.origins, MAX_GENERIC_NESTING) && AllEncode(state.env.origins)
  }

  /** The order of emission of a module, to its end: nothing waits, provenance is bounded and no symbol is lost. */
  ghost predicate Completes(items: seq<Item>, states: seq<State>, names: seq<string>, specialized: seq<Item>)
  {
    && InOrder(states, names, specialized) && StartsAt(items, states[0])
    && var last := states[|names|];
    && Waiting(last) == {} && Passes(last)
  }

  ghost predicate Succeeds(items: seq<Item>)
  {
    && DeclarationsAllowed(items)
    && exists states, names, specialized :: Completes(items, states, names, specialized)
  }

  /** Why the run of a module fails: a declaration, the next request of some state, or the checks of the last state. */
  ghost predicate FailsAt(items: seq<Item>, states: seq<State>, names: seq<string>, specialized: seq<Item>)
  {
    && InOrder(states, names, specialized) && StartsAt(items, states[0])
    && var last := states[|names|];
    || (exists name :: Stops(last, name))
    || (Waiting(last) == {} && !Passes(last))
  }

  ghost predicate Fails(items: seq<Item>)
  {
    || !DeclarationsAllowed(items)
    || ItemsOutcome(Env(map[], TemplatesOf(items), ConcretesOf(items), CellTypesOf(items)), items).result.None?
    || exists states, names, specialized :: FailsAt(items, states, names, specialized)
  }

  // ----- a failure inside a list is the failure of the list

  lemma {:induction false} TypesStop(templates: Templates, origins: Origins, subst: map<string, Type>, parent: Type,
                                     tys: seq<Type>, i: nat)
    requires (forall k :: 0 <= k < |tys| ==> tys[k] < parent) && i <= |tys|
    requires TypesOutcome(templates, origins, subst, parent, tys[..i]).result.None?
    ensures TypesOutcome(templates, origins, subst, parent, tys) ==
            TypesOutcome(templates, origins, subst, parent, tys[..i])
    decreases |tys|
  {
    if i < |tys| {
      var front := tys[..|tys| - 1];
      assert front[..i] == tys[..i];
      TypesStop(templates, origins, subst, parent, front, i);
    } else {
      assert tys[..i] == tys;
    }
  }

  lemma {:induction false} ItemsStop(env: Env, items: seq<Item>, i: nat)
    requires i <= |items| && ItemsOutcome(env, items[..i]).result.None?
    ensures ItemsOutcome(env, items).result.None?
    decreases |items|
  {
    if i < |items| {
      var front := items[..|items| - 1];
      assert front[..i] == items[..i];
      ItemsStop(env, front, i);
    } else {
      assert items[..i] == items;
    }
  }

  // ----- one more step of a list

  /** The execution gives these types so far. */
  ghost predicate TypesGive(templates: Templates, start: Origins, origins: Origins, subst: map<string, Type>,
                            parent: Type, tys: seq<Type>, done: seq<Type>)
    requires |done| <= |tys| && forall i :: 0 <= i < |tys| ==> tys[i] < parent
  {
    TypesOutcome(templates, start, subst, parent, tys[..|done|]) == Outcome(Some(done), origins)
  }

  /** A list with one more type. */
  lemma TypesMore(templates: Templates, start: Origins, subst: map<string, Type>, parent: Type, front: seq<Type>,
                  last: Type, done: Outcome<seq<Type>>, next: Outcome<Type>)
    requires (forall i :: 0 <= i < |front| ==> front[i] < parent) && last < parent
    requires done == TypesOutcome(templates, start, subst, parent, front) && done.result.Some?
    requires next == TypeOutcome(templates, done.origins, subst, last)
    ensures TypesOutcome(templates, start, subst, parent, front + [last]) ==
            Outcome(if next.result.Some? then Some(done.result.value + [next.result.value]) else None, next.origins)
  {
    assert (front + [last])[..|front|] == front;
  }

  lemma TypesStep(templates: Templates, start: Origins, origins: Origins, subst: map<string, Type>, parent: Type,
                  tys: seq<Type>, done: seq<Type>, next: Outcome<Type>)
    requires |done| < |tys| && forall i :: 0 <= i < |tys| ==> tys[i] < parent
    requires TypesGive(templates, start, origins, subst, parent, tys, done)
    requires next == TypeOutcome(templates, origins, subst, tys[|done|])
    ensures next.result.Some? ==>
            TypesGive(templates, start, next.origins, subst, parent, tys, done + [next.result.value])
    ensures next.result.None? ==> TypesOutcome(templates, start, subst, parent, tys) == Outcome(None, next.origins)
  {
    var front, last, n := tys[..|done|], tys[|done|], |done| + 1;
    TypesMore(templates, start, subst, parent, front, last, Outcome(Some(done), origins), next);
    assert tys[..n] == front + [last];
    if next.result.None? {
      TypesStop(templates, start, subst, parent, tys, n);
    }
  }

  lemma ItemsMore(env: Env, front: seq<Item>, last: Item, done: Outcome<seq<Item>>, next: Outcome<Item>)
    requires done == ItemsOutcome(env, front) && done.result.Some?
    requires !IsTemplate(last) ==> next == ItemOutcome(env.(origins := done.origins), last)
    ensures ItemsOutcome(env, front + [last]) ==
            if IsTemplate(last) then done
            else Outcome(if next.result.Some? then Some(done.result.value + [next.result.value])
                         else None, next.origins)
  {
    assert (front + [last])[..|front|] == front;
  }

  lemma ItemsStep(env: Env, items: seq<Item>, done: Outcome<seq<Item>>, next: Outcome<Item>, i: nat)
    requires i < |items| && done.result.Some? && done == ItemsOutcome(env, items[..i])
    requires !IsTemplate(items[i]) ==> next == ItemOutcome(env.(origins := done.origins), items[i])
    ensures IsTemplate(items[i]) ==> ItemsOutcome(env, items[..i + 1]) == done
    ensures !IsTemplate(items[i]) && next.result.Some? ==>
            ItemsOutcome(env, items[..i + 1]) == Outcome(Some(done.result.value + [next.result.value]), next.origins)
    ensures !IsTemplate(items[i]) && next.result.None? ==> ItemsOutcome(env, items).result.None?
  {
    var front, last, n := items[..i], items[i], i + 1;
    ItemsMore(env, front, last, done, next);
    assert items[..n] == front + [last];
    if !IsTemplate(last) && next.result.None? {
      ItemsStop(env, items, n);
    }
  }

  lemma WaitingIsPending(env: Env, pending: map<string, Origin>, emitted: set<string>)
    requires Tracked(env.origins, pending, emitted)
    ensures Waiting(State(env, emitted)) == pending.Keys
  {
  }

  lemma {:induction false} OrderExtends(states: seq<State>, names: seq<string>, specialized: seq<Item>, name: string,
                                        item: Item, after: State)
    requires InOrder(states, names, specialized) && StepsTo(states[|names|], name, item, after)
    ensures InOrder(states + [after], names + [name], specialized + [item])
  {
    var more := states + [after];
    forall i | 0 <= i < |names| + 1
      ensures StepsTo(more[i], (names + [name])[i], (specialized + [item])[i], more[i + 1])
    {
      if i < |names| {
        assert StepsTo(states[i], names[i], specialized[i], states[i + 1]);
      }
    }
  }

  lemma OverBudgetStops(before: State, name: string, emitted: set<string>)
    requires IsNext(before, name) && emitted == before.emitted + {KeyOf(before.env.origins, name)}
    requires |emitted| > MAX_GENERIC_INSTANTIATIONS
    ensures Stops(before, name)
  {
  }

  /** Within the budget, the outcome of the next request decides. */
  lemma OutcomeDecides(before: State, name: string, r: Option<Item>, after: State)
    requires IsNext(before, name) && after.emitted == before.emitted + {KeyOf(before.env.origins, name)}
    requires |after.emitted| <= MAX_GENERIC_INSTANTIATIONS
    requires InstanceOutcome(before.env, before.env.origins[name]) == (r, after.env)
    ensures if r.Some? then StepsTo(before, name, r.value, after) else Stops(before, name)
  {
  }

  /** Emission in order up to a state that stops. */
  ghost predicate StopsFrom(start: State, names: seq<string>, states: seq<State>)
  {
    && |states| == |names| + 1 && states[0] == start
    && (exists specialized :: InOrder(states, names, specialized)) && exists name :: Stops(states[|names|], name)
  }

  lemma StopsHere(states: seq<State>, names: seq<string>, specialized: seq<Item>, name: string)
    requires InOrder(states, names, specialized) && Stops(states[|names|], name)
    ensures StopsFrom(states[0], names, states)
  {
  }

  lemma StopIsFailure(items: seq<Item>, start: State, names: seq<string>, states: seq<State>)
    requires StartsAt(items, start) && StopsFrom(start, names, states)
    ensures Fails(items)
  {
    var specialized :| InOrder(states, names, specialized);
    assert FailsAt(items, states, names, specialized);
  }

  lemma EndDecides(items: seq<Item>, start: State, names: seq<string>, states: seq<State>, specialized: seq<Item>)
    requires DeclarationsAllowed(items) && StartsAt(items, start)
    requires InOrder(states, names, specialized) && states[0] == start && Waiting(states[|names|]) == {}
    ensures var origins := states[|names|].env.origins;
            if BoundedProvenance(origins, MAX_GENERIC_NESTING) && AllEncode(origins) then Succeeds(items)
            else Fails(items)
  {
    var origins := states[|names|].env.origins;
    if BoundedProvenance(origins, MAX_GENERIC_NESTING) && AllEncode(origins) {
      assert Completes(items, states, names, specialized);
    } else {
      assert FailsAt(items, states, names, specialized);
    }
  }

  /** A step emits a key for the first time, within the budget. */
  lemma StepIsNew(before: State, name: string, item: Item, after: State)
    requires StepsTo(before, name, item, after) && Extends(before.env.origins, after.env.origins)
    ensures name in after.env.origins && KeyOf(after.env.origins, name) !in before.emitted
    ensures after.emitted == before.emitted + {KeyOf(after.env.origins, name)}
    ensures |after.emitted| == |before.emitted| + 1 <= MAX_GENERIC_INSTANTIATIONS
  {
  }

  // ----- there is one execution

  lemma {:induction false} OneNext(state: State, a: string, b: string)
    requires IsNext(state, a) && IsNext(state, b)
    ensures a == b
  {
    var x, y := KeyOf(state.env.origins, a), KeyOf(state.env.origins, b);
    LeAntisymmetric(x, y);
    KeyInjective(state.env.origins[a].kind, a, state.env.origins[b].kind, b);
  }

  lemma {:induction false} LeAntisymmetric(a: string, b: string)
    requires StringOrder.Le(a, b) && StringOrder.Le(b, a)
    ensures a == b
  {
    if a != [] && b != [] {
      LeAntisymmetric(a[1..], b[1..]);
      assert a == [a[0]] + a[1..] && b == [b[0]] + b[1..];
    }
  }

  lemma OneStep(before: State, a: string, x: Item, after: State, b: string, y: Item, other: State)
    requires StepsTo(before, a, x, after) && StepsTo(before, b, y, other)
    ensures a == b && x == y && after == other
  {
    OneNext(before, a, b);
  }

  lemma StepAt(states: seq<State>, names: seq<string>, specialized: seq<Item>, i: nat)
    requires InOrder(states, names, specialized) && i < |names|
    ensures StepsTo(states[i], names[i], specialized[i], states[i + 1])
  {
  }

  lemma {:induction false} SameOrder(states: seq<State>, names: seq<string>, specialized: seq<Item>,
                                     states': seq<State>, names': seq<string>, specialized': seq<Item>, i: nat)
    requires InOrder(states, names, specialized) && InOrder(states', names', specialized') && states[0] == states'[0]
    requires i < |states| && i < |states'|
    ensures states[i] == states'[i]
  {
    if i > 0 {
      var k := i - 1;
      SameOrder(states, names, specialized, states', names', specialized', k);
      StepAt(states, names, specialized, k);
      StepAt(states', names', specialized', k);
      OneStep(states[k], names[k], specialized[k], states[k + 1], names'[k], specialized'[k], states'[k + 1]);
    }
  }

  /** Nothing waits, or what is next cannot be emitted. */
  ghost predicate Ended(state: State)
  {
    Waiting(state) == {} || exists name :: Stops(state, name)
  }

  lemma NoStep(state: State, name: string, item: Item, after: State)
    requires StepsTo(state, name, item, after)
    ensures !Ended(state)
  {
    forall other ensures !Stops(state, other) {
      if Stops(state, other) {
        OneNext(state, name, other);
      }
    }
  }

  /** Two runs from one state to an end reach the same end. */
  lemma {:induction false} SameEnd(states: seq<State>, names: seq<string>, specialized: seq<Item>, states': seq<State>,
                                   names': seq<string>, specialized': seq<Item>)
    requires InOrder(states, names, specialized) && InOrder(states', names', specialized') && states[0] == states'[0]
    requires Ended(states[|names|]) && Ended(states'[|names'|])
    ensures states[|names|] == states'[|names'|]
  {
    var n, m := |names|, |names'|;
    SameOrder(states, names, specialized, states', names', specialized', if n < m then n else m);
    if n < m {
      StepAt(states', names', specialized', n);
      NoStep(states'[n], names'[n], specialized'[n], states'[n + 1]);
    } else if m < n {
      StepAt(states, names, specialized, m);
      NoStep(states[m], names[m], specialized[m], states[m + 1]);
    }
  }

  lemma FinishedDoesNotStop(state: State, name: string)
    requires Waiting(state) == {}
    ensures !Stops(state, name)
  {
  }

  lemma {:induction false} NotBoth(items: seq<Item>, states: seq<State>, names: seq<string>, specialized: seq<Item>,
                                   states': seq<State>, names': seq<string>, specialized': seq<Item>)
    requires Completes(items, states, names, specialized)
    ensures !FailsAt(items, states', names', specialized')
  {
    if InOrder(states', names', specialized') && StartsAt(items, states'[0]) && Ended(states'[|names'|]) {
      SameEnd(states, names, specialized, states', names', specialized');
      forall name ensures !Stops(states[|names|], name) {
        FinishedDoesNotStop(states[|names|], name);
      }
    }
  }

  /** A module does not both succeed and fail. */
  lemma SucceedsOrFails(items: seq<Item>)
    requires Succeeds(items)
    ensures !Fails(items)
  {
    var states, names, specialized :| Completes(items, states, names, specialized);
    forall states', names', specialized' ensures !FailsAt(items, states', names', specialized') {
      NotBoth(items, states, names, specialized, states', names', specialized');
    }
  }

  lemma FailureIsNoSuccess(items: seq<Item>)
    requires Fails(items)
    ensures !Succeeds(items)
  {
    if Succeeds(items) {
      SucceedsOrFails(items);
    }
  }
}
