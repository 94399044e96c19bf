/** What the specialization worklist keeps, on values: named, retained and tracked requests, and declarations rewritten
    so far. */
module Worklist {
  import opened Options
  import opened Types
  import opened Provenance
  import opened SymbolNames
  import opened RenderFrames
  import opened OriginGrowth
  import opened Abilities
  import opened Layout
  import opened Declarations

  const MAX_GENERIC_INSTANTIATIONS: nat := 256

  // ----- worklist keys

  function KindKey(kind: Kind): string
  {
    match kind
    case Struct => "struct:"
    case Enum => "enum:"
  }

  function Key(kind: Kind, name: string): string
  {
    KindKey(kind) + name
  }

  lemma KeyInjective(a: Kind, x: string, b: Kind, y: string)
    requires Key(a, x) == Key(b, y)
    ensures a == b && x == y
  {
    assert Key(a, x)[0] == KindKey(a)[0] && Key(b, y)[0] == KindKey(b)[0];
    assert Key(a, x)[|KindKey(a)|..] == x && Key(b, y)[|KindKey(b)|..] == y;
  }

  /** The key under which a retained name is or was pending. */
  function KeyOf(origins: Origins, name: string): string
    requires name in origins
  {
    Key(origins[name].kind, name)
  }

  // ----- invariants on values

  predicate Shallow(tys: seq<Type>)
  {
    forall i :: 0 <= i < |tys| ==> TypeNesting(tys[i]) <= MAX_GENERIC_NESTING + 1
  }

  /** A retained origin names a template of its kind and is over resolved arguments within the nesting limit. */
  ghost predicate Retained(templates: Templates, written: iset<string>, origins: Origins, name: string)
    requires name in origins
  {
    var origin := origins[name];
    && (Encodes(origins, name) || Lost(written, origins, name))
    && origin.template in templates && templates[origin.template].kind == origin.kind
    && AllResolved(templates, origin.arguments) && Shallow(origin.arguments)
  }

  ghost predicate AllRetained(templates: Templates, written: iset<string>, origins: Origins)
  {
    && Sound(origins) && Traced(written, origins)
    && forall name {:trigger Retained(templates, written, origins, name)} :: name in origins ==>
       Retained(templates, written, origins, name)
  }

  /** Where every origin encodes its symbol, one origin has one symbol. */
  lemma {:induction false} RetainedOnce(origins: Origins, a: string, b: string)
    requires Sound(origins) && AllEncode(origins) && a in origins && b in origins && origins[a] == origins[b]
    ensures a == b
  {
    var height := ArgumentsFit(origins, origins[a].arguments);
    assert Encodes(origins, a) && Encodes(origins, b);
  }

  /** The keys of a set of retained names. */
  function KeysOf(origins: Origins, names: set<string>): set<string>
  {
    set name | name in names && name in origins :: KeyOf(origins, name)
  }

  lemma KeysOfStep(origins: Origins, names: set<string>, name: string)
    requires name in origins
    ensures KeysOf(origins, names + {name}) == KeysOf(origins, names) + {KeyOf(origins, name)}
  {
  }

  lemma KeysOfGrow(before: Origins, after: Origins, names: set<string>)
    requires names <= before.Keys && Extends(before, after)
    ensures KeysOf(after, names) == KeysOf(before, names)
  {
    assert forall name :: name in names ==> KeyOf(after, name) == KeyOf(before, name);
  }

  /** Two names with one key are one name. */
  lemma KeysOfMember(origins: Origins, names: set<string>, name: string)
    requires name in origins && KeyOf(origins, name) in KeysOf(origins, names)
    ensures name in names
  {
    var other :| other in names && other in origins && KeyOf(origins, other) == KeyOf(origins, name);
    KeyInjective(origins[name].kind, name, origins[other].kind, other);
  }

  predicate Queued(origins: Origins, key: string, request: Origin, name: string)
  {
    name in origins && key == KeyOf(origins, name) && request == origins[name]
  }

  /** Every retained name is pending or emitted under its key, not both, and nothing else is. */
  ghost predicate Tracked(origins: Origins, pending: map<string, Origin>, emitted: set<string>)
  {
    && pending.Keys !! emitted && pending.Keys + emitted == KeysOf(origins, origins.Keys)
    && forall key :: key in pending ==> exists name :: Queued(origins, key, pending[key], name)
  }

  lemma {:induction false} KeysAtMost(origins: Origins, names: set<string>)
    requires names <= origins.Keys
    ensures |KeysOf(origins, names)| <= |names|
  {
    if names == {} {
      assert KeysOf(origins, names) == {};
    } else {
      var name :| name in names;
      KeysAtMost(origins, names - {name});
      KeysOfStep(origins, names - {name}, name);
      assert names - {name} + {name} == names;
    }
  }

  /** No more is emitted than was retained. */
  lemma {:induction false} EmittedAtMost(origins: Origins, pending: map<string, Origin>, emitted: set<string>)
    requires Tracked(origins, pending, emitted)
    ensures |emitted| <= |origins|
  {
    KeysAtMost(origins, origins.Keys);
    SubsetAtMost(emitted, KeysOf(origins, origins.Keys));
  }

  lemma {:induction false} CanonKeeps(templates: Templates, written: iset<string>, origins: Origins, ty: Type)
    requires Known(written, origins, ty) && Resolved(templates, ty)
    ensures Known(written, origins, Canon(ty)) && Resolved(templates, Canon(ty))
  {
    forall i | 0 <= i < |Children(ty)|
      ensures Known(written, origins, Canon(Children(ty)[i])) && Resolved(templates, Canon(Children(ty)[i]))
    {
      CanonKeeps(templates, written, origins, Children(ty)[i]);
    }
  }

  lemma {:induction false} CanonsKeep(templates: Templates, written: iset<string>, origins: Origins, tys: seq<Type>)
    requires AllKnown(written, origins, tys) && AllResolved(templates, tys)
    ensures AllKnown(written, origins, Canons(tys)) && AllResolved(templates, Canons(tys))
  {
    forall i | 0 <= i < |tys| ensures Known(written, origins, Canon(tys[i])) && Resolved(templates, Canon(tys[i])) {
      CanonKeeps(templates, written, origins, tys[i]);
    }
  }

  /** Retaining a new symbol over known arguments keeps what is known of every retained origin. */
  lemma {:induction false} RetainNew(templates: Templates, written: iset<string>, origins: Origins, name: string,
                                     origin: Origin, height: nat)
    requires AllRetained(templates, written, origins) && name !in origins
    requires AllKnown(written, origins, origin.arguments) && AllResolved(templates, origin.arguments)
    requires Shallow(origin.arguments)
    requires origin.template in templates && templates[origin.template].kind == origin.kind
    requires AllFits(origins, origin.arguments, height)
    requires MonomorphName(origin.template, origin.arguments, origins, height) == Some(name)
    ensures AllRetained(templates, written, origins[name := origin]) && Extends(origins, origins[name := origin])
  {
    var after := origins[name := origin];
    SoundGrows(origins, name, origin, height);
    TracedGrows(written, origins, name, origin);
    forall n | n in after ensures Retained(templates, written, after, n) {
      if n == name {
        NewSymbolEncodes(origins, name, origin, height);
      } else {
        assert Retained(templates, written, origins, n);
        EncodesOrLost(written, origins, name, origin, n);
      }
    }
  }

  lemma {:induction false} TrackNew(origins: Origins, pending: map<string, Origin>, emitted: set<string>, name: string,
                                    origin: Origin)
    requires Tracked(origins, pending, emitted) && name !in origins
    ensures Key(origin.kind, name) !in pending && Key(origin.kind, name) !in emitted
    ensures Tracked(origins[name := origin], pending[Key(origin.kind, name) := origin], emitted)
  {
    var key, after := Key(origin.kind, name), origins[name := origin];
    assert key == KeyOf(after, name);
    KeysOfGrow(origins, after, origins.Keys);
    KeysOfStep(after, origins.Keys, name);
    assert after.Keys == origins.Keys + {name};
    if key in pending.Keys + emitted {
      KeysOfMember(after, origins.Keys, name);
    }
    var grown := pending[key := origin];
    forall k | k in grown ensures exists n :: Queued(after, k, grown[k], n) {
      if k == key {
        assert Queued(after, k, grown[k], name);
      } else {
        var n :| Queued(origins, k, pending[k], n);
        assert Queued(after, k, grown[k], n);
      }
    }
  }

  /** After retaining a symbol, queueing its key if it was neither queued nor emitted keeps everything tracked. */
  lemma {:induction false} TrackRetained(before: Origins, pending: map<string, Origin>, emitted: set<string>,
                                         name: string, origin: Origin)
    requires Tracked(before, pending, emitted) && (name in before ==> before[name] == origin)
    ensures var key, after := Key(origin.kind, name), before[name := origin];
            if key in emitted || key in pending then Tracked(after, pending, emitted)
            else Tracked(after, pending[key := origin], emitted)
  {
    if name in before {
      assert before[name := origin] == before;
      assert Key(origin.kind, name) == KeyOf(before, name);
      assert KeyOf(before, name) in KeysOf(before, before.Keys);
    } else {
      TrackNew(before, pending, emitted, name, origin);
    }
  }

  lemma QueuedName(origins: Origins, pending: map<string, Origin>, emitted: set<string>, key: string)
    returns (name: string)
    requires Tracked(origins, pending, emitted) && key in pending
    ensures Queued(origins, key, pending[key], name) && key !in emitted
  {
    name :| Queued(origins, key, pending[key], name);
  }

  lemma {:induction false} TrackEmitted(origins: Origins, pending: map<string, Origin>, emitted: set<string>,
                                        key: string)
    requires Tracked(origins, pending, emitted) && key in pending
    ensures Tracked(origins, pending - {key}, emitted + {key})
  {
    var rest := pending - {key};
    assert rest.Keys + (emitted + {key}) == pending.Keys + emitted;
    forall k | k in rest ensures exists n :: Queued(origins, k, rest[k], n) {
      var n :| Queued(origins, k, pending[k], n);
      assert Queued(origins, k, rest[k], n);
    }
  }

  /** The symbol would be too long, or another origin holds it. */
  ghost predicate Clashes(origins: Origins, origin: Origin, height: nat)
    requires AllFits(origins, origin.arguments, height)
  {
    var name := MonomorphName(origin.template, origin.arguments, origins, height);
    name.None? || (name.value in origins && origins[name.value] != origin)
  }

  /** A request is refused for its nesting, for the length of its symbol, or for a symbol another origin holds. */
  ghost predicate Refused(origins: Origins, kind: Kind, base: string, arguments: seq<Type>)
  {
    || !Shallow(arguments)
    || exists height: nat ::
         && AllFits(origins, Canons(arguments), height)
         && Clashes(origins, Origin(kind, base, Canons(arguments)), height)
  }

  lemma {:induction false} NestedTooDeep(parent: Type, tys: seq<Type>)
    requires forall i :: 0 <= i < |tys| ==> tys[i] < parent
    ensures MaxNesting(parent, tys) > MAX_GENERIC_NESTING + 1 <==> !Shallow(tys)
  {
    if tys != [] {
      NestedTooDeep(parent, tys[1..]);
      assert tys == [tys[0]] + tys[1..];
    }
  }

  lemma {:induction false} CanonsShallow(tys: seq<Type>)
    ensures Shallow(Canons(tys)) <==> Shallow(tys)
  {
    forall i | 0 <= i < |tys| ensures TypeNesting(Canons(tys)[i]) == TypeNesting(tys[i]) {
      CanonNesting(tys[i]);
    }
  }

  /** The bound a symbol is rendered under does not show in the refusal. */
  lemma {:induction false} ClashesAnyway(origins: Origins, origin: Origin, low: nat, high: nat)
    requires AllFits(origins, origin.arguments, low) && AllFits(origins, origin.arguments, high)
    ensures Clashes(origins, origin, low) <==> Clashes(origins, origin, high)
  {
    TextSame(origins, origin.arguments, low, high);
  }

  lemma {:induction false} RefusedExactly(origins: Origins, kind: Kind, base: string, arguments: seq<Type>, height: nat)
    requires AllFits(origins, Canons(arguments), height)
    ensures Refused(origins, kind, base, arguments) <==>
            || MaxNesting(Tuple(arguments), arguments) > MAX_GENERIC_NESTING + 1
            || Clashes(origins, Origin(kind, base, Canons(arguments)), height)
  {
    NestedTooDeep(Tuple(arguments), arguments);
    var origin := Origin(kind, base, Canons(arguments));
    forall other: nat | AllFits(origins, Canons(arguments), other)
      ensures Clashes(origins, origin, other) <==> Clashes(origins, origin, height)
    {
      ClashesAnyway(origins, origin, other, height);
    }
  }

  /** Normalising and naming the arguments of a request, and when it is refused. */
  lemma {:induction false} RequestFacts(templates: Templates, written: iset<string>, origins: Origins, kind: Kind,
                                        base: string, arguments: seq<Type>)
    returns (height: nat)
    requires Sound(origins) && AllKnown(written, origins, arguments) && AllResolved(templates, arguments)
    ensures AllKnown(written, origins, Canons(arguments)) && AllResolved(templates, Canons(arguments))
    ensures AllFits(origins, Canons(arguments), height)
    ensures CanonicalArguments(Tuple(arguments), arguments, 0) == if Shallow(arguments) then Some(Canons(arguments))
                                                                  else None
    ensures Shallow(arguments) ==> Shallow(Canons(arguments))
    ensures Refused(origins, kind, base, arguments) <==>
            !Shallow(arguments) || Clashes(origins, Origin(kind, base, Canons(arguments)), height)
  {
    CanonsKeep(templates, written, origins, arguments);
    height := ArgumentsFit(origins, Canons(arguments));
    CanonicalArgumentsMeaning(Tuple(arguments), arguments, 0);
    NestedTooDeep(Tuple(arguments), arguments);
    CanonsShallow(arguments);
    RefusedExactly(origins, kind, base, arguments, height);
  }

  // ----- rewriting on values

  /** The values of a substitution are already specialized. */
  ghost predicate Settled(templates: Templates, written: iset<string>, origins: Origins, subst: map<string, Type>)
  {
    forall p :: p in subst ==> Known(written, origins, subst[p]) && Resolved(templates, subst[p])
  }

  lemma {:induction false} SettledGrows(templates: Templates, written: iset<string>, before: Origins, after: Origins,
                                        subst: map<string, Type>)
    requires Settled(templates, written, before, subst) && Extends(before, after)
    ensures Settled(templates, written, after, subst)
  {
    forall p | p in subst ensures Known(written, after, subst[p]) {
      KnownGrows(written, before, after, subst[p]);
    }
  }

  /** `r` is the specialized form of `ty`. */
  ghost predicate Rewritten(templates: Templates, written: iset<string>, origins: Origins, subst: map<string, Type>,
                            ty: Type, r: Type)
  {
    Rewrites(templates, origins, subst, ty, r) && Known(written, origins, r) && Resolved(templates, r)
  }

  ghost predicate AllRewritten(templates: Templates, written: iset<string>, origins: Origins, subst: map<string, Type>,
                               tys: seq<Type>, rs: seq<Type>)
  {
    |rs| == |tys| && forall i :: 0 <= i < |tys| ==> Rewritten(templates, written, origins, subst, tys[i], rs[i])
  }

  lemma {:induction false} RewrittenGrows(templates: Templates, written: iset<string>, before: Origins, after: Origins,
                                          subst: map<string, Type>, ty: Type, r: Type)
    requires Rewritten(templates, written, before, subst, ty, r) && Extends(before, after)
    ensures Rewritten(templates, written, after, subst, ty, r)
  {
    RewritesGrow(templates, before, after, subst, ty, r);
    KnownGrows(written, before, after, r);
  }

  lemma {:induction false} AllRewrittenGrows(templates: Templates, written: iset<string>, before: Origins,
                                             after: Origins, subst: map<string, Type>, tys: seq<Type>, rs: seq<Type>)
    requires AllRewritten(templates, written, before, subst, tys, rs) && Extends(before, after)
    ensures AllRewritten(templates, written, after, subst, tys, rs)
  {
    forall i | 0 <= i < |tys| ensures Rewritten(templates, written, after, subst, tys[i], rs[i]) {
      RewrittenGrows(templates, written, before, after, subst, tys[i], rs[i]);
    }
  }

  lemma {:induction false} AllRewrittenAppend(templates: Templates, written: iset<string>, origins: Origins,
                                              subst: map<string, Type>, tys: seq<Type>, rs: seq<Type>, r: Type)
    requires |rs| < |tys| && AllRewritten(templates, written, origins, subst, tys[..|rs|], rs)
    requires Rewritten(templates, written, origins, subst, tys[|rs|], r)
    ensures AllRewritten(templates, written, origins, subst, tys[..|rs| + 1], rs + [r])
  {
    forall i | 0 <= i < |rs| + 1
      ensures Rewritten(templates, written, origins, subst, tys[..|rs| + 1][i], (rs + [r])[i])
    {
      if i < |rs| {
        assert tys[..|rs|][i] == tys[i];
      }
    }
  }

  lemma {:induction false} AllRewrittenApart(templates: Templates, written: iset<string>, origins: Origins,
                                             subst: map<string, Type>, tys: seq<Type>, rs: seq<Type>)
    requires AllRewritten(templates, written, origins, subst, tys, rs)
    ensures AllKnown(written, origins, rs) && AllResolved(templates, rs)
    ensures AllRewrites(templates, origins, subst, tys, rs)
  {
    forall i | 0 <= i < |rs|
      ensures Rewrites(templates, origins, subst, tys[i], rs[i]) && Known(written, origins, rs[i])
      ensures Resolved(templates, rs[i])
    {
      assert Rewritten(templates, written, origins, subst, tys[i], rs[i]);
    }
  }

  lemma {:induction false} RebuiltIsRewritten(templates: Templates, written: iset<string>, origins: Origins,
                                              subst: map<string, Type>, ty: Type, kids: seq<Type>)
    requires !ty.Named? && (ty.Applied? ==> ty.head !in templates && ty.head !in subst)
    requires AllRewritten(templates, written, origins, subst, Children(ty), kids)
    ensures Rewritten(templates, written, origins, subst, ty, Rebuild(ty, kids))
  {
    var r := Rebuild(ty, kids);
    assert Children(r) == kids && r == Rebuild(ty, Children(r));
    forall i | 0 <= i < |kids|
      ensures Rewrites(templates, origins, subst, Children(ty)[i], Children(r)[i])
      ensures Known(written, origins, Children(r)[i]) && Resolved(templates, Children(r)[i])
    {
      assert Rewritten(templates, written, origins, subst, Children(ty)[i], kids[i]);
    }
  }

  lemma {:induction false} NamedIsRewritten(templates: Templates, written: iset<string>, origins: Origins,
                                            subst: map<string, Type>, ty: Type, kids: seq<Type>, name: string)
    requires ty.Applied? && ty.head in templates && ty.head !in subst
    requires AllRewritten(templates, written, origins, subst, Children(ty), kids)
    requires Requested(templates, origins, ty, kids, name)
    ensures Rewritten(templates, written, origins, subst, ty, Named(name))
  {
    AllRewrittenApart(templates, written, origins, subst, Children(ty), kids);
    RequestIsRewriting(templates, origins, subst, ty, kids, name);
    var r := Named(name);
    assert Children(r) == [];
  }

  // ----- declarations

  ghost predicate FieldRewritten(templates: Templates, origins: Origins, subst: map<string, Type>, field: Field,
                                 r: Field)
  {
    r.variant == field.variant && r.name == field.name && Rewrites(templates, origins, subst, field.ty, r.ty)
  }

  ghost predicate FieldsRewritten(templates: Templates, origins: Origins, subst: map<string, Type>, fields: seq<Field>,
                                  rs: seq<Field>)
  {
    |rs| == |fields| && forall i :: 0 <= i < |fields| ==> FieldRewritten(templates, origins, subst, fields[i], rs[i])
  }

  lemma {:induction false} DefinitionGrows(templates: Templates, before: Origins, after: Origins,
                                           subst: map<string, Type>, d: Definition, r: Definition)
    requires RewrittenDefinition(templates, before, subst, d, r) && Extends(before, after)
    ensures RewrittenDefinition(templates, after, subst, d, r)
  {
    forall i | 0 <= i < |d.fields| ensures Rewrites(templates, after, subst, d.fields[i].ty, r.fields[i].ty) {
      RewritesGrow(templates, before, after, subst, d.fields[i].ty, r.fields[i].ty);
    }
  }

  /** The non-generic declarations, rewritten in order. */
  ghost predicate KeptRewritten(templates: Templates, origins: Origins, kept: seq<Item>, done: seq<Item>)
  {
    |done| == |kept| && forall i :: 0 <= i < |kept| ==>
      && done[i].name == kept[i].name && done[i].cell == kept[i].cell &&
         done[i].definition.params == kept[i].definition.params
      && RewrittenDefinition(templates, origins, map[], kept[i].definition, done[i].definition)
  }

  lemma {:induction false} OneKept(templates: Templates, origins: Origins, item: Item, fields: seq<Field>)
    requires FieldsRewritten(templates, origins, map[], item.definition.fields, fields)
    ensures KeptRewritten(templates, origins, [item], [item.(definition := item.definition.(fields := fields))])
  {
    forall i | 0 <= i < |fields|
      ensures FieldRewritten(templates, origins, map[], item.definition.fields[i], fields[i])
    {
    }
  }

  lemma {:induction false} KeptGrows(templates: Templates, before: Origins, after: Origins, kept: seq<Item>,
                                     done: seq<Item>)
    requires KeptRewritten(templates, before, kept, done) && Extends(before, after)
    ensures KeptRewritten(templates, after, kept, done)
  {
    forall i | 0 <= i < |kept|
      ensures RewrittenDefinition(templates, after, map[], kept[i].definition, done[i].definition)
    {
      DefinitionGrows(templates, before, after, map[], kept[i].definition, done[i].definition);
    }
  }

  lemma {:induction false} KeptAppend(templates: Templates, origins: Origins, kept: seq<Item>, done: seq<Item>,
                                      item: Item, r: Item)
    requires KeptRewritten(templates, origins, kept, done) && KeptRewritten(templates, origins, [item], [r])
    ensures KeptRewritten(templates, origins, kept + [item], done + [r])
  {
    assert [item][0] == item && [r][0] == r;
  }

  /** The declaration emitted for a retained origin; it has the symbol of the origin unless that was lost. */
  ghost predicate SpecializationOf(templates: Templates, written: iset<string>, origins: Origins, name: string,
                                   item: Item)
  {
    && !item.cell && item.definition.params == [] && name in origins
    && Specializes(templates, origins, origins[name], item.definition)
    && (item.name == name || Lost(written, origins, name))
  }

  lemma {:induction false} SpecializationGrows(templates: Templates, written: iset<string>, before: Origins,
                                               after: Origins, name: string, item: Item)
    requires SpecializationOf(templates, written, before, name, item)
    requires Sound(before) && Sound(after) && Extends(before, after)
    ensures SpecializationOf(templates, written, after, name, item)
  {
    var origin := before[name];
    DefinitionGrows(templates, before, after, Substitution(templates[origin.template].params, origin.arguments),
                    templates[origin.template], item.definition);
    if item.name != name {
      LostGrows(written, before, after, name);
    }
  }

  lemma {:induction false} RewrittenFieldsSpecialize(templates: Templates, written: iset<string>, origins: Origins,
                                                     name: string, symbol: string, fields: seq<Field>)
    requires name in origins && Retained(templates, written, origins, name)
    requires (symbol == name || Lost(written, origins, name))
    requires |templates[origins[name].template].params| == |origins[name].arguments|
    requires var origin := origins[name];
             FieldsRewritten(templates, origins, Substitution(templates[origin.template].params, origin.arguments),
                             templates[origin.template].fields, fields)
    ensures SpecializationOf(templates, written, origins, name,
                             Item(symbol, false, templates[origins[name].template].(params := [], fields := fields)))
  {
    var origin := origins[name];
    var template, subst :=
      templates[origin.template], Substitution(templates[origin.template].params, origin.arguments);
    forall i | 0 <= i < |fields| ensures FieldRewritten(templates, origins, subst, template.fields[i], fields[i]) {
    }
    assert RewrittenDefinition(templates, origins, subst, template, template.(params := [], fields := fields));
  }

  // ----- emission

  predicate Distinct(names: seq<string>)
  {
    forall i, j :: 0 <= i < j < |names| ==> names[i] != names[j]
  }

  function Elements(names: seq<string>): set<string>
  {
    set i | 0 <= i < |names| :: names[i]
  }

  /** The retained names emitted so far, each once, in order. */
  ghost predicate EmittedOnce(origins: Origins, emitted: set<string>, names: seq<string>)
  {
    && Distinct(names) && |names| == |emitted|
    && Elements(names) <= origins.Keys && KeysOf(origins, Elements(names)) == emitted
  }

  lemma {:induction false} EmittedOnceStep(before: Origins, after: Origins, emitted: set<string>, names: seq<string>,
                                           name: string)
    requires EmittedOnce(before, emitted, names) && Extends(before, after)
    requires name in after && KeyOf(after, name) !in emitted
    ensures EmittedOnce(after, emitted + {KeyOf(after, name)}, names + [name])
  {
    var all, key := Elements(names), KeyOf(after, name);
    KeysOfGrow(before, after, all);
    KeysOfStep(after, all, name);
    NewKeyNewName(after, all, name);
    ElementsAppend(names, name);
    assert |emitted + {key}| == |emitted| + 1;
  }

  lemma NewKeyNewName(origins: Origins, names: set<string>, name: string)
    requires name in origins && KeyOf(origins, name) !in KeysOf(origins, names)
    ensures name !in names
  {
  }

  lemma {:induction false} ElementsAppend(names: seq<string>, name: string)
    ensures Elements(names + [name]) == Elements(names) + {name}
    ensures Distinct(names) && name !in Elements(names) ==> Distinct(names + [name])
  {
    var next := names + [name];
    assert next[|names|] == name && forall i :: 0 <= i < |names| ==> next[i] == names[i] && names[i] in Elements(names);
    assert forall i :: 0 <= i < |next| ==> next[i] in Elements(next);
  }

  /** One declaration per emitted key, each its template at its retained arguments. */
  ghost predicate Emission(templates: Templates, written: iset<string>, origins: Origins, emitted: set<string>,
                           names: seq<string>, specialized: seq<Item>)
  {
    && EmittedOnce(origins, emitted, names) && |specialized| == |names|
    && forall i :: 0 <= i < |names| ==> SpecializationOf(templates, written, origins, names[i], specialized[i])
  }

  lemma {:induction false} EmissionStep(templates: Templates, written: iset<string>, before: Origins, after: Origins,
                                        emitted: set<string>, names: seq<string>, specialized: seq<Item>, name: string,
                                        item: Item)
    requires Emission(templates, written, before, emitted, names, specialized) && Sound(before) && Sound(after)
    requires Extends(before, after)
    requires SpecializationOf(templates, written, after, name, item) && KeyOf(after, name) !in emitted
    ensures Emission(templates, written, after, emitted + {KeyOf(after, name)}, names + [name], specialized + [item])
  {
    EmittedOnceStep(before, after, emitted, names, name);
    SpecializationsGrow(templates, written, before, after, names, specialized);
  }

  lemma {:induction false} SpecializationsGrow(templates: Templates, written: iset<string>, before: Origins,
                                               after: Origins, names: seq<string>, specialized: seq<Item>)
    requires |specialized| == |names| && Sound(before) && Sound(after) && Extends(before, after)
    requires forall i :: 0 <= i < |names| ==> SpecializationOf(templates, written, before, names[i], specialized[i])
    ensures forall i :: 0 <= i < |names| ==> SpecializationOf(templates, written, after, names[i], specialized[i])
  {
    forall i | 0 <= i < |names| ensures SpecializationOf(templates, written, after, names[i], specialized[i]) {
      SpecializationGrows(templates, written, before, after, names[i], specialized[i]);
    }
  }

  lemma {:induction false} DistinctCount(names: seq<string>)
    requires Distinct(names)
    ensures |Elements(names)| == |names|
  {
    if names != [] {
      var last := |names| - 1;
      DistinctCount(names[..last]);
      assert Elements(names) == Elements(names[..last]) + {names[last]};
    }
  }

  /** When nothing is pending, every retained origin was emitted, once. */
  lemma {:induction false} AllEmitted(origins: Origins, emitted: set<string>, names: seq<string>)
    requires Tracked(origins, map[], emitted) && EmittedOnce(origins, emitted, names)
    ensures Elements(names) == origins.Keys && |names| == |origins| == |emitted|
  {
    forall name | name in origins ensures name in Elements(names) {
      assert KeyOf(origins, name) in KeysOf(origins, origins.Keys);
      KeysOfMember(origins, Elements(names), name);
    }
    DistinctCount(names);
  }
}
