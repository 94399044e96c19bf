/** Which specializations a module asks for: by a field of a kept declaration, or by a field of a template already asked
    for. */
module Demand {
  import opened Chains
  import opened Types
  import opened Provenance
  import opened OriginGrowth
  import opened Abilities
  import opened Layout
  import opened Declarations

  /** Some application inside `ty` is rewritten to `name`. */
  ghost predicate Asks(templates: Templates, origins: Origins, subst: map<string, Type>, ty: Type, name: string)
  {
    || (ty.Applied? && ty.head in templates && Rewrites(templates, origins, subst, ty, Named(name)))
    || exists i :: 0 <= i < |Children(ty)| && Asks(templates, origins, subst, Children(ty)[i], name)
  }

  lemma {:induction false} AsksGrow(templates: Templates, before: Origins, after: Origins, subst: map<string, Type>,
                                    ty: Type, name: string)
    requires Asks(templates, before, subst, ty, name) && Extends(before, after)
    ensures Asks(templates, after, subst, ty, name)
  {
    if ty.Applied? && ty.head in templates && Rewrites(templates, before, subst, ty, Named(name)) {
      RewritesGrow(templates, before, after, subst, ty, Named(name));
    } else {
      var i :| 0 <= i < |Children(ty)| && Asks(templates, before, subst, Children(ty)[i], name);
      AsksGrow(templates, before, after, subst, Children(ty)[i], name);
    }
  }

  /** A resolved type asks for nothing. */
  lemma {:induction false} ResolvedAsksNothing(templates: Templates, origins: Origins, subst: map<string, Type>,
                                               ty: Type, name: string)
    requires Resolved(templates, ty)
    ensures !Asks(templates, origins, subst, ty, name)
  {
    forall i | 0 <= i < |Children(ty)| ensures !Asks(templates, origins, subst, Children(ty)[i], name) {
      ResolvedAsksNothing(templates, origins, subst, Children(ty)[i], name);
    }
  }

  ghost predicate SomeAsks(templates: Templates, origins: Origins, subst: map<string, Type>, tys: seq<Type>,
                           name: string)
  {
    exists i :: 0 <= i < |tys| && Asks(templates, origins, subst, tys[i], name)
  }

  lemma {:induction false} SomeAsksGrow(templates: Templates, before: Origins, after: Origins, subst: map<string, Type>,
                                        tys: seq<Type>, name: string)
    requires SomeAsks(templates, before, subst, tys, name) && Extends(before, after)
    ensures SomeAsks(templates, after, subst, tys, name)
  {
    var i :| 0 <= i < |tys| && Asks(templates, before, subst, tys[i], name);
    AsksGrow(templates, before, after, subst, tys[i], name);
  }

  /** Every origin retained since was asked for by one of the types. */
  ghost predicate NewAsked(templates: Templates, before: Origins, after: Origins, subst: map<string, Type>,
                           tys: seq<Type>)
  {
    forall name :: name in after && name !in before ==> SomeAsks(templates, after, subst, tys, name)
  }

  /** Rewriting one more type of a list keeps what is new asked for. */
  lemma {:induction false} NewAskedStep(templates: Templates, before: Origins, middle: Origins, after: Origins,
                                        subst: map<string, Type>, tys: seq<Type>, i: nat)
    requires i < |tys| && NewAsked(templates, before, middle, subst, tys)
    requires NewAsked(templates, middle, after, subst, [tys[i]])
    requires Extends(middle, after)
    ensures NewAsked(templates, before, after, subst, tys)
  {
    forall name | name in after && name !in before ensures SomeAsks(templates, after, subst, tys, name) {
      if name in middle {
        SomeAsksGrow(templates, middle, after, subst, tys, name);
      } else {
        assert SomeAsks(templates, after, subst, [tys[i]], name);
        assert Asks(templates, after, subst, tys[i], name);
      }
    }
  }

  /** What the components of a type ask for, the type asks for. */
  lemma {:induction false} NewAskedBelow(templates: Templates, before: Origins, after: Origins,
                                         subst: map<string, Type>, ty: Type)
    requires NewAsked(templates, before, after, subst, Children(ty))
    ensures NewAsked(templates, before, after, subst, [ty])
  {
    forall name | name in after && name !in before ensures SomeAsks(templates, after, subst, [ty], name) {
      var i :| 0 <= i < |Children(ty)| && Asks(templates, after, subst, Children(ty)[i], name);
      assert Asks(templates, after, subst, [ty][0], name);
    }
  }

  /** An application asks for its own name. */
  lemma {:induction false} NewAskedHere(templates: Templates, before: Origins, middle: Origins, after: Origins,
                                        subst: map<string, Type>, ty: Type, name: string)
    requires NewAsked(templates, before, middle, subst, [ty]) && Extends(middle, after)
    requires after.Keys <= middle.Keys + {name}
    requires ty.Applied? && ty.head in templates && Rewrites(templates, after, subst, ty, Named(name))
    ensures NewAsked(templates, before, after, subst, [ty])
  {
    forall n | n in after && n !in before ensures SomeAsks(templates, after, subst, [ty], n) {
      if n in middle {
        SomeAsksGrow(templates, middle, after, subst, [ty], n);
      } else {
        assert Asks(templates, after, subst, [ty][0], n);
      }
    }
  }

  /** A substituted parameter is settled already: rewriting it adds nothing. */
  lemma {:induction false} ResolvedAddsNothing(templates: Templates, before: Origins, after: Origins,
                                               subst: map<string, Type>, ty: Type)
    requires NewAsked(templates, before, after, subst, [ty]) && Resolved(templates, ty)
    ensures after.Keys <= before.Keys
  {
    forall name | name in after ensures name in before {
      ResolvedAsksNothing(templates, after, subst, ty, name);
      assert !SomeAsks(templates, after, subst, [ty], name);
    }
  }

  // ----- demand by a module

  ghost predicate ItemAsks(items: seq<Item>, origins: Origins, i: nat, name: string)
  {
    && i < |items| && !IsTemplate(items[i])
    && SomeAsks(TemplatesOf(items), origins, map[], FieldTypes(items[i].definition.fields), name)
  }

  ghost predicate AskedFor(items: seq<Item>, origins: Origins, name: string)
  {
    exists i: nat :: ItemAsks(items, origins, i, name)
  }

  ghost predicate OriginAsks(templates: Templates, origins: Origins, parent: string, name: string)
  {
    && parent in origins && origins[parent].template in templates
    && |templates[origins[parent].template].params| == |origins[parent].arguments|
    && var template := templates[origins[parent].template];
       SomeAsks(templates, origins, Substitution(template.params, origins[parent].arguments),
                FieldTypes(template.fields), name)
  }

  ghost function Roots(items: seq<Item>, origins: Origins): iset<string>
  {
    iset name | AskedFor(items, origins, name)
  }

  ghost function Links(items: seq<Item>, origins: Origins): iset<(string, string)>
  {
    iset link: (string, string) | OriginAsks(TemplatesOf(items), origins, link.0, link.1)
  }

  /** A kept declaration asks for `name`, directly or through templates it asks for. */
  ghost predicate Demanded(items: seq<Item>, origins: Origins, name: string)
  {
    Reached(Roots(items, origins), Links(items, origins), name)
  }

  ghost predicate AllDemanded(items: seq<Item>, origins: Origins)
  {
    forall name :: name in origins ==> Demanded(items, origins, name)
  }

  lemma {:induction false} RootsGrow(items: seq<Item>, before: Origins, after: Origins)
    requires Extends(before, after)
    ensures Roots(items, before) <= Roots(items, after)
  {
    forall name | name in Roots(items, before) ensures name in Roots(items, after) {
      var i: nat :| ItemAsks(items, before, i, name);
      SomeAsksGrow(TemplatesOf(items), before, after, map[], FieldTypes(items[i].definition.fields), name);
      assert ItemAsks(items, after, i, name);
    }
  }

  lemma {:induction false} LinksGrow(items: seq<Item>, before: Origins, after: Origins)
    requires Extends(before, after)
    ensures Links(items, before) <= Links(items, after)
  {
    forall link | link in Links(items, before) ensures link in Links(items, after) {
      var origin := before[link.0];
      var template := TemplatesOf(items)[origin.template];
      SomeAsksGrow(TemplatesOf(items), before, after, Substitution(template.params, origin.arguments),
                   FieldTypes(template.fields), link.1);
    }
  }

  lemma {:induction false} DemandedGrows(items: seq<Item>, before: Origins, after: Origins, name: string)
    requires Demanded(items, before, name) && Extends(before, after)
    ensures Demanded(items, after, name)
  {
    RootsGrow(items, before, after);
    LinksGrow(items, before, after);
    ReachedGrows(Roots(items, before), Links(items, before), Roots(items, after), Links(items, after), name);
  }

  /** Rewriting a kept declaration adds only what the module demands. */
  lemma {:induction false} DemandedByItem(items: seq<Item>, before: Origins, after: Origins, i: nat)
    requires AllDemanded(items, before) && Extends(before, after) && i < |items| && !IsTemplate(items[i])
    requires NewAsked(TemplatesOf(items), before, after, map[], FieldTypes(items[i].definition.fields))
    ensures AllDemanded(items, after)
  {
    forall name | name in after ensures Demanded(items, after, name) {
      if name in before {
        DemandedGrows(items, before, after, name);
      } else {
        assert ItemAsks(items, after, i, name);
        RootReached(Roots(items, after), Links(items, after), name);
      }
    }
  }

  /** What was retained since was asked for by the template of an origin. */
  ghost predicate NewFromOrigin(templates: Templates, before: Origins, after: Origins, origin: Origin)
  {
    || after.Keys <= before.Keys
    || (origin.template in templates && |templates[origin.template].params| == |origin.arguments| &&
        NewAsked(templates, before, after, Substitution(templates[origin.template].params, origin.arguments),
                 FieldTypes(templates[origin.template].fields)))
  }

  /** Emitting a specialization adds only what the module demands. */
  lemma {:induction false} DemandedByOrigin(items: seq<Item>, before: Origins, after: Origins, parent: string)
    requires AllDemanded(items, before) && Extends(before, after) && parent in before
    requires NewFromOrigin(TemplatesOf(items), before, after, before[parent])
    ensures AllDemanded(items, after)
  {
    forall name | name in after ensures Demanded(items, after, name) {
      if name in before {
        DemandedGrows(items, before, after, name);
      } else {
        DemandedGrows(items, before, after, parent);
        assert OriginAsks(TemplatesOf(items), after, parent, name);
        assert (parent, name) in Links(items, after);
        LinkReached(Roots(items, after), Links(items, after), parent, name);
      }
    }
  }
}
