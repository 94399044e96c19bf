/** What specialization means: the rewriting relation, the layout of a type before and after, and their equality. */
module Layout {
  import opened Options
  import opened Types
  import opened Provenance
  import opened Abilities
  import opened SymbolNames
  import opened OriginGrowth

  type Templates = map<string, Definition>

  // ----- rewriting

  /** No template application is left in the type. */
  predicate Resolved(templates: Templates, ty: Type)
  {
    && (ty.Applied? ==> ty.head !in templates)
    && forall i :: 0 <= i < |Children(ty)| ==> Resolved(templates, Children(ty)[i])
  }

  predicate AllResolved(templates: Templates, tys: seq<Type>)
  {
    forall i :: 0 <= i < |tys| ==> Resolved(templates, tys[i])
  }

  predicate OnlyTypes(ty: Type)
    requires ty.Applied?
  {
    forall i :: 0 <= i < |ty.arguments| ==> ty.arguments[i].TypeArg?
  }

  /** `name` was retained for the application of `ty.head` to the rewritten components. */
  predicate Requested(templates: Templates, origins: Origins, ty: Type, kids: seq<Type>, name: string)
    requires ty.Applied? && ty.head in templates
  {
    && OnlyTypes(ty)
    && name in origins && origins[name] == Origin(templates[ty.head].kind, ty.head, Canons(kids))
  }

  /** A name that is not an application written out as text. */
  predicate Nominal(name: string)
  {
    '<' !in name && '>' !in name
  }

  /** `r` is what `ty` becomes under a substitution: parameters replaced, template applications named. */
  ghost predicate Rewrites(templates: Templates, origins: Origins, subst: map<string, Type>, ty: Type, r: Type)
    decreases if subst == map[] then 0 else 1, ty
  {
    if ty.Named? then
      if ty.name in subst then Rewrites(templates, origins, map[], subst[ty.name], r) else r == ty && Nominal(ty.name)
    else if ty.Applied? && ty.head in templates then
      && ty.head !in subst && r.Named?
      && exists kids: seq<Type> ::
           && |kids| == |Children(ty)| && Requested(templates, origins, ty, kids, r.name)
           && forall i :: 0 <= i < |kids| ==> Rewrites(templates, origins, subst, Children(ty)[i], kids[i])
    else
      && (ty.Applied? ==> ty.head !in subst)
      && |Children(r)| == |Children(ty)| && r == Rebuild(ty, Children(r))
      && forall i :: 0 <= i < |Children(r)| ==> Rewrites(templates, origins, subst, Children(ty)[i], Children(r)[i])
  }

  ghost predicate AllRewrites(templates: Templates, origins: Origins, subst: map<string, Type>, tys: seq<Type>,
                              rs: seq<Type>)
  {
    |rs| == |tys| && forall i :: 0 <= i < |tys| ==> Rewrites(templates, origins, subst, tys[i], rs[i])
  }

  lemma {:induction false} RewritesGrow(templates: Templates, before: Origins, after: Origins, subst: map<string, Type>,
                                        ty: Type, r: Type)
    requires Rewrites(templates, before, subst, ty, r) && Extends(before, after)
    ensures Rewrites(templates, after, subst, ty, r)
    decreases if subst == map[] then 0 else 1, ty
  {
    if ty.Named? {
      if ty.name in subst {
        RewritesGrow(templates, before, after, map[], subst[ty.name], r);
      }
    } else if ty.Applied? && ty.head in templates {
      var kids: seq<Type> :|
        && |kids| == |Children(ty)| && Requested(templates, before, ty, kids, r.name)
        && forall i :: 0 <= i < |kids| ==> Rewrites(templates, before, subst, Children(ty)[i], kids[i]);
      assert Requested(templates, after, ty, kids, r.name);
      forall i | 0 <= i < |kids| ensures Rewrites(templates, after, subst, Children(ty)[i], kids[i]) {
        RewritesGrow(templates, before, after, subst, Children(ty)[i], kids[i]);
      }
    } else {
      forall i | 0 <= i < |Children(r)| ensures Rewrites(templates, after, subst, Children(ty)[i], Children(r)[i]) {
        RewritesGrow(templates, before, after, subst, Children(ty)[i], Children(r)[i]);
      }
    }
  }

  lemma {:induction false} RequestIsRewriting(templates: Templates, origins: Origins, subst: map<string, Type>,
                                              ty: Type, kids: seq<Type>, name: string)
    requires ty.Applied? && ty.head in templates && ty.head !in subst
    requires |kids| == |Children(ty)| && Requested(templates, origins, ty, kids, name)
    requires forall i :: 0 <= i < |kids| ==> Rewrites(templates, origins, subst, Children(ty)[i], kids[i])
    ensures Rewrites(templates, origins, subst, ty, Named(name))
  {
    assert Requested(templates, origins, ty, kids, Named(name).name);
  }

  /** A resolved type is rewritten to itself. */
  lemma {:induction false} RewritesResolved(templates: Templates, origins: Origins, ty: Type, r: Type)
    requires Resolved(templates, ty) && Rewrites(templates, origins, map[], ty, r)
    ensures r == ty
  {
    if !ty.Named? {
      forall i | 0 <= i < |Children(r)| ensures Children(r)[i] == Children(ty)[i] {
        RewritesResolved(templates, origins, Children(ty)[i], Children(r)[i]);
      }
      assert Children(r) == Children(ty);
      RebuildSame(ty);
    }
  }

  // ----- declarations before and after

  datatype Source = Source(templates: Templates, concretes: map<string, Definition>)

  datatype Output = Output(declarations: map<string, Definition>, origins: Origins)

  /** A declaration rewritten field by field under one substitution. */
  ghost predicate RewrittenDefinition(templates: Templates, origins: Origins, subst: map<string, Type>, d: Definition,
                                      r: Definition)
  {
    && r.kind == d.kind && r.variants == d.variants && |r.fields| == |d.fields|
    && forall i :: 0 <= i < |d.fields| ==>
         && r.fields[i].variant == d.fields[i].variant && r.fields[i].name == d.fields[i].name
         && Rewrites(templates, origins, subst, d.fields[i].ty, r.fields[i].ty)
  }

  /** The declaration emitted for an origin is its template at its arguments. */
  ghost predicate Specializes(templates: Templates, origins: Origins, origin: Origin, r: Definition)
  {
    && origin.template in templates
    && |templates[origin.template].params| == |origin.arguments|
    && (forall i :: 0 <= i < |origin.arguments| ==> Resolved(templates, origin.arguments[i]))
    && RewrittenDefinition(templates, origins, Substitution(templates[origin.template].params, origin.arguments),
                           templates[origin.template], r)
  }

  /** Every source declaration is rewritten, every retained origin is declared, and nothing else is. */
  ghost predicate Declares(source: Source, out: Output)
  {
    && out.declarations.Keys == source.concretes.Keys + out.origins.Keys && source.concretes.Keys !! out.origins.Keys
    && (forall name :: name in out.origins ==>
         Specializes(source.templates, out.origins, out.origins[name], out.declarations[name]))
    && (forall name :: name in source.concretes ==>
         RewrittenDefinition(source.templates, out.origins, map[], source.concretes[name], out.declarations[name]))
  }

  /** The output of a run: what the source asks for, each specialization under the symbol that encodes it. */
  ghost predicate Complete(source: Source, out: Output)
  {
    Sound(out.origins) && AllEncode(out.origins) && Declares(source, out)
  }

  function ParamNames(params: seq<Param>): set<string>
  {
    set i | 0 <= i < |params| :: params[i].name
  }

  /** No name in the type, parameters aside, is a retained symbol. */
  predicate Uncaptured(origins: Origins, bound: set<string>, ty: Type)
  {
    && (ty.Named? && ty.name !in bound ==> ty.name !in origins)
    && forall i :: 0 <= i < |Children(ty)| ==> Uncaptured(origins, bound, Children(ty)[i])
  }

  predicate FieldsUncaptured(origins: Origins, bound: set<string>, fields: seq<Field>)
  {
    forall i :: 0 <= i < |fields| ==> Uncaptured(origins, bound, fields[i].ty)
  }

  /** No field of a kept declaration or of a specialized template mentions a retained symbol. */
  ghost predicate NoCapture(source: Source, out: Output)
  {
    && (forall name :: name in source.concretes ==> FieldsUncaptured(out.origins, {}, source.concretes[name].fields))
    && (forall name :: name in out.origins && out.origins[name].template in source.templates ==>
         var template := source.templates[out.origins[name].template];
         FieldsUncaptured(out.origins, ParamNames(template.params), template.fields))
  }

  // ----- layouts

  /** A finite unfolding of a type: a record shows its head, its type arguments and its fields. */
  datatype Layout =
    | Cut
    | Atom(ty: Type)
    | Compound(shape: Type, kids: seq<Layout>)
    | Record(head: string, arguments: seq<Layout>, kind: Kind, variants: seq<string>, fields: seq<FieldLayout>)

  datatype FieldLayout = FieldLayout(variant: nat, name: string, layout: Layout)

  /** A type with its components blanked out. */
  function Shape(ty: Type): Type
  {
    Rebuild(ty, seq(|Children(ty)|, _ => Prim(Unit)))
  }

  function UnitLayout(): Layout { Compound(Tuple([]), []) }

  function AppliesTemplate(source: Source, ty: Type): bool
  {
    ty.Applied? && ty.head in source.templates && OnlyTypes(ty) && |source.templates[ty.head].params| == |Children(ty)|
  }

  /** Expanding a source type by recursive template substitution, `depth` declarations deep. */
  function SourceLayout(source: Source, ty: Type, depth: nat): Layout
    decreases 2 * depth, ty, 1
  {
    if ty.Named? && ty.name in source.concretes then
      var d := source.concretes[ty.name];
      if depth == 0 then Cut
      else Record(ty.name, [], d.kind, d.variants, SourceFields(source, d.fields, map[], depth - 1))
    else if AppliesTemplate(source, ty) then
      var d := source.templates[ty.head];
      if depth == 0 then Cut
      else Record(ty.head, SourceLayouts(source, ty, Children(ty), depth - 1), d.kind, d.variants,
                  SourceFields(source, d.fields, Substitution(d.params, Children(ty)), depth - 1))
    else if ty == Prim(Unit) then UnitLayout()
    else if ty.Prim? || ty.Named? then Atom(ty)
    else Compound(Shape(ty), SourceLayouts(source, ty, Children(ty), depth))
  }

  function SourceLayouts(source: Source, parent: Type, tys: seq<Type>, depth: nat): (r: seq<Layout>)
    requires forall i :: 0 <= i < |tys| ==> tys[i] < parent
    ensures |r| == |tys| && forall i :: 0 <= i < |tys| ==> r[i] == SourceLayout(source, tys[i], depth)
    decreases 2 * depth, parent, 0, |tys|
  {
    if tys == [] then [] else [SourceLayout(source, tys[0], depth)] + SourceLayouts(source, parent, tys[1..], depth)
  }

  function SourceField(source: Source, field: Field, subst: map<string, Type>, depth: nat): FieldLayout
    decreases 2 * depth + 1, 0
  {
    var ty := Substitute(field.ty, subst);
    FieldLayout(field.variant, field.name, if ty.None? then Cut else SourceLayout(source, ty.value, depth))
  }

  function SourceFields(source: Source, fields: seq<Field>, subst: map<string, Type>, depth: nat): (r: seq<FieldLayout>)
    ensures |r| == |fields| && forall i :: 0 <= i < |fields| ==> r[i] == SourceField(source, fields[i], subst, depth)
    decreases 2 * depth + 1, 1, |fields|
  {
    if fields == [] then []
    else [SourceField(source, fields[0], subst, depth)] + SourceFields(source, fields[1..], subst, depth)
  }

  /** Expanding a rewritten type through the emitted declarations. */
  function TargetLayout(out: Output, ty: Type, depth: nat): Layout
    decreases 2 * depth, ty, 1
  {
    if ty.Named? && ty.name in out.declarations then
      var d := out.declarations[ty.name];
      if depth == 0 then Cut
      else if ty.name in out.origins then
        var origin := out.origins[ty.name];
        Record(origin.template, TargetLayouts(out, Tuple(origin.arguments), origin.arguments, depth - 1), d.kind,
               d.variants, TargetFields(out, d.fields, depth - 1))
      else Record(ty.name, [], d.kind, d.variants, TargetFields(out, d.fields, depth - 1))
    else if ty == Prim(Unit) then UnitLayout()
    else if ty.Prim? || ty.Named? then Atom(ty)
    else Compound(Shape(ty), TargetLayouts(out, ty, Children(ty), depth))
  }

  function TargetLayouts(out: Output, parent: Type, tys: seq<Type>, depth: nat): (r: seq<Layout>)
    requires forall i :: 0 <= i < |tys| ==> tys[i] < parent
    ensures |r| == |tys| && forall i :: 0 <= i < |tys| ==> r[i] == TargetLayout(out, tys[i], depth)
    decreases 2 * depth, parent, 0, |tys|
  {
    if tys == [] then [] else [TargetLayout(out, tys[0], depth)] + TargetLayouts(out, parent, tys[1..], depth)
  }

  function TargetFields(out: Output, fields: seq<Field>, depth: nat): (r: seq<FieldLayout>)
    ensures |r| == |fields|
    ensures forall i :: 0 <= i < |fields| ==>
            r[i] == FieldLayout(fields[i].variant, fields[i].name, TargetLayout(out, fields[i].ty, depth))
    decreases 2 * depth + 1, 1, |fields|
  {
    if fields == [] then []
    else
      [FieldLayout(fields[0].variant, fields[0].name, TargetLayout(out, fields[0].ty, depth))] +
      TargetFields(out, fields[1..], depth)
  }

  // ----- preservation

  lemma ShapeKept(ty: Type, kids: seq<Type>)
    requires |kids| == |Children(ty)|
    ensures Shape(Rebuild(ty, kids)) == Shape(ty)
  {
    if ty.Applied? {
      ShapeOfArguments(ty.arguments, kids, seq(|kids|, _ => Prim(Unit)));
    }
  }

  lemma {:induction false} ShapeOfArguments(arguments: seq<TypeArgument>, tys: seq<Type>, blanks: seq<Type>)
    requires |tys| == |blanks| == |TypeArguments(arguments)|
    ensures WithTypeArguments(WithTypeArguments(arguments, tys), blanks) == WithTypeArguments(arguments, blanks)
  {
    if arguments != [] {
      var keep := arguments[0].TypeArg?;
      var r := WithTypeArguments(arguments, tys);
      assert r[1..] == WithTypeArguments(arguments[1..], if keep then tys[1..] else tys);
      ShapeOfArguments(arguments[1..], if keep then tys[1..] else tys, if keep then blanks[1..] else blanks);
    }
  }

  lemma TargetOfCompound(out: Output, ty: Type, kids: seq<Type>, layouts: seq<Layout>, depth: nat)
    requires !ty.Named? && !ty.Prim? && |kids| == |layouts| == |Children(ty)|
    requires forall i :: 0 <= i < |kids| ==> TargetLayout(out, kids[i], depth) == layouts[i]
    ensures TargetLayout(out, Rebuild(ty, kids), depth) == Compound(Shape(ty), layouts)
  {
    var r := Rebuild(ty, kids);
    ShapeKept(ty, kids);
    assert TargetLayouts(out, r, Children(r), depth) == layouts;
  }

  lemma SourceOfCompound(source: Source, ty: Type, kids: seq<Type>, layouts: seq<Layout>, depth: nat)
    requires !ty.Named? && !ty.Prim? && (ty.Applied? ==> ty.head !in source.templates)
    requires |kids| == |layouts| == |Children(ty)|
    requires forall i :: 0 <= i < |kids| ==> SourceLayout(source, kids[i], depth) == layouts[i]
    ensures SourceLayout(source, Rebuild(ty, kids), depth) == Compound(Shape(ty), layouts)
  {
    var r := Rebuild(ty, kids);
    ShapeKept(ty, kids);
    assert SourceLayouts(source, r, Children(r), depth) == layouts;
  }

  /** Unit and the empty tuple have one layout, so normalising an argument changes none. */
  lemma {:induction false} TargetOfCanon(out: Output, ty: Type, depth: nat)
    ensures TargetLayout(out, Canon(ty), depth) == TargetLayout(out, ty, depth)
    decreases ty
  {
    var kids := Children(ty);
    if ty == Tuple([]) {
      assert Shape(ty) == ty;
    } else if !ty.Named? && !ty.Prim? {
      var layouts := TargetLayouts(out, ty, kids, depth);
      forall i | 0 <= i < |kids| ensures TargetLayout(out, CanonAll(ty, kids)[i], depth) == layouts[i] {
        TargetOfCanon(out, kids[i], depth);
      }
      TargetOfCompound(out, ty, CanonAll(ty, kids), layouts, depth);
    }
  }

  /** Both substitutions have the same parameters, with equal layouts up to `depth`. */
  ghost predicate SameArguments(source: Source, out: Output, before: map<string, Type>, after: map<string, Type>,
                                depth: nat)
  {
    && before.Keys == after.Keys
    && forall p :: p in before ==>
       Resolved(source.templates, after[p]) && SameLayout(source, out, before[p], after[p], depth)
  }

  ghost predicate SameLayout(source: Source, out: Output, before: Type, after: Type, depth: nat)
  {
    forall k: nat :: k <= depth ==> SourceLayout(source, before, k) == TargetLayout(out, after, k)
  }

  lemma {:induction false} SubstitutionPair(params: seq<Param>, a: seq<Type>, b: seq<Type>, p: string) returns (i: nat)
    requires |params| == |a| == |b| && p in Substitution(params, a)
    ensures i < |params| && p in Substitution(params, b)
    ensures Substitution(params, a)[p] == a[i] && Substitution(params, b)[p] == b[i]
  {
    var last := |params| - 1;
    if params[last].name == p {
      i := last;
    } else {
      i := SubstitutionPair(params[..last], a[..last], b[..last], p);
    }
  }

  lemma {:induction false} SubstitutionKeys(params: seq<Param>, a: seq<Type>, b: seq<Type>)
    requires |params| == |a| == |b|
    ensures Substitution(params, a).Keys == Substitution(params, b).Keys
  {
    if params != [] {
      SubstitutionKeys(params[..|params| - 1], a[..|params| - 1], b[..|params| - 1]);
    }
  }

  lemma {:induction false} SubstitutionNames(params: seq<Param>, arguments: seq<Type>)
    requires |params| == |arguments|
    ensures Substitution(params, arguments).Keys == ParamNames(params)
  {
    if params != [] {
      var last := |params| - 1;
      SubstitutionNames(params[..last], arguments[..last]);
      assert ParamNames(params) == ParamNames(params[..last]) + {params[last].name};
    }
  }

  lemma PairedArguments(source: Source, out: Output, params: seq<Param>, a: seq<Type>, b: seq<Type>, depth: nat)
    requires |params| == |a| == |b|
    requires forall i :: 0 <= i < |a| ==> Resolved(source.templates, b[i]) && SameLayout(source, out, a[i], b[i], depth)
    ensures SameArguments(source, out, Substitution(params, a), Substitution(params, b), depth)
  {
    SubstitutionKeys(params, a, b);
    forall p | p in Substitution(params, a)
      ensures Resolved(source.templates, Substitution(params, b)[p])
      ensures SameLayout(source, out, Substitution(params, a)[p], Substitution(params, b)[p], depth)
    {
      var i := SubstitutionPair(params, a, b, p);
    }
  }

  /** Rewriting preserves layouts to every depth. */
  lemma {:induction false} RewritingPreserves(source: Source, out: Output, before: map<string, Type>,
                                              after: map<string, Type>, ty: Type, r: Type, depth: nat)
    requires Declares(source, out) && NoCapture(source, out) && Uncaptured(out.origins, after.Keys, ty)
    requires Rewrites(source.templates, out.origins, after, ty, r)
    requires SameArguments(source, out, before, after, depth)
    ensures Substitute(ty, before).Some?
    ensures SourceLayout(source, Substitute(ty, before).value, depth) == TargetLayout(out, r, depth)
    decreases 3 * depth + 2, ty, 1
  {
    if ty.Named? {
      if ty.name in after {
        RewritesResolved(source.templates, out.origins, after[ty.name], r);
      } else {
        NamePreserved(source, out, ty.name, depth);
      }
    } else if ty.Applied? && ty.head in source.templates {
      ApplicationPreserved(source, out, before, after, ty, r, depth);
    } else {
      CompoundPreserved(source, out, before, after, ty, r, depth);
    }
  }

  lemma {:induction false} NamePreserved(source: Source, out: Output, name: string, depth: nat)
    requires Declares(source, out) && NoCapture(source, out) && name !in out.origins
    ensures SourceLayout(source, Named(name), depth) == TargetLayout(out, Named(name), depth)
    decreases 3 * depth + 2, Named(name), 0
  {
    if name !in source.concretes {
      OpaqueName(source, out, name, depth);
    } else if depth > 0 {
      var none: map<string, Type> := map[];
      assert none.Keys == {};
      FieldsPreserved(source, out, none, none, source.concretes[name], out.declarations[name], depth - 1);
      DeclarationUnfolds(source, out, name, depth);
    }
  }

  lemma {:induction false} OpaqueName(source: Source, out: Output, name: string, depth: nat)
    requires name !in source.concretes && name !in out.declarations
    ensures SourceLayout(source, Named(name), depth) == Atom(Named(name)) == TargetLayout(out, Named(name), depth)
  {
  }

  lemma {:induction false} DeclarationUnfolds(source: Source, out: Output, name: string, depth: nat)
    requires name in source.concretes && name in out.declarations && name !in out.origins && depth > 0
    requires out.declarations[name].kind == source.concretes[name].kind
    requires out.declarations[name].variants == source.concretes[name].variants
    requires SourceFields(source, source.concretes[name].fields, map[], depth - 1) ==
             TargetFields(out, out.declarations[name].fields, depth - 1)
    ensures SourceLayout(source, Named(name), depth) == TargetLayout(out, Named(name), depth)
  {
  }

  lemma {:induction false} FieldsPreserved(source: Source, out: Output, before: map<string, Type>,
                                           after: map<string, Type>, d: Definition, r: Definition, depth: nat)
    requires Declares(source, out) && NoCapture(source, out) && FieldsUncaptured(out.origins, after.Keys, d.fields)
    requires RewrittenDefinition(source.templates, out.origins, after, d, r)
    requires SameArguments(source, out, before, after, depth)
    ensures SourceFields(source, d.fields, before, depth) == TargetFields(out, r.fields, depth)
    decreases 3 * depth + 2, Tuple(seq(|d.fields|, i requires 0 <= i < |d.fields| => d.fields[i].ty)), 2
  {
    var bound := Tuple(seq(|d.fields|, i requires 0 <= i < |d.fields| => d.fields[i].ty));
    forall i | 0 <= i < |d.fields|
      ensures SourceField(source, d.fields[i], before, depth).layout == TargetLayout(out, r.fields[i].ty, depth)
    {
      assert bound.items[i] == d.fields[i].ty;
      RewritingPreserves(source, out, before, after, d.fields[i].ty, r.fields[i].ty, depth);
    }
  }

  lemma {:induction false} CompoundPreserved(source: Source, out: Output, before: map<string, Type>,
                                             after: map<string, Type>, ty: Type, r: Type, depth: nat)
    requires Declares(source, out) && NoCapture(source, out) && Uncaptured(out.origins, after.Keys, ty)
    requires Rewrites(source.templates, out.origins, after, ty, r)
    requires SameArguments(source, out, before, after, depth)
    requires !ty.Named? && (ty.Applied? ==> ty.head !in source.templates)
    ensures Substitute(ty, before).Some?
    ensures SourceLayout(source, Substitute(ty, before).value, depth) == TargetLayout(out, r, depth)
    decreases 3 * depth + 2, ty, 0
  {
    var kids := Children(ty);
    forall i | 0 <= i < |kids|
      ensures Substitute(kids[i], before).Some?
      ensures SourceLayout(source, Substitute(kids[i], before).value, depth) == TargetLayout(out, Children(r)[i], depth)
    {
      RewritingPreserves(source, out, before, after, kids[i], Children(r)[i], depth);
    }
    var s := SubstituteAll(ty, kids, before).value;
    if !ty.Prim? {
      var layouts := TargetLayouts(out, r, Children(r), depth);
      SourceOfCompound(source, ty, s, layouts, depth);
      TargetOfCompound(out, ty, Children(r), layouts, depth);
    }
  }

  lemma SameArgumentsBelow(source: Source, out: Output, before: map<string, Type>, after: map<string, Type>, depth: nat,
                           k: nat)
    requires SameArguments(source, out, before, after, depth) && k <= depth
    ensures SameArguments(source, out, before, after, k)
  {
    forall p | p in before ensures SameLayout(source, out, before[p], after[p], k) {
      assert SameLayout(source, out, before[p], after[p], depth);
    }
  }

  /** A rewritten and normalised component has the layout of the substituted one, up to `depth`. */
  lemma {:induction false} ArgumentPreserved(source: Source, out: Output, before: map<string, Type>,
                                             after: map<string, Type>, ty: Type, r: Type, depth: nat)
    requires Declares(source, out) && NoCapture(source, out) && Uncaptured(out.origins, after.Keys, ty)
    requires Rewrites(source.templates, out.origins, after, ty, r)
    requires SameArguments(source, out, before, after, depth)
    ensures Substitute(ty, before).Some?
    ensures SameLayout(source, out, Substitute(ty, before).value, Canon(r), depth)
    decreases 3 * depth + 2, ty, 2
  {
    RewritingPreserves(source, out, before, after, ty, r, depth);
    forall k: nat | k <= depth
      ensures SourceLayout(source, Substitute(ty, before).value, k) == TargetLayout(out, Canon(r), k)
    {
      SameArgumentsBelow(source, out, before, after, depth, k);
      RewritingPreserves(source, out, before, after, ty, r, k);
      TargetOfCanon(out, r, k);
    }
  }

  lemma RequestOf(templates: Templates, origins: Origins, subst: map<string, Type>, ty: Type, r: Type)
    returns (kids: seq<Type>)
    requires Rewrites(templates, origins, subst, ty, r) && ty.Applied? && ty.head in templates
    ensures ty.head !in subst && r.Named? && |kids| == |Children(ty)| && Requested(templates, origins, ty, kids, r.name)
    ensures forall i :: 0 <= i < |kids| ==> Rewrites(templates, origins, subst, Children(ty)[i], kids[i])
  {
    kids :|
      && |kids| == |Children(ty)| && Requested(templates, origins, ty, kids, r.name)
      && forall i :: 0 <= i < |kids| ==> Rewrites(templates, origins, subst, Children(ty)[i], kids[i]);
  }

  lemma {:induction false} ArgumentsPreserved(source: Source, out: Output, before: map<string, Type>,
                                              after: map<string, Type>, ty: Type, kids: seq<Type>, depth: nat)
    requires Declares(source, out) && NoCapture(source, out) && Uncaptured(out.origins, after.Keys, ty)
    requires SameArguments(source, out, before, after, depth)
    requires |kids| == |Children(ty)|
    requires forall i :: 0 <= i < |kids| ==> Rewrites(source.templates, out.origins, after, Children(ty)[i], kids[i])
    ensures forall i :: 0 <= i < |kids| ==> Substitute(Children(ty)[i], before).Some?
    ensures forall i :: 0 <= i < |kids| ==>
            SameLayout(source, out, Substitute(Children(ty)[i], before).value, Canon(kids[i]), depth)
    decreases 3 * depth + 2, ty, 0, 0
  {
    forall i | 0 <= i < |kids|
      ensures Substitute(Children(ty)[i], before).Some?
      ensures SameLayout(source, out, Substitute(Children(ty)[i], before).value, Canon(kids[i]), depth)
    {
      ArgumentPreserved(source, out, before, after, Children(ty)[i], kids[i], depth);
    }
  }

  lemma {:induction false} ApplicationPreserved(source: Source, out: Output, before: map<string, Type>,
                                                after: map<string, Type>, ty: Type, r: Type, depth: nat)
    requires Declares(source, out) && NoCapture(source, out) && Uncaptured(out.origins, after.Keys, ty)
    requires Rewrites(source.templates, out.origins, after, ty, r)
    requires SameArguments(source, out, before, after, depth)
    requires ty.Applied? && ty.head in source.templates
    ensures Substitute(ty, before).Some?
    ensures SourceLayout(source, Substitute(ty, before).value, depth) == TargetLayout(out, r, depth)
    decreases 3 * depth + 2, ty, 0
  {
    var kids := RequestOf(source.templates, out.origins, after, ty, r);
    ArgumentsPreserved(source, out, before, after, ty, kids, depth);
    var s := SubstitutedApplication(ty, before);
    ApplicationUnfolds(source, out, s, r.name, kids, depth);
  }

  lemma SubstitutedApplication(ty: Type, before: map<string, Type>) returns (s: Type)
    requires ty.Applied? && ty.head !in before && OnlyTypes(ty)
    requires forall i :: 0 <= i < |Children(ty)| ==> Substitute(Children(ty)[i], before).Some?
    ensures Substitute(ty, before) == Some(s) && s.Applied? && s.head == ty.head && OnlyTypes(s)
    ensures |Children(s)| == |Children(ty)|
    ensures forall i :: 0 <= i < |Children(ty)| ==> Children(s)[i] == Substitute(Children(ty)[i], before).value
  {
    s := Substitute(ty, before).value;
    WithTypeArgumentsAt(ty.arguments, Children(s));
  }

  lemma ArgumentLayouts(source: Source, out: Output, s: Type, arguments: seq<Type>, depth: nat)
    requires depth > 0 && |arguments| == |Children(s)|
    requires forall i :: 0 <= i < |arguments| ==> SameLayout(source, out, Children(s)[i], arguments[i], depth)
    ensures SourceLayouts(source, s, Children(s), depth - 1) ==
            TargetLayouts(out, Tuple(arguments), arguments, depth - 1)
  {
    forall i | 0 <= i < |arguments|
      ensures SourceLayout(source, Children(s)[i], depth - 1) == TargetLayout(out, arguments[i], depth - 1)
    {
      assert SameLayout(source, out, Children(s)[i], arguments[i], depth);
    }
  }

  /** A specialized declaration has, one level down, the layout of the template at the source arguments. */
  lemma {:induction false} ApplicationUnfolds(source: Source, out: Output, s: Type, name: string, kids: seq<Type>,
                                              depth: nat)
    requires Declares(source, out) && NoCapture(source, out)
    requires s.Applied? && s.head in source.templates && OnlyTypes(s)
    requires name in out.origins && out.origins[name] == Origin(source.templates[s.head].kind, s.head, Canons(kids))
    requires |kids| == |Children(s)|
    requires forall i :: 0 <= i < |kids| ==> SameLayout(source, out, Children(s)[i], Canon(kids[i]), depth)
    ensures SourceLayout(source, s, depth) == TargetLayout(out, Named(name), depth)
    decreases 3 * depth + 1
  {
    var d := source.templates[s.head];
    assert Specializes(source.templates, out.origins, out.origins[name], out.declarations[name]);
    assert AppliesTemplate(source, s);
    if depth > 0 {
      TemplateFieldsPreserved(source, out, s.head, Children(s), Canons(kids), out.declarations[name], depth - 1);
      ArgumentLayouts(source, out, s, Canons(kids), depth);
    }
  }

  lemma {:induction false} TemplateFieldsPreserved(source: Source, out: Output, head: string, a: seq<Type>,
                                                   b: seq<Type>, r: Definition, depth: nat)
    requires Declares(source, out) && NoCapture(source, out) && head in source.templates
    requires FieldsUncaptured(out.origins, ParamNames(source.templates[head].params), source.templates[head].fields)
    requires |a| == |b| && Specializes(source.templates, out.origins, Origin(source.templates[head].kind, head, b), r)
    requires forall i :: 0 <= i < |a| ==> SameLayout(source, out, a[i], b[i], depth + 1)
    ensures SourceFields(source, source.templates[head].fields,
                         Substitution(source.templates[head].params, a), depth) ==
            TargetFields(out, r.fields, depth)
    decreases 3 * depth + 3
  {
    var d := source.templates[head];
    forall i | 0 <= i < |a| ensures SameLayout(source, out, a[i], b[i], depth) {
      assert SameLayout(source, out, a[i], b[i], depth + 1);
    }
    SubstitutionNames(d.params, b);
    PairedArguments(source, out, d.params, a, b, depth);
    FieldsPreserved(source, out, Substitution(d.params, a), Substitution(d.params, b), d, r, depth);
  }

  // ----- what specialization does to a module

  lemma {:induction false} SubstituteNothing(ty: Type)
    ensures Substitute(ty, map[]) == Some(ty)
  {
    if !ty.Named? {
      forall i | 0 <= i < |Children(ty)| ensures Substitute(Children(ty)[i], map[]) == Some(Children(ty)[i]) {
        SubstituteNothing(Children(ty)[i]);
      }
      assert SubstituteAll(ty, Children(ty), map[]).value == Children(ty);
      RebuildSame(ty);
    }
  }

  /** Expanding the source type by recursive substitution and expanding the rewritten type through the emitted
      declarations give the same fields, however deep. */
  lemma PreservesLayout(source: Source, out: Output, ty: Type, r: Type, depth: nat)
    requires Declares(source, out) && NoCapture(source, out) && Uncaptured(out.origins, {}, ty)
    requires Rewrites(source.templates, out.origins, map[], ty, r)
    ensures SourceLayout(source, ty, depth) == TargetLayout(out, r, depth)
  {
    var none: map<string, Type> := map[];
    assert none.Keys == {};
    SubstituteNothing(ty);
    RewritingPreserves(source, out, none, none, ty, r, depth);
  }

  /** Every declaration the source keeps has the same layout before and after, to every depth. */
  ghost predicate LayoutsKept(source: Source, out: Output)
  {
    forall name, depth: nat :: name in source.concretes ==>
      SourceLayout(source, Named(name), depth) == TargetLayout(out, Named(name), depth)
  }

  lemma {:induction false} UncapturedKeepsLayouts(source: Source, out: Output)
    requires Declares(source, out) && NoCapture(source, out)
    ensures LayoutsKept(source, out)
  {
    forall name, depth: nat | name in source.concretes
      ensures SourceLayout(source, Named(name), depth) == TargetLayout(out, Named(name), depth)
    {
      NamePreserved(source, out, name, depth);
    }
  }
}
