/** When specialization keeps layouts: exactly when no name the module writes is a symbol it needs. */
module Captures {
  import opened Options
  import opened Chains
  import opened Types
  import opened Provenance
  import opened TextScan
  import opened TypeText
  import opened RenderFrames
  import opened SymbolNames
  import opened OriginGrowth
  import opened Abilities
  import opened Layout
  import opened Declarations
  import opened Demand
  import opened SourceDemand
  import opened Correspondence

  // ----- captured names are written names

  lemma {:induction false} UncapturedIf(origins: Origins, bound: set<string>, ty: Type)
    requires forall name :: Mentions(ty, name) && name !in bound ==> name !in origins
    ensures Uncaptured(origins, bound, ty)
  {
    forall i | 0 <= i < |Children(ty)| ensures Uncaptured(origins, bound, Children(ty)[i]) {
      assert forall name :: Mentions(Children(ty)[i], name) ==> Mentions(ty, name);
      UncapturedIf(origins, bound, Children(ty)[i]);
    }
    assert ty.Named? ==> Mentions(ty, ty.name);
  }

  lemma {:induction false} MentionCaptured(origins: Origins, bound: set<string>, ty: Type, name: string)
    requires Uncaptured(origins, bound, ty) && Mentions(ty, name) && name !in bound
    ensures name !in origins
  {
    if ty != Named(name) {
      var i :| 0 <= i < |Children(ty)| && Mentions(Children(ty)[i], name);
      MentionCaptured(origins, bound, Children(ty)[i], name);
    }
  }

  /** No retained symbol is a name the module writes. */
  ghost predicate NoneWritten(items: seq<Item>, origins: Origins)
  {
    forall name :: name in origins ==> !Writes(items, name)
  }

  lemma {:induction false} ItemUncaptured(items: seq<Item>, origins: Origins, i: nat)
    requires NoneWritten(items, origins) && i < |items| && !IsTemplate(items[i])
    ensures FieldsUncaptured(origins, {}, items[i].definition.fields)
  {
    var fields := items[i].definition.fields;
    forall j | 0 <= j < |fields| ensures Uncaptured(origins, {}, fields[j].ty) {
      assert FieldTypes(fields)[j] == fields[j].ty;
      forall name | Mentions(fields[j].ty, name) ensures name !in origins {
        assert ItemWrites(items, i, name);
      }
      UncapturedIf(origins, {}, fields[j].ty);
    }
  }

  lemma {:induction false} TemplateUncaptured(items: seq<Item>, origins: Origins, s: Type)
    requires NoneWritten(items, origins) && Needed(items, s) && s.Applied? && s.head in TemplatesOf(items)
    ensures var d := TemplatesOf(items)[s.head]; FieldsUncaptured(origins, ParamNames(d.params), d.fields)
  {
    var d := TemplatesOf(items)[s.head];
    forall j | 0 <= j < |d.fields| ensures Uncaptured(origins, ParamNames(d.params), d.fields[j].ty) {
      assert FieldTypes(d.fields)[j] == d.fields[j].ty;
      forall name | Mentions(d.fields[j].ty, name) && name !in ParamNames(d.params) ensures name !in origins {
        assert TemplateWrites(TemplatesOf(items), s.head, name);
      }
      UncapturedIf(origins, ParamNames(d.params), d.fields[j].ty);
    }
  }

  lemma {:induction false} NoneWrittenIsNoCapture(items: seq<Item>, out: Output)
    requires AllDemanded(items, out.origins) && OriginsResolved(TemplatesOf(items), out.origins)
    requires NoneWritten(items, out.origins)
    ensures NoCapture(SourceOf(items), out)
  {
    var source := SourceOf(items);
    forall name | name in source.concretes ensures FieldsUncaptured(out.origins, {}, source.concretes[name].fields) {
      var i := DeclaredNames(items, name);
      ItemUncaptured(items, out.origins, i);
    }
    forall name | name in out.origins && out.origins[name].template in source.templates
      ensures var template := source.templates[out.origins[name].template];
              FieldsUncaptured(out.origins, ParamNames(template.params), template.fields)
    {
      DemandedStands(items, out.origins, name);
      var s :| StandsFor(items, out.origins, name, s);
      NeededApplies(items, s);
      ArgumentsPair(source.templates, out.origins, s, name);
      TemplateUncaptured(items, out.origins, s);
    }
  }

  // ----- below a name

  lemma {:induction false} MetFits(origins: Origins, ty: Type, name: string, height: nat)
    requires Fits(origins, ty, height) && !Avoids(origins, ty, name, height)
    ensures Fits(origins, Named(name), height)
    decreases height
  {
    if ty != Named(name) {
      var kids := Below(origins, ty);
      var i :| 0 <= i < |kids| && !Avoids(origins, kids[i], name, height - 1);
      MetFits(origins, kids[i], name, height - 1);
      FitsMonotone(origins, Named(name), height - 1, height);
    }
  }

  /** A name in a source type is no higher than what the type is rewritten to. */
  lemma {:induction false} MentionFits(templates: Templates, origins: Origins, s: Type, r: Type, name: string,
                                       height: nat)
    requires Rewrites(templates, origins, map[], s, r) && Mentions(s, name) && Fits(origins, Canon(r), height)
    ensures Fits(origins, Named(name), height)
    decreases s
  {
    if s != Named(name) {
      var i :| 0 <= i < |Children(s)| && Mentions(Children(s)[i], name);
      var kid := RewrittenChild(templates, origins, s, r, i, height);
      MentionFits(templates, origins, Children(s)[i], kid, name, height - 1);
      FitsMonotone(origins, Named(name), height - 1, height);
    }
  }

  lemma {:induction false} RewrittenChild(templates: Templates, origins: Origins, s: Type, r: Type, i: nat, height: nat)
    returns (kid: Type)
    requires Rewrites(templates, origins, map[], s, r) && i < |Children(s)| && Fits(origins, Canon(r), height)
    ensures height > 0 && Rewrites(templates, origins, map[], Children(s)[i], kid)
    ensures Fits(origins, Canon(kid), height - 1)
  {
    FitsAllBelow(origins, Canon(r), height);
    if s.Applied? && s.head in templates {
      var kids := RequestOf(templates, origins, map[], s, r);
      assert Requested(templates, origins, s, kids, r.name);
      kid := kids[i];
      assert Below(origins, Canon(r))[i] == Canon(kid);
    } else {
      CanonRebuilds(r);
      kid := Children(r)[i];
      assert Below(origins, Canon(r))[i] == Canon(kid);
    }
  }

  // ----- a self-contained module

  /** What a run keeps of every retained origin. */
  ghost predicate EncodesOrOvertaken(items: seq<Item>, origins: Origins)
  {
    forall name :: name in origins ==> Encodes(origins, name) || Overtaken(Written(items), origins, name)
  }

  /** Up to this height every retained symbol encodes its origin, and the module does not write it. */
  ghost predicate FreeUpTo(items: seq<Item>, origins: Origins, height: nat)
  {
    forall name :: name in origins && Fits(origins, Named(name), height) ==>
      Encodes(origins, name) && !Writes(items, name)
  }

  lemma {:induction false} NotOvertaken(items: seq<Item>, origins: Origins, height: nat, name: string)
    requires FreeUpTo(items, origins, height) && name in origins && Fits(origins, Named(name), height + 1)
    ensures !Overtaken(Written(items), origins, name)
  {
    var arguments := origins[name].arguments;
    assert Below(origins, Named(name)) == arguments;
    FitsAllBelow(origins, Named(name), height + 1);
    forall other | other in origins && Meets(origins, arguments, other) ensures other !in Written(items) {
      var i :| 0 <= i < |arguments| && !Avoids(origins, arguments[i], other, height);
      MetFits(origins, arguments[i], other, height);
    }
  }

  lemma {:induction false} NeededUncaptured(items: seq<Item>, origins: Origins, height: nat, name: string, s: Type)
    requires FreeUpTo(items, origins, height) && StandsFor(items, origins, name, s)
    requires Fits(origins, Named(name), height + 1)
    ensures Uncaptured(origins, {}, s)
  {
    NeededApplies(items, s);
    forall other | Mentions(s, other) ensures other !in origins {
      NeededWrites(items, s, other);
      MentionBelow(TemplatesOf(items), origins, s, name, other, height + 1);
    }
    UncapturedIf(origins, {}, s);
  }

  lemma {:induction false} MentionBelow(templates: Templates, origins: Origins, s: Type, name: string, other: string,
                                        height: nat)
    requires s.Applied? && s.head in templates && Rewrites(templates, origins, map[], s, Named(name))
    requires Mentions(s, other)
    requires Fits(origins, Named(name), height)
    ensures height > 0 && Fits(origins, Named(other), height - 1)
  {
    var i := MentionedChild(s, other);
    CanonOfName(name);
    var kid := RewrittenChild(templates, origins, s, Named(name), i, height);
    MentionFits(templates, origins, Children(s)[i], kid, other, height - 1);
  }

  lemma MentionedChild(ty: Type, name: string) returns (i: nat)
    requires Mentions(ty, name) && !ty.Named?
    ensures i < |Children(ty)| && Mentions(Children(ty)[i], name)
  {
    i :| 0 <= i < |Children(ty)| && Mentions(Children(ty)[i], name);
  }

  lemma CanonOfName(name: string)
    ensures Canon(Named(name)) == Named(name)
  {
  }

  lemma {:induction false} FreeStep(items: seq<Item>, origins: Origins, height: nat, name: string)
    requires Sound(origins) && OriginsResolved(TemplatesOf(items), origins) && AllDemanded(items, origins)
    requires EncodesOrOvertaken(items, origins) && SelfContained(items) && FreeUpTo(items, origins, height)
    requires name in origins && Fits(origins, Named(name), height + 1)
    ensures Encodes(origins, name) && !Writes(items, name)
  {
    NotOvertaken(items, origins, height, name);
    DemandedStands(items, origins, name);
    var s :| StandsFor(items, origins, name, s);
    NeededApplies(items, s);
    NeededUncaptured(items, origins, height, name, s);
    SymbolAgrees(TemplatesOf(items), origins, s, name);
    assert IsNeededSymbol(items, name, s);
  }

  lemma {:induction false} FreeAt(items: seq<Item>, origins: Origins, height: nat)
    requires Sound(origins) && OriginsResolved(TemplatesOf(items), origins) && AllDemanded(items, origins)
    requires EncodesOrOvertaken(items, origins) && SelfContained(items)
    ensures FreeUpTo(items, origins, height)
  {
    if height > 0 {
      FreeAt(items, origins, height - 1);
      forall name | name in origins && Fits(origins, Named(name), height)
        ensures Encodes(origins, name) && !Writes(items, name)
      {
        FreeStep(items, origins, height - 1, name);
      }
    }
  }

  /** In every state of a run, a self-contained module keeps its symbols and captures no name. */
  lemma {:induction false} SelfContainedIsFree(items: seq<Item>, origins: Origins)
    requires Sound(origins) && OriginsResolved(TemplatesOf(items), origins) && AllDemanded(items, origins)
    requires EncodesOrOvertaken(items, origins) && SelfContained(items)
    ensures AllEncode(origins) && NoneWritten(items, origins)
  {
    forall name | name in origins ensures Encodes(origins, name) && !Writes(items, name) {
      var height: nat :| Fits(origins, Named(name), height);
      FreeAt(items, origins, height);
    }
  }

  /** A needed application of which no name is captured has its own symbol. */
  lemma {:induction false} NeededSymbolRetained(items: seq<Item>, out: Output, s: Type)
    requires DistinctNames(items) && Complete(SourceOf(items), out) && NoneWritten(items, out.origins)
    requires Needed(items, s)
    ensures s.Applied? && SourceSymbol(TemplatesOf(items), s) in out.origins
  {
    NeededNamed(items, out, s);
    NeededApplies(items, s);
    var name :| StandsFor(items, out.origins, name, s);
    ArgumentsPair(TemplatesOf(items), out.origins, s, name);
    forall other | Mentions(s, other) ensures other !in out.origins {
      NeededWrites(items, s, other);
    }
    UncapturedIf(out.origins, {}, s);
    SymbolAgrees(TemplatesOf(items), out.origins, s, name);
  }

  lemma {:induction false} FreeIsSelfContained(items: seq<Item>, out: Output)
    requires DistinctNames(items) && Complete(SourceOf(items), out) && NoneWritten(items, out.origins)
    ensures SelfContained(items)
  {
    forall name, s | Writes(items, name) && Needed(items, s) ensures !IsNeededSymbol(items, name, s) {
      NeededSymbolRetained(items, out, s);
    }
  }
}
