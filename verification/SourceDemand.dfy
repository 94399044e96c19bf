/** Demand stated on the source alone: the template applications a module needs, the names it writes beside them, and
    the symbols these applications have. */
module SourceDemand {
  import opened Options
  import opened Chains
  import opened Types
  import opened Provenance
  import opened TextScan
  import opened TypeText
  import opened RenderFrames
  import opened SymbolNames
  import opened Abilities
  import opened Layout
  import opened Declarations

  /** `s` is a template application inside `ty`. */
  ghost predicate Contains(templates: Templates, ty: Type, s: Type)
  {
    || (s == ty && ty.Applied? && ty.head in templates)
    || exists i :: 0 <= i < |Children(ty)| && Contains(templates, Children(ty)[i], s)
  }

  ghost predicate SomeContains(templates: Templates, tys: seq<Type>, s: Type)
  {
    exists i :: 0 <= i < |tys| && Contains(templates, tys[i], s)
  }

  ghost predicate ItemNeeds(items: seq<Item>, i: nat, s: Type)
  {
    i < |items| && !IsTemplate(items[i]) && SomeContains(TemplatesOf(items), FieldTypes(items[i].definition.fields), s)
  }

  /** An application in a field of the template applied in `p`, at the arguments of `p`. */
  ghost predicate FieldNeeds(templates: Templates, p: Type, j: nat, u: Type, s: Type)
  {
    && p.Applied? && p.head in templates && |templates[p.head].params| == |Children(p)| &&
       j < |templates[p.head].fields|
    && Contains(templates, templates[p.head].fields[j].ty, u)
    && Substitute(u, Substitution(templates[p.head].params, Children(p))) == Some(s)
  }

  ghost predicate SomeItemNeeds(items: seq<Item>, s: Type)
  {
    exists i: nat :: ItemNeeds(items, i, s)
  }

  ghost predicate SomeFieldNeeds(templates: Templates, p: Type, s: Type)
  {
    exists j: nat, u: Type :: FieldNeeds(templates, p, j, u, s)
  }

  ghost function NeedRoots(items: seq<Item>): iset<Type>
  {
    iset s | SomeItemNeeds(items, s)
  }

  ghost function NeedLinks(items: seq<Item>): iset<(Type, Type)>
  {
    iset link: (Type, Type) | SomeFieldNeeds(TemplatesOf(items), link.0, link.1)
  }

  /** A kept declaration needs the application, in a field or through templates it applies. */
  ghost predicate Needed(items: seq<Item>, s: Type)
  {
    Reached(NeedRoots(items), NeedLinks(items), s)
  }

  // ----- written names

  ghost predicate SomeMentions(tys: seq<Type>, name: string)
  {
    exists i :: 0 <= i < |tys| && Mentions(tys[i], name)
  }

  ghost predicate ItemWrites(items: seq<Item>, i: nat, name: string)
  {
    i < |items| && !IsTemplate(items[i]) && SomeMentions(FieldTypes(items[i].definition.fields), name)
  }

  ghost predicate TemplateWrites(templates: Templates, head: string, name: string)
  {
    && head in templates && name !in ParamNames(templates[head].params)
    && SomeMentions(FieldTypes(templates[head].fields), name)
  }

  /** A field of a kept declaration or of a needed template mentions the name, as no parameter. */
  ghost predicate Writes(items: seq<Item>, name: string)
  {
    || (exists i: nat :: ItemWrites(items, i, name))
    || exists s: Type :: Needed(items, s) && s.Applied? && TemplateWrites(TemplatesOf(items), s.head, name)
  }

  ghost function Written(items: seq<Item>): iset<string>
  {
    iset name | Writes(items, name)
  }

  lemma {:induction false} ContainedMentions(templates: Templates, ty: Type, s: Type, name: string)
    requires Contains(templates, ty, s) && Mentions(s, name)
    ensures s.Applied? && s.head in templates && Mentions(ty, name)
  {
    if !(s == ty && ty.Applied? && ty.head in templates) {
      var i :| 0 <= i < |Children(ty)| && Contains(templates, Children(ty)[i], s);
      ContainedMentions(templates, Children(ty)[i], s, name);
    }
  }

  lemma {:induction false} ContainedApplies(templates: Templates, ty: Type, s: Type)
    requires Contains(templates, ty, s)
    ensures s.Applied? && s.head in templates
  {
    if !(s == ty && ty.Applied? && ty.head in templates) {
      var i :| 0 <= i < |Children(ty)| && Contains(templates, Children(ty)[i], s);
      ContainedApplies(templates, Children(ty)[i], s);
    }
  }

  lemma {:induction false} NeededApplies(items: seq<Item>, s: Type)
    requires Needed(items, s)
    ensures s.Applied? && s.head in TemplatesOf(items)
  {
    var templates := TemplatesOf(items);
    var all := iset x: Type | x.Applied? && x.head in templates;
    forall x | x in NeedRoots(items) ensures x in all {
      var i: nat :| ItemNeeds(items, i, x);
      var tys := FieldTypes(items[i].definition.fields);
      var j :| 0 <= j < |tys| && Contains(templates, tys[j], x);
      ContainedApplies(templates, tys[j], x);
    }
    forall link | link in NeedLinks(items) ensures link.1 in all {
      var j: nat, u: Type :| FieldNeeds(templates, link.0, j, u, link.1);
      ContainedApplies(templates, templates[link.0.head].fields[j].ty, u);
    }
    ReachedStays(NeedRoots(items), NeedLinks(items), all, s);
  }

  /** A name in a substituted type was there before, or is in a substituted value. */
  lemma {:induction false} SubstitutedMentions(ty: Type, subst: map<string, Type>, name: string)
    requires Substitute(ty, subst).Some? && Mentions(Substitute(ty, subst).value, name)
    ensures (Mentions(ty, name) && name !in subst) || exists p :: p in subst && Mentions(subst[p], name)
  {
    if !ty.Named? {
      var r := Substitute(ty, subst).value;
      var i :| 0 <= i < |Children(r)| && Mentions(Children(r)[i], name);
      SubstitutedMentions(Children(ty)[i], subst, name);
    }
  }

  /** The names in a needed application are names the module writes. */
  lemma {:induction false} NeededWrites(items: seq<Item>, s: Type, name: string)
    requires Needed(items, s) && Mentions(s, name)
    ensures Writes(items, name)
  {
    var all := iset x: Type | Needed(items, x) && (Mentions(x, name) ==> Writes(items, name));
    forall x | x in NeedRoots(items) ensures x in all {
      RootReached(NeedRoots(items), NeedLinks(items), x);
      var i: nat :| ItemNeeds(items, i, x);
      if Mentions(x, name) {
        RootWrites(items, i, x, name);
      }
    }
    forall link | link in NeedLinks(items) && link.0 in all ensures link.1 in all {
      assert (link.0, link.1) == link;
      LinkReached(NeedRoots(items), NeedLinks(items), link.0, link.1);
      if Mentions(link.1, name) {
        LinkWrites(items, link.0, link.1, name);
      }
    }
    ReachedStays(NeedRoots(items), NeedLinks(items), all, s);
  }

  lemma RootWrites(items: seq<Item>, i: nat, s: Type, name: string)
    requires ItemNeeds(items, i, s) && Mentions(s, name)
    ensures Writes(items, name)
  {
    var tys := FieldTypes(items[i].definition.fields);
    var j :| 0 <= j < |tys| && Contains(TemplatesOf(items), tys[j], s);
    ContainedMentions(TemplatesOf(items), tys[j], s, name);
    assert ItemWrites(items, i, name);
  }

  lemma LinkWrites(items: seq<Item>, p: Type, s: Type, name: string)
    requires Needed(items, p) && (Mentions(p, name) ==> Writes(items, name))
    requires (p, s) in NeedLinks(items) && Mentions(s, name)
    ensures Writes(items, name)
  {
    var templates := TemplatesOf(items);
    var j: nat, u: Type :| FieldNeeds(templates, p, j, u, s);
    var d, subst := templates[p.head], Substitution(templates[p.head].params, Children(p));
    SubstitutedMentions(u, subst, name);
    if q :| q in subst && Mentions(subst[q], name) {
      var k := SubstitutionPair(d.params, Children(p), Children(p), q);
      assert Mentions(Children(p)[k], name);
    } else {
      SubstitutionNames(d.params, Children(p));
      ContainedMentions(templates, d.fields[j].ty, u, name);
      assert FieldTypes(d.fields)[j] == d.fields[j].ty;
      assert TemplateWrites(templates, p.head, name);
    }
  }

  // ----- symbols

  /** The identity text of a source type: applications of templates keep white space, other applications lose it. */
  function SourceText(templates: Templates, ty: Type): string
    decreases ty, 1
  {
    var texts := SourceTexts(templates, ty, Children(ty));
    if ty.Applied? && ty.head in templates then ty.head + "<" + Join(texts, ",") + ">" else Frame(map[], ty, texts)
  }

  function SourceTexts(templates: Templates, parent: Type, tys: seq<Type>): (texts: seq<string>)
    requires forall i :: 0 <= i < |tys| ==> tys[i] < parent
    ensures |texts| == |tys| && forall i :: 0 <= i < |tys| ==> texts[i] == SourceText(templates, tys[i])
    decreases parent, 0, |tys|
  {
    if tys == [] then [] else [SourceText(templates, tys[0])] + SourceTexts(templates, parent, tys[1..])
  }

  /** The symbol of a template application, from the source alone. */
  function SourceSymbol(templates: Templates, s: Type): string
    requires s.Applied?
  {
    s.head + MONO_MARKER + Hex(Bytes(Join(SourceTexts(templates, s, Children(s)), ",")))
  }

  ghost predicate IsNeededSymbol(items: seq<Item>, name: string, s: Type)
  {
    Needed(items, s) && s.Applied? && name == SourceSymbol(TemplatesOf(items), s)
  }

  /** No name the module writes is the symbol of an application it needs. */
  ghost predicate SelfContained(items: seq<Item>)
  {
    forall name, s :: Writes(items, name) ==> !IsNeededSymbol(items, name, s)
  }

  /** A module that writes no name with the marker of generated symbols is self-contained. */
  lemma UnmarkedIsSelfContained(items: seq<Item>)
    requires forall name :: Writes(items, name) ==> !HasMarker(name)
    ensures SelfContained(items)
  {
    forall name, s | IsNeededSymbol(items, name, s) ensures HasMarker(name) {
      assert MarkerAt(name, |s.head|);
    }
  }
}
