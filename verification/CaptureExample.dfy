/** A module that the monomorphizer accepts although it is not self-contained: a field mentions the symbol of the
    application beside it. */
module CaptureExample {
  import opened Options
  import opened Chains
  import opened Types
  import opened Provenance
  import opened TextScan
  import opened TypeText
  import opened RenderFrames
  import opened SymbolNames
  import opened OriginGrowth
  import opened Abilities
  import opened Layout
  import opened Declarations
  import opened Demand
  import opened SourceDemand
  import opened Correspondence
  import opened Worklist
  import opened Rejections
  import opened Monomorphization

  const SYMBOL := "Box__mono__753634"
  const BOXED := Applied("Box", [TypeArg(Prim(U64))])
  const BOX := Item("Box", false, Definition(Struct, [Param("T", {}, false)], {}, [], [Field(0, "value", Named("T"))]))
  const HOLDER := Item("S", false, Definition(Struct, [], {}, [], [Field(0, "a", Named(SYMBOL)), Field(0, "b", BOXED)]))

  /** `struct Box<T> { value: T }` and `struct S { a: Box__mono__753634, b: Box<u64> }`. */
  const MODULE := [BOX, HOLDER]

  const BOX_TEMPLATE := Definition(Struct, [Param("T", {}, false)], {}, [], [Field(0, "value", Named("T"))])

  // ----- the symbol

  lemma BytesOf(c: char, rest: string)
    requires c < '\U{80}'
    ensures Bytes([c] + rest) == [c as int] + Bytes(rest)
  {
    assert ([c] + rest)[1..] == rest;
  }

  lemma HexOf(byte: nat, rest: seq<nat>)
    requires byte < 256 && forall i :: 0 <= i < |rest| ==> rest[i] < 256
    ensures Hex([byte] + rest) == [HexDigit(byte / 16), HexDigit(byte % 16)] + Hex(rest)
  {
    assert ([byte] + rest)[1..] == rest;
  }

  lemma BytesOfText()
    ensures Bytes("u64") == [0x75, 0x36, 0x34]
  {
    BytesOf('4', "");
    BytesOf('6', "4");
    BytesOf('u', "64");
    assert "4" == ['4'] + "" && "64" == ['6'] + "4" && "u64" == ['u'] + "64";
  }

  lemma HexOfText()
    ensures Hex([0x75, 0x36, 0x34]) == "753634"
  {
    HexOf(0x34, []);
    HexOf(0x36, [0x34]);
    HexOf(0x75, [0x36, 0x34]);
    assert [0x34] == [0x34] + [] && [0x36, 0x34] == [0x36] + [0x34] && [0x75, 0x36, 0x34] == [0x75] + [0x36, 0x34];
  }

  lemma SymbolOfBox(encoded: string) returns (symbol: string)
    requires encoded == Hex(Bytes("u64"))
    ensures symbol == "Box" + MONO_MARKER + encoded == SYMBOL && |Bytes(symbol)| <= MAX_MONOMORPH_NAME_BYTES
  {
    BytesOfText();
    HexOfText();
    symbol := "Box" + MONO_MARKER + encoded;
    ShortSymbol(symbol);
  }

  lemma ShortSymbol(symbol: string)
    requires symbol == SYMBOL
    ensures |Bytes(symbol)| <= MAX_MONOMORPH_NAME_BYTES
  {
    AsciiBytes(symbol);
  }

  lemma {:induction false} AsciiBytes(s: string)
    requires forall i :: 0 <= i < |s| ==> s[i] < '\U{80}'
    ensures |Bytes(s)| == |s|
  {
    if s != [] {
      AsciiBytes(s[1..]);
    }
  }

  lemma SymbolIsName()
    ensures HasMarker(SYMBOL) && Nominal(SYMBOL) && SYMBOL != "T"
  {
    assert MarkerAt(SYMBOL, 3);
  }

  // ----- what the module needs

  lemma NoAbilityGuaranteed()
    ensures WithAbilities(BOX.definition) == BOX_TEMPLATE
  {
    var params, fields := BOX.definition.params, FieldTypes(BOX.definition.fields);
    assert params[..0] == [] && fields == [Named("T")];
    assert Constraints(params) == map["T" := {}];
    assert Guaranteed(Named("T"), Constraints(params)) == {};
  }

  lemma TemplatesAre()
    ensures TemplatesOf(MODULE) == map["Option" := OptionTemplate(), "Box" := BOX_TEMPLATE]
  {
    NoAbilityGuaranteed();
    assert MODULE[..1] == [BOX] && [BOX][..0] == [];
    assert TemplatesOf([BOX]) == map["Option" := OptionTemplate(), "Box" := BOX_TEMPLATE];
  }

  lemma ContainedInBoxed(templates: Templates, s: Type)
    requires Contains(templates, BOXED, s)
    ensures s == BOXED
  {
    assert Children(BOXED) == [Prim(U64)];
    assert Children(Prim(U64)) == [];
  }

  lemma ContainedInName(templates: Templates, name: string, s: Type)
    ensures !Contains(templates, Named(name), s)
  {
  }

  lemma HolderNeeds(i: nat, s: Type)
    requires ItemNeeds(MODULE, i, s)
    ensures s == BOXED
  {
    var tys := FieldTypes(HOLDER.definition.fields);
    assert i == 1 && MODULE[i] == HOLDER && tys == [Named(SYMBOL), BOXED];
    var j :| 0 <= j < |tys| && Contains(TemplatesOf(MODULE), tys[j], s);
    ContainedInName(TemplatesOf(MODULE), SYMBOL, s);
    ContainedInBoxed(TemplatesOf(MODULE), s);
  }

  lemma BoxNeedsNothing(j: nat, u: Type, s: Type)
    ensures !FieldNeeds(TemplatesOf(MODULE), BOXED, j, u, s)
  {
    TemplatesAre();
    ContainedInName(TemplatesOf(MODULE), "T", u);
  }

  /** `Box<u64>` is all the module needs. */
  lemma OnlyBoxNeeded(s: Type)
    requires Needed(MODULE, s)
    ensures s == BOXED
  {
    var all := iset{BOXED};
    forall x | x in NeedRoots(MODULE) ensures x in all {
      var i: nat :| ItemNeeds(MODULE, i, x);
      HolderNeeds(i, x);
    }
    forall link | link in NeedLinks(MODULE) ensures link.0 !in all {
      var j: nat, u: Type :| FieldNeeds(TemplatesOf(MODULE), link.0, j, u, link.1);
      BoxNeedsNothing(j, u, link.1);
    }
    ReachedStays(NeedRoots(MODULE), NeedLinks(MODULE), all, s);
  }

  lemma BoxNeeded()
    ensures Needed(MODULE, BOXED)
  {
    TemplatesAre();
    var tys := FieldTypes(HOLDER.definition.fields);
    assert tys[1] == BOXED && Contains(TemplatesOf(MODULE), tys[1], BOXED);
    assert MODULE[1] == HOLDER && ItemNeeds(MODULE, 1, BOXED);
    assert BOXED in NeedRoots(MODULE);
    RootReached(NeedRoots(MODULE), NeedLinks(MODULE), BOXED);
  }

  lemma SourceSymbolOfBox(templates: Templates)
    ensures SourceSymbol(templates, BOXED) == SYMBOL
  {
    assert Children(BOXED) == [Prim(U64)];
    var texts := SourceTexts(templates, BOXED, Children(BOXED));
    assert SourceText(templates, Prim(U64)) == "u64";
    assert texts == ["u64"];
    var symbol := SymbolOfBox(Hex(Bytes("u64")));
  }

  /** The module writes the symbol of an application it needs. */
  lemma NotSelfContained()
    ensures !SelfContained(MODULE)
  {
    BoxNeeded();
    SourceSymbolOfBox(TemplatesOf(MODULE));
    var tys := FieldTypes(HOLDER.definition.fields);
    assert tys[0] == Named(SYMBOL) && Mentions(tys[0], SYMBOL);
    assert MODULE[1] == HOLDER && ItemWrites(MODULE, 1, SYMBOL);
    assert IsNeededSymbol(MODULE, SYMBOL, BOXED);
  }

  // ----- what a run retains

  const ORIGIN := Origin(Struct, "Box", [Prim(U64)])

  lemma PrimFits(origins: Origins, height: nat)
    requires height > 0
    ensures Fits(origins, Prim(U64), height) && AllFits(origins, ORIGIN.arguments, height)
    ensures CanonicalText(origins, ORIGIN.arguments, height) == "u64"
  {
    assert Below(origins, Prim(U64)) == [];
    assert RenderAll(origins, ORIGIN.arguments, height) == ["u64"];
  }

  lemma SymbolOfOrigin(origins: Origins, height: nat)
    requires AllFits(origins, ORIGIN.arguments, height)
    ensures MonomorphName("Box", ORIGIN.arguments, origins, height) == Some(SYMBOL)
  {
    assert ORIGIN.arguments[0] == Prim(U64) && height > 0;
    PrimFits(origins, height);
    var symbol := SymbolOfBox(Hex(Bytes("u64")));
  }

  lemma RetainedForBox(origins: Origins, name: string)
    requires Rewrites(TemplatesOf(MODULE), origins, map[], BOXED, Named(name))
    ensures name in origins && origins[name] == ORIGIN
  {
    TemplatesAre();
    var kids := RequestOf(TemplatesOf(MODULE), origins, map[], BOXED, Named(name));
    KidsOfBoxed(TemplatesOf(MODULE), origins, kids);
    assert Requested(TemplatesOf(MODULE), origins, BOXED, kids, name);
  }

  lemma KidsOfBoxed(templates: Templates, origins: Origins, kids: seq<Type>)
    requires AllRewrites(templates, origins, map[], Children(BOXED), kids)
    ensures kids == [Prim(U64)] && Canons(kids) == [Prim(U64)]
  {
    assert Children(BOXED) == [Prim(U64)] && Rewrites(templates, origins, map[], Children(BOXED)[0], kids[0]);
  }

  lemma NotLost(written: iset<string>, origins: Origins, name: string)
    requires name in origins && origins[name] == ORIGIN
    ensures !Overtaken(written, origins, name)
  {
    forall other ensures !Meets(origins, ORIGIN.arguments, other) {
      PrimFits(origins, 1);
      assert Avoids(origins, Prim(U64), other, 1);
    }
  }

  lemma RetainedOrigin(origins: Origins, name: string)
    requires Demanded(MODULE, origins, name) && OriginsResolved(TemplatesOf(MODULE), origins)
    ensures name in origins && origins[name] == ORIGIN
  {
    DemandedStands(MODULE, origins, name);
    var s :| StandsFor(MODULE, origins, name, s);
    OnlyBoxNeeded(s);
    RetainedForBox(origins, name);
  }

  lemma RetainedSymbol(templates: Templates, written: iset<string>, origins: Origins, name: string)
    requires name in origins && origins[name] == ORIGIN && Retained(templates, written, origins, name)
    ensures name == SYMBOL && Encodes(origins, name)
  {
    NotLost(written, origins, name);
    PrimFits(origins, 1);
    SymbolOfOrigin(origins, 1);
  }

  /** The origins of a state of the run: the symbol, or nothing yet. */
  ghost predicate OnlyBox(origins: Origins)
  {
    forall name :: name in origins ==> name == SYMBOL && origins[name] == ORIGIN && Encodes(origins, name)
  }

  lemma RetainsOnlyBox(env: Env)
    requires Coherent(MODULE, env)
    ensures OnlyBox(env.origins)
  {
    RetainedResolved(env.templates, Written(MODULE), env.origins);
    forall name | name in env.origins
      ensures name == SYMBOL && env.origins[name] == ORIGIN && Encodes(env.origins, name)
    {
      RetainedOrigin(env.origins, name);
      assert Retained(env.templates, Written(MODULE), env.origins, name);
      RetainedSymbol(env.templates, Written(MODULE), env.origins, name);
    }
  }

  // ----- nothing stops the run

  lemma AtMostOne(origins: Origins)
    requires OnlyBox(origins)
    ensures |origins| <= 1
  {
    assert origins.Keys <= {SYMBOL};
    SubsetAtMost(origins.Keys, {SYMBOL});
  }

  lemma ProvenanceBounded(origins: Origins)
    requires OnlyBox(origins)
    ensures BoundedProvenance(origins, MAX_GENERIC_NESTING)
  {
    forall name | name in origins ensures Fits(origins, Named(name), MAX_GENERIC_NESTING) {
      PrimFits(origins, MAX_GENERIC_NESTING - 1);
      assert Below(origins, Named(name)) == [Prim(U64)];
    }
    AllFitIsBounded(origins, MAX_GENERIC_NESTING);
  }

  lemma RequestNotRefused(origins: Origins)
    requires OnlyBox(origins)
    ensures !Refused(origins, Struct, "Box", [Prim(U64)])
  {
    assert Canons([Prim(U64)]) == ORIGIN.arguments;
    assert Children(Prim(U64)) == [] && TypeNesting(Prim(U64)) == 1;
    forall height: nat | AllFits(origins, ORIGIN.arguments, height) ensures !Clashes(origins, ORIGIN, height) {
      SymbolOfOrigin(origins, height);
    }
  }

  lemma PrimNotStuck(templates: Templates, origins: Origins)
    ensures !Stuck(templates, origins, map[], Prim(U64))
  {
    assert Children(Prim(U64)) == [];
  }

  lemma BoxedNamed(origins: Origins)
    requires OnlyBox(origins)
    ensures "Box" in TemplatesOf(MODULE) && !Unnamed(TemplatesOf(MODULE), origins, map[], BOXED)
  {
    TemplatesAre();
    RequestNotRefused(origins);
    forall kids: seq<Type> | AllRewrites(TemplatesOf(MODULE), origins, map[], Children(BOXED), kids)
      ensures kids == [Prim(U64)]
    {
      KidsOfBoxed(TemplatesOf(MODULE), origins, kids);
    }
  }

  lemma HolderNotStuck(origins: Origins)
    requires OnlyBox(origins)
    ensures !SomeStuck(TemplatesOf(MODULE), origins, map[], FieldTypes(HOLDER.definition.fields))
  {
    SymbolIsName();
    PrimNotStuck(TemplatesOf(MODULE), origins);
    BoxedNamed(origins);
    assert Children(BOXED) == [Prim(U64)];
    assert FieldTypes(HOLDER.definition.fields) == [Named(SYMBOL), BOXED];
  }

  lemma HolderNotBlocked(env: Env)
    requires env.templates == TemplatesOf(MODULE) && OnlyBox(env.origins)
    ensures !ItemBlocked(env, HOLDER)
  {
    HolderNotStuck(env.origins);
  }

  lemma BoxAdmitted(env: Env)
    ensures InstantiationAdmitted(env, BOX_TEMPLATE.params, [Prim(U64)])
  {
    assert Children(Prim(U64)) == [] && TypeNesting(Prim(U64)) == 1;
    assert AbilitiesFor(env, Prim(U64), {}) == FIXED_VALUE;
  }

  lemma BoxNotBlocked(env: Env)
    requires env.templates == TemplatesOf(MODULE)
    ensures "Box" in env.templates && !RequestBlocked(env, ORIGIN)
  {
    TemplatesAre();
    BoxAdmitted(env);
    var subst := Substitution(BOX_TEMPLATE.params, ORIGIN.arguments);
    assert subst == map["T" := Prim(U64)];
    PrimNotStuck(env.templates, env.origins);
    assert FieldTypes(BOX_TEMPLATE.fields) == [Named("T")];
  }

  /** No state of the run is blocked. */
  lemma NeverBlocked(env: Env)
    requires Coherent(MODULE, env)
    ensures !Blocked(MODULE, env)
  {
    RetainsOnlyBox(env);
    NothingBlocks(env);
  }

  lemma NothingBlocks(env: Env)
    requires env.templates == TemplatesOf(MODULE) && OnlyBox(env.origins)
    ensures !Blocked(MODULE, env)
  {
    AtMostOne(env.origins);
    ProvenanceBounded(env.origins);
    NoItemBlocked(env);
    NoRequestBlocked(env);
  }

  lemma NoItemBlocked(env: Env)
    requires env.templates == TemplatesOf(MODULE) && OnlyBox(env.origins)
    ensures !SomeItemBlocked(MODULE, env)
  {
    HolderNotBlocked(env);
    assert MODULE[0] == BOX && MODULE[1] == HOLDER;
  }

  lemma NoRequestBlocked(env: Env)
    requires env.templates == TemplatesOf(MODULE) && OnlyBox(env.origins)
    ensures !SomeRequestBlocked(env)
  {
    BoxNotBlocked(env);
  }

  lemma BoxAllowed()
    ensures TemplateAllowed(BOX.definition)
  {
    NoAbilityGuaranteed();
    ParamAllowed(BOX.definition.params);
    assert UsesParam(BOX.definition.fields[0].ty, "T");
  }

  lemma ParamAllowed(params: seq<Param>)
    requires |params| == 1 && |params[0].name| == 1 && params[0].constraints == {}
    ensures ParamsAllowed(params)
  {
    var p := PrimitiveOf(params[0].name);
    assert p.Some? ==> |PrimitiveText(p.value)| == 1;
  }

  lemma NamesUnmarked()
    ensures !HasMarker("Box") && !HasMarker("S")
  {
    assert forall i :: 0 <= i <= 3 ==> !MarkerAt("Box", i);
    assert forall i :: 0 <= i <= 1 ==> !MarkerAt("S", i);
  }

  lemma TwoAllowed(a: Item, b: Item)
    requires !HasMarker(a.name) && !HasMarker(b.name) && |a.name| <= 3 && |b.name| <= 3
    requires TemplateAllowed(a.definition) && !IsTemplate(b)
    ensures DeclarationsAllowed([a, b])
  {
  }

  lemma NamesFine()
    ensures DistinctNames(MODULE) && DeclarationsAllowed(MODULE)
  {
    BoxAllowed();
    NamesUnmarked();
    assert |BOX.name| == 3 && |HOLDER.name| == 1;
    TwoAllowed(BOX, HOLDER);
  }

  /** The monomorphizer accepts the module, and the layout of a declaration changes. */
  method AcceptedAndChanged() returns (r: Option<Specialized>)
    ensures r.Some? && !LayoutsKept(SourceOf(MODULE), Output(DeclarationsOf(r.value.items), r.value.origins))
  {
    NamesFine();
    ghost var last;
    r, last := Monomorphize(MODULE);
    if r.None? {
      NeverBlocked(last);
    }
    NotSelfContained();
  }
}
