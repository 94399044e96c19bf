/** Two modules that differ in the name of one template: the run accepts one and refuses the other, because the least
    key is emitted first and emission discloses a Cell. */
module OrderExample {
  import opened Options
  import opened Types
  import opened Provenance
  import opened TextScan
  import opened TypeText
  import opened RenderFrames
  import opened SymbolNames
  import opened OriginGrowth
  import opened Abilities
  import opened AbilityGrowth
  import opened AdmissionOrder
  import opened Layout
  import opened Declarations
  import opened Worklist
  import opened Execution
  import opened CaptureExample
  import opened Monomorphization
  import StringOrder

  const WORD: Type := Prim(U64)
  const OPEN: Param := Param("T", {}, false)
  const CELL: Item := Item("C", true, Definition(Struct, [], {}, [], []))
  const WRAP: Item :=
    Item("Wrap", false,
         Definition(Struct, [Param("T", {}, true)], {Fixed, Serializable}, [], [Field(0, "c", Named("C"))]))
  const OUTER: Item :=
    Item("Outer", false, Definition(Struct, [OPEN], {Fixed, Serializable}, [],
                                    [Field(0, "w", Applied("Wrap", [TypeArg(Named("T"))])), Field(0, "t", Named("T"))]))
  const OUTER_WORD: Type := Applied("Outer", [TypeArg(WORD)])

  function Boxing(box: string): Item
  {
    Item(box, false, Definition(Struct, [OPEN], {}, [], [Field(0, "v", Named("T"))]))
  }

  function Holding(box: string): Item
  {
    Item("S", false, Definition(Struct, [], {}, [], [Field(0, "v", Applied(box, [TypeArg(OUTER_WORD)]))]))
  }

  /** `resource C`, `struct Wrap<phantom T> { c: C }`, `struct Outer<T> { w: Wrap<T>, t: T }`, `struct box<T> { v: T }`
      and `struct S { v: box<Outer<u64>> }`. */
  function Module(box: string): seq<Item>
  {
    [CELL, WRAP, OUTER, Boxing(box), Holding(box)]
  }

  // ----- outcomes of small types

  lemma PrimOutcome(templates: Templates, origins: Origins, subst: map<string, Type>)
    ensures TypeOutcome(templates, origins, subst, WORD) == Outcome(Some(WORD), origins)
  {
    assert Children(WORD) == [];
  }

  lemma NameOutcome(templates: Templates, origins: Origins, subst: map<string, Type>, name: string)
    requires name !in subst && Nominal(name)
    ensures TypeOutcome(templates, origins, subst, Named(name)) == Outcome(Some(Named(name)), origins)
  {
  }

  lemma ParamOutcome(templates: Templates, origins: Origins, subst: map<string, Type>, name: string, r: Outcome<Type>)
    requires name in subst && r == TypeOutcome(templates, origins, map[], subst[name])
    ensures TypeOutcome(templates, origins, subst, Named(name)) == r
  {
  }

  lemma NoneOutcome(templates: Templates, origins: Origins, subst: map<string, Type>, parent: Type, tys: seq<Type>)
    requires tys == []
    ensures TypesOutcome(templates, origins, subst, parent, tys) == Outcome(Some([]), origins)
  {
  }

  lemma OneOutcome(templates: Templates, origins: Origins, subst: map<string, Type>, parent: Type, ty: Type,
                   r: Outcome<Type>)
    requires ty < parent && r == TypeOutcome(templates, origins, subst, ty) && r.result.Some?
    ensures TypesOutcome(templates, origins, subst, parent, [ty]) == Outcome(Some([r.result.value]), r.origins)
  {
    var none: seq<Type> := [];
    assert none + [ty] == [ty] && none + [r.result.value] == [r.result.value];
    NoneOutcome(templates, origins, subst, parent, none);
    TypesMore(templates, origins, subst, parent, none, ty, Outcome(Some(none), origins), r);
  }

  lemma TwoOutcome(templates: Templates, origins: Origins, subst: map<string, Type>, parent: Type, a: Type, b: Type,
                   r: Outcome<Type>, q: Outcome<Type>)
    requires a < parent && b < parent && r == TypeOutcome(templates, origins, subst, a) && r.result.Some?
    requires q == TypeOutcome(templates, r.origins, subst, b) && q.result.Some?
    ensures TypesOutcome(templates, origins, subst, parent, [a, b]) ==
            Outcome(Some([r.result.value, q.result.value]), q.origins)
  {
    OneOutcome(templates, origins, subst, parent, a, r);
    TypesMore(templates, origins, subst, parent, [a], b, Outcome(Some([r.result.value]), r.origins), q);
    assert [a] + [b] == [a, b] && [r.result.value] + [q.result.value] == [r.result.value, q.result.value];
  }

  lemma AppliedOutcome(templates: Templates, origins: Origins, subst: map<string, Type>, head: string, argument: Type,
                       r: Outcome<Type>, name: Outcome<string>)
    requires head in templates && head !in subst && r == TypeOutcome(templates, origins, subst, argument)
    requires r.result.Some? && name == Naming(r.origins, templates[head].kind, head, [r.result.value])
    requires name.result.Some?
    ensures TypeOutcome(templates, origins, subst, Applied(head, [TypeArg(argument)])) ==
            Outcome(Some(Named(name.result.value)), name.origins)
  {
    var ty := Applied(head, [TypeArg(argument)]);
    assert Children(ty) == [argument] && OnlyTypes(ty);
    assert argument == Children(ty)[0] && argument < ty;
    OneOutcome(templates, origins, subst, ty, argument, r);
  }

  lemma OneFieldOutcome(templates: Templates, origins: Origins, subst: map<string, Type>, field: Field,
                        r: Outcome<Type>)
    requires r == TypeOutcome(templates, origins, subst, field.ty) && r.result.Some?
    ensures FieldsOutcome(templates, origins, subst, [field]) ==
            Outcome(Some([field.(ty := r.result.value)]), r.origins)
  {
    var fields := [field];
    assert FieldTypes(fields) == [field.ty] && FieldTypes(fields)[0] == field.ty;
    OneOutcome(templates, origins, subst, Tuple(FieldTypes(fields)), field.ty, r);
    assert WithTypes(fields, [r.result.value]) == [field.(ty := r.result.value)];
  }

  lemma TwoFieldsOutcome(templates: Templates, origins: Origins, subst: map<string, Type>, a: Field, b: Field,
                         r: Outcome<Type>, q: Outcome<Type>)
    requires r == TypeOutcome(templates, origins, subst, a.ty) && r.result.Some?
    requires q == TypeOutcome(templates, r.origins, subst, b.ty) && q.result.Some?
    ensures FieldsOutcome(templates, origins, subst, [a, b]) ==
            Outcome(Some([a.(ty := r.result.value), b.(ty := q.result.value)]), q.origins)
  {
    var fields := [a, b];
    assert FieldTypes(fields) == [a.ty, b.ty] && FieldTypes(fields)[0] == a.ty && FieldTypes(fields)[1] == b.ty;
    TwoOutcome(templates, origins, subst, Tuple(FieldTypes(fields)), a.ty, b.ty, r, q);
    assert WithTypes(fields, [r.result.value, q.result.value]) ==
           [a.(ty := r.result.value), b.(ty := q.result.value)];
  }

  // ----- symbols

  function Symbol(template: string, text: string): string
  {
    template + MONO_MARKER + Hex(Bytes(text))
  }

  predicate Ascii(s: string)
  {
    forall i :: 0 <= i < |s| ==> s[i] < '\U{80}'
  }

  lemma {:induction false} HexIsAscii(bytes: seq<nat>)
    requires forall i :: 0 <= i < |bytes| ==> bytes[i] < 256
    ensures Ascii(Hex(bytes))
  {
    if bytes != [] {
      HexIsAscii(bytes[1..]);
    }
  }

  lemma SymbolIsShort(template: string, text: string)
    requires Ascii(template) && Ascii(text) && |template| + 2 * |text| <= 1000
    ensures |Bytes(Symbol(template, text))| <= MAX_MONOMORPH_NAME_BYTES
  {
    HexIsAscii(Bytes(text));
    AsciiBytes(text);
    assert Ascii(MONO_MARKER);
    AsciiBytes(Symbol(template, text));
  }

  lemma SymbolOfArgument(origins: Origins, kind: Kind, template: string, argument: Type, text: string, height: nat)
    requires Fits(origins, argument, height) && Render(origins, argument, height) == text
    requires Ascii(template) && Ascii(text) && |template| + 2 * |text| <= 1000
    ensures SymbolOf(origins, Origin(kind, template, [argument])) == Some(Symbol(template, text))
  {
    var origin := Origin(kind, template, [argument]);
    assert AllFits(origins, origin.arguments, height);
    assert RenderAll(origins, origin.arguments, height) == [text];
    SymbolIs(origins, origin, height);
    SymbolIsShort(template, text);
  }

  lemma WordFits(origins: Origins)
    ensures Fits(origins, WORD, 1) && Render(origins, WORD, 1) == "u64"
  {
    assert Below(origins, WORD) == [];
  }

  lemma NameFits(origins: Origins, name: string)
    requires name in origins && origins[name].arguments == [WORD]
    ensures Fits(origins, Named(name), 2) && Render(origins, Named(name), 2) == origins[name].template + "<u64>"
  {
    WordFits(origins);
    assert Below(origins, Named(name)) == [WORD];
    assert RenderAll(origins, origins[name].arguments, 1) == ["u64"];
    assert origins[name].template + "<" + "u64" + ">" == origins[name].template + "<u64>";
  }

  lemma NamingOutcome(origins: Origins, kind: Kind, base: string, argument: Type, symbol: string)
    requires argument == WORD || argument.Named?
    requires SymbolOf(origins, Origin(kind, base, [argument])) == Some(symbol) && symbol !in origins
    ensures Naming(origins, kind, base, [argument]) ==
            Outcome(Some(symbol), origins[symbol := Origin(kind, base, [argument])])
  {
    assert Children(argument) == [] && TypeNesting(argument) == 1;
    assert Canons([argument]) == [argument];
  }

  // ----- the module

  /** A short name that the module does not use otherwise. */
  predicate Free(box: string)
  {
    0 < |box| < 8 && Ascii(box) && Nominal(box) && box !in {"C", "S", "T", "Wrap", "Outer", "Option"}
  }

  function ModuleTemplates(box: string): Templates
  {
    map["Option" := OptionTemplate(), "Wrap" := WRAP.definition, "Outer" := OUTER.definition,
        box := Boxing(box).definition]
  }

  lemma NothingDerived(box: string)
    ensures WithAbilities(Boxing(box).definition) == Boxing(box).definition
  {
    var params, fields := Boxing(box).definition.params, FieldTypes(Boxing(box).definition.fields);
    assert params[..0] == [] && fields == [Named("T")];
    assert Constraints(params) == map["T" := {}];
    assert Guaranteed(Named("T"), Constraints(params)) == {};
  }

  lemma TemplatesMore(items: seq<Item>, item: Item)
    ensures TemplatesOf(items + [item]) ==
            if IsTemplate(item) then TemplatesOf(items)[item.name := WithAbilities(item.definition)]
            else TemplatesOf(items)
    ensures ConcretesOf(items + [item]) ==
            if item.cell || IsTemplate(item) then ConcretesOf(items)
            else ConcretesOf(items)[item.name :=
                                    Concrete(item.definition.abilities, FieldTypes(item.definition.fields))]
  {
    assert (items + [item])[..|items|] == items;
  }

  lemma ModuleParts(box: string)
    requires Free(box)
    ensures TemplatesOf(Module(box)) == ModuleTemplates(box) && CellTypesOf(Module(box)) == {"C"}
    ensures ConcretesOf(Module(box)) == map["S" := Concrete({}, [Applied(box, [TypeArg(OUTER_WORD)])])]
  {
    var none: seq<Item> := [];
    var one, two, three, four := [CELL], [CELL, WRAP], [CELL, WRAP, OUTER], [CELL, WRAP, OUTER, Boxing(box)];
    TemplatesMore(none, CELL);
    TemplatesMore(one, WRAP);
    TemplatesMore(two, OUTER);
    TemplatesMore(three, Boxing(box));
    TemplatesMore(four, Holding(box));
    assert none + [CELL] == one && one + [WRAP] == two && two + [OUTER] == three && three + [Boxing(box)] == four;
    assert four + [Holding(box)] == Module(box);
    NothingDerived(box);
    assert FieldTypes(Holding(box).definition.fields) == [Applied(box, [TypeArg(OUTER_WORD)])];
    assert Module(box)[0] == CELL && CELL.name == "C";
  }

  lemma SingleSubstitution(param: Param, argument: Type)
    ensures Substitution([param], [argument]) == map[param.name := argument]
  {
    var params, arguments := [param], [argument];
    assert params[..0] == [] && arguments[..0] == [];
    assert Substitution(params[..0], arguments[..0]) == map[];
  }

  lemma ArgumentSubstituted(head: string, param: string, argument: Type)
    requires head != param
    ensures Substitute(Applied(head, [TypeArg(Named(param))]), map[param := argument]) ==
            Some(Applied(head, [TypeArg(argument)]))
  {
    var ty, kids, subst := Applied(head, [TypeArg(Named(param))]), [Named(param)], map[param := argument];
    assert Children(ty) == kids && Substitute(kids[0], subst) == Some(argument);
    var below := SubstituteAll(ty, Children(ty), subst);
    assert below.Some? && below.value == [argument];
    assert Rebuild(ty, below.value) == Applied(head, [TypeArg(argument)]);
  }

  // ----- the names that are retained

  const OUTER_ORIGIN: Origin := Origin(Struct, "Outer", [WORD])
  const WRAP_ORIGIN: Origin := Origin(Struct, "Wrap", [WORD])

  /** The symbols of `Outer<u64>`, `Wrap<u64>` and the box of the first. */
  datatype Names = Names(outer: string, wrap: string, boxed: string)

  function BoxOrigin(box: string, n: Names): Origin
  {
    Origin(Struct, box, [Named(n.outer)])
  }

  predicate Holds(origins: Origins, name: string, origin: Origin)
  {
    name in origins && origins[name] == origin
  }

  /** A name no declaration of the module has. */
  predicate Generated(name: string)
  {
    |name| >= 8 && Nominal(name)
  }

  /** The names are the symbols, whatever else is retained; what is known of them otherwise. */
  ghost predicate Right(box: string, n: Names)
  {
    && (forall origins :: SymbolOf(origins, OUTER_ORIGIN) == Some(n.outer))
    && (forall origins :: SymbolOf(origins, WRAP_ORIGIN) == Some(n.wrap))
    && (forall origins :: Holds(origins, n.outer, OUTER_ORIGIN) ==>
          SymbolOf(origins, BoxOrigin(box, n)) == Some(n.boxed))
    && n.outer != n.wrap && n.outer != n.boxed && n.wrap != n.boxed
    && Generated(n.outer) && Generated(n.wrap) && Generated(n.boxed)
    && n.outer[0] == 'O' && n.wrap[0] == 'W'
  }

  lemma {:induction false} HexIsNominal(bytes: seq<nat>)
    requires forall i :: 0 <= i < |bytes| ==> bytes[i] < 256
    ensures Nominal(Hex(bytes))
  {
    if bytes != [] {
      HexIsNominal(bytes[1..]);
    }
  }

  lemma SymbolIsGenerated(template: string, text: string)
    requires Nominal(template) && template != []
    ensures Generated(Symbol(template, text)) && Symbol(template, text)[0] == template[0]
  {
    HexIsNominal(Bytes(text));
    assert Nominal(MONO_MARKER);
  }

  lemma SymbolsApart(a: string, x: string, b: string, y: string)
    requires a != b
    ensures Symbol(a, x) != Symbol(b, y)
  {
    if Symbol(a, x) == Symbol(b, y) {
      MarkerSplits(a, b, Hex(Bytes(x)), Hex(Bytes(y)));
    }
  }

  lemma WordSymbol(origins: Origins, template: string, text: string)
    requires Ascii(template) && |template| <= 8 && text == "u64"
    ensures SymbolOf(origins, Origin(Struct, template, [WORD])) == Some(Symbol(template, text))
  {
    WordFits(origins);
    SymbolOfArgument(origins, Struct, template, WORD, text, 1);
  }

  lemma BoxSymbol(box: string, origins: Origins, outer: string, text: string)
    requires Free(box) && Holds(origins, outer, OUTER_ORIGIN) && text == "Outer<u64>"
    ensures SymbolOf(origins, Origin(Struct, box, [Named(outer)])) == Some(Symbol(box, text))
  {
    assert "Outer" + "<u64>" == text;
    NameFits(origins, outer);
    SymbolOfArgument(origins, Struct, box, Named(outer), text, 2);
  }

  lemma RightNames(box: string, word: string, text: string) returns (n: Names)
    requires Free(box) && word == "u64" && text == "Outer<u64>"
    ensures Right(box, n) && n == Names(Symbol("Outer", word), Symbol("Wrap", word), Symbol(box, text))
  {
    n := Names(Symbol("Outer", word), Symbol("Wrap", word), Symbol(box, text));
    SymbolIsGenerated("Outer", word);
    SymbolIsGenerated("Wrap", word);
    SymbolIsGenerated(box, text);
    SymbolsApart("Outer", word, "Wrap", word);
    SymbolsApart("Outer", word, box, text);
    SymbolsApart("Wrap", word, box, text);
    forall origins ensures SymbolOf(origins, OUTER_ORIGIN) == Some(n.outer) {
      WordSymbol(origins, "Outer", word);
    }
    forall origins ensures SymbolOf(origins, WRAP_ORIGIN) == Some(n.wrap) {
      WordSymbol(origins, "Wrap", word);
    }
    forall origins | Holds(origins, n.outer, OUTER_ORIGIN)
      ensures SymbolOf(origins, BoxOrigin(box, n)) == Some(n.boxed)
    {
      BoxSymbol(box, origins, n.outer, text);
    }
  }

  predicate Knows(templates: Templates, head: string)
  {
    head in templates && templates[head].kind == Struct
  }

  /** The origins of the kept declarations: `Outer<u64>` and the box of it. */
  function Asked(box: string, n: Names): Origins
  {
    map[n.outer := OUTER_ORIGIN, n.boxed := BoxOrigin(box, n)]
  }

  lemma OuterOutcome(box: string, n: Names, templates: Templates, origins: Origins, subst: map<string, Type>)
    requires Right(box, n) && Knows(templates, "Outer") && "Outer" !in subst && n.outer !in origins
    ensures TypeOutcome(templates, origins, subst, OUTER_WORD) ==
            Outcome(Some(Named(n.outer)), origins[n.outer := OUTER_ORIGIN])
  {
    var after := origins[n.outer := OUTER_ORIGIN];
    PrimOutcome(templates, origins, subst);
    NamingOutcome(origins, Struct, "Outer", WORD, n.outer);
    AppliedOutcome(templates, origins, subst, "Outer", WORD, Outcome(Some(WORD), origins),
                   Outcome(Some(n.outer), after));
  }

  lemma HeldOutcome(box: string, n: Names, templates: Templates, none: Origins, subst: map<string, Type>)
    requires Right(box, n) && none == map[] && subst == map[] && Knows(templates, "Outer") && Knows(templates, box)
    ensures TypeOutcome(templates, none, subst, Applied(box, [TypeArg(OUTER_WORD)])) ==
            Outcome(Some(Named(n.boxed)), Asked(box, n))
  {
    var first := none[n.outer := OUTER_ORIGIN];
    OuterOutcome(box, n, templates, none, subst);
    assert Holds(first, n.outer, OUTER_ORIGIN);
    NamingOutcome(first, Struct, box, Named(n.outer), n.boxed);
    AppliedOutcome(templates, none, subst, box, OUTER_WORD, Outcome(Some(Named(n.outer)), first),
                   Outcome(Some(n.boxed), Asked(box, n)));
  }

  // ----- the start

  function Before(box: string): Env
  {
    Env(map[], ModuleTemplates(box), map["S" := Concrete({}, [Applied(box, [TypeArg(OUTER_WORD)])])], {"C"})
  }

  function Start(box: string, n: Names): State
  {
    State(Before(box).(origins := Asked(box, n)), {})
  }

  lemma CellKept(env: Env)
    ensures ItemOutcome(env, CELL) == Outcome(Some(CELL), env.origins)
  {
    assert FieldTypes(CELL.definition.fields) == [];
  }

  lemma HolderKept(box: string, n: Names) returns (r: Item)
    requires Free(box) && Right(box, n)
    ensures ItemOutcome(Before(box), Holding(box)) == Outcome(Some(r), Asked(box, n))
  {
    var field := Holding(box).definition.fields[0];
    HeldOutcome(box, n, ModuleTemplates(box), map[], map[]);
    OneFieldOutcome(ModuleTemplates(box), map[], map[], field, Outcome(Some(Named(n.boxed)), Asked(box, n)));
    assert Holding(box).definition.fields == [field];
    r := Holding(box).(definition := Holding(box).definition.(fields := [field.(ty := Named(n.boxed))]));
  }

  lemma TemplatesSkipped(env: Env, items: seq<Item>, kept: Outcome<seq<Item>>, i: nat, j: nat)
    requires i <= j <= |items| && kept.result.Some? && ItemsOutcome(env, items[..i]) == kept
    requires forall k :: i <= k < j ==> IsTemplate(items[k])
    ensures ItemsOutcome(env, items[..j]) == kept
    decreases j
  {
    if i < j {
      TemplatesSkipped(env, items, kept, i, j - 1);
      ItemsStep(env, items, kept, Outcome(None, kept.origins), j - 1);
    }
  }

  lemma CellFirst(env: Env, items: seq<Item>)
    requires |items| > 0 && items[0] == CELL
    ensures ItemsOutcome(env, items[..1]) == Outcome(Some([CELL]), env.origins)
  {
    var none: seq<Item> := [];
    CellKept(env);
    assert items[..0] == none && none + [CELL] == [CELL];
    ItemsStep(env, items, Outcome(Some(none), env.origins), Outcome(Some(CELL), env.origins), 0);
  }

  lemma KeptOutcome(env: Env, items: seq<Item>, holder: Item, after: Origins)
    requires |items| == 5 && items[0] == CELL && (forall k :: 1 <= k < 4 ==> IsTemplate(items[k]))
    requires !IsTemplate(items[4])
    requires ItemOutcome(env, items[4]) == Outcome(Some(holder), after)
    ensures ItemsOutcome(env, items) == Outcome(Some([CELL] + [holder]), after)
  {
    var kept := Outcome(Some([CELL]), env.origins);
    CellFirst(env, items);
    TemplatesSkipped(env, items, kept, 1, 4);
    ItemsStep(env, items, kept, Outcome(Some(holder), after), 4);
    assert items[..5] == items;
  }

  lemma StartsWith(items: seq<Item>, env: Env, kept: seq<Item>, after: Origins)
    requires env == Env(map[], TemplatesOf(items), ConcretesOf(items), CellTypesOf(items))
    requires ItemsOutcome(env, items) == Outcome(Some(kept), after)
    ensures StartsAt(items, State(env.(origins := after), {}))
  {
  }

  lemma ModuleShape(box: string)
    ensures var items := Module(box);
            && |items| == 5 && items[0] == CELL && items[4] == Holding(box) && !IsTemplate(items[4])
            && forall k :: 1 <= k < 4 ==> IsTemplate(items[k])
  {
  }

  lemma Started(box: string, n: Names)
    requires Free(box) && Right(box, n)
    ensures StartsAt(Module(box), Start(box, n))
  {
    var items := Module(box);
    var holder := HolderKept(box, n);
    ModuleShape(box);
    KeptOutcome(Before(box), items, holder, Asked(box, n));
    ModuleParts(box);
    StartsWith(items, Before(box), [CELL] + [holder], Asked(box, n));
  }

  // ----- abilities on the way

  /** A state of the run: the module's templates and Cell type, and origins of these. */
  predicate Setting(box: string, env: Env)
  {
    && Knows(env.templates, "Wrap") && env.templates["Wrap"] == WRAP.definition
    && Knows(env.templates, "Outer") && env.templates["Outer"] == OUTER.definition
    && Knows(env.templates, box) && env.templates[box] == Boxing(box).definition
    && env.cellTypes == {"C"} && "Wrap" !in env.concretes && "Outer" !in env.concretes && "C" !in env.origins
    && |box| < 8 && forall name :: name in env.origins ==> |env.origins[name].template| < 8
  }

  lemma CellAbilities(box: string, env: Env, visiting: set<string>)
    requires Setting(box, env)
    ensures AbilitiesFor(env, Named("C"), visiting) == {Cell, Fixed, Serializable}
  {
  }

  lemma OuterSubstituted()
    ensures SubstitutedFields(OUTER.definition.fields, Substitution(OUTER.definition.params, [WORD])) ==
            [Applied("Wrap", [TypeArg(WORD)]), WORD]
  {
    SingleSubstitution(OPEN, WORD);
    ArgumentSubstituted("Wrap", "T", WORD);
    TwoSubstituted(OUTER.definition.fields, Substitution(OUTER.definition.params, [WORD]),
                   Applied("Wrap", [TypeArg(WORD)]), WORD);
  }

  lemma SubstitutedMore(first: Field, rest: seq<Field>, subst: map<string, Type>, a: Type)
    requires Substitute(first.ty, subst) == Some(a)
    ensures SubstitutedFields([first] + rest, subst) == [a] + SubstitutedFields(rest, subst)
  {
    assert ([first] + rest)[1..] == rest;
  }

  lemma TwoSubstituted(fields: seq<Field>, subst: map<string, Type>, a: Type, b: Type)
    requires |fields| == 2 && Substitute(fields[0].ty, subst) == Some(a) && Substitute(fields[1].ty, subst) == Some(b)
    ensures SubstitutedFields(fields, subst) == [a, b]
  {
    var none: seq<Field> := [];
    var last := [fields[1]] + none;
    SubstitutedMore(fields[1], none, subst, b);
    SubstitutedMore(fields[0], last, subst, a);
    assert fields == [fields[0]] + last && SubstitutedFields(none, subst) == [];
    assert [a] + ([b] + []) == [a, b];
  }

  lemma WrapSubstituted()
    ensures SubstitutedFields(WRAP.definition.fields, Substitution(WRAP.definition.params, [WORD])) == [Named("C")]
  {
    SingleSubstitution(WRAP.definition.params[0], WORD);
    SubstitutedAt(WRAP.definition.fields, Substitution(WRAP.definition.params, [WORD]));
  }

  /** `Outer<u64>` hides the Cell while it waits. */
  lemma OuterHides(box: string, n: Names, env: Env)
    requires Setting(box, env) && Generated(n.outer) && Holds(env.origins, n.outer, OUTER_ORIGIN)
    requires n.outer !in env.concretes
    ensures AbilitiesFor(env, Named(n.outer), {}) == {Fixed, Serializable, NonLinear}
  {
    var fields := [Applied("Wrap", [TypeArg(WORD)]), WORD];
    assert Waits(env, n.outer);
    OuterSubstituted();
    WaitingAbilities(env, n.outer);
    CellsFound(env, fields, {n.outer});
  }

  lemma WaitingWrap(box: string, n: Names, env: Env, visiting: set<string>)
    requires Setting(box, env) && Holds(env.origins, n.wrap, WRAP_ORIGIN)
    requires n.wrap !in env.concretes && n.wrap !in visiting
    ensures AbilitiesFor(env, Named(n.wrap), visiting) == {Fixed, Serializable, Cell}
  {
    var fields := [Named("C")];
    WrapSubstituted();
    NameAbilities(env, n.wrap, visiting, fields);
    CellAbilities(box, env, visiting + {n.wrap});
    CellsFound(env, fields, visiting + {n.wrap});
    assert 0 in Cells(env, fields, visiting + {n.wrap});
  }

  lemma RegisteredWrap(box: string, n: Names, env: Env, visiting: set<string>)
    requires Setting(box, env) && Holds(env.origins, n.wrap, WRAP_ORIGIN) && n.wrap !in visiting
    requires n.wrap in env.concretes && env.concretes[n.wrap] == Concrete({Fixed, Serializable}, [Named("C")])
    ensures Cell in AbilitiesFor(env, Named(n.wrap), visiting)
  {
    var fields := [Named("C")];
    NameAbilities(env, n.wrap, visiting, fields);
    CellAbilities(box, env, visiting + {n.wrap});
    CellsFound(env, fields, visiting + {n.wrap});
    assert 0 in Cells(env, fields, visiting + {n.wrap});
  }

  /** Once `Outer<u64>` is registered the Cell shows. */
  lemma OuterShows(box: string, n: Names, env: Env)
    requires Setting(box, env) && Holds(env.origins, n.outer, OUTER_ORIGIN) && n.outer in env.concretes
    requires env.concretes[n.outer] == Concrete({Fixed, Serializable}, [Named(n.wrap), WORD])
    requires Cell in AbilitiesFor(env, Named(n.wrap), {n.outer})
    ensures Cell in AbilitiesFor(env, Named(n.outer), {})
  {
    var fields := [Named(n.wrap), WORD];
    NameAbilities(env, n.outer, {}, fields);
    assert {} + {n.outer} == {n.outer};
    CellsFound(env, fields, {n.outer});
    assert 0 in Cells(env, fields, {n.outer});
  }

  // ----- the three emissions

  function AfterBox(env: Env, n: Names): Env
  {
    env.(concretes := env.concretes[n.boxed := Concrete({}, [Named(n.outer)])])
  }

  function AfterOuter(env: Env, n: Names): Env
  {
    env.(origins := env.origins[n.wrap := WRAP_ORIGIN],
         concretes := env.concretes[n.outer := Concrete({Fixed, Serializable}, [Named(n.wrap), WORD])])
  }

  function AfterWrap(env: Env, n: Names): Env
  {
    env.(concretes := env.concretes[n.wrap := Concrete({Fixed, Serializable}, [Named("C")])])
  }

  lemma WordAdmitted(env: Env, param: Param)
    requires param.constraints == {}
    ensures ArgumentAdmitted(env, param, WORD)
  {
    assert Children(WORD) == [] && TypeNesting(WORD) == 1;
    assert AbilitiesFor(env, WORD, {}) == FIXED_VALUE;
  }

  lemma OuterAdmittedExactly(env: Env, n: Names)
    ensures ArgumentAdmitted(env, OPEN, Named(n.outer)) <==>
            Cell !in AbilitiesFor(env, Named(n.outer), {}) &&
            {Fixed, Serializable, NonLinear} <= AbilitiesFor(env, Named(n.outer), {})
  {
    assert Children(Named(n.outer)) == [] && TypeNesting(Named(n.outer)) == 1;
  }

  /** The specialization of a request and the state after it, from its fields. */
  lemma EmittedIs(env: Env, request: Origin, d: Definition, symbol: string, fields: Outcome<seq<Field>>,
                  types: seq<Type>)
    requires request.template in env.templates && env.templates[request.template] == d
    requires InstantiationAdmitted(env, d.params, request.arguments) && SymbolOf(env.origins, request) == Some(symbol)
    requires fields == FieldsOutcome(env.templates, env.origins, Substitution(d.params, request.arguments), d.fields)
    requires fields.result.Some? && FieldTypes(fields.result.value) == types
    requires ConcreteAbilitiesHold(env.(origins := fields.origins), d.abilities, types)
    ensures InstanceOutcome(env, request) ==
            (Some(Item(symbol, false, d.(params := [], fields := fields.result.value))),
             env.(origins := fields.origins, concretes := env.concretes[symbol := Concrete(d.abilities, types)]))
  {
    InstanceIs(env, request, symbol, fields);
  }

  lemma OneAdmitted(env: Env, param: Param, argument: Type, params: seq<Param>, arguments: seq<Type>)
    requires params == [param] && arguments == [argument]
    ensures InstantiationAdmitted(env, params, arguments) <==> ArgumentAdmitted(env, param, argument)
  {
    if InstantiationAdmitted(env, params, arguments) {
      assert ArgumentAdmitted(env, params[0], arguments[0]);
    }
  }

  lemma BoxFields(d: Definition, templates: Templates, origins: Origins, outer: string, arguments: seq<Type>)
    returns (fields: seq<Field>)
    requires d.params == [OPEN] && |d.fields| == 1 && d.fields[0].ty == Named("T")
    requires Generated(outer) && arguments == [Named(outer)]
    ensures FieldTypes(fields) == arguments
    ensures FieldsOutcome(templates, origins, Substitution(d.params, arguments), d.fields) ==
            Outcome(Some(fields), origins)
  {
    var subst, r := Substitution(d.params, arguments), Outcome(Some(Named(outer)), origins);
    SingleSubstitution(OPEN, Named(outer));
    NameOutcome(templates, origins, map[], outer);
    ParamOutcome(templates, origins, subst, "T", r);
    OneFieldOutcome(templates, origins, subst, d.fields[0], r);
    fields := [d.fields[0].(ty := Named(outer))];
    assert d.fields == [d.fields[0]];
  }

  lemma BoxEmitted(box: string, n: Names, env: Env) returns (item: Item)
    requires Right(box, n) && Setting(box, env) && Holds(env.origins, n.outer, OUTER_ORIGIN)
    requires ArgumentAdmitted(env, OPEN, Named(n.outer))
    ensures InstanceOutcome(env, BoxOrigin(box, n)) == (Some(item), AfterBox(env, n))
  {
    var d, request := env.templates[box], BoxOrigin(box, n);
    var fields := BoxFields(d, env.templates, env.origins, n.outer, request.arguments);
    OneAdmitted(env, OPEN, Named(n.outer), d.params, request.arguments);
    EmittedIs(env, request, d, n.boxed, Outcome(Some(fields), env.origins), request.arguments);
    item := Item(n.boxed, false, d.(params := [], fields := fields));
  }

  lemma BoxRefused(box: string, n: Names, env: Env)
    requires Setting(box, env) && !ArgumentAdmitted(env, OPEN, Named(n.outer))
    ensures InstanceOutcome(env, BoxOrigin(box, n)).0.None?
  {
    OneAdmitted(env, OPEN, Named(n.outer), Boxing(box).definition.params, BoxOrigin(box, n).arguments);
  }

  lemma WrapOutcome(box: string, n: Names, templates: Templates, origins: Origins, subst: map<string, Type>)
    requires Right(box, n) && Knows(templates, "Wrap") && subst == map["T" := WORD] && n.wrap !in origins
    ensures TypeOutcome(templates, origins, subst, Applied("Wrap", [TypeArg(Named("T"))])) ==
            Outcome(Some(Named(n.wrap)), origins[n.wrap := WRAP_ORIGIN])
  {
    var after := origins[n.wrap := WRAP_ORIGIN];
    PrimOutcome(templates, origins, map[]);
    ParamOutcome(templates, origins, subst, "T", Outcome(Some(WORD), origins));
    NamingOutcome(origins, Struct, "Wrap", WORD, n.wrap);
    AppliedOutcome(templates, origins, subst, "Wrap", Named("T"), Outcome(Some(WORD), origins),
                   Outcome(Some(n.wrap), after));
  }

  lemma OuterFields(box: string, n: Names, templates: Templates, origins: Origins, after: Origins)
    returns (fields: seq<Field>)
    requires Right(box, n) && Knows(templates, "Wrap") && n.wrap !in origins && after == origins[n.wrap := WRAP_ORIGIN]
    ensures FieldTypes(fields) == [Named(n.wrap), WORD]
    ensures FieldsOutcome(templates, origins, Substitution(OUTER.definition.params, OUTER_ORIGIN.arguments),
                          OUTER.definition.fields) == Outcome(Some(fields), after)
  {
    var d, subst := OUTER.definition, Substitution(OUTER.definition.params, OUTER_ORIGIN.arguments);
    SingleSubstitution(OPEN, WORD);
    WrapOutcome(box, n, templates, origins, subst);
    PrimOutcome(templates, after, map[]);
    ParamOutcome(templates, after, subst, "T", Outcome(Some(WORD), after));
    TwoFieldsOutcome(templates, origins, subst, d.fields[0], d.fields[1], Outcome(Some(Named(n.wrap)), after),
                     Outcome(Some(WORD), after));
    fields := [d.fields[0].(ty := Named(n.wrap)), d.fields[1].(ty := WORD)];
    assert d.fields == [d.fields[0], d.fields[1]];
  }

  lemma OuterHolds(box: string, n: Names, grown: Env, types: seq<Type>)
    requires Setting(box, grown) && Holds(grown.origins, n.wrap, WRAP_ORIGIN)
    requires n.wrap !in grown.concretes && types == [Named(n.wrap), WORD]
    ensures ConcreteAbilitiesHold(grown, {Fixed, Serializable}, types)
  {
    WaitingWrap(box, n, grown, {});
    assert AbilitiesFor(grown, WORD, {}) == FIXED_VALUE;
  }

  lemma OuterEmitted(box: string, n: Names, env: Env) returns (item: Item)
    requires Right(box, n) && Setting(box, env) && n.wrap !in env.origins && n.wrap !in env.concretes
    ensures InstanceOutcome(env, OUTER_ORIGIN) == (Some(item), AfterOuter(env, n))
  {
    var d, grown := env.templates["Outer"], env.(origins := env.origins[n.wrap := WRAP_ORIGIN]);
    var fields := OuterFields(box, n, env.templates, env.origins, grown.origins);
    var types := FieldTypes(fields);
    WordAdmitted(env, OPEN);
    OneAdmitted(env, OPEN, WORD, d.params, OUTER_ORIGIN.arguments);
    OuterHolds(box, n, grown, types);
    EmittedIs(env, OUTER_ORIGIN, d, n.outer, Outcome(Some(fields), grown.origins), types);
    item := Item(n.outer, false, d.(params := [], fields := fields));
  }

  lemma WrapFields(env: Env)
    ensures var d := WRAP.definition;
            FieldsOutcome(env.templates, env.origins, Substitution(d.params, [WORD]), d.fields) ==
            Outcome(Some(d.fields), env.origins)
  {
    var d := WRAP.definition;
    var subst := Substitution(d.params, [WORD]);
    SingleSubstitution(d.params[0], WORD);
    NameOutcome(env.templates, env.origins, subst, "C");
    OneFieldOutcome(env.templates, env.origins, subst, d.fields[0], Outcome(Some(Named("C")), env.origins));
    assert d.fields == [d.fields[0]] && d.fields[0].(ty := Named("C")) == d.fields[0];
  }

  lemma WrapEmitted(box: string, n: Names, env: Env) returns (item: Item)
    requires Right(box, n) && Setting(box, env)
    ensures InstanceOutcome(env, WRAP_ORIGIN) == (Some(item), AfterWrap(env, n))
  {
    var d := WRAP.definition;
    WrapFields(env);
    WordAdmitted(env, d.params[0]);
    OneAdmitted(env, d.params[0], WORD, d.params, WRAP_ORIGIN.arguments);
    CellAbilities(box, env, {});
    EmittedIs(env, WRAP_ORIGIN, d, n.wrap, Outcome(Some(d.fields), env.origins), [Named("C")]);
    item := Item(n.wrap, false, d.(params := [], fields := d.fields));
  }

  // ----- the order of the keys

  lemma LePrefixed(prefix: string, a: string, b: string)
    ensures StringOrder.Le(prefix + a, prefix + b) <==> StringOrder.Le(a, b)
    decreases |prefix|
  {
    if prefix == [] {
      assert prefix + a == a && prefix + b == b;
    } else {
      LePrefixed(prefix[1..], a, b);
      assert (prefix + a)[1..] == prefix[1..] + a && (prefix + b)[1..] == prefix[1..] + b;
    }
  }

  /** The name with the least key among those that are not emitted. */
  lemma LeastIsNext(state: State, name: string)
    requires name in state.env.origins && state.env.origins[name].template in state.env.templates
    requires KeyOf(state.env.origins, name) !in state.emitted
    requires forall other :: other in state.env.origins && KeyOf(state.env.origins, other) !in state.emitted ==>
               StringOrder.Le(KeyOf(state.env.origins, name), KeyOf(state.env.origins, other))
    ensures IsNext(state, name)
  {
    var origins := state.env.origins;
    assert KeyOf(origins, name) in KeysOf(origins, origins.Keys);
    forall key | key in Waiting(state) ensures StringOrder.Le(KeyOf(origins, name), key) {
      var other :| other in origins.Keys && other in origins && key == KeyOf(origins, other);
    }
  }

  lemma NothingWaits(state: State)
    requires forall name :: name in state.env.origins ==> KeyOf(state.env.origins, name) in state.emitted
    ensures Waiting(state) == {}
  {
  }

  lemma EmitStep(state: State, name: string, item: Item, after: Env)
    requires IsNext(state, name) && |state.emitted| < MAX_GENERIC_INSTANTIATIONS
    requires InstanceOutcome(state.env, state.env.origins[name]) == (Some(item), after)
    ensures StepsTo(state, name, item, State(after, state.emitted + {KeyOf(state.env.origins, name)}))
  {
  }

  /** Keys of different structs differ, and each is at most itself. */
  lemma KeyFacts(n: Names, a: string, b: string)
    requires a != b
    ensures Key(Struct, a) != Key(Struct, b) && StringOrder.Le(Key(Struct, a), Key(Struct, a))
  {
    StringOrder.LeTotal(Key(Struct, a), Key(Struct, a));
    if Key(Struct, a) == Key(Struct, b) {
      KeyInjective(Struct, a, Struct, b);
    }
  }

  // ----- the states of the two runs

  lemma StartSetting(box: string, n: Names)
    requires Free(box) && Right(box, n)
    ensures Setting(box, Start(box, n).env)
  {
  }

  lemma SettingKept(box: string, n: Names, env: Env)
    requires Setting(box, env) && Right(box, n)
    ensures Setting(box, AfterBox(env, n)) && Setting(box, AfterOuter(env, n)) && Setting(box, AfterWrap(env, n))
  {
  }

  /** The three keys. */
  function KO(n: Names): string { Key(Struct, n.outer) }
  function KW(n: Names): string { Key(Struct, n.wrap) }
  function KB(n: Names): string { Key(Struct, n.boxed) }

  lemma ThreeKeys(box: string, n: Names)
    requires Right(box, n)
    ensures KO(n) != KW(n) && KO(n) != KB(n) && KW(n) != KB(n)
    ensures StringOrder.Le(KO(n), KO(n)) && StringOrder.Le(KW(n), KW(n)) && StringOrder.Le(KB(n), KB(n))
    ensures StringOrder.Le(KO(n), KW(n))
    ensures StringOrder.Le(KB(n), KO(n)) <==> StringOrder.Le(n.boxed, n.outer)
    ensures StringOrder.Le(KO(n), KB(n)) || StringOrder.Le(KB(n), KO(n))
    ensures StringOrder.Le(KW(n), KB(n)) || StringOrder.Le(KB(n), KW(n))
  {
    KeyFacts(n, n.outer, n.wrap);
    KeyFacts(n, n.wrap, n.boxed);
    KeyFacts(n, n.boxed, n.outer);
    LePrefixed(KindKey(Struct), n.outer, n.wrap);
    LePrefixed(KindKey(Struct), n.boxed, n.outer);
    StringOrder.LeTotal(KO(n), KB(n));
    StringOrder.LeTotal(KW(n), KB(n));
  }

  // ----- a name before `Outer`: accepted

  function Accepted(box: string, n: Names): seq<State>
  {
    var s0 := Start(box, n);
    var s1 := State(AfterBox(s0.env, n), {KB(n)});
    var s2 := State(AfterOuter(s1.env, n), {KB(n)} + {KO(n)});
    [s0, s1, s2, State(AfterWrap(s2.env, n), {KB(n)} + {KO(n)} + {KW(n)})]
  }

  lemma BoxFirst(box: string, n: Names) returns (item: Item)
    requires Free(box) && Right(box, n) && StringOrder.Le(n.boxed, n.outer)
    ensures StepsTo(Accepted(box, n)[0], n.boxed, item, Accepted(box, n)[1])
  {
    var state := Start(box, n);
    ThreeKeys(box, n);
    StartSetting(box, n);
    LeastIsNext(state, n.boxed);
    OuterHides(box, n, state.env);
    OuterAdmittedExactly(state.env, n);
    item := BoxEmitted(box, n, state.env);
    EmitStep(state, n.boxed, item, AfterBox(state.env, n));
    assert {} + {KB(n)} == {KB(n)};
  }

  lemma OuterSecond(box: string, n: Names) returns (item: Item)
    requires Free(box) && Right(box, n)
    ensures StepsTo(Accepted(box, n)[1], n.outer, item, Accepted(box, n)[2])
  {
    var state := Accepted(box, n)[1];
    ThreeKeys(box, n);
    StartSetting(box, n);
    SettingKept(box, n, Start(box, n).env);
    LeastIsNext(state, n.outer);
    item := OuterEmitted(box, n, state.env);
    EmitStep(state, n.outer, item, AfterOuter(state.env, n));
  }

  lemma WrapThird(box: string, n: Names) returns (item: Item)
    requires Free(box) && Right(box, n)
    ensures StepsTo(Accepted(box, n)[2], n.wrap, item, Accepted(box, n)[3])
  {
    var state := Accepted(box, n)[2];
    ThreeKeys(box, n);
    StartSetting(box, n);
    SettingKept(box, n, Start(box, n).env);
    SettingKept(box, n, Accepted(box, n)[1].env);
    LeastIsNext(state, n.wrap);
    item := WrapEmitted(box, n, state.env);
    EmitStep(state, n.wrap, item, AfterWrap(state.env, n));
  }

  // ----- a name after `Outer`: refused

  function Refused(box: string, n: Names): seq<State>
  {
    var s0 := Start(box, n);
    var s1 := State(AfterOuter(s0.env, n), {KO(n)});
    [s0, s1, State(AfterWrap(s1.env, n), {KO(n)} + {KW(n)})]
  }

  lemma OuterFirst(box: string, n: Names) returns (item: Item)
    requires Free(box) && Right(box, n) && !StringOrder.Le(n.boxed, n.outer)
    ensures StepsTo(Refused(box, n)[0], n.outer, item, Refused(box, n)[1])
  {
    var state := Start(box, n);
    ThreeKeys(box, n);
    StartSetting(box, n);
    LeastIsNext(state, n.outer);
    item := OuterEmitted(box, n, state.env);
    EmitStep(state, n.outer, item, AfterOuter(state.env, n));
    assert {} + {KO(n)} == {KO(n)};
  }

  lemma WrapSecond(box: string, n: Names) returns (item: Item)
    requires Free(box) && Right(box, n) && StringOrder.Le(KW(n), KB(n))
    ensures StepsTo(Refused(box, n)[1], n.wrap, item, Refused(box, n)[2])
  {
    var state := Refused(box, n)[1];
    ThreeKeys(box, n);
    StartSetting(box, n);
    SettingKept(box, n, Start(box, n).env);
    LeastIsNext(state, n.wrap);
    item := WrapEmitted(box, n, state.env);
    EmitStep(state, n.wrap, item, AfterWrap(state.env, n));
  }

  lemma BoxStops(box: string, n: Names)
    requires Free(box) && Right(box, n)
    ensures Stops(Refused(box, n)[2], n.boxed)
  {
    var state := Refused(box, n)[2];
    ThreeKeys(box, n);
    StartSetting(box, n);
    SettingKept(box, n, Start(box, n).env);
    SettingKept(box, n, Refused(box, n)[1].env);
    LeastIsNext(state, n.boxed);
    RegisteredWrap(box, n, state.env, {n.outer});
    OuterShows(box, n, state.env);
    OuterAdmittedExactly(state.env, n);
    BoxRefused(box, n, state.env);
  }

  /** The same where the box comes before the Cell below it is registered. */
  lemma BoxStopsEarly(box: string, n: Names)
    requires Free(box) && Right(box, n) && StringOrder.Le(KB(n), KW(n))
    ensures Stops(Refused(box, n)[1], n.boxed)
  {
    var state := Refused(box, n)[1];
    ThreeKeys(box, n);
    StartSetting(box, n);
    SettingKept(box, n, Start(box, n).env);
    LeastIsNext(state, n.boxed);
    WaitingWrap(box, n, state.env, {n.outer});
    OuterShows(box, n, state.env);
    OuterAdmittedExactly(state.env, n);
    BoxRefused(box, n, state.env);
  }

  // ----- the last checks

  lemma SymbolEncodes(origins: Origins, name: string)
    requires name in origins && SymbolOf(origins, origins[name]) == Some(name)
    ensures Encodes(origins, name)
  {
    forall height: nat | AllFits(origins, origins[name].arguments, height)
      ensures MonomorphName(origins[name].template, origins[name].arguments, origins, height) == Some(name)
    {
      SymbolIs(origins, origins[name], height);
    }
  }

  /** The three origins of the accepted run. */
  predicate AllThree(box: string, n: Names, origins: Origins)
  {
    && origins.Keys == {n.outer, n.wrap, n.boxed} && Holds(origins, n.outer, OUTER_ORIGIN)
    && Holds(origins, n.wrap, WRAP_ORIGIN) && Holds(origins, n.boxed, BoxOrigin(box, n))
  }

  lemma ThreeSymbols(box: string, n: Names, origins: Origins)
    requires Right(box, n) && AllThree(box, n, origins)
    ensures forall name :: name in origins ==> SymbolOf(origins, origins[name]) == Some(name)
  {
  }

  lemma EndEncodes(box: string, n: Names, origins: Origins)
    requires Right(box, n) && AllThree(box, n, origins)
    ensures AllEncode(origins)
  {
    ThreeSymbols(box, n, origins);
    forall name | name in origins ensures Encodes(origins, name) {
      SymbolEncodes(origins, name);
    }
  }

  lemma EndFits(box: string, n: Names, origins: Origins, limit: nat)
    requires AllThree(box, n, origins) && limit >= 3
    ensures AllFit(origins, limit)
  {
    WordFitsAnyway(origins, limit - 2);
    WordFitsAnyway(origins, limit - 1);
    NamedFits(origins, n.outer, limit - 1);
    NamedFits(origins, n.outer, limit);
    NamedFits(origins, n.wrap, limit);
    NamedFits(origins, n.boxed, limit);
  }

  lemma WordFitsAnyway(origins: Origins, height: nat)
    requires height > 0
    ensures Fits(origins, WORD, height)
  {
    assert Below(origins, WORD) == [];
  }

  lemma NamedFits(origins: Origins, name: string, height: nat)
    requires name in origins && |origins[name].arguments| == 1 && height > 0
    requires Fits(origins, origins[name].arguments[0], height - 1)
    ensures Fits(origins, Named(name), height)
  {
    assert Below(origins, Named(name)) == origins[name].arguments;
  }

  lemma ShortUnmarked(name: string)
    requires |name| < 8
    ensures !HasMarker(name)
  {
    assert |MONO_MARKER| == 8;
  }

  lemma CellUsesNothing(name: string, param: string)
    requires name != param
    ensures !UsesParam(Named(name), param)
  {
    assert Children(Named(name)) == [];
  }

  lemma TemplateFine(d: Definition, uses: nat)
    requires |d.params| == 1 && d.params[0].name == "T" && d.params[0].constraints == {}
    requires Cell !in WithAbilities(d).abilities
    requires if d.params[0].phantom then forall j :: 0 <= j < |d.fields| ==> d.fields[j].ty == Named("C")
             else uses < |d.fields| && d.fields[uses].ty == Named("T")
    ensures TemplateAllowed(d)
  {
    ParamAllowed(d.params);
    CellUsesNothing("C", "T");
    if !d.params[0].phantom {
      assert UsesParam(d.fields[uses].ty, "T");
    }
  }

  lemma NamesFineHere(box: string)
    requires Free(box)
    ensures NamesAllowed(Module(box)) && DistinctNames(Module(box))
  {
    var items := Module(box);
    assert items[0].name == "C" && items[1].name == "Wrap" && items[2].name == "Outer" && items[3].name == box &&
           items[4].name == "S";
    ShortUnmarked("C");
    ShortUnmarked("Wrap");
    ShortUnmarked("Outer");
    ShortUnmarked(box);
    ShortUnmarked("S");
  }

  lemma TemplatesFine(box: string)
    requires Free(box)
    ensures TemplateAllowed(WRAP.definition) && TemplateAllowed(OUTER.definition)
    ensures TemplateAllowed(Boxing(box).definition)
  {
    TemplateFine(WRAP.definition, 0);
    TemplateFine(OUTER.definition, 1);
    NothingDerived(box);
    TemplateFine(Boxing(box).definition, 0);
  }

  lemma FiveAllowed(a: Item, b: Item, c: Item, d: Item, e: Item)
    requires NamesAllowed([a, b, c, d, e]) && !IsTemplate(a) && !IsTemplate(e)
    requires TemplateAllowed(b.definition) && TemplateAllowed(c.definition) && TemplateAllowed(d.definition)
    ensures DeclarationsAllowed([a, b, c, d, e])
  {
  }

  lemma ModuleAllowed(box: string)
    requires Free(box)
    ensures DeclarationsAllowed(Module(box)) && DistinctNames(Module(box))
  {
    NamesFineHere(box);
    TemplatesFine(box);
    FiveAllowed(CELL, WRAP, OUTER, Boxing(box), Holding(box));
  }

  // ----- what the name decides

  lemma ThreeSteps(s0: State, s1: State, s2: State, s3: State, x: string, y: string, z: string, a: Item, b: Item,
                   c: Item)
    requires StepsTo(s0, x, a, s1) && StepsTo(s1, y, b, s2) && StepsTo(s2, z, c, s3)
    ensures InOrder([s0, s1, s2, s3], [x, y, z], [a, b, c])
  {
    TwoSteps(s0, s1, s2, x, y, a, b);
    OrderExtends([s0, s1, s2], [x, y], [a, b], z, c, s3);
    assert [s0, s1, s2] + [s3] == [s0, s1, s2, s3] && [x, y] + [z] == [x, y, z] && [a, b] + [c] == [a, b, c];
  }

  lemma TwoSteps(s0: State, s1: State, s2: State, x: string, y: string, a: Item, b: Item)
    requires StepsTo(s0, x, a, s1) && StepsTo(s1, y, b, s2)
    ensures InOrder([s0, s1, s2], [x, y], [a, b])
  {
  }

  lemma AcceptedEnds(box: string, n: Names)
    requires Right(box, n)
    ensures var last := Accepted(box, n)[3];
            && Waiting(last) == {} && AllEncode(last.env.origins)
            && BoundedProvenance(last.env.origins, MAX_GENERIC_NESTING)
  {
    var last, limit := Accepted(box, n)[3], MAX_GENERIC_NESTING;
    assert AllThree(box, n, last.env.origins);
    NothingWaits(last);
    EndEncodes(box, n, last.env.origins);
    EndFits(box, n, last.env.origins, limit);
    AllFitIsBounded(last.env.origins, limit);
  }

  /** The run emits the box while the Cell below it is hidden. */
  lemma SoonerSucceeds(box: string, n: Names)
    requires Free(box) && Right(box, n) && StringOrder.Le(n.boxed, n.outer)
    ensures Succeeds(Module(box))
  {
    var states, names := Accepted(box, n), [n.boxed, n.outer, n.wrap];
    var a := BoxFirst(box, n);
    var b := OuterSecond(box, n);
    var c := WrapThird(box, n);
    ThreeSteps(states[0], states[1], states[2], states[3], n.boxed, n.outer, n.wrap, a, b, c);
    assert states == [states[0], states[1], states[2], states[3]];
    Started(box, n);
    AcceptedEnds(box, n);
    ModuleAllowed(box);
    EndDecides(Module(box), states[0], names, states, [a, b, c]);
  }

  lemma LaterFailsAfterWrap(box: string, n: Names)
    requires Free(box) && Right(box, n) && !StringOrder.Le(n.boxed, n.outer) && StringOrder.Le(KW(n), KB(n))
    ensures Fails(Module(box))
  {
    var states, names := Refused(box, n), [n.outer, n.wrap];
    var a := OuterFirst(box, n);
    var b := WrapSecond(box, n);
    TwoSteps(states[0], states[1], states[2], n.outer, n.wrap, a, b);
    assert states == [states[0], states[1], states[2]];
    BoxStops(box, n);
    StopsHere(states, names, [a, b], n.boxed);
    Started(box, n);
    StopIsFailure(Module(box), states[0], names, states);
  }

  lemma OneStepOrder(s0: State, s1: State, x: string, a: Item)
    requires StepsTo(s0, x, a, s1)
    ensures InOrder([s0, s1], [x], [a])
  {
  }

  lemma LaterFailsBeforeWrap(box: string, n: Names)
    requires Free(box) && Right(box, n) && !StringOrder.Le(n.boxed, n.outer) && StringOrder.Le(KB(n), KW(n))
    ensures Fails(Module(box))
  {
    var states, names := Refused(box, n)[..2], [n.outer];
    var a := OuterFirst(box, n);
    OneStepOrder(states[0], states[1], n.outer, a);
    assert states == [states[0], states[1]];
    BoxStopsEarly(box, n);
    StopsHere(states, names, [a], n.boxed);
    Started(box, n);
    StopIsFailure(Module(box), states[0], names, states);
  }

  /** The module is accepted if and only if the symbol of the box sorts before the symbol of what it holds. */
  lemma NameDecides(box: string, word: string, text: string)
    requires Free(box) && word == "u64" && text == "Outer<u64>"
    ensures Succeeds(Module(box)) <==> StringOrder.Le(Symbol(box, text), Symbol("Outer", word))
  {
    var n := RightNames(box, word, text);
    if StringOrder.Le(n.boxed, n.outer) {
      SoonerSucceeds(box, n);
    } else {
      ThreeKeys(box, n);
      if StringOrder.Le(KW(n), KB(n)) {
        LaterFailsAfterWrap(box, n);
      } else {
        LaterFailsBeforeWrap(box, n);
      }
      FailureIsNoSuccess(Module(box));
    }
  }

  lemma FirstLetterDecides(box: string, word: string, text: string)
    requires Free(box) && word == "u64" && text == "Outer<u64>" && box[0] != 'O'
    ensures Succeeds(Module(box)) <==> box[0] < 'O'
  {
    assert Symbol(box, text)[0] == box[0] && Symbol("Outer", word)[0] == 'O';
    NameDecides(box, word, text);
  }

  /** One run of the module with this name. */
  method Try(box: string) returns (accepted: bool)
    requires Free(box) && box[0] != 'O'
    ensures accepted <==> box[0] < 'O'
  {
    ModuleAllowed(box);
    FirstLetterDecides(box, "u64", "Outer<u64>");
    ghost var last;
    var r;
    r, last := Monomorphize(Module(box));
    accepted := r.Some?;
  }

  /** Two runs: the module with `Box` is accepted, and the same module with `Zbox` is refused. */
  method RenamingRefuses() returns (box: bool, zbox: bool)
    ensures box && !zbox
  {
    box := Try("Box");
    zbox := Try("Zbox");
  }
}
