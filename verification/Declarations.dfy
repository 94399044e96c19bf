/** A module as the monomorphizer reads it: templates, concrete declarations and Cell types by name. */
module Declarations {
  import opened Options
  import opened Types
  import opened TypeText
  import opened Abilities
  import opened SymbolNames
  import opened OriginGrowth
  import opened Layout

  /** A struct, an enum, or a Cell declaration (resource, shared or receipt). */
  datatype Item = Item(name: string, cell: bool, definition: Definition)

  predicate IsTemplate(item: Item)
  {
    !item.cell && item.definition.params != []
  }

  /** The prelude template every module has. */
  function OptionTemplate(): Definition
  {
    Definition(Enum, [Param("T", FIXED_VALUE, false)], FIXED_VALUE, ["None", "Some"], [Field(1, "", Named("T"))])
  }

  function FieldTypes(fields: seq<Field>): (tys: seq<Type>)
    ensures |tys| == |fields| && forall i :: 0 <= i < |fields| ==> tys[i] == fields[i].ty
  {
    seq(|fields|, i requires 0 <= i < |fields| => fields[i].ty)
  }

  /** Omitted template abilities are derived from the parameter constraints. */
  function WithAbilities(d: Definition): Definition
  {
    if d.abilities == {} then d.(abilities := DerivedAbilities(d.params, FieldTypes(d.fields))) else d
  }

  function TemplatesOf(items: seq<Item>): Templates
  {
    if items == [] then map["Option" := OptionTemplate()]
    else
      var item := items[|items| - 1];
      var rest := TemplatesOf(items[..|items| - 1]);
      if IsTemplate(item) then rest[item.name := WithAbilities(item.definition)] else rest
  }

  function CellTypesOf(items: seq<Item>): set<string>
  {
    set i | 0 <= i < |items| && items[i].cell :: items[i].name
  }

  /** The abilities and field types the checks know of concrete structs and enums. */
  function ConcretesOf(items: seq<Item>): map<string, Concrete>
  {
    if items == [] then map[]
    else
      var item := items[|items| - 1];
      var rest := ConcretesOf(items[..|items| - 1]);
      if item.cell || IsTemplate(item) then rest
      else rest[item.name := Concrete(item.definition.abilities, FieldTypes(item.definition.fields))]
  }

  /** The declarations that survive specialization, by name. */
  function DeclarationsOf(items: seq<Item>): map<string, Definition>
  {
    if items == [] then map[]
    else
      var item := items[|items| - 1];
      var rest := DeclarationsOf(items[..|items| - 1]);
      if IsTemplate(item) then rest else rest[item.name := item.definition]
  }

  function SourceOf(items: seq<Item>): Source
  {
    Source(TemplatesOf(items), DeclarationsOf(items))
  }

  predicate DistinctNames(items: seq<Item>)
  {
    forall i, j :: 0 <= i < j < |items| ==> items[i].name != items[j].name
  }

  /** The name checks made before anything is specialized. */
  predicate NamesAllowed(items: seq<Item>)
  {
    forall i :: 0 <= i < |items| ==>
      && !HasMarker(items[i].name) && items[i].name !in HANDLES
      && (items[i].name == "Option" ==> items[i].cell)
  }

  predicate UsesParam(ty: Type, param: string)
  {
    || ty == Named(param) || (ty.Applied? && ty.head == param)
    || exists i :: 0 <= i < |Children(ty)| && UsesParam(Children(ty)[i], param)
  }

  /** Parameters have distinct names, none of them reserved, and none asks for a Cell that is not linear. */
  predicate ParamsAllowed(params: seq<Param>)
  {
    && (forall i, j :: 0 <= i < j < |params| ==> params[i].name != params[j].name)
    && forall i :: 0 <= i < |params| ==>
         PrimitiveOf(params[i].name).None? && params[i].name != "Self" && !({Cell, NonLinear} <= params[i].constraints)
  }

  /** The checks made of a template: its parameters, no declared Cell ability, and phantom exactly the unused
      parameters. */
  predicate TemplateAllowed(d: Definition)
  {
    && ParamsAllowed(d.params) && Cell !in WithAbilities(d).abilities
    && forall i :: 0 <= i < |d.params| ==>
         (d.params[i].phantom <==> forall j :: 0 <= j < |d.fields| ==> !UsesParam(d.fields[j].ty, d.params[i].name))
  }

  predicate DeclarationsAllowed(items: seq<Item>)
  {
    NamesAllowed(items) && forall i :: 0 <= i < |items| && IsTemplate(items[i]) ==> TemplateAllowed(items[i].definition)
  }

  function Kept(items: seq<Item>): seq<Item>
  {
    if items == [] then []
    else
      var rest := Kept(items[..|items| - 1]);
      if IsTemplate(items[|items| - 1]) then rest else rest + [items[|items| - 1]]
  }

  // ----- lookups

  lemma {:induction false} DeclaredNames(items: seq<Item>, name: string) returns (i: nat)
    requires name in DeclarationsOf(items)
    ensures i < |items| && items[i].name == name && !IsTemplate(items[i])
    ensures DeclarationsOf(items)[name] == items[i].definition
  {
    var last := |items| - 1;
    if !IsTemplate(items[last]) && items[last].name == name {
      i := last;
    } else {
      i := DeclaredNames(items[..last], name);
    }
  }

  lemma {:induction false} DeclaredAt(items: seq<Item>, i: nat)
    requires DistinctNames(items) && i < |items| && !IsTemplate(items[i])
    ensures items[i].name in DeclarationsOf(items) && DeclarationsOf(items)[items[i].name] == items[i].definition
  {
    var last := |items| - 1;
    if i < last {
      DeclaredAt(items[..last], i);
      assert items[..last][i] == items[i];
    }
  }

  lemma {:induction false} KeptAt(items: seq<Item>, k: nat) returns (i: nat)
    requires k < |Kept(items)|
    ensures i < |items| && Kept(items)[k] == items[i] && !IsTemplate(items[i])
  {
    var last := |items| - 1;
    if k < |Kept(items[..last])| {
      i := KeptAt(items[..last], k);
    } else {
      i := last;
    }
  }

  /** Dropping the templates keeps the other declarations, in order. */
  lemma {:induction false} KeptDeclarations(items: seq<Item>)
    ensures DeclarationsOf(Kept(items)) == DeclarationsOf(items)
    ensures DistinctNames(items) ==> DistinctNames(Kept(items))
  {
    if items != [] {
      var last := |items| - 1;
      KeptDeclarations(items[..last]);
      if !IsTemplate(items[last]) {
        assert Kept(items)[..|Kept(items)| - 1] == Kept(items[..last]);
        if DistinctNames(items) {
          forall k | 0 <= k < |Kept(items[..last])| ensures Kept(items[..last])[k].name != items[last].name {
            var i := KeptAt(items[..last], k);
          }
        }
      }
    }
  }
}
