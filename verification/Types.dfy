/** Source types of the value-generic kernel and the template declarations that use them. */
module Types {
  import opened Options

  datatype Primitive = U8 | U16 | U32 | I32 | U64 | U128 | Bool | Unit | Address | Hash

  /** An argument of a type application keeps its kind: a type or an unsigned constant. */
  datatype TypeArgument = TypeArg(ty: Type) | Constant(value: nat)

  datatype Type =
    | Prim(prim: Primitive)
    | Array(inner: Type, len: nat)
    | Tuple(items: seq<Type>)
    | Named(name: string)
    | Applied(head: string, arguments: seq<TypeArgument>)
    | Ref(inner: Type)
    | MutRef(inner: Type)

  /** The specialization a generated name stands for. */
  datatype Origin = Origin(kind: Kind, template: string, arguments: seq<Type>)

  datatype Kind = Struct | Enum

  const MAX_GENERIC_NESTING: nat := 32

  /** The type arguments of an application, constants dropped. */
  function TypeArguments(arguments: seq<TypeArgument>): (tys: seq<Type>)
    ensures |tys| <= |arguments|
  {
    if arguments == [] then []
    else if arguments[0].TypeArg? then [arguments[0].ty] + TypeArguments(arguments[1..])
    else TypeArguments(arguments[1..])
  }

  /** The position of argument `i` among the type arguments. */
  function Slot(arguments: seq<TypeArgument>, i: nat): nat
    requires i < |arguments|
  {
    if i == 0 then 0 else (if arguments[0].TypeArg? then 1 else 0) + Slot(arguments[1..], i - 1)
  }

  lemma {:induction false} SlotHolds(arguments: seq<TypeArgument>, i: nat)
    requires i < |arguments| && arguments[i].TypeArg?
    ensures Slot(arguments, i) < |TypeArguments(arguments)|
    ensures TypeArguments(arguments)[Slot(arguments, i)] == arguments[i].ty
  {
    if i > 0 {
      SlotHolds(arguments[1..], i - 1);
    }
  }

  lemma {:induction false} SlotFilled(arguments: seq<TypeArgument>, j: nat) returns (i: nat)
    requires j < |TypeArguments(arguments)|
    ensures i < |arguments| && arguments[i] == TypeArg(TypeArguments(arguments)[j])
  {
    if arguments[0].TypeArg? && j == 0 {
      i := 0;
    } else {
      i := SlotFilled(arguments[1..], if arguments[0].TypeArg? then j - 1 else j);
      i := i + 1;
    }
  }

  lemma TypeArgumentsSmaller(ty: Type)
    requires ty.Applied?
    ensures forall j :: 0 <= j < |TypeArguments(ty.arguments)| ==> TypeArguments(ty.arguments)[j] < ty
  {
    forall j | 0 <= j < |TypeArguments(ty.arguments)| ensures TypeArguments(ty.arguments)[j] < ty {
      var i := SlotFilled(ty.arguments, j);
      assert ty.arguments[i] == TypeArg(TypeArguments(ty.arguments)[j]);
    }
  }

  /** The immediate component types. */
  function Children(ty: Type): (kids: seq<Type>)
    ensures forall i :: 0 <= i < |kids| ==> kids[i] < ty
  {
    match ty
    case Array(inner, _) => [inner]
    case Tuple(items) => items
    case Applied(_, arguments) => TypeArgumentsSmaller(ty); TypeArguments(arguments)
    case Ref(inner) => [inner]
    case MutRef(inner) => [inner]
    case _ => []
  }

  /** The type has a component of this name. */
  predicate Mentions(ty: Type, name: string)
  {
    ty == Named(name) || exists i :: 0 <= i < |Children(ty)| && Mentions(Children(ty)[i], name)
  }

  /** The arguments with their types replaced in order and their constants kept. */
  function WithTypeArguments(arguments: seq<TypeArgument>, tys: seq<Type>): (r: seq<TypeArgument>)
    requires |tys| == |TypeArguments(arguments)|
    ensures |r| == |arguments| && TypeArguments(r) == tys
  {
    if arguments == [] then []
    else
      var keep := arguments[0].TypeArg?;
      var rest := WithTypeArguments(arguments[1..], if keep then tys[1..] else tys);
      var r := [if keep then TypeArg(tys[0]) else arguments[0]] + rest;
      assert r[1..] == rest;
      r
  }

  lemma {:induction false} WithTypeArgumentsAt(arguments: seq<TypeArgument>, tys: seq<Type>)
    requires |tys| == |TypeArguments(arguments)|
    ensures forall i :: 0 <= i < |arguments| ==>
              var r := WithTypeArguments(arguments, tys)[i];
              if arguments[i].TypeArg? then r.TypeArg? else r == arguments[i]
  {
    if arguments != [] {
      WithTypeArgumentsAt(arguments[1..], if arguments[0].TypeArg? then tys[1..] else tys);
    }
  }

  /** `ty` with its component types replaced. */
  function Rebuild(ty: Type, kids: seq<Type>): (r: Type)
    requires |kids| == |Children(ty)|
    ensures Children(r) == kids
  {
    match ty
    case Array(_, len) => Array(kids[0], len)
    case Tuple(_) => Tuple(kids)
    case Applied(head, arguments) => Applied(head, WithTypeArguments(arguments, kids))
    case Ref(_) => Ref(kids[0])
    case MutRef(_) => MutRef(kids[0])
    case _ => ty
  }

  lemma {:induction false} WithOwnArguments(arguments: seq<TypeArgument>)
    ensures WithTypeArguments(arguments, TypeArguments(arguments)) == arguments
  {
    if arguments != [] {
      WithOwnArguments(arguments[1..]);
      if arguments[0].TypeArg? {
        assert TypeArguments(arguments)[1..] == TypeArguments(arguments[1..]);
      }
    }
  }

  lemma RebuildSame(ty: Type)
    ensures Rebuild(ty, Children(ty)) == ty
  {
    if ty.Applied? {
      WithOwnArguments(ty.arguments);
    }
  }

  function TypeNesting(ty: Type): (n: nat)
    decreases ty, 1
  {
    1 + MaxNesting(ty, Children(ty))
  }

  function MaxNesting(parent: Type, tys: seq<Type>): (n: nat)
    requires forall i :: 0 <= i < |tys| ==> tys[i] < parent
    decreases parent, 0, |tys|
  {
    if tys == [] then 0
    else
      var first, rest := TypeNesting(tys[0]), MaxNesting(parent, tys[1..]);
      if first > rest then first else rest
  }

  /** The value kept for a generic argument: empty tuples become Unit, everywhere. */
  function Canon(ty: Type): (r: Type)
    decreases ty, 1
  {
    if ty == Tuple([]) then Prim(Unit) else Rebuild(ty, CanonAll(ty, Children(ty)))
  }

  function CanonAll(parent: Type, tys: seq<Type>): (r: seq<Type>)
    requires forall i :: 0 <= i < |tys| ==> tys[i] < parent
    ensures |r| == |tys| && forall i :: 0 <= i < |tys| ==> r[i] == Canon(tys[i])
    decreases parent, 0, |tys|
  {
    if tys == [] then [] else [Canon(tys[0])] + CanonAll(parent, tys[1..])
  }

  function Canons(tys: seq<Type>): (r: seq<Type>)
    ensures |r| == |tys| && forall i :: 0 <= i < |tys| ==> r[i] == Canon(tys[i])
  {
    CanonAll(Tuple(tys), tys)
  }

  /** Depth-guarded normalisation of one generic argument. */
  function CanonicalArgument(ty: Type, depth: nat): (r: Option<Type>)
    decreases ty, 1
  {
    if depth > MAX_GENERIC_NESTING then None
    else if ty == Tuple([]) then Some(Prim(Unit))
    else
      var kids := CanonicalArguments(ty, Children(ty), depth + 1);
      if kids.None? then None else Some(Rebuild(ty, kids.value))
  }

  function CanonicalArguments(parent: Type, tys: seq<Type>, depth: nat): (r: Option<seq<Type>>)
    requires forall i :: 0 <= i < |tys| ==> tys[i] < parent
    ensures r.Some? ==> |r.value| == |tys|
    decreases parent, 0, |tys|
  {
    if tys == [] then Some([])
    else
      var first := CanonicalArgument(tys[0], depth);
      if first.None? then None
      else
        var rest := CanonicalArguments(parent, tys[1..], depth);
        if rest.None? then None else Some([first.value] + rest.value)
  }

  /** Normalisation fails exactly on nesting, and otherwise returns `Canon`. */
  lemma {:induction false} CanonicalArgumentMeaning(ty: Type, depth: nat)
    ensures CanonicalArgument(ty, depth) ==
            if TypeNesting(ty) + depth > MAX_GENERIC_NESTING + 1 then None else Some(Canon(ty))
    decreases ty, 1
  {
    if depth <= MAX_GENERIC_NESTING && ty != Tuple([]) {
      CanonicalArgumentsMeaning(ty, Children(ty), depth + 1);
    }
  }

  lemma {:induction false} CanonicalArgumentsMeaning(parent: Type, tys: seq<Type>, depth: nat)
    requires forall i :: 0 <= i < |tys| ==> tys[i] < parent
    ensures CanonicalArguments(parent, tys, depth) ==
            if MaxNesting(parent, tys) + depth > MAX_GENERIC_NESTING + 1 && tys != [] then None
            else Some(CanonAll(parent, tys))
    decreases parent, 0, |tys|
  {
    if tys != [] {
      CanonicalArgumentMeaning(tys[0], depth);
      CanonicalArgumentsMeaning(parent, tys[1..], depth);
    }
  }

  /** Normalisation does not change how deep a type nests. */
  lemma {:induction false} CanonNesting(ty: Type)
    ensures TypeNesting(Canon(ty)) == TypeNesting(ty)
    decreases ty, 1
  {
    if ty != Tuple([]) {
      CanonsNesting(ty, Canon(ty), Children(ty), CanonAll(ty, Children(ty)));
    }
  }

  lemma {:induction false} CanonsNesting(parent: Type, other: Type, tys: seq<Type>, canons: seq<Type>)
    requires |canons| == |tys|
    requires forall i :: 0 <= i < |tys| ==> tys[i] < parent && canons[i] < other && canons[i] == Canon(tys[i])
    ensures MaxNesting(other, canons) == MaxNesting(parent, tys)
    decreases parent, 0, |tys|
  {
    if tys != [] {
      CanonNesting(tys[0]);
      CanonsNesting(parent, other, tys[1..], canons[1..]);
    }
  }

  /** Replaces parameter names; a parameter applied as a constructor has no meaning. */
  function Substitute(ty: Type, subst: map<string, Type>): (r: Option<Type>)
    decreases ty, 1
  {
    if ty.Named? then Some(if ty.name in subst then subst[ty.name] else ty)
    else if ty.Applied? && ty.head in subst then None
    else
      var kids := SubstituteAll(ty, Children(ty), subst);
      if kids.None? then None else Some(Rebuild(ty, kids.value))
  }

  function SubstituteAll(parent: Type, tys: seq<Type>, subst: map<string, Type>): (r: Option<seq<Type>>)
    requires forall i :: 0 <= i < |tys| ==> tys[i] < parent
    ensures r.Some? ==>
            |r.value| == |tys| && forall i :: 0 <= i < |tys| ==> Substitute(tys[i], subst) == Some(r.value[i])
    ensures r.None? ==> exists i :: 0 <= i < |tys| && Substitute(tys[i], subst).None?
    decreases parent, 0, |tys|
  {
    if tys == [] then Some([])
    else
      var first, rest := Substitute(tys[0], subst), SubstituteAll(parent, tys[1..], subst);
      if first.None? || rest.None? then None else Some([first.value] + rest.value)
  }
}
