/** Canonical type text: the identity printer, the metadata parser, and generated symbol names. */
module TypeText {
  import opened Options
  import opened Types
  import opened Provenance
  import opened TextScan

  const U128_BOUND: nat := 0x1_0000_0000_0000_0000_0000_0000_0000_0000
  const USIZE_BOUND: nat := 0x1_0000_0000_0000_0000
  const MONO_MARKER := "__mono__"
  const MAX_MONOMORPH_NAME_BYTES: nat := 1024

  function PrimitiveText(p: Primitive): string
  {
    match p
    case U8 => "u8"
    case U16 => "u16"
    case U32 => "u32"
    case I32 => "i32"
    case U64 => "u64"
    case U128 => "u128"
    case Bool => "bool"
    case Unit => "()"
    case Address => "Address"
    case Hash => "Hash"
  }

  const PRIMITIVES: seq<Primitive> := [U8, U16, U32, I32, U64, U128, Bool, Address, Hash, Unit]

  function PrimitiveAmong(s: string, candidates: seq<Primitive>): (r: Option<Primitive>)
    ensures r.Some? ==> PrimitiveText(r.value) == s
    ensures r.None? ==> forall i :: 0 <= i < |candidates| ==> PrimitiveText(candidates[i]) != s
  {
    if candidates == [] then None
    else if PrimitiveText(candidates[0]) == s then Some(candidates[0])
    else PrimitiveAmong(s, candidates[1..])
  }

  function PrimitiveOf(s: string): (r: Option<Primitive>)
    ensures r.Some? ==> PrimitiveText(r.value) == s
  {
    PrimitiveAmong(s, PRIMITIVES)
  }

  // ----- printing

  /** The identity text of a type. A generated name prints as the application it stands for; below a
      written application every whitespace character is dropped. Defined on bounded provenance. */
  function Render(origins: Origins, ty: Type, ghost height: nat): string
    requires Fits(origins, ty, height)
    decreases height, 1
  {
    FitsBelow(origins, ty, height);
    match ty
    case Prim(p) => PrimitiveText(p)
    case Array(inner, len) => "[" + Join([Render(origins, inner, height - 1), Decimal(len)], ";") + "]"
    case Tuple(items) => "(" + Join(RenderAll(origins, items, height - 1), ",") + ")"
    case Ref(inner) => "&" + Render(origins, inner, height - 1)
    case MutRef(inner) => "&mut " + Render(origins, inner, height - 1)
    case Named(name) =>
      if name in origins then
        origins[name].template + "<" + Join(RenderAll(origins, origins[name].arguments, height - 1), ",") + ">"
      else Strip(name)
    case Applied(head, arguments) => head + "<" + Join(RenderArguments(origins, arguments, height - 1), ",") + ">"
  }

  function RenderAll(origins: Origins, tys: seq<Type>, ghost height: nat): (texts: seq<string>)
    requires forall i :: 0 <= i < |tys| ==> Fits(origins, tys[i], height)
    ensures |texts| == |tys|
    ensures forall i :: 0 <= i < |tys| ==> texts[i] == Render(origins, tys[i], height)
    decreases height, 2
  {
    seq(|tys|, i requires 0 <= i < |tys| => Render(origins, tys[i], height))
  }

  function RenderArgument(origins: Origins, argument: TypeArgument, ghost height: nat): string
    requires argument.TypeArg? ==> Fits(origins, argument.ty, height)
    decreases height, 2
  {
    if argument.TypeArg? then Strip(Render(origins, argument.ty, height)) else Decimal(argument.value)
  }

  function RenderArguments(origins: Origins, arguments: seq<TypeArgument>, ghost height: nat): (texts: seq<string>)
    requires forall i :: 0 <= i < |arguments| && arguments[i].TypeArg? ==> Fits(origins, arguments[i].ty, height)
    ensures |texts| == |arguments|
    ensures forall i :: 0 <= i < |arguments| ==> texts[i] == RenderArgument(origins, arguments[i], height)
    decreases height, 3
  {
    seq(|arguments|, i requires 0 <= i < |arguments| => RenderArgument(origins, arguments[i], height))
  }

  // ----- parsing

  /** Letters, digits, '_' and ':'. Outside ASCII every character that is not white space counts as a letter. */
  predicate IsNameChar(c: char)
  {
    || 'a' <= c <= 'z' || 'A' <= c <= 'Z' || IsDigit(c) || c == '_' || c == ':'
    || (c > '\U{7F}' && !IsWideWhitespace(c as int))
  }

  function FindAngle(s: string): (i: nat)
    ensures i <= |s| && (i < |s| ==> s[i] == '<')
    ensures forall j :: 0 <= j < i ==> s[j] != '<'
  {
    if s == [] || s[0] == '<' then 0 else 1 + FindAngle(s[1..])
  }

  predicate StartsMutRef(s: string)
  {
    |s| >= 5 && s[0] == '&' && s[1] == 'm' && s[2] == 'u' && s[3] == 't' && s[4] == ' '
  }

  /** Primitives, then references, then brackets, then applications, then names. */
  function Parse(input: string): (r: Option<Type>)
    decreases |input|, 3
  {
    var s := Trim(input);
    if PrimitiveOf(s).Some? then Some(Prim(PrimitiveOf(s).value))
    else if s == [] then None
    else if s[0] == '&' then ParseReference(s)
    else if s[0] == '[' && s[|s| - 1] == ']' then ParseArray(s[1..|s| - 1])
    else if s[0] == '(' && s[|s| - 1] == ')' then ParseTuple(s[1..|s| - 1])
    else if FindAngle(s) < |s| && s[|s| - 1] == '>' then
      ParseApplication(Trim(s[..FindAngle(s)]), s[FindAngle(s) + 1..|s| - 1])
    else if (exists i :: 0 <= i < |s| && !IsNameChar(s[i])) || AllDigits(s) then None
    else Some(Named(s))
  }

  function ParseReference(s: string): (r: Option<Type>)
    requires s != []
    decreases |s|, 2
  {
    var inner := Parse(s[if StartsMutRef(s) then 5 else 1..]);
    if inner.None? then None else Some(if StartsMutRef(s) then MutRef(inner.value) else Ref(inner.value))
  }

  function ParseTuple(body: string): (r: Option<Type>)
    decreases |body|, 5
  {
    if Trim(body) == [] then Some(Prim(Unit))
    else
      var parts := SplitTopLevel(body, ',');
      var items := if parts.None? then None else ParseAll(parts.value, |body|);
      if items.None? then None else Some(Tuple(items.value))
  }

  function ParseApplication(head: string, body: string): (r: Option<Type>)
    decreases |body|, 6
  {
    var parts := SplitTopLevel(body, ',');
    var arguments := if parts.None? then None else ParseArguments(parts.value, |body|);
    if arguments.None? then None else Some(Applied(head, arguments.value))
  }

  function ParseArray(body: string): (r: Option<Type>)
    decreases |body|, 5
  {
    var parts := SplitTopLevel(body, ';');
    if parts.None? || |parts.value| != 2 then None
    else
      var inner, len := Parse(parts.value[0]), ParseUnsigned(parts.value[1], USIZE_BOUND);
      if inner.None? || len.None? then None else Some(Array(inner.value, len.value))
  }

  function ParseAll(parts: seq<string>, bound: nat): (r: Option<seq<Type>>)
    requires forall i :: 0 <= i < |parts| ==> |parts[i]| <= bound
    ensures r.None? <==> exists i :: 0 <= i < |parts| && Parse(parts[i]).None?
    ensures r.Some? ==> |r.value| == |parts| && forall i :: 0 <= i < |parts| ==> Parse(parts[i]) == Some(r.value[i])
    decreases bound, 4, |parts|
  {
    if parts == [] then Some([])
    else
      var first, rest := Parse(parts[0]), ParseAll(parts[1..], bound);
      assert forall i :: 1 <= i < |parts| ==> parts[i] == parts[1..][i - 1];
      if first.None? || rest.None? then None else Some([first.value] + rest.value)
  }

  /** A written argument: all digits make a constant, anything else a type. */
  function ParseArgument(part: string): (r: Option<TypeArgument>)
    decreases |part|, 4
  {
    if part != [] && AllDigits(part) then
      var value := ParseUnsigned(part, U128_BOUND);
      if value.None? then None else Some(Constant(value.value))
    else
      var ty := Parse(part);
      if ty.None? then None else Some(TypeArg(ty.value))
  }

  function ParseArguments(parts: seq<string>, bound: nat): (r: Option<seq<TypeArgument>>)
    requires forall i :: 0 <= i < |parts| ==> |parts[i]| <= bound
    ensures r.None? <==> exists i :: 0 <= i < |parts| && ParseArgument(parts[i]).None?
    ensures r.Some? ==>
            |r.value| == |parts| && forall i :: 0 <= i < |parts| ==> ParseArgument(parts[i]) == Some(r.value[i])
    decreases bound, 5, |parts|
  {
    if parts == [] then Some([])
    else
      var first, rest := ParseArgument(parts[0]), ParseArguments(parts[1..], bound);
      assert forall i :: 1 <= i < |parts| ==> parts[i] == parts[1..][i - 1];
      if first.None? || rest.None? then None else Some([first.value] + rest.value)
  }
}
