/** Generated specialization symbols: template, marker, and the hexadecimal bytes of the canonical argument text. */
module SymbolNames {
  import opened Options
  import opened Types
  import opened Provenance
  import opened TextScan
  import opened TypeText
  import opened TypeRoundTrip

  /** The UTF-8 bytes of one character. */
  function Utf8(c: char): (bytes: seq<nat>)
    ensures 1 <= |bytes| <= 4 && forall i :: 0 <= i < |bytes| ==> bytes[i] < 256
  {
    var code := c as int;
    if code < 0x80 then [code]
    else if code < 0x800 then [0xC0 + code / 64, 0x80 + code % 64]
    else if code < 0x1_0000 then [0xE0 + code / 4096, 0x80 + code / 64 % 64, 0x80 + code % 64]
    else [0xF0 + code / 262144, 0x80 + code / 4096 % 64, 0x80 + code / 64 % 64, 0x80 + code % 64]
  }

  function Bytes(s: string): (bytes: seq<nat>)
    ensures forall i :: 0 <= i < |bytes| ==> bytes[i] < 256
  {
    if s == [] then [] else Utf8(s[0]) + Bytes(s[1..])
  }

  function HexDigit(n: nat): char
    requires n < 16
  {
    if n < 10 then ('0' as int + n) as char else ('a' as int + n - 10) as char
  }

  function Hex(bytes: seq<nat>): (s: string)
    requires forall i :: 0 <= i < |bytes| ==> bytes[i] < 256
    ensures |s| == 2 * |bytes| && '_' !in s
  {
    if bytes == [] then [] else [HexDigit(bytes[0] / 16), HexDigit(bytes[0] % 16)] + Hex(bytes[1..])
  }

  function CanonicalText(origins: Origins, arguments: seq<Type>, ghost height: nat): string
    requires forall i :: 0 <= i < |arguments| ==> Fits(origins, arguments[i], height)
  {
    Join(RenderAll(origins, arguments, height), ",")
  }

  /** The symbol of a specialization, or nothing when it exceeds the identity bound. */
  function MonomorphName(template: string, arguments: seq<Type>, origins: Origins,
                         ghost height: nat): (name: Option<string>)
    requires forall i :: 0 <= i < |arguments| ==> Fits(origins, arguments[i], height)
    ensures name.Some? ==> HasMarker(name.value)
  {
    var encoded := Hex(Bytes(CanonicalText(origins, arguments, height)));
    var name := template + MONO_MARKER + encoded;
    assert MarkerAt(name, |template|);
    if |Bytes(name)| > MAX_MONOMORPH_NAME_BYTES then None else Some(name)
  }

  predicate MarkerAt(name: string, i: nat)
  {
    i + |MONO_MARKER| <= |name| && name[i..i + |MONO_MARKER|] == MONO_MARKER
  }

  predicate HasMarker(name: string)
  {
    exists i :: 0 <= i <= |name| && MarkerAt(name, i)
  }

  // ----- injectivity

  lemma Utf8Prefix(c: char, d: char, x: seq<nat>, y: seq<nat>)
    requires Utf8(c) + x == Utf8(d) + y
    ensures c == d && x == y
  {
    var s := Utf8(c) + x;
    assert s == Utf8(d) + y;
    var n, m := |Utf8(c)|, |Utf8(d)|;
    assert s[..n] == Utf8(c) && s[..m] == Utf8(d);
    assert s[n..] == x && s[m..] == y;
    assert s[0] == Utf8(c)[0] == Utf8(d)[0];
    SameLength(c, d);
    assert Utf8(c) == Utf8(d);
    Utf8Injective(c, d);
  }

  lemma SameLength(c: char, d: char)
    requires Utf8(c)[0] == Utf8(d)[0]
    ensures |Utf8(c)| == |Utf8(d)|
  {
    LeadByte(c);
    LeadByte(d);
  }

  lemma LeadByte(c: char)
    ensures var b := Utf8(c);
            && (|b| == 1 <==> b[0] < 0x80) && (|b| == 2 <==> 0xC0 <= b[0] < 0xE0)
            && (|b| == 3 <==> 0xE0 <= b[0] < 0xF0) && (|b| == 4 <==> 0xF0 <= b[0])
  {
  }

  function FromUtf8(b: seq<int>): int
    requires 1 <= |b| <= 4
  {
    if |b| == 1 then b[0]
    else if |b| == 2 then 64 * b[0] + b[1] - 0x3080
    else if |b| == 3 then 4096 * b[0] + 64 * b[1] + b[2] - 0xE_2080
    else 262144 * b[0] + 4096 * b[1] + 64 * b[2] + b[3] - 0x3C8_2080
  }

  lemma Utf8Decodes(c: char)
    ensures FromUtf8(Utf8(c)) == c as int
  {
    var code := c as int;
    assert code / 4096 == code / 64 / 64 && code / 262144 == code / 64 / 64 / 64;
    assert code == code / 64 * 64 + code % 64;
    assert code / 64 == code / 4096 * 64 + code / 64 % 64;
    assert code / 4096 == code / 262144 * 64 + code / 4096 % 64;
  }

  lemma Utf8Injective(c: char, d: char)
    requires Utf8(c) == Utf8(d)
    ensures c == d
  {
    Utf8Decodes(c);
    Utf8Decodes(d);
  }

  lemma {:induction false} BytesInjective(s: string, t: string)
    requires Bytes(s) == Bytes(t)
    ensures s == t
  {
    if s != [] && t != [] {
      Utf8Prefix(s[0], t[0], Bytes(s[1..]), Bytes(t[1..]));
      BytesInjective(s[1..], t[1..]);
      assert s == [s[0]] + s[1..] && t == [t[0]] + t[1..];
    }
  }

  lemma {:induction false} HexInjective(a: seq<nat>, b: seq<nat>)
    requires forall i :: 0 <= i < |a| ==> a[i] < 256
    requires forall i :: 0 <= i < |b| ==> b[i] < 256
    requires Hex(a) == Hex(b)
    ensures a == b
  {
    assert |a| == |b|;
    if a != [] {
      var s := Hex(a);
      assert s[0] == HexDigit(a[0] / 16) == HexDigit(b[0] / 16) && s[1] == HexDigit(a[0] % 16) == HexDigit(b[0] % 16);
      assert s[2..] == Hex(a[1..]) && s[2..] == Hex(b[1..]);
      HexInjective(a[1..], b[1..]);
      assert a[0] == b[0];
    }
  }

  lemma LastUnderscore(a: string, x: string)
    requires '_' !in x
    ensures var s := a + MONO_MARKER + x;
            |MONO_MARKER| == 8 && s[|a| + 7] == '_' && forall i :: |a| + 8 <= i < |s| ==> s[i] != '_'
  {
    var s := a + MONO_MARKER + x;
    assert s[|a| + 7] == MONO_MARKER[7];
    assert forall i :: |a| + 8 <= i < |s| ==> s[i] == x[i - |a| - 8];
  }

  lemma MarkerSplits(a: string, b: string, x: string, y: string)
    requires '_' !in x && '_' !in y && a + MONO_MARKER + x == b + MONO_MARKER + y
    ensures a == b && x == y
  {
    var s := a + MONO_MARKER + x;
    LastUnderscore(a, x);
    LastUnderscore(b, y);
    assert |a| == |b|;
    assert s[..|a|] == a && (b + MONO_MARKER + y)[..|a|] == b;
    assert s[|a| + 8..] == x && (b + MONO_MARKER + y)[|a| + 8..] == y;
  }

  // ----- unfolding a type into the tree its text denotes

  ghost function TreeOf(origins: Origins, ty: Type, height: nat): Tree
    requires Fits(origins, ty, height)
    decreases height, 1
  {
    FitsBelow(origins, ty, height);
    match ty
    case Prim(p) => Leaf(p)
    case Array(inner, len) => ArrayOf(TreeOf(origins, inner, height - 1), len)
    case Tuple(items) => TupleOf(TreesOf(origins, items, height - 1))
    case Ref(inner) => RefTo(TreeOf(origins, inner, height - 1))
    case MutRef(inner) => MutRefTo(TreeOf(origins, inner, height - 1))
    case Named(name) =>
      if name in origins
      then App(origins[name].template, false, AsArguments(TreesOf(origins, origins[name].arguments, height - 1)))
      else Name(Strip(name))
    case Applied(head, arguments) => App(head, true, TreeArguments(origins, arguments, height - 1))
  }

  ghost function TreesOf(origins: Origins, tys: seq<Type>, height: nat): (ts: seq<Tree>)
    requires forall i :: 0 <= i < |tys| ==> Fits(origins, tys[i], height)
    ensures |ts| == |tys| && forall i :: 0 <= i < |tys| ==> ts[i] == TreeOf(origins, tys[i], height)
    decreases height, 2, |tys|
  {
    if tys == [] then [] else [TreeOf(origins, tys[0], height)] + TreesOf(origins, tys[1..], height)
  }

  function AsArguments(ts: seq<Tree>): (r: seq<TreeArgument>)
    ensures |r| == |ts| && forall i :: 0 <= i < |ts| ==> r[i] == TreeType(ts[i])
  {
    seq(|ts|, i requires 0 <= i < |ts| => TreeType(ts[i]))
  }

  ghost function TreeArguments(origins: Origins, arguments: seq<TypeArgument>, height: nat): (r: seq<TreeArgument>)
    requires forall i :: 0 <= i < |arguments| && arguments[i].TypeArg? ==> Fits(origins, arguments[i].ty, height)
    ensures |r| == |arguments|
    ensures forall i :: 0 <= i < |arguments| ==>
              r[i] == if arguments[i].TypeArg? then TreeType(TreeOf(origins, arguments[i].ty, height))
                      else TreeConstant(arguments[i].value)
    decreases height, 2, |arguments|
  {
    if arguments == [] then []
    else
      [if arguments[0].TypeArg? then TreeType(TreeOf(origins, arguments[0].ty, height))
       else TreeConstant(arguments[0].value)]
      + TreeArguments(origins, arguments[1..], height)
  }

  /** The printer prints the unfolded tree. */
  lemma {:induction false} RenderPrintsTree(origins: Origins, ty: Type, height: nat)
    requires Fits(origins, ty, height)
    ensures Render(origins, ty, height) == TreeText(TreeOf(origins, ty, height))
    decreases height, 1
  {
    FitsBelow(origins, ty, height);
    match ty
    case Array(inner, len) => RenderPrintsTree(origins, inner, height - 1);
    case Tuple(items) => RenderPrintsTrees(origins, items, height - 1);
    case Ref(inner) => RenderPrintsTree(origins, inner, height - 1);
    case MutRef(inner) => RenderPrintsTree(origins, inner, height - 1);
    case Named(name) =>
      if name in origins {
        RenderPrintsTrees(origins, origins[name].arguments, height - 1);
        PlainArguments(TreesOf(origins, origins[name].arguments, height - 1));
      }
    case Applied(head, arguments) => RenderPrintsArguments(origins, arguments, height - 1);
    case Prim(p) =>
  }

  lemma PlainArguments(trees: seq<Tree>)
    ensures ArgumentTexts(AsArguments(trees), false) == TreeTexts(trees)
  {
  }

  lemma {:induction false} RenderPrintsArguments(origins: Origins, arguments: seq<TypeArgument>, height: nat)
    requires forall i :: 0 <= i < |arguments| && arguments[i].TypeArg? ==> Fits(origins, arguments[i].ty, height)
    ensures RenderArguments(origins, arguments, height) ==
            ArgumentTexts(TreeArguments(origins, arguments, height), true)
    decreases height, 2
  {
    forall i | 0 <= i < |arguments|
      ensures RenderArgument(origins, arguments[i], height) ==
              ArgumentText(TreeArguments(origins, arguments, height)[i], true)
    {
      if arguments[i].TypeArg? {
        RenderPrintsTree(origins, arguments[i].ty, height);
      }
    }
  }

  lemma {:induction false} RenderPrintsTrees(origins: Origins, tys: seq<Type>, height: nat)
    requires forall i :: 0 <= i < |tys| ==> Fits(origins, tys[i], height)
    ensures RenderAll(origins, tys, height) == TreeTexts(TreesOf(origins, tys, height))
    decreases height, 2
  {
    forall i | 0 <= i < |tys| ensures Render(origins, tys[i], height) == TreeText(TreeOf(origins, tys[i], height)) {
      RenderPrintsTree(origins, tys[i], height);
    }
  }

  /** Parsing the identity text of a well-formed type gives the type back, generated names unfolded, exactly when no
      mutable reference stands below a written application. */
  lemma RoundTripExactly(origins: Origins, ty: Type, height: nat)
    requires Fits(origins, ty, height) && WellFormed(TreeOf(origins, ty, height))
    ensures Parse(Render(origins, ty, height)) == Some(TypeOf(TreeOf(origins, ty, height))) <==>
            SpaceSafe(TreeOf(origins, ty, height))
  {
    RenderPrintsTree(origins, ty, height);
    TreeRoundTrip(TreeOf(origins, ty, height));
  }

  /** Every name in the type is a plain one: not generated, without white space. */
  ghost predicate Plain(origins: Origins, ty: Type)
  {
    forall name :: Mentions(ty, name) ==> name !in origins && WhitespaceFree(name)
  }

  lemma PlainBelow(origins: Origins, ty: Type, i: nat)
    requires Plain(origins, ty) && i < |Children(ty)|
    ensures Plain(origins, Children(ty)[i])
  {
    forall name | Mentions(Children(ty)[i], name) ensures Mentions(ty, name) {
    }
  }

  /** Without generated names the text denotes the type itself. */
  lemma {:induction false} UnfoldPlain(origins: Origins, ty: Type, height: nat)
    requires Fits(origins, ty, height)
    requires Plain(origins, ty)
    ensures TypeOf(TreeOf(origins, ty, height)) == ty
    decreases height, 1
  {
    FitsBelow(origins, ty, height);
    match ty
    case Array(inner, _) =>
      PlainBelow(origins, ty, 0);
      UnfoldPlain(origins, inner, height - 1);
    case Ref(inner) =>
      PlainBelow(origins, ty, 0);
      UnfoldPlain(origins, inner, height - 1);
    case MutRef(inner) =>
      PlainBelow(origins, ty, 0);
      UnfoldPlain(origins, inner, height - 1);
    case Tuple(items) =>
      forall i | 0 <= i < |items| ensures TypeOf(TreeOf(origins, items[i], height - 1)) == items[i] {
        PlainBelow(origins, ty, i);
        UnfoldPlain(origins, items[i], height - 1);
      }
    case Applied(_, arguments) => UnfoldPlainArguments(origins, ty, height);
    case Named(name) =>
      assert Mentions(ty, name);
      StripOfFree(name);
    case Prim(_) =>
  }

  lemma {:induction false} UnfoldPlainArguments(origins: Origins, ty: Type, height: nat)
    requires Fits(origins, ty, height) && ty.Applied? && Plain(origins, ty)
    ensures TypeOf(TreeOf(origins, ty, height)) == ty
    decreases height, 0
  {
    FitsBelow(origins, ty, height);
    var trees := TreeArguments(origins, ty.arguments, height - 1);
    forall i | 0 <= i < |ty.arguments| ensures ArgumentOf(trees[i]) == ty.arguments[i] {
      UnfoldPlainArgument(origins, ty, height, i);
    }
    assert ArgumentsOf(trees) == ty.arguments;
  }

  lemma {:induction false} UnfoldPlainArgument(origins: Origins, ty: Type, height: nat, i: nat)
    requires Fits(origins, ty, height) && ty.Applied? && Plain(origins, ty) && i < |ty.arguments|
    ensures height > 0 && (ty.arguments[i].TypeArg? ==> Fits(origins, ty.arguments[i].ty, height - 1))
    ensures ty.arguments[i].TypeArg? ==> TypeOf(TreeOf(origins, ty.arguments[i].ty, height - 1)) == ty.arguments[i].ty
    decreases height, 0, 0
  {
    FitsBelow(origins, ty, height);
    if ty.arguments[i].TypeArg? {
      SlotHolds(ty.arguments, i);
      PlainBelow(origins, ty, Slot(ty.arguments, i));
      UnfoldPlain(origins, ty.arguments[i].ty, height - 1);
    }
  }

  /** For a type without generated names the round trip is to the type itself. */
  lemma PlainRoundTripExactly(origins: Origins, ty: Type, height: nat)
    requires Fits(origins, ty, height) && WellFormed(TreeOf(origins, ty, height))
    requires Plain(origins, ty)
    ensures Parse(Render(origins, ty, height)) == Some(ty) <==> SpaceSafe(TreeOf(origins, ty, height))
  {
    RoundTripExactly(origins, ty, height);
    UnfoldPlain(origins, ty, height);
  }

  /** Well-formed, with no mutable reference below a written application. */
  ghost predicate Speakable(origins: Origins, ty: Type, height: nat)
    requires Fits(origins, ty, height)
  {
    WellFormed(TreeOf(origins, ty, height)) && SpaceSafe(TreeOf(origins, ty, height))
  }

  /** The canonical text splits and parses back into the argument list. */
  lemma TextDetermines(trees: seq<Tree>)
    requires trees != [] && forall i :: 0 <= i < |trees| ==> WellFormed(trees[i]) && SpaceSafe(trees[i])
    ensures var text := Join(TreeTexts(trees), ",");
            var parts := SplitTopLevel(text, ',');
            parts.Some? && ParseAll(parts.value, |text|) == Some(TypesOf(trees))
  {
    var parts := TreeTexts(trees);
    forall i | 0 <= i < |trees| ensures Clean(parts[i]) && RoundTrips(trees[i]) {
      TextGood(trees[i]);
      TreeRoundTrip(trees[i]);
    }
    SplitJoin(parts, ',');
    ParsedAll(parts, TypesOf(trees), |Join(parts, ",")|);
  }

  /** Equal symbols come from the same template and the same argument list. */
  lemma MonomorphNameInjective(template1: string, arguments1: seq<Type>, height1: nat,
                               template2: string, arguments2: seq<Type>, height2: nat, origins: Origins)
    requires forall i :: 0 <= i < |arguments1| ==>
             Fits(origins, arguments1[i], height1) && Speakable(origins, arguments1[i], height1)
    requires forall i :: 0 <= i < |arguments2| ==>
             Fits(origins, arguments2[i], height2) && Speakable(origins, arguments2[i], height2)
    requires arguments1 != [] && arguments2 != []
    requires MonomorphName(template1, arguments1, origins, height1).Some?
    requires MonomorphName(template1, arguments1, origins, height1) ==
             MonomorphName(template2, arguments2, origins, height2)
    ensures template1 == template2
    ensures TypesOf(TreesOf(origins, arguments1, height1)) == TypesOf(TreesOf(origins, arguments2, height2))
  {
    var text1, text2 := CanonicalText(origins, arguments1, height1), CanonicalText(origins, arguments2, height2);
    MarkerSplits(template1, template2, Hex(Bytes(text1)), Hex(Bytes(text2)));
    HexInjective(Bytes(text1), Bytes(text2));
    BytesInjective(text1, text2);
    RenderPrintsTrees(origins, arguments1, height1);
    RenderPrintsTrees(origins, arguments2, height2);
    TextDetermines(TreesOf(origins, arguments1, height1));
    TextDetermines(TreesOf(origins, arguments2, height2));
  }

  lemma OneArgument(head: string, tree: Tree)
    ensures TypeOf(App(head, true, [TreeType(tree)])) == Applied(head, [TypeArg(TypeOf(tree))])
  {
    var arguments := [TreeType(tree)];
    assert ArgumentsOf(arguments)[0] == ArgumentOf(arguments[0]) == TypeArg(TypeOf(tree));
  }

  lemma MutArgument(head: string, ty: Type)
    ensures !MutFree(Applied(head, [TypeArg(MutRef(ty))]))
  {
    var arguments := [TypeArg(MutRef(ty))];
    assert arguments[0].TypeArg? && !MutFree(arguments[0].ty);
  }

  lemma WrittenIsMutFree(t: Tree)
    requires t.App? && t.written && GoodHead(t.head) && RoundTrips(t)
    ensures MutFree(TypeOf(t))
  {
    WrittenFree(t);
    FreeTextHasNoMut(TreeText(t));
  }

  /** Dropping the space of `&mut` below an application loses the reference: no `Head<&mut T>` comes back. */
  lemma StrippedMutableReference(head: string, item: Tree)
    requires GoodHead(head)
    ensures !RoundTrips(App(head, true, [TreeType(MutRefTo(item))]))
  {
    OneArgument(head, MutRefTo(item));
    MutArgument(head, TypeOf(item));
    if RoundTrips(App(head, true, [TreeType(MutRefTo(item))])) {
      WrittenIsMutFree(App(head, true, [TreeType(MutRefTo(item))]));
    }
  }
}
