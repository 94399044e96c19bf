/** An identity text as a frame around the texts below it. */
module RenderFrames {
  import opened Types
  import opened Provenance
  import opened TextScan
  import opened TypeText
  import opened Shrinking

  /** The argument texts of a written application: types lose their white space, constants are decimal. */
  function ArgumentFrame(arguments: seq<TypeArgument>, texts: seq<string>): (r: seq<string>)
    requires |texts| == |TypeArguments(arguments)|
    ensures |r| == |arguments|
  {
    if arguments == [] then []
    else if arguments[0].TypeArg? then [Strip(texts[0])] + ArgumentFrame(arguments[1..], texts[1..])
    else [Decimal(arguments[0].value)] + ArgumentFrame(arguments[1..], texts)
  }

  /** The text of a type from the texts of what lies below it. */
  function Frame(origins: Origins, ty: Type, texts: seq<string>): string
    requires |texts| == |Below(origins, ty)|
  {
    match ty
    case Prim(p) => PrimitiveText(p)
    case Array(_, len) => "[" + Join([texts[0], Decimal(len)], ";") + "]"
    case Tuple(_) => "(" + Join(texts, ",") + ")"
    case Ref(_) => "&" + texts[0]
    case MutRef(_) => "&mut " + texts[0]
    case Named(name) => if name in origins then origins[name].template + "<" + Join(texts, ",") + ">" else Strip(name)
    case Applied(head, arguments) => head + "<" + Join(ArgumentFrame(arguments, texts), ",") + ">"
  }

  ghost predicate AllFits(origins: Origins, tys: seq<Type>, height: nat)
  {
    forall i :: 0 <= i < |tys| ==> Fits(origins, tys[i], height)
  }

  lemma FitsAllBelow(origins: Origins, ty: Type, height: nat)
    requires Fits(origins, ty, height)
    ensures height > 0 && AllFits(origins, Below(origins, ty), height - 1)
  {
  }

  lemma {:induction false} ArgumentFrameAt(arguments: seq<TypeArgument>, texts: seq<string>, i: nat)
    requires |texts| == |TypeArguments(arguments)| && i < |arguments|
    ensures arguments[i].Constant? ==> ArgumentFrame(arguments, texts)[i] == Decimal(arguments[i].value)
    ensures arguments[i].TypeArg? ==>
              Slot(arguments, i) < |texts| && ArgumentFrame(arguments, texts)[i] == Strip(texts[Slot(arguments, i)])
  {
    if i > 0 {
      ArgumentFrameAt(arguments[1..], if arguments[0].TypeArg? then texts[1..] else texts, i - 1);
    }
  }

  lemma {:induction false} RenderArgumentsFrame(origins: Origins, arguments: seq<TypeArgument>, height: nat)
    requires AllFits(origins, TypeArguments(arguments), height)
    requires forall i :: 0 <= i < |arguments| && arguments[i].TypeArg? ==> Fits(origins, arguments[i].ty, height)
    ensures RenderArguments(origins, arguments, height) ==
            ArgumentFrame(arguments, RenderAll(origins, TypeArguments(arguments), height))
  {
    var texts := RenderAll(origins, TypeArguments(arguments), height);
    forall i | 0 <= i < |arguments|
      ensures RenderArgument(origins, arguments[i], height) == ArgumentFrame(arguments, texts)[i]
    {
      ArgumentFrameAt(arguments, texts, i);
      if arguments[i].TypeArg? {
        SlotHolds(arguments, i);
      }
    }
  }

  lemma {:induction false} RenderIsFrame(origins: Origins, ty: Type, height: nat)
    requires Fits(origins, ty, height)
    ensures height > 0 && AllFits(origins, Below(origins, ty), height - 1)
    ensures Render(origins, ty, height) == Frame(origins, ty, RenderAll(origins, Below(origins, ty), height - 1))
  {
    FitsBelow(origins, ty, height);
    FitsAllBelow(origins, ty, height);
    if ty.Applied? {
      RenderArgumentsFrame(origins, ty.arguments, height - 1);
    } else if ty.Array? || ty.Ref? || ty.MutRef? {
      assert Below(origins, ty)[0] == ty.inner;
    }
  }

  lemma {:induction false} ArgumentsShrink(arguments: seq<TypeArgument>, a: seq<string>, b: seq<string>)
    requires |a| == |b| == |TypeArguments(arguments)| && AllShrink(a, b)
    ensures AllShrink(ArgumentFrame(arguments, a), ArgumentFrame(arguments, b))
  {
    if arguments != [] {
      if arguments[0].TypeArg? {
        ShrinksStrip(a[0], b[0]);
        ArgumentsShrink(arguments[1..], a[1..], b[1..]);
      } else {
        ArgumentsShrink(arguments[1..], a, b);
      }
    }
  }

  /** Shorter parts make a shorter whole, in any frame. */
  lemma FrameShrinks(before: Origins, after: Origins, ty: Type, a: seq<string>, b: seq<string>)
    requires ty.Named? ==>
             (ty.name in before <==> ty.name in after) && (ty.name in before ==> before[ty.name] == after[ty.name])
    requires |a| == |b| == |Below(before, ty)| == |Below(after, ty)| && AllShrink(a, b)
    ensures Shrinks(Frame(after, ty, a), Frame(before, ty, b))
  {
    match ty
    case Array(_, len) =>
      ShrinksJoin([a[0], Decimal(len)], [b[0], Decimal(len)], ";");
      ShrinksWrap("[", Join([a[0], Decimal(len)], ";"), Join([b[0], Decimal(len)], ";"), "]");
    case Tuple(_) =>
      ShrinksJoin(a, b, ",");
      ShrinksWrap("(", Join(a, ","), Join(b, ","), ")");
    case Ref(_) => ShrinksAfter("&", a[0], b[0]);
    case MutRef(_) => ShrinksAfter("&mut ", a[0], b[0]);
    case Named(name) =>
      if name in before {
        ShrinksJoin(a, b, ",");
        ShrinksWrap(before[name].template + "<", Join(a, ","), Join(b, ","), ">");
      }
    case Applied(head, arguments) =>
      ArgumentsShrink(arguments, a, b);
      ShrinksJoin(ArgumentFrame(arguments, a), ArgumentFrame(arguments, b), ",");
      ShrinksWrap(head + "<", Join(ArgumentFrame(arguments, a), ","), Join(ArgumentFrame(arguments, b), ","), ">");
    case Prim(_) =>
  }

  lemma ShrinksAfter(x: string, a: string, b: string)
    requires Shrinks(a, b)
    ensures Shrinks(x + a, x + b)
  {
    SizeConcat(x, a);
    SizeConcat(x, b);
  }

  lemma {:induction false} ArgumentSize(arguments: seq<TypeArgument>, texts: seq<string>, i: nat) returns (j: nat)
    requires |texts| == |TypeArguments(arguments)| && i < |texts|
    ensures j < |arguments| && ArgumentFrame(arguments, texts)[j] == Strip(texts[i])
  {
    if arguments[0].TypeArg? && i == 0 {
      j := 0;
    } else if arguments[0].TypeArg? {
      j := ArgumentSize(arguments[1..], texts[1..], i - 1);
      j := j + 1;
    } else {
      j := ArgumentSize(arguments[1..], texts, i);
      j := j + 1;
    }
  }

  /** No part is longer than the whole. */
  lemma FrameHolds(origins: Origins, ty: Type, texts: seq<string>, i: nat)
    requires |texts| == |Below(origins, ty)| && i < |texts|
    ensures Size(texts[i]) <= Size(Frame(origins, ty, texts))
  {
    match ty
    case Array(_, len) =>
      PartSize([texts[0], Decimal(len)], ";", 0);
      WrapSize("[", Join([texts[0], Decimal(len)], ";"), "]");
    case Tuple(_) =>
      PartSize(texts, ",", i);
      WrapSize("(", Join(texts, ","), ")");
    case Ref(_) => SizeConcat("&", texts[0]);
    case MutRef(_) => SizeConcat("&mut ", texts[0]);
    case Named(name) =>
      PartSize(texts, ",", i);
      WrapSize(origins[name].template + "<", Join(texts, ","), ">");
    case Applied(head, arguments) =>
      var j := ArgumentSize(arguments, texts, i);
      StripTwice(texts[i]);
      PartSize(ArgumentFrame(arguments, texts), ",", j);
      WrapSize(head + "<", Join(ArgumentFrame(arguments, texts), ","), ">");
  }
}
