/** One symbol names one specialization. */
module SymbolInjectivity {
  import opened Options
  import opened Types
  import opened Provenance
  import opened TextScan
  import opened TypeText
  import opened TypeRoundTrip
  import opened RenderFrames
  import opened SymbolNames
  import opened OriginGrowth
  import opened Layout
  import opened Worklist

  /** Plain names carry no white space. */
  predicate Unspaced(origins: Origins, ty: Type)
  {
    && (ty.Named? && ty.name !in origins ==> Strip(ty.name) == ty.name)
    && forall i :: 0 <= i < |Children(ty)| ==> Unspaced(origins, Children(ty)[i])
  }

  predicate AllUnspaced(origins: Origins, tys: seq<Type>)
  {
    forall i :: 0 <= i < |tys| ==> Unspaced(origins, tys[i])
  }

  /** The arguments of every retained origin are unspaced. */
  ghost predicate OriginsUnspaced(origins: Origins)
  {
    forall name :: name in origins ==> AllUnspaced(origins, origins[name].arguments)
  }

  /** Retained origins of templates, over resolved and unspaced arguments, each under the symbol that encodes it. */
  ghost predicate Faithful(templates: Templates, origins: Origins)
  {
    && Sound(origins) && AllEncode(origins) && OriginsUnspaced(origins)
    && forall name :: name in origins ==>
         && origins[name].template in templates && templates[origins[name].template].kind == origins[name].kind
         && AllResolved(templates, origins[name].arguments)
  }

  ghost predicate Comparable(templates: Templates, origins: Origins, ty: Type, height: nat)
  {
    Fits(origins, ty, height) && Resolved(templates, ty) && Unspaced(origins, ty)
  }

  ghost predicate AllComparable(templates: Templates, origins: Origins, tys: seq<Type>, height: nat)
  {
    AllFits(origins, tys, height) && AllResolved(templates, tys) && AllUnspaced(origins, tys)
  }

  /** Among resolved types, unfolding the generated names forgets nothing. */
  lemma {:induction false} UnfoldInjective(templates: Templates, origins: Origins, a: Type, b: Type, ha: nat, hb: nat)
    requires Faithful(templates, origins)
    requires Comparable(templates, origins, a, ha) && Comparable(templates, origins, b, hb)
    requires TypeOf(TreeOf(origins, a, ha)) == TypeOf(TreeOf(origins, b, hb))
    ensures a == b
    decreases ha, 1
  {
    if a.Named? && a.name in origins {
      if !(b.Named? && b.name in origins) {
        SymbolsDiffer(templates, origins, a.name, b, ha, hb);
      }
      NamedUnfold(templates, origins, a.name, b.name, ha, hb);
    } else {
      if b.Named? && b.name in origins {
        SymbolsDiffer(templates, origins, b.name, a, hb, ha);
      }
      SameShapeUnfold(templates, origins, a, b, ha, hb);
    }
  }

  /** A symbol unfolds to an application of a template, and no other resolved type does. */
  lemma {:induction false} SymbolsDiffer(templates: Templates, origins: Origins, name: string, ty: Type, height: nat,
                                         other: nat)
    requires name in origins && origins[name].template in templates && Fits(origins, Named(name), height)
    requires Fits(origins, ty, other) && Resolved(templates, ty) && !(ty.Named? && ty.name in origins)
    ensures TypeOf(TreeOf(origins, Named(name), height)) != TypeOf(TreeOf(origins, ty, other))
  {
    var unfolded := TypeOf(TreeOf(origins, ty, other));
    assert unfolded.Applied? ==> ty.Applied? && unfolded.head == ty.head;
  }

  lemma {:induction false} ArgumentsUnfold(templates: Templates, origins: Origins, a: seq<Type>, b: seq<Type>, ha: nat,
                                           hb: nat)
    requires Faithful(templates, origins)
    requires AllComparable(templates, origins, a, ha) && AllComparable(templates, origins, b, hb)
    requires TypesOf(TreesOf(origins, a, ha)) == TypesOf(TreesOf(origins, b, hb))
    ensures a == b
    decreases ha, 2
  {
    var x, y := TreesOf(origins, a, ha), TreesOf(origins, b, hb);
    assert |a| == |TypesOf(x)| == |TypesOf(y)| == |b|;
    forall i | 0 <= i < |a| ensures a[i] == b[i] {
      assert TypesOf(x)[i] == TypesOf(y)[i];
      UnfoldInjective(templates, origins, a[i], b[i], ha, hb);
    }
  }

  lemma AsArgumentsTypes(x: seq<Tree>, y: seq<Tree>)
    requires ArgumentsOf(AsArguments(x)) == ArgumentsOf(AsArguments(y))
    ensures TypesOf(x) == TypesOf(y)
  {
    var p, q := ArgumentsOf(AsArguments(x)), ArgumentsOf(AsArguments(y));
    assert |x| == |p| == |q| == |y|;
    forall i | 0 <= i < |x| ensures TypesOf(x)[i] == TypesOf(y)[i] {
      assert p[i] == TypeArg(TypeOf(x[i])) && q[i] == TypeArg(TypeOf(y[i]));
    }
  }

  lemma {:induction false} RetainedComparable(templates: Templates, origins: Origins, name: string, height: nat)
    requires Faithful(templates, origins) && name in origins && height > 0
    requires AllFits(origins, origins[name].arguments, height - 1)
    ensures AllComparable(templates, origins, origins[name].arguments, height - 1)
  {
  }

  lemma {:induction false} NamedUnfold(templates: Templates, origins: Origins, a: string, b: string, ha: nat, hb: nat)
    requires Faithful(templates, origins) && a in origins && b in origins
    requires Fits(origins, Named(a), ha) && Fits(origins, Named(b), hb)
    requires TypeOf(TreeOf(origins, Named(a), ha)) == TypeOf(TreeOf(origins, Named(b), hb))
    ensures a == b
    decreases ha, 0
  {
    FitsBelow(origins, Named(a), ha);
    FitsBelow(origins, Named(b), hb);
    RetainedComparable(templates, origins, a, ha);
    RetainedComparable(templates, origins, b, hb);
    AsArgumentsTypes(TreesOf(origins, origins[a].arguments, ha - 1), TreesOf(origins, origins[b].arguments, hb - 1));
    ArgumentsUnfold(templates, origins, origins[a].arguments, origins[b].arguments, ha - 1, hb - 1);
    RetainedOnce(origins, a, b);
  }

  lemma {:induction false} SameShapeUnfold(templates: Templates, origins: Origins, a: Type, b: Type, ha: nat, hb: nat)
    requires Faithful(templates, origins)
    requires Comparable(templates, origins, a, ha) && Comparable(templates, origins, b, hb)
    requires !(a.Named? && a.name in origins) && !(b.Named? && b.name in origins)
    requires TypeOf(TreeOf(origins, a, ha)) == TypeOf(TreeOf(origins, b, hb))
    ensures a == b
    decreases ha, 0
  {
    if a.Array? || a.Ref? || a.MutRef? {
      InnerUnfold(templates, origins, a, b, ha, hb);
    } else if a.Tuple? {
      TupleUnfold(templates, origins, a, b, ha, hb);
    } else if a.Applied? {
      AppliedUnfold(templates, origins, a, b, ha, hb);
    }
  }

  lemma {:induction false} InnerUnfold(templates: Templates, origins: Origins, a: Type, b: Type, ha: nat, hb: nat)
    requires Faithful(templates, origins) && (a.Array? || a.Ref? || a.MutRef?)
    requires Comparable(templates, origins, a, ha) && Comparable(templates, origins, b, hb)
    requires !(b.Named? && b.name in origins)
    requires TypeOf(TreeOf(origins, a, ha)) == TypeOf(TreeOf(origins, b, hb))
    ensures a == b
    decreases ha, 0, 0
  {
    FitsBelow(origins, a, ha);
    FitsBelow(origins, b, hb);
    assert Children(a)[0] == a.inner && Children(b)[0] == b.inner;
    UnfoldInjective(templates, origins, a.inner, b.inner, ha - 1, hb - 1);
  }

  lemma {:induction false} TupleUnfold(templates: Templates, origins: Origins, a: Type, b: Type, ha: nat, hb: nat)
    requires Faithful(templates, origins) && a.Tuple?
    requires Comparable(templates, origins, a, ha) && Comparable(templates, origins, b, hb)
    requires !(b.Named? && b.name in origins)
    requires TypeOf(TreeOf(origins, a, ha)) == TypeOf(TreeOf(origins, b, hb))
    ensures a == b
    decreases ha, 0, 0
  {
    FitsBelow(origins, a, ha);
    FitsBelow(origins, b, hb);
    assert Children(a) == a.items && Children(b) == b.items;
    ArgumentsUnfold(templates, origins, a.items, b.items, ha - 1, hb - 1);
  }

  lemma ArgumentComparable(templates: Templates, origins: Origins, ty: Type, height: nat, i: nat)
    requires Comparable(templates, origins, ty, height) && ty.Applied? && i < |ty.arguments| && ty.arguments[i].TypeArg?
    ensures height > 0 && Comparable(templates, origins, ty.arguments[i].ty, height - 1)
  {
    FitsBelow(origins, ty, height);
    SlotHolds(ty.arguments, i);
    assert Children(ty)[Slot(ty.arguments, i)] == ty.arguments[i].ty;
  }

  lemma {:induction false} AppliedUnfold(templates: Templates, origins: Origins, a: Type, b: Type, ha: nat, hb: nat)
    requires Faithful(templates, origins) && a.Applied? && b.Applied?
    requires Comparable(templates, origins, a, ha) && Comparable(templates, origins, b, hb)
    requires TypeOf(TreeOf(origins, a, ha)) == TypeOf(TreeOf(origins, b, hb))
    ensures a == b
    decreases ha, 0, 0
  {
    FitsBelow(origins, a, ha);
    FitsBelow(origins, b, hb);
    var x, y := TreeArguments(origins, a.arguments, ha - 1), TreeArguments(origins, b.arguments, hb - 1);
    assert ArgumentsOf(x) == ArgumentsOf(y);
    assert |a.arguments| == |ArgumentsOf(x)| == |ArgumentsOf(y)| == |b.arguments|;
    forall i | 0 <= i < |a.arguments| ensures a.arguments[i] == b.arguments[i] {
      assert ArgumentOf(x[i]) == ArgumentsOf(x)[i] == ArgumentsOf(y)[i] == ArgumentOf(y[i]);
      if a.arguments[i].TypeArg? {
        ArgumentComparable(templates, origins, a, ha, i);
        ArgumentComparable(templates, origins, b, hb, i);
        UnfoldInjective(templates, origins, a.arguments[i].ty, b.arguments[i].ty, ha - 1, hb - 1);
      }
    }
  }

  /** One symbol names one specialization: equal symbols come from the same template and the same arguments. */
  lemma {:induction false} SymbolsInjective(templates: Templates, origins: Origins, template1: string, a: seq<Type>,
                                            ha: nat, template2: string, b: seq<Type>, hb: nat)
    requires Faithful(templates, origins) && a != [] && b != []
    requires AllComparable(templates, origins, a, ha) && AllSpeakable(origins, a, ha)
    requires AllComparable(templates, origins, b, hb) && AllSpeakable(origins, b, hb)
    requires MonomorphName(template1, a, origins, ha).Some?
    requires MonomorphName(template1, a, origins, ha) == MonomorphName(template2, b, origins, hb)
    ensures template1 == template2 && a == b
  {
    MonomorphNameInjective(template1, a, ha, template2, b, hb, origins);
    ArgumentsUnfold(templates, origins, a, b, ha, hb);
  }

  ghost predicate AllSpeakable(origins: Origins, tys: seq<Type>, height: nat)
    requires AllFits(origins, tys, height)
  {
    forall i :: 0 <= i < |tys| ==> Speakable(origins, tys[i], height)
  }

  /** The origins are over speakable arguments, at least one each. */
  ghost predicate OriginsSpeakable(origins: Origins)
  {
    forall name, height: nat :: name in origins && AllFits(origins, origins[name].arguments, height) ==>
      origins[name].arguments != [] && AllSpeakable(origins, origins[name].arguments, height)
  }

  /** A request over speakable arguments is never refused for a symbol that another origin holds. */
  lemma {:induction false} SpeakableNeverClashes(templates: Templates, origins: Origins, template: string,
                                                 arguments: seq<Type>, height: nat)
    requires Faithful(templates, origins) && OriginsSpeakable(origins) && template in templates && arguments != []
    requires AllComparable(templates, origins, arguments, height) && AllSpeakable(origins, arguments, height)
    ensures Clashes(origins, Origin(templates[template].kind, template, arguments), height) <==>
            MonomorphName(template, arguments, origins, height).None?
  {
    var name := MonomorphName(template, arguments, origins, height);
    if name.Some? && name.value in origins {
      var other := origins[name.value];
      var high := ArgumentsFit(origins, other.arguments);
      assert Encodes(origins, name.value);
      SymbolsInjective(templates, origins, template, arguments, height, other.template, other.arguments, high);
    }
  }

  // ----- arguments whose texts do not parse back

  /** A mutable reference below a written application, and a reference to the name the stripped text has. */
  function Borrowed(head: string, name: string): Type
  {
    Applied(head, [TypeArg(MutRef(Named(name)))])
  }

  function Confused(head: string, name: string): Type
  {
    Applied(head, [TypeArg(Ref(Named("mut" + name)))])
  }

  lemma {:induction false} StripSpace(before: string, space: string, after: string)
    requires WhitespaceFree(before) && |space| == 1 && IsWhitespace(space[0]) && WhitespaceFree(after)
    ensures Strip(before + space + after) == before + after
  {
    var s := before + space + after;
    if before == [] {
      assert s[1..] == after;
      StripOfFree(after);
    } else {
      StripSpace(before[1..], space, after);
      assert s[1..] == before[1..] + space + after;
    }
  }

  lemma FreeTogether(a: string, b: string)
    requires WhitespaceFree(a) && WhitespaceFree(b)
    ensures WhitespaceFree(a + b)
  {
  }

  lemma SpacedText(both: string, space: string, name: string)
    requires WhitespaceFree(both) && |space| == 1 && IsWhitespace(space[0]) && WhitespaceFree(name)
    ensures Strip(both + space + Strip(name)) == both + name
  {
    StripOfFree(name);
    StripSpace(both, space, name);
  }

  lemma PlainText(amp: string, plain: string)
    requires WhitespaceFree(amp) && WhitespaceFree(plain)
    ensures Strip(amp + Strip(plain)) == amp + plain
  {
    FreeTogether(amp, plain);
    StripOfFree(plain);
    StripOfFree(amp + plain);
  }

  lemma SameText(amp: string, both: string, plain: string, space: string, name: string)
    requires WhitespaceFree(amp) && WhitespaceFree(both) && WhitespaceFree(plain) && WhitespaceFree(name)
    requires |space| == 1 && IsWhitespace(space[0]) && both + name == amp + plain
    ensures Strip(both + space + Strip(name)) == Strip(amp + Strip(plain))
  {
    SpacedText(both, space, name);
    PlainText(amp, plain);
  }

  lemma OneText(origins: Origins, head: string, argument: Type, height: nat)
    requires Fits(origins, Applied(head, [TypeArg(argument)]), height)
    ensures height > 0 && Fits(origins, argument, height - 1)
    ensures Render(origins, Applied(head, [TypeArg(argument)]), height) ==
            head + "<" + Strip(Render(origins, argument, height - 1)) + ">"
  {
    var ty := Applied(head, [TypeArg(argument)]);
    FitsBelow(origins, ty, height);
    assert ty.arguments[0] == TypeArg(argument);
    assert RenderArguments(origins, ty.arguments, height - 1) == [Strip(Render(origins, argument, height - 1))];
  }

  lemma BorrowedText(origins: Origins, head: string, name: string, height: nat)
    requires name !in origins && height >= 3
    ensures Fits(origins, Borrowed(head, name), height)
    ensures Render(origins, Borrowed(head, name), height) == head + "<" + Strip("&mut " + Strip(name)) + ">"
  {
    assert Below(origins, Named(name)) == [] && Below(origins, MutRef(Named(name))) == [Named(name)];
    assert Below(origins, Borrowed(head, name)) == [MutRef(Named(name))];
    OneText(origins, head, MutRef(Named(name)), height);
  }

  lemma ConfusedText(origins: Origins, head: string, name: string, height: nat)
    requires "mut" + name !in origins && height >= 3
    ensures Fits(origins, Confused(head, name), height)
    ensures Render(origins, Confused(head, name), height) == head + "<" + Strip("&" + Strip("mut" + name)) + ">"
  {
    var other := "mut" + name;
    assert Below(origins, Named(other)) == [] && Below(origins, Ref(Named(other))) == [Named(other)];
    assert Below(origins, Confused(head, name)) == [Ref(Named(other))];
    OneText(origins, head, Ref(Named(other)), height);
  }

  lemma OneSymbol(origins: Origins, template: string, a: Type, b: Type, height: nat)
    requires Fits(origins, a, height) && Fits(origins, b, height)
    requires Render(origins, a, height) == Render(origins, b, height)
    ensures MonomorphName(template, [a], origins, height) == MonomorphName(template, [b], origins, height)
  {
    assert RenderAll(origins, [a], height) == RenderAll(origins, [b], height);
  }

  /** The two arguments differ and print the same, so one symbol would stand for two requests. */
  lemma {:induction false} StrippedArgumentsClash(origins: Origins, template: string, head: string, name: string,
                                                  height: nat)
    requires WhitespaceFree(name) && name !in origins && "mut" + name !in origins && height >= 3
    ensures Borrowed(head, name) != Confused(head, name)
    ensures Fits(origins, Borrowed(head, name), height) && Fits(origins, Confused(head, name), height)
    ensures MonomorphName(template, [Borrowed(head, name)], origins, height) ==
            MonomorphName(template, [Confused(head, name)], origins, height)
  {
    BorrowedText(origins, head, name, height);
    ConfusedText(origins, head, name, height);
    var both, plain := "&mut", "mut" + name;
    assert both + name == "&" + plain && both + " " == "&mut ";
    FreeTogether("mut", name);
    SameText("&", both, plain, " ", name);
    OneSymbol(origins, template, Borrowed(head, name), Confused(head, name), height);
  }

  /** Where one of them is retained, the other is refused. */
  lemma StrippedRequestRefused(origins: Origins, kind: Kind, template: string, head: string, name: string, height: nat)
    requires WhitespaceFree(name) && name !in origins && "mut" + name !in origins && height >= 3
    requires AllFits(origins, [Borrowed(head, name)], height)
    requires var symbol := MonomorphName(template, [Borrowed(head, name)], origins, height);
             symbol.Some? && symbol.value in origins &&
             origins[symbol.value] == Origin(kind, template, [Borrowed(head, name)])
    ensures AllFits(origins, [Confused(head, name)], height)
    ensures Clashes(origins, Origin(kind, template, [Confused(head, name)]), height)
  {
    StrippedArgumentsClash(origins, template, head, name, height);
  }
}
