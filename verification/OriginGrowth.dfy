/** How retained origins grow while a module is specialized: a symbol is always longer than the text it stands for, so
    no growth closes a cycle, and a text that changes gets shorter. */
module OriginGrowth {
  import opened Options
  import opened Types
  import opened Provenance
  import opened TextScan
  import opened TypeText
  import opened Shrinking
  import opened RenderFrames
  import opened SymbolNames

  predicate Extends(before: Origins, after: Origins)
  {
    forall name :: name in before ==> name in after && after[name] == before[name]
  }

  ghost predicate HasHeight(origins: Origins, ty: Type)
  {
    exists height :: height >= 0 && Fits(origins, ty, height)
  }

  /** The symbol is longer than the application it stands for. */
  ghost predicate Shortens(origins: Origins, name: string)
  {
    forall height: nat :: Fits(origins, Named(name), height) ==> Size(Render(origins, Named(name), height)) < Size(name)
  }

  /** The origins a run retains: marked symbols, without cycles, each longer than what it stands for. */
  ghost predicate Sound(origins: Origins)
  {
    forall name :: name in origins ==> HasMarker(name) && HasHeight(origins, Named(name)) && Shortens(origins, name)
  }

  // ----- every type unfolds

  lemma {:induction false} SoundFits(origins: Origins, ty: Type)
    requires Sound(origins)
    ensures HasHeight(origins, ty)
    decreases ty, 1
  {
    if !(ty.Named? && ty.name in origins) {
      var height := CommonHeight(origins, ty, Children(ty));
      assert Fits(origins, ty, height + 1);
    }
  }

  lemma {:induction false} CommonHeight(origins: Origins, parent: Type, tys: seq<Type>) returns (height: nat)
    requires Sound(origins) && forall i :: 0 <= i < |tys| ==> tys[i] < parent
    ensures AllFits(origins, tys, height)
    decreases parent, 0, |tys|
  {
    if tys == [] {
      return 0;
    }
    SoundFits(origins, tys[0]);
    var first: nat :| Fits(origins, tys[0], first);
    var rest := CommonHeight(origins, parent, tys[1..]);
    height := if first > rest then first else rest;
    forall i | 0 <= i < |tys| ensures Fits(origins, tys[i], height) {
      assert i > 0 ==> tys[1..][i - 1] == tys[i];
      FitsMonotone(origins, tys[i], if i == 0 then first else rest, height);
    }
  }

  /** A common height for an argument list. */
  lemma ArgumentsFit(origins: Origins, tys: seq<Type>) returns (height: nat)
    requires Sound(origins)
    ensures AllFits(origins, tys, height)
  {
    height := CommonHeight(origins, Tuple(tys), tys);
  }

  // ----- growth shortens

  ghost predicate NewShorten(before: Origins, after: Origins)
  {
    forall name :: name in after && name !in before ==> Shortens(after, name)
  }

  /** Growth leaves a text as it is or shortens it, and the bound a text is rendered under never shows. */
  lemma {:induction false} RenderShrinks(before: Origins, after: Origins, ty: Type, low: nat, high: nat)
    requires Extends(before, after) && NewShorten(before, after)
    requires Fits(before, ty, low) && Fits(after, ty, high)
    ensures Shrinks(Render(after, ty, high), Render(before, ty, low))
    decreases low, 0
  {
    if ty.Named? && ty.name in after && ty.name !in before {
      StripTwice(ty.name);
    } else {
      RenderIsFrame(before, ty, low);
      RenderIsFrame(after, ty, high);
      var kids := Below(before, ty);
      assert Below(after, ty) == kids;
      RenderAllShrinks(before, after, kids, low - 1, high - 1);
      FrameShrinks(before, after, ty, RenderAll(after, kids, high - 1), RenderAll(before, kids, low - 1));
    }
  }

  lemma {:induction false} RenderAllShrinks(before: Origins, after: Origins, tys: seq<Type>, low: nat, high: nat)
    requires Extends(before, after) && NewShorten(before, after) && AllFits(before, tys, low)
    requires AllFits(after, tys, high)
    ensures AllShrink(RenderAll(after, tys, high), RenderAll(before, tys, low))
    decreases low, 1
  {
    forall i | 0 <= i < |tys| ensures Shrinks(Render(after, tys[i], high), Render(before, tys[i], low)) {
      RenderShrinks(before, after, tys[i], low, high);
    }
  }

  lemma TextShrinks(before: Origins, after: Origins, tys: seq<Type>, low: nat, high: nat)
    requires Extends(before, after) && NewShorten(before, after) && AllFits(before, tys, low)
    requires AllFits(after, tys, high)
    ensures Shrinks(CanonicalText(after, tys, high), CanonicalText(before, tys, low))
  {
    RenderAllShrinks(before, after, tys, low, high);
    ShrinksJoin(RenderAll(after, tys, high), RenderAll(before, tys, low), ",");
  }

  /** A text does not depend on the bound it was rendered under. */
  lemma TextSame(origins: Origins, tys: seq<Type>, low: nat, high: nat)
    requires AllFits(origins, tys, low) && AllFits(origins, tys, high)
    ensures CanonicalText(origins, tys, high) == CanonicalText(origins, tys, low)
  {
    TextShrinks(origins, origins, tys, low, high);
    TextShrinks(origins, origins, tys, high, low);
  }

  // ----- a new symbol is not below its own arguments

  /** `name` is met nowhere in the unfolding of `ty`. */
  ghost predicate Avoids(origins: Origins, ty: Type, name: string, height: nat)
    decreases height
  {
    && ty != Named(name)
    && (height > 0 ==>
        forall i :: 0 <= i < |Below(origins, ty)| ==> Avoids(origins, Below(origins, ty)[i], name, height - 1))
  }

  /** A name met while unfolding is part of the text. */
  lemma {:induction false} MetIsPart(origins: Origins, ty: Type, name: string, height: nat)
    requires Fits(origins, ty, height) && name !in origins && !Avoids(origins, ty, name, height)
    ensures Size(name) <= Size(Render(origins, ty, height))
    decreases height
  {
    if ty == Named(name) {
      StripTwice(name);
    } else {
      RenderIsFrame(origins, ty, height);
      var kids := Below(origins, ty);
      var i :| 0 <= i < |kids| && !Avoids(origins, kids[i], name, height - 1);
      MetIsPart(origins, kids[i], name, height - 1);
      FrameHolds(origins, ty, RenderAll(origins, kids, height - 1), i);
    }
  }

  lemma {:induction false} HexSize(bytes: seq<nat>)
    requires forall i :: 0 <= i < |bytes| ==> bytes[i] < 256
    ensures Size(Hex(bytes)) == 2 * |bytes|
  {
    if bytes != [] {
      HexSize(bytes[1..]);
      SizeConcat([HexDigit(bytes[0] / 16), HexDigit(bytes[0] % 16)], Hex(bytes[1..]));
      StripOfFree([HexDigit(bytes[0] / 16), HexDigit(bytes[0] % 16)]);
    }
  }

  lemma {:induction false} BytesAtLeast(s: string)
    ensures |s| <= |Bytes(s)|
  {
    if s != [] {
      BytesAtLeast(s[1..]);
    }
  }

  /** A symbol has twice the length of its argument text, and more. */
  lemma SymbolSize(template: string, text: string)
    ensures Size(template + MONO_MARKER + Hex(Bytes(text))) >= Size(template) + 8 + 2 * Size(text)
  {
    SizeConcat(template, MONO_MARKER);
    SizeConcat(template + MONO_MARKER, Hex(Bytes(text)));
    StripOfFree(MONO_MARKER);
    HexSize(Bytes(text));
    BytesAtLeast(text);
    SizeAtMost(text);
  }

  lemma {:induction false} SymbolAvoided(origins: Origins, tys: seq<Type>, template: string, name: string, height: nat,
                                         i: nat)
    requires AllFits(origins, tys, height) && MonomorphName(template, tys, origins, height) == Some(name)
    requires name !in origins
    requires i < |tys|
    ensures Avoids(origins, tys[i], name, height)
  {
    if !Avoids(origins, tys[i], name, height) {
      MetIsPart(origins, tys[i], name, height);
      PartSize(RenderAll(origins, tys, height), ",", i);
      SymbolSize(template, CanonicalText(origins, tys, height));
    }
  }

  /** What does not meet a new symbol unfolds as before. */
  lemma {:induction false} AvoidedSame(before: Origins, name: string, origin: Origin, ty: Type, height: nat)
    requires Fits(before, ty, height) && name !in before && Avoids(before, ty, name, height)
    ensures Fits(before[name := origin], ty, height)
    ensures Render(before[name := origin], ty, height) == Render(before, ty, height)
    decreases height, 0
  {
    var after, kids := before[name := origin], Below(before, ty);
    assert Below(after, ty) == kids;
    RenderIsFrame(before, ty, height);
    AllAvoidedSame(before, name, origin, kids, height - 1);
    RenderIsFrame(after, ty, height);
  }

  lemma {:induction false} AllAvoidedSame(before: Origins, name: string, origin: Origin, tys: seq<Type>, height: nat)
    requires AllFits(before, tys, height) && name !in before
    requires forall i :: 0 <= i < |tys| ==> Avoids(before, tys[i], name, height)
    ensures AllFits(before[name := origin], tys, height)
    ensures RenderAll(before[name := origin], tys, height) == RenderAll(before, tys, height)
    decreases height, 1
  {
    var after := before[name := origin];
    forall i | 0 <= i < |tys|
      ensures Fits(after, tys[i], height) && Render(after, tys[i], height) == Render(before, tys[i], height)
    {
      AvoidedSame(before, name, origin, tys[i], height);
    }
  }

  /** Below a new symbol everything gets higher by at most the height of the symbol. */
  lemma {:induction false} FitsLifted(before: Origins, after: Origins, name: string, ty: Type, height: nat, own: nat)
    requires name !in before && Extends(before, after) && after.Keys == before.Keys + {name}
    requires Fits(before, ty, height) && Fits(after, Named(name), own)
    ensures Fits(after, ty, height + own)
    decreases height
  {
    if ty == Named(name) {
      FitsMonotone(after, ty, own, height + own);
    } else {
      var kids := Below(before, ty);
      assert Below(after, ty) == kids;
      forall i | 0 <= i < |kids| ensures Fits(after, kids[i], height + own - 1) {
        FitsLifted(before, after, name, kids[i], height - 1, own);
      }
    }
  }

  /** The new symbol: its arguments unfold as before, below it. */
  lemma {:induction false} SymbolFits(origins: Origins, name: string, origin: Origin, height: nat)
    requires AllFits(origins, origin.arguments, height) && name !in origins
    requires MonomorphName(origin.template, origin.arguments, origins, height) == Some(name)
    ensures Fits(origins[name := origin], Named(name), height + 1)
    ensures AllFits(origins[name := origin], origin.arguments, height)
    ensures CanonicalText(origins[name := origin], origin.arguments, height) ==
            CanonicalText(origins, origin.arguments, height)
  {
    forall i | 0 <= i < |origin.arguments| ensures Avoids(origins, origin.arguments[i], name, height) {
      SymbolAvoided(origins, origin.arguments, origin.template, name, height, i);
    }
    AllAvoidedSame(origins, name, origin, origin.arguments, height);
    assert Below(origins[name := origin], Named(name)) == origin.arguments;
  }

  lemma {:induction false} SymbolShortens(origins: Origins, name: string, origin: Origin, height: nat)
    requires AllFits(origins, origin.arguments, height) && name !in origins
    requires MonomorphName(origin.template, origin.arguments, origins, height) == Some(name)
    ensures Shortens(origins[name := origin], name)
  {
    var after, text := origins[name := origin], CanonicalText(origins, origin.arguments, height);
    SymbolFits(origins, name, origin, height);
    forall high: nat | Fits(after, Named(name), high) ensures Size(Render(after, Named(name), high)) < Size(name) {
      RenderIsFrame(after, Named(name), high);
      TextSame(after, origin.arguments, height, high - 1);
      SizeConcat(origin.template, "<");
      SizeConcat(origin.template + "<", text);
      SizeConcat(origin.template + "<" + text, ">");
      StripOfFree("<");
      StripOfFree(">");
      SymbolSize(origin.template, text);
    }
  }

  /** Retaining one more symbol, over any arguments, keeps the origins sound. */
  lemma {:induction false} SoundGrows(origins: Origins, name: string, origin: Origin, height: nat)
    requires Sound(origins) && name !in origins && AllFits(origins, origin.arguments, height)
    requires MonomorphName(origin.template, origin.arguments, origins, height) == Some(name)
    ensures Sound(origins[name := origin]) && Extends(origins, origins[name := origin])
    ensures NewShorten(origins, origins[name := origin])
  {
    var after := origins[name := origin];
    SymbolFits(origins, name, origin, height);
    SymbolShortens(origins, name, origin, height);
    forall n | n in after ensures HasMarker(n) && HasHeight(after, Named(n)) && Shortens(after, n) {
      if n != name {
        var low: nat :| Fits(origins, Named(n), low);
        FitsLifted(origins, after, name, Named(n), low, height + 1);
        StillShortens(origins, after, n, low);
      }
    }
  }

  lemma {:induction false} StillShortens(before: Origins, after: Origins, name: string, low: nat)
    requires Extends(before, after) && NewShorten(before, after) && Shortens(before, name)
    requires Fits(before, Named(name), low)
    ensures Shortens(after, name)
  {
    forall high: nat | Fits(after, Named(name), high) ensures Size(Render(after, Named(name), high)) < Size(name) {
      RenderShrinks(before, after, Named(name), low, high);
    }
  }

  // ----- names a module writes

  /** Every name in the type is retained, or one the module writes. */
  ghost predicate Known(written: iset<string>, origins: Origins, ty: Type)
  {
    && (ty.Named? ==> ty.name in origins || ty.name in written)
    && forall i :: 0 <= i < |Children(ty)| ==> Known(written, origins, Children(ty)[i])
  }

  ghost predicate AllKnown(written: iset<string>, origins: Origins, tys: seq<Type>)
  {
    forall i :: 0 <= i < |tys| ==> Known(written, origins, tys[i])
  }

  /** The arguments of retained origins hold no other names. */
  ghost predicate Traced(written: iset<string>, origins: Origins)
  {
    forall name :: name in origins ==> AllKnown(written, origins, origins[name].arguments)
  }

  lemma {:induction false} KnownGrows(written: iset<string>, before: Origins, after: Origins, ty: Type)
    requires Extends(before, after) && Known(written, before, ty)
    ensures Known(written, after, ty)
  {
    forall i | 0 <= i < |Children(ty)| ensures Known(written, after, Children(ty)[i]) {
      KnownGrows(written, before, after, Children(ty)[i]);
    }
  }

  lemma AllKnownGrows(written: iset<string>, before: Origins, after: Origins, tys: seq<Type>)
    requires Extends(before, after) && AllKnown(written, before, tys)
    ensures AllKnown(written, after, tys)
  {
    forall i | 0 <= i < |tys| ensures Known(written, after, tys[i]) {
      KnownGrows(written, before, after, tys[i]);
    }
  }

  lemma TracedGrows(written: iset<string>, origins: Origins, name: string, origin: Origin)
    requires Traced(written, origins) && name !in origins && AllKnown(written, origins, origin.arguments)
    ensures Traced(written, origins[name := origin])
  {
    var after := origins[name := origin];
    forall n | n in after ensures AllKnown(written, after, after[n].arguments) {
      AllKnownGrows(written, origins, after, after[n].arguments);
    }
  }

  /** A name that is met and not retained is one the module writes. */
  lemma {:induction false} MetIsWritten(written: iset<string>, origins: Origins, ty: Type, name: string, height: nat)
    requires Traced(written, origins) && Known(written, origins, ty)
    requires Fits(origins, ty, height) && name !in origins && !Avoids(origins, ty, name, height)
    ensures name in written
    decreases height
  {
    if ty != Named(name) {
      var kids := Below(origins, ty);
      var i :| 0 <= i < |kids| && !Avoids(origins, kids[i], name, height - 1);
      assert Known(written, origins, kids[i]);
      MetIsWritten(written, origins, kids[i], name, height - 1);
    }
  }

  /** `name` is met below one of the types, whatever bound they are unfolded under. */
  ghost predicate Meets(origins: Origins, tys: seq<Type>, name: string)
  {
    forall height: nat :: AllFits(origins, tys, height) ==>
      exists i :: 0 <= i < |tys| && !Avoids(origins, tys[i], name, height)
  }

  /** What is met stays met. */
  lemma {:induction false} StillMet(before: Origins, after: Origins, ty: Type, name: string, low: nat, high: nat)
    requires Extends(before, after) && Fits(before, ty, low) && Fits(after, ty, high) && !Avoids(before, ty, name, low)
    ensures !Avoids(after, ty, name, high)
    decreases low
  {
    if ty != Named(name) {
      var kids := Below(before, ty);
      var i :| 0 <= i < |kids| && !Avoids(before, kids[i], name, low - 1);
      assert Below(after, ty) == kids;
      StillMet(before, after, kids[i], name, low - 1, high - 1);
    }
  }

  lemma {:induction false} MeetsGrows(before: Origins, after: Origins, tys: seq<Type>, name: string)
    requires Sound(before) && Extends(before, after) && Meets(before, tys, name)
    ensures Meets(after, tys, name)
  {
    var low := ArgumentsFit(before, tys);
    var i :| 0 <= i < |tys| && !Avoids(before, tys[i], name, low);
    forall high: nat | AllFits(after, tys, high) ensures !Avoids(after, tys[i], name, high) {
      StillMet(before, after, tys[i], name, low, high);
    }
  }

  // ----- what growth does to a symbol

  /** The symbol of an origin is the one its template and arguments encode. */
  ghost predicate Encodes(origins: Origins, name: string)
    requires name in origins
  {
    forall height: nat :: AllFits(origins, origins[name].arguments, height) ==>
      MonomorphName(origins[name].template, origins[name].arguments, origins, height) == Some(name)
  }

  ghost predicate AllEncode(origins: Origins)
  {
    forall name :: name in origins ==> Encodes(origins, name)
  }

  /** The symbol of an origin encodes a longer text than its arguments now have. */
  ghost predicate Outgrown(origins: Origins, name: string, text: string)
    requires name in origins
  {
    && name == origins[name].template + MONO_MARKER + Hex(Bytes(text))
    && forall height: nat :: AllFits(origins, origins[name].arguments, height) ==>
         Size(CanonicalText(origins, origins[name].arguments, height)) < Size(text)
  }

  /** A retained symbol that the module also writes is met below the origin. */
  ghost predicate Overtaken(written: iset<string>, origins: Origins, name: string)
    requires name in origins
  {
    exists other :: other in written && other in origins && Meets(origins, origins[name].arguments, other)
  }

  /** The origin no longer encodes its symbol: a name in its arguments was retained as a symbol after it. */
  ghost predicate Lost(written: iset<string>, origins: Origins, name: string)
    requires name in origins
  {
    Overtaken(written, origins, name) && exists text :: Outgrown(origins, name, text)
  }

  /** A lost symbol is not encoded. */
  lemma {:induction false} LostIsNotEncoded(written: iset<string>, origins: Origins, name: string)
    requires Sound(origins) && name in origins && Lost(written, origins, name)
    ensures !Encodes(origins, name)
  {
    var text :| Outgrown(origins, name, text);
    var height := ArgumentsFit(origins, origins[name].arguments);
    if Encodes(origins, name) {
      var now := CanonicalText(origins, origins[name].arguments, height);
      MarkerSplits(origins[name].template, origins[name].template, Hex(Bytes(now)), Hex(Bytes(text)));
      HexInjective(Bytes(now), Bytes(text));
      BytesInjective(now, text);
    }
  }

  lemma {:induction false} TextStays(origins: Origins, tys: seq<Type>, height: nat)
    requires AllFits(origins, tys, height)
    ensures forall other: nat :: AllFits(origins, tys, other) ==>
            CanonicalText(origins, tys, other) == CanonicalText(origins, tys, height)
  {
    forall other: nat | AllFits(origins, tys, other)
      ensures CanonicalText(origins, tys, other) == CanonicalText(origins, tys, height)
    {
      TextSame(origins, tys, height, other);
    }
  }

  lemma {:induction false} LostGrows(written: iset<string>, before: Origins, after: Origins, name: string)
    requires Sound(before) && Sound(after) && Extends(before, after) && name in before && Lost(written, before, name)
    ensures Lost(written, after, name)
  {
    var arguments := before[name].arguments;
    var other :| other in written && other in before && Meets(before, arguments, other);
    MeetsGrows(before, after, arguments, other);
    var text :| Outgrown(before, name, text);
    var low := ArgumentsFit(before, arguments);
    forall high: nat | AllFits(after, arguments, high)
      ensures Size(CanonicalText(after, arguments, high)) < Size(text)
    {
      TextShrinks(before, after, arguments, low, high);
    }
    assert Outgrown(after, name, text);
  }

  /** A new symbol leaves an argument text as it is, or the module writes the symbol and the arguments hold it. */
  lemma {:induction false} NewSymbolMet(written: iset<string>, origins: Origins, name: string, origin: Origin,
                                        tys: seq<Type>, low: nat, high: nat)
    requires Traced(written, origins) && AllKnown(written, origins, tys) && name !in origins
    requires AllFits(origins, tys, low) && AllFits(origins[name := origin], tys, high)
    requires CanonicalText(origins[name := origin], tys, high) != CanonicalText(origins, tys, low)
    ensures name in written && Meets(origins[name := origin], tys, name)
  {
    var after := origins[name := origin];
    if forall i :: 0 <= i < |tys| ==> Avoids(origins, tys[i], name, low) {
      AllAvoidedSame(origins, name, origin, tys, low);
      TextSame(after, tys, low, high);
    } else {
      var i :| 0 <= i < |tys| && !Avoids(origins, tys[i], name, low);
      MetIsWritten(written, origins, tys[i], name, low);
      forall other: nat | AllFits(after, tys, other) ensures !Avoids(after, tys[i], name, other) {
        StillMet(origins, after, tys[i], name, low, other);
      }
    }
  }

  /** A symbol encodes its origin until a name in its arguments is retained, and is lost from then on. */
  lemma {:induction false} EncodesOrLost(written: iset<string>, origins: Origins, name: string, origin: Origin,
                                         n: string)
    requires Sound(origins) && Sound(origins[name := origin]) && Traced(written, origins) && name !in origins
    requires n in origins
    requires Encodes(origins, n) || Lost(written, origins, n)
    ensures Encodes(origins[name := origin], n) || Lost(written, origins[name := origin], n)
  {
    var after, arguments := origins[name := origin], origins[n].arguments;
    if Lost(written, origins, n) {
      LostGrows(written, origins, after, n);
    } else {
      var low := ArgumentsFit(origins, arguments);
      var high := ArgumentsFit(after, arguments);
      TextShrinks(origins, after, arguments, low, high);
      TextStays(after, arguments, high);
      var was := CanonicalText(origins, arguments, low);
      if CanonicalText(after, arguments, high) != was {
        NewSymbolMet(written, origins, name, origin, arguments, low, high);
        assert Outgrown(after, n, was);
      }
    }
  }

  /** A new symbol encodes its own origin. */
  lemma {:induction false} NewSymbolEncodes(origins: Origins, name: string, origin: Origin, height: nat)
    requires name !in origins && AllFits(origins, origin.arguments, height)
    requires MonomorphName(origin.template, origin.arguments, origins, height) == Some(name)
    ensures Encodes(origins[name := origin], name)
  {
    SymbolFits(origins, name, origin, height);
    TextStays(origins[name := origin], origin.arguments, height);
  }
}
