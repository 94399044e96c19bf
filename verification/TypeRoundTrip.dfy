/** Printing a canonical type and parsing it back. */
module TypeRoundTrip {
  import opened Options
  import opened Types
  import opened Provenance
  import opened TextScan
  import opened TypeText

  /** A type with its generated names unfolded; an application remembers whether it was written in the source. */
  datatype Tree =
    | Leaf(prim: Primitive)
    | Name(name: string)
    | ArrayOf(item: Tree, len: nat)
    | TupleOf(items: seq<Tree>)
    | RefTo(item: Tree)
    | MutRefTo(item: Tree)
    | App(head: string, written: bool, arguments: seq<TreeArgument>)

  datatype TreeArgument = TreeType(tree: Tree) | TreeConstant(value: nat)

  // ----- what a tree denotes

  function TypeOf(t: Tree): Type
    decreases t, 1
  {
    match t
    case Leaf(p) => Prim(p)
    case Name(name) => Named(name)
    case ArrayOf(item, len) => Array(TypeOf(item), len)
    case TupleOf(items) => Tuple(TypesOf(items))
    case RefTo(item) => Ref(TypeOf(item))
    case MutRefTo(item) => MutRef(TypeOf(item))
    case App(head, _, arguments) => Applied(head, ArgumentsOf(arguments))
  }

  function TypesOf(ts: seq<Tree>): (r: seq<Type>)
    ensures |r| == |ts| && forall i :: 0 <= i < |ts| ==> r[i] == TypeOf(ts[i])
    decreases ts, 0
  {
    if ts == [] then [] else [TypeOf(ts[0])] + TypesOf(ts[1..])
  }

  function ArgumentOf(a: TreeArgument): TypeArgument
    decreases a, 2
  {
    if a.TreeType? then TypeArg(TypeOf(a.tree)) else Constant(a.value)
  }

  function ArgumentsOf(arguments: seq<TreeArgument>): (r: seq<TypeArgument>)
    ensures |r| == |arguments| && forall i :: 0 <= i < |arguments| ==> r[i] == ArgumentOf(arguments[i])
    decreases arguments, 0
  {
    if arguments == [] then [] else [ArgumentOf(arguments[0])] + ArgumentsOf(arguments[1..])
  }

  // ----- the text of a tree

  function TreeText(t: Tree): string
    decreases t, 1
  {
    match t
    case Leaf(p) => PrimitiveText(p)
    case Name(name) => name
    case ArrayOf(item, len) => "[" + Join([TreeText(item), Decimal(len)], ";") + "]"
    case TupleOf(items) => "(" + Join(TreeTexts(items), ",") + ")"
    case RefTo(item) => "&" + TreeText(item)
    case MutRefTo(item) => "&mut " + TreeText(item)
    case App(head, written, arguments) => head + "<" + Join(ArgumentTexts(arguments, written), ",") + ">"
  }

  function TreeTexts(ts: seq<Tree>): (r: seq<string>)
    ensures |r| == |ts| && forall i :: 0 <= i < |ts| ==> r[i] == TreeText(ts[i])
    decreases ts, 0
  {
    if ts == [] then [] else [TreeText(ts[0])] + TreeTexts(ts[1..])
  }

  function ArgumentText(a: TreeArgument, written: bool): string
    decreases a, 2
  {
    if a.TreeConstant? then Decimal(a.value)
    else if written then Strip(TreeText(a.tree))
    else TreeText(a.tree)
  }

  function ArgumentTexts(arguments: seq<TreeArgument>, written: bool): (r: seq<string>)
    ensures |r| == |arguments| && forall i :: 0 <= i < |arguments| ==> r[i] == ArgumentText(arguments[i], written)
    decreases arguments, 0
  {
    if arguments == [] then [] else [ArgumentText(arguments[0], written)] + ArgumentTexts(arguments[1..], written)
  }

  // ----- the domain of the round trip

  predicate GoodHead(s: string)
  {
    s != [] && forall i :: 0 <= i < |s| ==> IsNameChar(s[i])
  }

  predicate GoodName(s: string)
  {
    GoodHead(s) && !AllDigits(s) && PrimitiveOf(s).None?
  }

  /** Canonical: Unit instead of the empty tuple, real names, non-empty applications, machine-size numbers. */
  predicate WellFormed(t: Tree)
  {
    match t
    case Leaf(_) => true
    case Name(name) => GoodName(name)
    case ArrayOf(item, len) => len < USIZE_BOUND && WellFormed(item)
    case TupleOf(items) => items != [] && forall i :: 0 <= i < |items| ==> WellFormed(items[i])
    case RefTo(item) => WellFormed(item)
    case MutRefTo(item) => WellFormed(item)
    case App(head, _, arguments) =>
      && GoodHead(head) && arguments != []
      && forall i :: 0 <= i < |arguments| ==>
           match arguments[i] case TreeType(tree) => WellFormed(tree) case TreeConstant(value) => value < U128_BOUND
  }

  predicate MutFree(ty: Type)
  {
    match ty
    case Array(inner, _) => MutFree(inner)
    case Tuple(items) => forall i :: 0 <= i < |items| ==> MutFree(items[i])
    case Ref(inner) => MutFree(inner)
    case MutRef(_) => false
    case Applied(_, arguments) => forall i :: 0 <= i < |arguments| && arguments[i].TypeArg? ==> MutFree(arguments[i].ty)
    case _ => true
  }

  /** No mutable reference below a written application. */
  predicate SpaceSafe(t: Tree)
  {
    match t
    case ArrayOf(item, _) => SpaceSafe(item)
    case TupleOf(items) => forall i :: 0 <= i < |items| ==> SpaceSafe(items[i])
    case RefTo(item) => SpaceSafe(item)
    case MutRefTo(item) => SpaceSafe(item)
    case App(_, written, arguments) =>
      forall i :: 0 <= i < |arguments| && arguments[i].TreeType? ==>
        SpaceSafe(arguments[i].tree) && (written ==> MutFree(TypeOf(arguments[i].tree)))
    case _ => true
  }

  // ----- the shape of tree text

  ghost predicate Worded(s: string)
  {
    exists i :: 0 <= i < |s| && !IsDigit(s[i]) && !IsWhitespace(s[i])
  }

  /** Balanced, trimmed text without a top-level separator that is not a number. */
  ghost predicate Good(s: string)
  {
    Clean(s) && Worded(s)
  }

  lemma NamePlain(s: string)
    requires forall i :: 0 <= i < |s| ==> IsNameChar(s[i])
    ensures Closed(s) && WhitespaceFree(s)
  {
    PlainClosed(s);
  }

  lemma WrapGood(head: string, open: char, body: string, close: char)
    requires forall i :: 0 <= i < |head| ==> IsNameChar(head[i])
    requires Inner(body) && IsBracketPair(open, close)
    ensures Good(head + [open] + body + [close])
  {
    NamePlain(head);
    WrapClosed(head, open, body, close);
    var s := head + [open] + body + [close];
    assert s[|head|] == open && s[|s| - 1] == close;
    assert head != [] ==> s[0] == head[0];
  }

  lemma ListGood(head: string, open: char, parts: seq<string>, separator: char, close: char)
    requires forall i :: 0 <= i < |head| ==> IsNameChar(head[i])
    requires IsSeparator(separator) && IsBracketPair(open, close) && forall i :: 0 <= i < |parts| ==> Clean(parts[i])
    ensures Good(head + [open] + Join(parts, [separator]) + [close])
  {
    JoinInner(parts, separator);
    WrapGood(head, open, Join(parts, [separator]), close);
  }

  lemma EmptyHead(open: char, body: string, close: char)
    ensures [] + [open] + body + [close] == [open] + body + [close]
  {
  }

  lemma BareGood(open: char, parts: seq<string>, separator: char, close: char)
    requires IsSeparator(separator) && IsBracketPair(open, close) && forall i :: 0 <= i < |parts| ==> Clean(parts[i])
    ensures Good([open] + Join(parts, [separator]) + [close])
  {
    EmptyHead(open, Join(parts, [separator]), close);
    ListGood([], open, parts, separator, close);
  }

  lemma DecimalDigits(n: nat)
    ensures Decimal(n) != [] && AllDigits(Decimal(n))
  {
    DecimalRoundTrip(n, n + 1);
  }

  lemma DigitsClean(s: string)
    requires s != [] && AllDigits(s)
    ensures Clean(s) && WhitespaceFree(s)
  {
    PlainClosed(s);
  }

  lemma DecimalClean(n: nat)
    ensures Clean(Decimal(n)) && AllDigits(Decimal(n)) && WhitespaceFree(Decimal(n))
  {
    DecimalDigits(n);
    DigitsClean(Decimal(n));
  }

  lemma ArrayGood(t: string, len: nat)
    requires Clean(t)
    ensures Good("[" + Join([t, Decimal(len)], ";") + "]")
  {
    DecimalClean(len);
    BareGood('[', [t, Decimal(len)], ';', ']');
  }

  lemma TupleGood(parts: seq<string>)
    requires forall i :: 0 <= i < |parts| ==> Clean(parts[i])
    ensures Good("(" + Join(parts, ",") + ")")
  {
    BareGood('(', parts, ',', ')');
  }

  lemma RefGood(mark: string, t: string)
    requires Clean(t) && (mark == "&" || mark == "&mut ")
    ensures Good(mark + t)
  {
    PlainClosed(mark);
    ClosedConcat(mark, t);
    var s := mark + t;
    assert s[0] == '&' && s[|s| - 1] == t[|t| - 1];
  }

  lemma NameGood(name: string)
    requires GoodName(name)
    ensures Good(name) && WhitespaceFree(name)
  {
    NamePlain(name);
    var i :| 0 <= i < |name| && !IsDigit(name[i]);
  }

  lemma PrimitiveGood(p: Primitive)
    ensures Good(PrimitiveText(p)) && WhitespaceFree(PrimitiveText(p))
  {
    if p == Unit {
      PlainClosed("");
      ClosedInner("");
      WrapGood("", '(', "", ')');
      assert "" + "(" + "" + ")" == "()";
    } else {
      PlainClosed(PrimitiveText(p));
      assert !IsDigit(PrimitiveText(p)[0]);
    }
  }

  lemma {:induction false} TextGood(t: Tree)
    requires WellFormed(t)
    ensures Good(TreeText(t))
    decreases t, 1
  {
    match t
    case Leaf(p) => PrimitiveGood(p);
    case Name(name) => NameGood(name);
    case ArrayOf(item, len) =>
      TextGood(item);
      ArrayGood(TreeText(item), len);
    case TupleOf(items) =>
      forall i | 0 <= i < |items| ensures Clean(TreeText(items[i])) { TextGood(items[i]); }
      TupleGood(TreeTexts(items));
    case RefTo(item) =>
      TextGood(item);
      RefGood("&", TreeText(item));
    case MutRefTo(item) =>
      TextGood(item);
      RefGood("&mut ", TreeText(item));
    case App(head, written, arguments) =>
      ArgumentsGood(t);
      ListGood(head, '<', ArgumentTexts(arguments, written), ',', '>');
  }

  lemma {:induction false} ArgumentsGood(t: Tree)
    requires WellFormed(t) && t.App?
    ensures forall i :: 0 <= i < |t.arguments| ==> Clean(ArgumentText(t.arguments[i], t.written))
    ensures forall i :: 0 <= i < |t.arguments| && t.arguments[i].TreeType? ==>
            Worded(ArgumentText(t.arguments[i], t.written))
    decreases t, 0
  {
    forall i | 0 <= i < |t.arguments|
      ensures Clean(ArgumentText(t.arguments[i], t.written))
      ensures t.arguments[i].TreeType? ==> Worded(ArgumentText(t.arguments[i], t.written))
    {
      match t.arguments[i] {
        case TreeType(tree) =>
          TextGood(tree);
          GoodStrip(TreeText(tree));
        case TreeConstant(value) =>
          DecimalClean(value);
      }
    }
  }

  lemma GoodStrip(s: string)
    requires Good(s)
    ensures Good(Strip(s))
  {
    CleanStrip(s);
    var i :| 0 <= i < |s| && !IsDigit(s[i]) && !IsWhitespace(s[i]);
    var j := StripKeeps(s, i);
  }

  // ----- parsing by shape

  lemma Dispatch(s: string)
    requires Clean(s)
    ensures s[0] == '&' ==> Parse(s) == ParseReference(s)
    ensures s[0] == '[' && s[|s| - 1] == ']' ==> Parse(s) == ParseArray(s[1..|s| - 1])
    ensures s[0] == '(' && s[|s| - 1] == ')' && |s| > 2 ==> Parse(s) == ParseTuple(s[1..|s| - 1])
  {
    CleanTrim(s);
    NotPrimitive(s);
  }

  lemma NotPrimitive(s: string)
    ensures s != [] && (s[0] == '[' || s[0] == '&' || s[|s| - 1] == '>' || (s[0] == '(' && |s| > 2)) ==>
            PrimitiveOf(s).None?
  {
  }

  lemma ParseRefText(t: string)
    requires Clean(t) && !StartsMutRef("&" + t)
    ensures Parse("&" + t) == if Parse(t).None? then None else Some(Ref(Parse(t).value))
  {
    RefGood("&", t);
    Dispatch("&" + t);
    assert ("&" + t)[1..] == t;
  }

  lemma ParseMutRefText(t: string)
    requires Clean(t)
    ensures Parse("&mut " + t) == if Parse(t).None? then None else Some(MutRef(Parse(t).value))
  {
    RefGood("&mut ", t);
    Dispatch("&mut " + t);
    assert ("&mut " + t)[5..] == t;
  }

  lemma ParseArrayText(t: string, len: nat)
    requires Clean(t) && len < USIZE_BOUND
    ensures Parse("[" + Join([t, Decimal(len)], ";") + "]") == if Parse(t).None? then None
                                                               else Some(Array(Parse(t).value, len))
  {
    var body := Join([t, Decimal(len)], ";");
    ArrayGood(t, len);
    Dispatch("[" + body + "]");
    assert ("[" + body + "]")[1..|body| + 1] == body;
    DecimalClean(len);
    DecimalRoundTrip(len, USIZE_BOUND);
    SplitJoin([t, Decimal(len)], ';');
  }

  ghost predicate ParsesTo(parts: seq<string>, tys: seq<Type>)
  {
    |tys| == |parts| && forall i :: 0 <= i < |parts| ==> Parse(parts[i]) == Some(tys[i])
  }

  lemma ParsedAll(parts: seq<string>, tys: seq<Type>, bound: nat)
    requires forall i :: 0 <= i < |parts| ==> |parts[i]| <= bound
    ensures ParseAll(parts, bound) == Some(tys) <==> ParsesTo(parts, tys)
  {
    var r := ParseAll(parts, bound);
    if ParsesTo(parts, tys) {
      assert r.Some? && r.value == tys;
    }
  }

  lemma {:induction false} TrimKeeps(s: string)
    requires s != [] && !IsWhitespace(s[0])
    ensures Trim(s) != []
  {
    TrimEndKeeps(s);
  }

  lemma {:induction false} TrimEndKeeps(s: string)
    requires s != [] && !IsWhitespace(s[0])
    ensures TrimEnd(s) != []
  {
    if IsWhitespace(s[|s| - 1]) {
      TrimEndKeeps(s[..|s| - 1]);
    }
  }

  lemma ParenText(body: string)
    requires body != [] && Clean("(" + body + ")")
    ensures Parse("(" + body + ")") == ParseTuple(body)
  {
    Dispatch("(" + body + ")");
    assert ("(" + body + ")")[1..|body| + 1] == body;
  }

  lemma JoinStarts(parts: seq<string>, separator: string)
    requires parts != [] && parts[0] != []
    ensures Join(parts, separator) != [] && Join(parts, separator)[0] == parts[0][0]
  {
  }

  lemma TupleBody(body: string, parts: seq<string>, tys: seq<Type>)
    requires SplitTopLevel(body, ',') == Some(parts) && Trim(body) != []
    ensures ParseTuple(body) == Some(Tuple(tys)) <==> ParsesTo(parts, tys)
  {
    ParsedAll(parts, tys, |body|);
  }

  lemma TupleTextTrips(parts: seq<string>, tys: seq<Type>)
    requires parts != [] && forall i :: 0 <= i < |parts| ==> Clean(parts[i])
    ensures Parse("(" + Join(parts, ",") + ")") == Some(Tuple(tys)) <==> ParsesTo(parts, tys)
  {
    var body := Join(parts, ",");
    assert Parse("(" + body + ")") == ParseTuple(body) && Trim(body) != [] by {
      JoinStarts(parts, ",");
      TrimKeeps(body);
      TupleGood(parts);
      ParenText(body);
    }
    SplitJoin(parts, ',');
    TupleBody(body, parts, tys);
  }

  ghost predicate ArgumentsParseTo(parts: seq<string>, arguments: seq<TypeArgument>)
  {
    |arguments| == |parts| && forall i :: 0 <= i < |parts| ==> ParseArgument(parts[i]) == Some(arguments[i])
  }

  lemma ParsedArguments(parts: seq<string>, arguments: seq<TypeArgument>, bound: nat)
    requires forall i :: 0 <= i < |parts| ==> |parts[i]| <= bound
    ensures ParseArguments(parts, bound) == Some(arguments) <==> ArgumentsParseTo(parts, arguments)
  {
    var r := ParseArguments(parts, bound);
    if ArgumentsParseTo(parts, arguments) {
      assert r.Some? && r.value == arguments;
    }
  }

  lemma AppTextTrips(head: string, parts: seq<string>, arguments: seq<TypeArgument>)
    requires GoodHead(head) && parts != [] && forall i :: 0 <= i < |parts| ==> Clean(parts[i])
    ensures Parse(head + "<" + Join(parts, ",") + ">") == Some(Applied(head, arguments)) <==>
            ArgumentsParseTo(parts, arguments)
  {
    AngleText(head, Join(parts, ","));
    SplitJoin(parts, ',');
    ParsedArguments(parts, arguments, |Join(parts, ",")|);
  }

  lemma AngleText(head: string, body: string)
    requires GoodHead(head)
    ensures Parse(head + "<" + body + ">") == ParseApplication(head, body)
  {
    var s := head + "<" + body + ">";
    assert s[0] == head[0] && IsNameChar(head[0]) && s[|s| - 1] == '>';
    CleanTrim(s);
    NotPrimitive(s);
    AngleAfterHead(head, "<" + body + ">");
    assert s == head + ("<" + body + ">");
    HeadTrim(head);
    assert s[..|head|] == head && s[|head| + 1..|s| - 1] == body;
  }

  lemma {:induction false} AngleAfterHead(head: string, rest: string)
    requires (forall i :: 0 <= i < |head| ==> IsNameChar(head[i])) && rest != [] && rest[0] == '<'
    ensures FindAngle(head + rest) == |head|
  {
    if head == [] {
      assert head + rest == rest;
    } else {
      assert (head + rest)[0] == head[0] && (head + rest)[1..] == head[1..] + rest;
      AngleAfterHead(head[1..], rest);
    }
  }

  lemma HeadTrim(head: string)
    requires GoodHead(head)
    ensures Trim(head) == head
  {
    assert IsNameChar(head[0]) && IsNameChar(head[|head| - 1]);
    CleanTrim(head);
  }

  lemma ParseNameText(name: string)
    requires GoodName(name)
    ensures Parse(name) == Some(Named(name))
  {
    HeadTrim(name);
    assert IsNameChar(name[0]) && IsNameChar(name[|name| - 1]);
  }

  lemma ParsePrimitiveText(p: Primitive)
    ensures Parse(PrimitiveText(p)) == Some(Prim(p))
  {
    PrimitiveGood(p);
    CleanTrim(PrimitiveText(p));
    assert p in PRIMITIVES;
    PrimitiveTextInjective(p, PrimitiveOf(PrimitiveText(p)).value);
  }

  lemma PrimitiveTextInjective(p: Primitive, q: Primitive)
    requires PrimitiveText(p) == PrimitiveText(q)
    ensures p == q
  {
    var s := PrimitiveText(p);
    assert |s| > 0 && (|s| > 1 ==> s[1] == PrimitiveText(q)[1]);
  }

  lemma WordedIsType(part: string)
    requires Worded(part)
    ensures ParseArgument(part) == if Parse(part).None? then None else Some(TypeArg(Parse(part).value))
  {
  }

  // ----- whitespace

  lemma {:induction false} JoinFree(parts: seq<string>, separator: string)
    requires WhitespaceFree(separator) && forall i :: 0 <= i < |parts| ==> WhitespaceFree(parts[i])
    ensures WhitespaceFree(Join(parts, separator))
  {
    if parts != [] {
      JoinFree(parts[1..], separator);
    }
  }

  lemma ListFree(head: string, open: string, parts: seq<string>, separator: string, close: string)
    requires WhitespaceFree(head) && WhitespaceFree(open) && WhitespaceFree(separator) && WhitespaceFree(close)
    requires forall i :: 0 <= i < |parts| ==> WhitespaceFree(parts[i])
    ensures WhitespaceFree(head + open + Join(parts, separator) + close)
  {
    JoinFree(parts, separator);
  }

  /** Text holds whitespace only inside a mutable reference, so dropping it is harmless without one. */
  lemma {:induction false} MutFreeText(t: Tree)
    requires WellFormed(t) && MutFree(TypeOf(t))
    ensures WhitespaceFree(TreeText(t))
  {
    match t
    case Leaf(p) => PrimitiveGood(p);
    case Name(name) => NameGood(name);
    case ArrayOf(item, len) =>
      MutFreeText(item);
      DecimalClean(len);
      ListFree("", "[", [TreeText(item), Decimal(len)], ";", "]");
      assert "" + "[" == "[";
    case TupleOf(items) =>
      forall i | 0 <= i < |items| ensures WhitespaceFree(TreeText(items[i])) {
        assert MutFree(TypesOf(items)[i]);
        MutFreeText(items[i]);
      }
      ListFree("", "(", TreeTexts(items), ",", ")");
      assert "" + "(" == "(";
    case RefTo(item) => MutFreeText(item);
    case App(head, written, arguments) =>
      NamePlain(head);
      forall i | 0 <= i < |arguments| ensures WhitespaceFree(ArgumentText(arguments[i], written)) {
        match arguments[i] {
          case TreeType(tree) =>
            assert MutFree(ArgumentsOf(arguments)[i].ty);
            MutFreeText(tree);
            StripOfFree(TreeText(tree));
          case TreeConstant(value) =>
            DecimalClean(value);
        }
      }
      ListFree(head, "<", ArgumentTexts(arguments, written), ",", ">");
  }

  lemma WrittenFree(t: Tree)
    requires t.App? && t.written && GoodHead(t.head)
    ensures WhitespaceFree(TreeText(t))
  {
    NamePlain(t.head);
    forall i | 0 <= i < |t.arguments| ensures WhitespaceFree(ArgumentText(t.arguments[i], true)) {
      match t.arguments[i] {
        case TreeType(tree) => StripIsFree(TreeText(tree));
        case TreeConstant(value) => DecimalClean(value);
      }
    }
    ListFree(t.head, "<", ArgumentTexts(t.arguments, true), ",", ">");
  }

  /** No text makes a shared reference read as a mutable one. */
  lemma RefStaysShared(t: Tree)
    requires WellFormed(t)
    ensures !StartsMutRef("&" + TreeText(t))
  {
    var s := TreeText(t);
    match t
    case App(head, written, arguments) => HeadNotMut(head, Join(ArgumentTexts(arguments, written), ","));
    case Name(name) => NameGood(name);
    case _ => assert s[0] != 'm';
  }

  lemma HeadNotMut(head: string, body: string)
    requires GoodHead(head)
    ensures !StartsMutRef("&" + (head + "<" + body + ">"))
  {
    var s := "&" + (head + "<" + body + ">");
    assert s[1 + |head|] == '<';
    assert forall i :: 0 <= i < |head| ==> s[1 + i] == head[i];
  }

  lemma {:induction false} TrimStartFree(s: string)
    requires WhitespaceFree(s)
    ensures Trim(s) == s
  {
  }

  lemma {:induction false} SplitFree(input: string, separator: char, d: Depths, current: string)
    requires WhitespaceFree(input) && WhitespaceFree(current)
    ensures var parts := SplitFrom(input, separator, d, current);
            parts.Some? ==> forall i :: 0 <= i < |parts.value| ==> WhitespaceFree(parts.value[i])
    decreases |input|
  {
    TrimStartFree(current);
    if input != [] && Step(d, input[0]).Some? {
      var next := Step(d, input[0]).value;
      if input[0] == separator && next == Level {
        SplitFree(input[1..], separator, next, []);
      } else {
        SplitFree(input[1..], separator, next, current + [input[0]]);
      }
    }
  }

  /** Text without whitespace never parses to a mutable reference, at any depth. */
  lemma {:induction false} FreeTextHasNoMut(s: string)
    requires WhitespaceFree(s) && Parse(s).Some?
    ensures MutFree(Parse(s).value)
    decreases |s|, 2
  {
    TrimStartFree(s);
    if PrimitiveOf(s).None? {
      if s[0] == '&' {
        FreeTextHasNoMut(s[1..]);
      } else if s[0] == '[' && s[|s| - 1] == ']' {
        FreeArrayHasNoMut(s[1..|s| - 1]);
      } else if s[0] == '(' && s[|s| - 1] == ')' {
        FreeTupleHasNoMut(s[1..|s| - 1]);
      } else if FindAngle(s) < |s| && s[|s| - 1] == '>' {
        FreeApplicationHasNoMut(Trim(s[..FindAngle(s)]), s[FindAngle(s) + 1..|s| - 1]);
      }
    }
  }

  lemma {:induction false} FreeArrayHasNoMut(body: string)
    requires WhitespaceFree(body) && ParseArray(body).Some?
    ensures MutFree(ParseArray(body).value)
    decreases |body|, 3
  {
    SplitFree(body, ';', Level, []);
    FreeTextHasNoMut(SplitTopLevel(body, ';').value[0]);
  }

  lemma {:induction false} FreeTupleHasNoMut(body: string)
    requires WhitespaceFree(body) && ParseTuple(body).Some?
    ensures MutFree(ParseTuple(body).value)
    decreases |body|, 3
  {
    if Trim(body) != [] {
      SplitFree(body, ',', Level, []);
      var parts := SplitTopLevel(body, ',').value;
      var items := ParseAll(parts, |body|).value;
      forall i | 0 <= i < |items| ensures MutFree(items[i]) {
        FreeTextHasNoMut(parts[i]);
      }
    }
  }

  lemma {:induction false} FreeApplicationHasNoMut(head: string, body: string)
    requires WhitespaceFree(body) && ParseApplication(head, body).Some?
    ensures MutFree(ParseApplication(head, body).value)
    decreases |body|, 3
  {
    SplitFree(body, ',', Level, []);
    var parts := SplitTopLevel(body, ',').value;
    var arguments := ParseArguments(parts, |body|).value;
    forall i | 0 <= i < |arguments| && arguments[i].TypeArg? ensures MutFree(arguments[i].ty) {
      FreeTextHasNoMut(parts[i]);
    }
  }

  // ----- the round trip

  ghost predicate RoundTrips(t: Tree)
  {
    Parse(TreeText(t)) == Some(TypeOf(t))
  }

  /** Parsing the text of a well-formed tree gives its type back exactly when no mutable reference stands below a
      written application. */
  lemma {:induction false} TreeRoundTrip(t: Tree)
    requires WellFormed(t)
    ensures RoundTrips(t) <==> SpaceSafe(t)
    decreases t, 1
  {
    match t
    case Leaf(p) => ParsePrimitiveText(p);
    case Name(name) => ParseNameText(name);
    case ArrayOf(item, len) =>
      TextGood(item);
      TreeRoundTrip(item);
      ParseArrayText(TreeText(item), len);
    case TupleOf(items) => TupleRoundTrip(t);
    case RefTo(item) =>
      TextGood(item);
      TreeRoundTrip(item);
      RefStaysShared(item);
      ParseRefText(TreeText(item));
    case MutRefTo(item) =>
      TextGood(item);
      TreeRoundTrip(item);
      ParseMutRefText(TreeText(item));
    case App(head, written, arguments) => AppRoundTrip(t);
  }

  lemma {:induction false} TupleRoundTrip(t: Tree)
    requires WellFormed(t) && t.TupleOf?
    ensures RoundTrips(t) <==> SpaceSafe(t)
    decreases t, 0
  {
    forall i | 0 <= i < |t.items|
      ensures Clean(TreeText(t.items[i])) && (RoundTrips(t.items[i]) <==> SpaceSafe(t.items[i]))
    {
      TextGood(t.items[i]);
      TreeRoundTrip(t.items[i]);
    }
    TupleTextTrips(TreeTexts(t.items), TypesOf(t.items));
  }

  lemma {:induction false} AppRoundTrip(t: Tree)
    requires WellFormed(t) && t.App?
    ensures RoundTrips(t) <==> SpaceSafe(t)
    decreases t, 0
  {
    ArgumentsGood(t);
    AppTextTrips(t.head, ArgumentTexts(t.arguments, t.written), ArgumentsOf(t.arguments));
    if RoundTrips(t) && t.written {
      WrittenFree(t);
      FreeTextHasNoMut(TreeText(t));
      assert MutFree(Applied(t.head, ArgumentsOf(t.arguments)));
    }
    forall i | 0 <= i < |t.arguments| &&
      (t.arguments[i].TreeType? && t.written ==> MutFree(TypeOf(t.arguments[i].tree)))
      ensures ParseArgument(ArgumentText(t.arguments[i], t.written)) == Some(ArgumentOf(t.arguments[i])) <==>
              (t.arguments[i].TreeType? ==> SpaceSafe(t.arguments[i].tree))
    {
      ArgumentRoundTrip(t, i);
    }
    if RoundTrips(t) && t.written {
      forall i | 0 <= i < |t.arguments| && t.arguments[i].TreeType? ensures MutFree(TypeOf(t.arguments[i].tree)) {
        assert ArgumentsOf(t.arguments)[i] == TypeArg(TypeOf(t.arguments[i].tree));
      }
    }
  }

  lemma {:induction false} ArgumentRoundTrip(t: Tree, i: nat)
    requires WellFormed(t) && t.App? && i < |t.arguments|
    requires t.arguments[i].TreeType? && t.written ==> MutFree(TypeOf(t.arguments[i].tree))
    ensures ParseArgument(ArgumentText(t.arguments[i], t.written)) == Some(ArgumentOf(t.arguments[i])) <==>
            (t.arguments[i].TreeType? ==> SpaceSafe(t.arguments[i].tree))
    decreases t, 0, i
  {
    match t.arguments[i]
    case TreeType(tree) =>
      TextGood(tree);
      TreeRoundTrip(tree);
      if t.written {
        MutFreeText(tree);
        StripOfFree(TreeText(tree));
      }
      WordedIsType(TreeText(tree));
    case TreeConstant(value) =>
      DecimalClean(value);
      DecimalRoundTrip(value, U128_BOUND);
  }
}
