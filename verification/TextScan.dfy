/** Character-level text: trimming, decimal numbers, and splitting at separators outside brackets. */
module TextScan {
  import opened Options
  import opened Types

  predicate IsWhitespace(c: char)
  {
    c == ' ' || '\t' <= c <= '\r' || (c > '\U{7F}' && IsWideWhitespace(c as int))
  }

  predicate IsWideWhitespace(code: int)
  {
    || code == 0x85 || code == 0xA0 || code == 0x1680 || 0x2000 <= code <= 0x200A
    || code == 0x2028 || code == 0x2029 || code == 0x202F || code == 0x205F || code == 0x3000
  }

  predicate IsDigit(c: char) { '0' <= c <= '9' }

  function TrimStart(s: string): (r: string)
    ensures |r| <= |s|
  {
    if s != [] && IsWhitespace(s[0]) then TrimStart(s[1..]) else s
  }

  function TrimEnd(s: string): (r: string)
    ensures |r| <= |s|
  {
    if s != [] && IsWhitespace(s[|s| - 1]) then TrimEnd(s[..|s| - 1]) else s
  }

  function Trim(s: string): (r: string)
    ensures |r| <= |s|
  {
    TrimEnd(TrimStart(s))
  }

  /** The text with every whitespace character removed. */
  function Strip(s: string): string
  {
    if s == [] then []
    else if IsWhitespace(s[0]) then Strip(s[1..])
    else [s[0]] + Strip(s[1..])
  }

  function Join(parts: seq<string>, separator: string): string
  {
    if parts == [] then ""
    else if |parts| == 1 then parts[0]
    else parts[0] + separator + Join(parts[1..], separator)
  }

  ghost predicate WhitespaceFree(s: string)
  {
    forall i :: 0 <= i < |s| ==> !IsWhitespace(s[i])
  }

  lemma {:induction false} StripIsFree(s: string)
    ensures WhitespaceFree(Strip(s))
  {
    if s != [] {
      StripIsFree(s[1..]);
    }
  }

  lemma {:induction false} StripOfFree(s: string)
    requires WhitespaceFree(s)
    ensures Strip(s) == s
  {
    if s != [] {
      StripOfFree(s[1..]);
      assert s == [s[0]] + s[1..];
    }
  }

  lemma {:induction false} StripKeeps(s: string, i: nat) returns (j: nat)
    requires i < |s| && !IsWhitespace(s[i])
    ensures j < |Strip(s)| && Strip(s)[j] == s[i]
  {
    if i == 0 {
      j := 0;
    } else {
      j := StripKeeps(s[1..], i - 1);
      j := if IsWhitespace(s[0]) then j else j + 1;
    }
  }

  // ----- decimal numbers

  function Digit(n: nat): char
    requires n < 10
  {
    ('0' as int + n) as char
  }

  function Decimal(n: nat): (s: string)
  {
    if n < 10 then [Digit(n)] else Decimal(n / 10) + [Digit(n % 10)]
  }

  predicate AllDigits(s: string)
  {
    forall i :: 0 <= i < |s| ==> IsDigit(s[i])
  }

  function DigitsValue(s: string): nat
    requires AllDigits(s)
  {
    if s == [] then 0 else 10 * DigitsValue(s[..|s| - 1]) + (s[|s| - 1] as int - '0' as int)
  }

  /** An unsigned number below `bound`; an explicit plus sign is accepted. */
  function ParseUnsigned(s: string, bound: nat): Option<nat>
  {
    var digits := if s != [] && s[0] == '+' then s[1..] else s;
    if digits != [] && AllDigits(digits) && DigitsValue(digits) < bound then Some(DigitsValue(digits)) else None
  }

  lemma {:induction false} DecimalRoundTrip(n: nat, bound: nat)
    requires n < bound
    ensures Decimal(n) != [] && AllDigits(Decimal(n)) && DigitsValue(Decimal(n)) == n
    ensures ParseUnsigned(Decimal(n), bound) == Some(n)
  {
    if n >= 10 {
      DecimalRoundTrip(n / 10, n);
      assert Decimal(n)[..|Decimal(n)| - 1] == Decimal(n / 10);
    } else {
      assert Decimal(n)[..0] == [];
    }
    assert IsDigit(Decimal(n)[0]);
  }

  // ----- bracket depths

  datatype Depths = Depths(angle: nat, square: nat, paren: nat)

  const Level := Depths(0, 0, 0)

  /** One character's effect on the three counters; a close without its open fails. */
  function Step(d: Depths, c: char): Option<Depths>
  {
    match c
    case '<' => Some(d.(angle := d.angle + 1))
    case '>' => if d.angle == 0 then None else Some(d.(angle := d.angle - 1))
    case '[' => Some(d.(square := d.square + 1))
    case ']' => if d.square == 0 then None else Some(d.(square := d.square - 1))
    case '(' => Some(d.(paren := d.paren + 1))
    case ')' => if d.paren == 0 then None else Some(d.(paren := d.paren - 1))
    case _ => Some(d)
  }

  predicate IsSeparator(c: char) { c == ',' || c == ';' }

  /** Splits at top-level separators; a part that trims to nothing, or unbalanced brackets, fails. */
  function SplitFrom(input: string, separator: char, d: Depths, current: string): (parts: Option<seq<string>>)
    ensures parts.Some? ==> forall i :: 0 <= i < |parts.value| ==> |parts.value[i]| <= |current| + |input|
  {
    if input == [] then
      if d == Level && Trim(current) != [] then Some([Trim(current)]) else None
    else
      match Step(d, input[0])
      case None => None
      case Some(next) =>
        if input[0] == separator && next == Level then
          var rest := SplitFrom(input[1..], separator, next, []);
          if Trim(current) == [] then None else Prepend([Trim(current)], rest)
        else SplitFrom(input[1..], separator, next, current + [input[0]])
  }

  function SplitTopLevel(input: string, separator: char): (parts: Option<seq<string>>)
    ensures parts.Some? ==> forall i :: 0 <= i < |parts.value| ==> |parts.value[i]| <= |input|
  {
    SplitFrom(input, separator, Level, [])
  }

  function Prepend(parts: seq<string>, rest: Option<seq<string>>): Option<seq<string>>
  {
    if rest.None? then None else Some(parts + rest.value)
  }

  lemma PrependNothing(rest: Option<seq<string>>)
    ensures Prepend([], rest) == rest
  {
    assert rest.Some? ==> [] + rest.value == rest.value;
  }

  lemma PrependTwice(parts: seq<string>, part: string, rest: Option<seq<string>>)
    ensures Prepend(parts, Prepend([part], rest)) == Prepend(parts + [part], rest)
  {
    assert rest.Some? ==> parts + ([part] + rest.value) == parts + [part] + rest.value;
  }

  lemma SplitAt(input: string, index: nat, separator: char, d: Depths, current: string)
    requires index < |input|
    ensures var next := Step(d, input[index]);
            SplitFrom(input[index..], separator, d, current) ==
            if next.None? then None
            else if input[index] == separator && next.value == Level then
              if Trim(current) == [] then None
              else Prepend([Trim(current)], SplitFrom(input[index + 1..], separator, Level, []))
            else SplitFrom(input[index + 1..], separator, next.value, current + [input[index]])
  {
    assert input[index..][0] == input[index] && input[index..][1..] == input[index + 1..];
  }

  /** The state of the splitting loop: the parts so far, and what is still to be split. */
  ghost predicate SplitSoFar(input: string, separator: char, start: nat, index: nat, d: Depths, parts: seq<string>)
    requires start <= index <= |input|
  {
    SplitTopLevel(input, separator) == Prepend(parts, SplitFrom(input[index..], separator, d, input[start..index]))
  }

  lemma SplitStep(input: string, separator: char, start: nat, index: nat, d: Depths, parts: seq<string>)
    requires start <= index < |input| && SplitSoFar(input, separator, start, index, d, parts)
    ensures var next := Step(d, input[index]);
            if next.None? then SplitTopLevel(input, separator) == None
            else if input[index] == separator && next.value == Level then
              var part := Trim(input[start..index]);
              if part == [] then SplitTopLevel(input, separator) == None
              else SplitSoFar(input, separator, index + 1, index + 1, Level, parts + [part])
            else SplitSoFar(input, separator, start, index + 1, next.value, parts)
  {
    SplitAt(input, index, separator, d, input[start..index]);
    assert input[start..index + 1] == input[start..index] + [input[index]] && input[index + 1..index + 1] == [];
    PrependTwice(parts, Trim(input[start..index]), SplitFrom(input[index + 1..], separator, Level, []));
  }

  /** The counter loop computes the same split from part starts and indices. */
  method SplitLoop(input: string, separator: char) returns (result: Option<seq<string>>)
    ensures result == SplitTopLevel(input, separator)
  {
    var parts: seq<string> := [];
    var start, index, d := 0, 0, Level;
    assert input[0..] == input && input[0..0] == [];
    PrependNothing(SplitTopLevel(input, separator));
    while index < |input|
      invariant 0 <= start <= index <= |input|
      invariant SplitSoFar(input, separator, start, index, d, parts)
    {
      SplitStep(input, separator, start, index, d, parts);
      var c := input[index];
      var next := Step(d, c);
      if next.None? {
        return None;
      }
      d := next.value;
      if c == separator && d == Level {
        var part := Trim(input[start..index]);
        if part == [] {
          return None;
        }
        parts := parts + [part];
        start := index + 1;
      }
      index := index + 1;
    }
    assert input[index..] == [] && input[start..index] == input[start..];
    var tail := Trim(input[start..]);
    if d != Level || tail == [] {
      return None;
    }
    return Some(parts + [tail]);
  }

  // ----- balanced text

  predicate AtLeast(d: Depths, base: Depths)
  {
    d.angle >= base.angle && d.square >= base.square && d.paren >= base.paren
  }

  /** Scanning `s` goes from depth `d` to `e`, never below `base`, with no separator at `base` itself. */
  ghost predicate Moves(s: string, base: Depths, d: Depths, e: Depths)
  {
    if s == [] then d == e
    else
      var next := Step(d, s[0]);
      && next.Some? && AtLeast(next.value, base)
      && (IsSeparator(s[0]) ==> next.value != base)
      && Moves(s[1..], base, next.value, e)
  }

  /** Balanced text without top-level separators. */
  ghost predicate Closed(s: string)
  {
    forall d :: Moves(s, d, d, d)
  }

  /** Balanced text that may hold separators, for use inside brackets. */
  ghost predicate Inner(s: string)
  {
    forall d, e :: AtLeast(e, d) && e != d ==> Moves(s, d, e, e)
  }

  lemma {:induction false} MovesConcat(s: string, t: string, base: Depths, d: Depths, e: Depths, f: Depths)
    requires Moves(s, base, d, e) && Moves(t, base, e, f)
    ensures Moves(s + t, base, d, f)
  {
    if s == [] {
      assert s + t == t;
    } else {
      assert (s + t)[1..] == s[1..] + t;
      MovesConcat(s[1..], t, base, Step(d, s[0]).value, e, f);
    }
  }

  lemma {:induction false} MovesLower(s: string, base: Depths, lower: Depths, d: Depths, e: Depths)
    requires Moves(s, base, d, e) && AtLeast(base, lower)
    ensures Moves(s, lower, d, e)
  {
    if s != [] {
      MovesLower(s[1..], base, lower, Step(d, s[0]).value, e);
    }
  }

  lemma {:induction false} MovesStrip(s: string, base: Depths, d: Depths, e: Depths)
    requires Moves(s, base, d, e)
    ensures Moves(Strip(s), base, d, e)
  {
    if s != [] {
      MovesStrip(s[1..], base, Step(d, s[0]).value, e);
      if IsWhitespace(s[0]) {
        assert Step(d, s[0]) == Some(d) && Strip(s) == Strip(s[1..]);
      } else {
        assert Strip(s)[1..] == Strip(s[1..]);
      }
    }
  }

  lemma ClosedStrip(s: string)
    requires Closed(s)
    ensures Closed(Strip(s))
  {
    forall d ensures Moves(Strip(s), d, d, d) {
      MovesStrip(s, d, d, d);
    }
  }

  lemma ClosedInner(s: string)
    requires Closed(s)
    ensures Inner(s)
  {
    forall d, e | AtLeast(e, d) && e != d ensures Moves(s, d, e, e) {
      MovesLower(s, e, d, e, e);
    }
  }

  lemma ClosedConcat(s: string, t: string)
    requires Closed(s) && Closed(t)
    ensures Closed(s + t)
  {
    forall d ensures Moves(s + t, d, d, d) {
      MovesConcat(s, t, d, d, d, d);
    }
  }

  lemma InnerConcat(s: string, t: string)
    requires Inner(s) && Inner(t)
    ensures Inner(s + t)
  {
    forall d, e | AtLeast(e, d) && e != d ensures Moves(s + t, d, e, e) {
      MovesConcat(s, t, d, e, e, e);
    }
  }

  predicate IsPlain(c: char)
  {
    c !in "<>[]()" && !IsSeparator(c)
  }

  lemma {:induction false} PlainClosed(s: string)
    requires forall i :: 0 <= i < |s| ==> IsPlain(s[i])
    ensures Closed(s)
  {
    if s != [] {
      PlainClosed(s[1..]);
      forall d ensures Moves(s, d, d, d) {
        assert IsPlain(s[0]);
        assert Moves(s[1..], d, d, d);
      }
    }
  }

  lemma {:induction false} JoinInner(parts: seq<string>, separator: char)
    requires IsSeparator(separator)
    requires forall i :: 0 <= i < |parts| ==> Closed(parts[i])
    ensures Inner(Join(parts, [separator]))
  {
    if |parts| == 1 {
      ClosedInner(parts[0]);
    } else if |parts| > 1 {
      ClosedInner(parts[0]);
      JoinInner(parts[1..], separator);
      forall d, e | AtLeast(e, d) && e != d ensures Moves([separator], d, e, e) {
        assert [separator][1..] == [];
      }
      InnerConcat(parts[0], [separator]);
      InnerConcat(parts[0] + [separator], Join(parts[1..], [separator]));
    }
  }

  predicate IsBracketPair(open: char, close: char)
  {
    (open == '<' && close == '>') || (open == '[' && close == ']') || (open == '(' && close == ')')
  }

  lemma WrapClosed(head: string, open: char, body: string, close: char)
    requires Closed(head) && Inner(body) && IsBracketPair(open, close)
    ensures Closed(head + [open] + body + [close])
  {
    forall d ensures Moves(head + [open] + body + [close], d, d, d) {
      var e := Step(d, open).value;
      assert [open][1..] == [] && [close][1..] == [];
      MovesConcat(head, [open], d, d, d, e);
      MovesConcat(head + [open], body, d, d, e, e);
      MovesConcat(head + [open] + body, [close], d, d, e, d);
    }
  }

  lemma {:induction false} SplitSkip(s: string, t: string, separator: char, d: Depths, e: Depths, current: string)
    requires Moves(s, Level, d, e) && IsSeparator(separator)
    ensures SplitFrom(s + t, separator, d, current) == SplitFrom(t, separator, e, current + s)
    decreases |s|
  {
    if s == [] {
      assert s + t == t && current + s == current;
    } else {
      assert (s + t)[1..] == s[1..] + t;
      SplitSkip(s[1..], t, separator, Step(d, s[0]).value, e, current + [s[0]]);
      assert current + [s[0]] + s[1..] == current + s;
    }
  }

  /** A part that survives splitting and trimming unchanged. */
  ghost predicate Clean(s: string)
  {
    s != [] && !IsWhitespace(s[0]) && !IsWhitespace(s[|s| - 1]) && Closed(s)
  }

  lemma CleanTrim(s: string)
    requires s != [] && !IsWhitespace(s[0]) && !IsWhitespace(s[|s| - 1])
    ensures Trim(s) == s
  {
  }

  lemma {:induction false} CleanStrip(s: string)
    requires Clean(s)
    ensures Clean(Strip(s))
  {
    ClosedStrip(s);
    StripIsFree(s);
    var j := StripKeeps(s, 0);
  }

  lemma CleanMoves(s: string)
    requires Clean(s)
    ensures s != [] && Trim(s) == s && Moves(s, Level, Level, Level)
  {
    CleanTrim(s);
  }

  lemma SplitLast(last: string, separator: char)
    requires IsSeparator(separator) && last != [] && Trim(last) == last && Moves(last, Level, Level, Level)
    ensures SplitTopLevel(last, separator) == Some([last])
  {
    SplitSkip(last, [], separator, Level, Level, []);
    assert last + [] == last && [] + last == last;
  }

  lemma SplitHere(current: string, rest: string, separator: char)
    requires IsSeparator(separator) && current != [] && Trim(current) == current
    ensures SplitFrom([separator] + rest, separator, Level, current) ==
            Prepend([current], SplitTopLevel(rest, separator))
  {
    assert ([separator] + rest)[0] == separator && ([separator] + rest)[1..] == rest;
  }

  lemma SplitFirst(first: string, rest: string, separator: char)
    requires IsSeparator(separator) && first != [] && Trim(first) == first && Moves(first, Level, Level, Level)
    ensures SplitTopLevel(first + [separator] + rest, separator) == Prepend([first], SplitTopLevel(rest, separator))
  {
    SplitSkip(first, [separator] + rest, separator, Level, Level, []);
    SplitHere(first, rest, separator);
    assert first + ([separator] + rest) == first + [separator] + rest && [] + first == first;
  }

  /** Splitting undoes joining. */
  lemma {:induction false} SplitJoin(parts: seq<string>, separator: char)
    requires IsSeparator(separator) && parts != []
    requires forall i :: 0 <= i < |parts| ==> Clean(parts[i])
    ensures SplitTopLevel(Join(parts, [separator]), separator) == Some(parts)
  {
    CleanMoves(parts[0]);
    if |parts| == 1 {
      SplitLast(parts[0], separator);
      assert parts == [parts[0]];
    } else {
      SplitFirst(parts[0], Join(parts[1..], [separator]), separator);
      SplitJoin(parts[1..], separator);
      assert [parts[0]] + parts[1..] == parts;
    }
  }
}
