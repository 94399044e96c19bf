/** Molecule tables and dynamic vectors: total size, one offset per field, then the fields back to back. */
module Molecule {
  import opened Options

  newtype Byte = x: int | 0 <= x < 256
  type Bytes = seq<Byte>

  const U32_BOUND: nat := 0x1_0000_0000

  // ----- little-endian words

  function U32(n: nat): (b: Bytes)
    requires n < U32_BOUND
    ensures |b| == 4
  {
    [(n % 256) as Byte, (n / 256 % 256) as Byte, (n / 65536 % 256) as Byte, (n / 16777216) as Byte]
  }

  function Word(b: Bytes, at: nat): (n: nat)
    requires at + 4 <= |b|
    ensures n < U32_BOUND
  {
    Combined(b[at] as int, b[at + 1] as int, b[at + 2] as int, b[at + 3] as int)
  }

  function Combined(b0: int, b1: int, b2: int, b3: int): int
  {
    b0 + 256 * b1 + 65536 * b2 + 16777216 * b3
  }

  /** The checked read: nothing when the word is truncated. */
  function ReadU32(b: Bytes, at: nat): Option<nat>
  {
    if at + 4 <= |b| then Some(Word(b, at)) else None
  }

  lemma WordOfU32(n: nat)
    requires n < U32_BOUND
    ensures Word(U32(n), 0) == n
  {
    assert n == n % 256 + 256 * (n / 256);
    assert n / 256 == n / 256 % 256 + 256 * (n / 65536);
    assert n / 65536 == n / 65536 % 256 + 256 * (n / 16777216);
  }

  lemma U32OfWord(b: Bytes, at: nat)
    requires at + 4 <= |b|
    ensures U32(Word(b, at)) == b[at..at + 4]
  {
    var b0, b1, b2, b3 := b[at] as int, b[at + 1] as int, b[at + 2] as int, b[at + 3] as int;
    var n := Combined(b0, b1, b2, b3);
    assert n % 256 == b0;
    assert n / 256 == b1 + 256 * b2 + 65536 * b3;
    assert n / 65536 == b2 + 256 * b3;
    assert n / 16777216 == b3;
  }

  lemma WordInside(b: Bytes, at: nat, n: nat)
    requires n < U32_BOUND && at + 4 <= |b| && b[at..at + 4] == U32(n)
    ensures Word(b, at) == n
  {
    WordOfU32(n);
    assert b[at..at + 4][0] == b[at] && b[at..at + 4][1] == b[at + 1] && b[at..at + 4][2] == b[at + 2] &&
           b[at..at + 4][3] == b[at + 3];
  }

  function Words(ns: seq<nat>): (b: Bytes)
    requires forall i :: 0 <= i < |ns| ==> ns[i] < U32_BOUND
    ensures |b| == 4 * |ns|
  {
    if ns == [] then [] else U32(ns[0]) + Words(ns[1..])
  }

  lemma {:induction false} WordsAt(ns: seq<nat>, i: nat)
    requires (forall k :: 0 <= k < |ns| ==> ns[k] < U32_BOUND) && i < |ns|
    ensures Words(ns)[4 * i..4 * i + 4] == U32(ns[i])
  {
    var rest := Words(ns[1..]);
    if i > 0 {
      WordsAt(ns[1..], i - 1);
      assert Words(ns)[4 * i..4 * i + 4] == rest[4 * (i - 1)..4 * (i - 1) + 4];
    }
  }

  /** Bytes that hold the words at every position are the words. */
  lemma {:induction false} WordsFrom(b: Bytes, at: nat, ns: seq<nat>)
    requires (forall k :: 0 <= k < |ns| ==> ns[k] < U32_BOUND) && at + 4 * |ns| <= |b|
    requires forall k :: 0 <= k < |ns| ==> Word(b, at + 4 * k) == ns[k]
    ensures b[at..at + 4 * |ns|] == Words(ns)
    decreases |ns|
  {
    if ns != [] {
      assert Word(b, at + 4 * 0) == ns[0];
      U32OfWord(b, at);
      forall k | 0 <= k < |ns[1..]| ensures Word(b, at + 4 + 4 * k) == ns[1..][k] {
        assert Word(b, at + 4 * (k + 1)) == ns[k + 1];
      }
      WordsFrom(b, at + 4, ns[1..]);
      assert b[at..at + 4 * |ns|] == b[at..at + 4] + b[at + 4..at + 4 * |ns|];
    }
  }

  // ----- concatenation

  function Flatten(fields: seq<Bytes>): Bytes
  {
    if fields == [] then [] else Flatten(fields[..|fields| - 1]) + fields[|fields| - 1]
  }

  lemma {:induction false} FlattenPrefix(fields: seq<Bytes>, i: nat)
    requires i <= |fields|
    ensures |Flatten(fields[..i])| <= |Flatten(fields)|
    ensures Flatten(fields)[..|Flatten(fields[..i])|] == Flatten(fields[..i])
    decreases |fields|
  {
    if i < |fields| {
      var front := fields[..|fields| - 1];
      FlattenPrefix(front, i);
      assert front[..i] == fields[..i];
    } else {
      assert fields[..i] == fields;
    }
  }

  lemma {:induction false} FlattenSlice(fields: seq<Bytes>, i: nat)
    requires i < |fields|
    ensures |Flatten(fields[..i])| <= |Flatten(fields[..i + 1])| <= |Flatten(fields)|
    ensures Flatten(fields)[|Flatten(fields[..i])|..|Flatten(fields[..i + 1])|] == fields[i]
  {
    FlattenPrefix(fields, i + 1);
    var upto := fields[..i + 1];
    assert upto[..i] == fields[..i] && upto[i] == fields[i];
    assert Flatten(upto) == Flatten(fields[..i]) + fields[i];
    assert Flatten(fields)[|Flatten(fields[..i])|..|Flatten(upto)|] == Flatten(upto)[|Flatten(fields[..i])|..];
  }

  lemma Associates(a: Bytes, b: Bytes, c: Bytes)
    ensures (a + b) + c == a + (b + c)
  {
  }

  // ----- tables

  function Header(count: nat): nat
  {
    4 * (count + 1)
  }

  function Size(fields: seq<Bytes>): nat
  {
    Header(|fields|) + |Flatten(fields)|
  }

  function Start(fields: seq<Bytes>, i: nat): nat
    requires i <= |fields|
  {
    Header(|fields|) + |Flatten(fields[..i])|
  }

  function Starts(fields: seq<Bytes>): (r: seq<nat>)
    ensures |r| == |fields| && forall i :: 0 <= i < |r| ==> r[i] == Start(fields, i)
  {
    seq(|fields|, i requires 0 <= i < |fields| => Start(fields, i))
  }

  lemma StartsBounded(fields: seq<Bytes>)
    ensures forall i :: 0 <= i < |fields| ==> Starts(fields)[i] <= Size(fields)
  {
    forall i | 0 <= i < |fields| ensures Start(fields, i) <= Size(fields) {
      FlattenPrefix(fields, i);
    }
  }

  /** The canonical encoding of a table or a dynamic vector. */
  function Table(fields: seq<Bytes>): (b: Bytes)
    requires Size(fields) < U32_BOUND
    ensures |b| == Size(fields)
  {
    StartsBounded(fields);
    U32(Size(fields)) + Words(Starts(fields)) + Flatten(fields)
  }

  /** Where field `i` starts according to the bytes; the last one ends with them. */
  function Offset(b: Bytes, count: nat, i: nat): nat
    requires Header(count) <= |b| && i <= count
  {
    if i == count then |b| else Word(b, 4 + 4 * i)
  }

  predicate Ordered(b: Bytes, count: nat, i: nat)
    requires Header(count) <= |b| && i < count
  {
    Offset(b, count, i) <= Offset(b, count, i + 1) <= |b|
  }

  /** The total is right, the first offset follows the header, offsets do not decrease and none escapes. */
  predicate IsTable(b: Bytes, count: nat)
  {
    && Header(count) <= |b| && Word(b, 0) == |b| && Offset(b, count, 0) == Header(count)
    && forall i :: 0 <= i < count ==> Ordered(b, count, i)
  }

  lemma {:induction false} OffsetInside(b: Bytes, count: nat, i: nat)
    requires IsTable(b, count) && i <= count
    ensures Header(count) <= Offset(b, count, i) <= |b|
  {
    if i > 0 {
      OffsetInside(b, count, i - 1);
      assert Ordered(b, count, i - 1);
    }
  }

  function FieldAt(b: Bytes, count: nat, i: nat): Bytes
    requires IsTable(b, count) && i < count
  {
    assert Ordered(b, count, i);
    b[Offset(b, count, i)..Offset(b, count, i + 1)]
  }

  function FieldsOf(b: Bytes, count: nat): (fields: seq<Bytes>)
    requires IsTable(b, count)
    ensures |fields| == count && forall i :: 0 <= i < count ==> fields[i] == FieldAt(b, count, i)
  {
    seq(count, i requires 0 <= i < count => FieldAt(b, count, i))
  }

  // ----- writing in order

  lemma {:induction false} WordsAppend(ns: seq<nat>, n: nat)
    requires (forall i :: 0 <= i < |ns| ==> ns[i] < U32_BOUND) && n < U32_BOUND
    ensures Words(ns + [n]) == Words(ns) + U32(n)
  {
    if ns != [] {
      WordsAppend(ns[1..], n);
      assert (ns + [n])[1..] == ns[1..] + [n];
    }
  }

  /** Writing offset `i` extends the offsets, and the next one is past field `i`. */
  lemma {:induction false} OffsetsStep(fields: seq<Bytes>, i: nat)
    requires Size(fields) < U32_BOUND && i < |fields|
    ensures Start(fields, i) < U32_BOUND && Start(fields, i + 1) == Start(fields, i) + |fields[i]|
    ensures forall k :: 0 <= k < |fields| ==> Starts(fields)[k] < U32_BOUND
    ensures Words(Starts(fields)[..i + 1]) == Words(Starts(fields)[..i]) + U32(Start(fields, i))
  {
    StartsBounded(fields);
    var starts := Starts(fields);
    assert starts[..i + 1] == starts[..i] + [starts[i]];
    WordsAppend(starts[..i], starts[i]);
    assert fields[..i + 1][..i] == fields[..i];
  }

  lemma FlattenStep(fields: seq<Bytes>, i: nat)
    requires i < |fields|
    ensures Flatten(fields[..i + 1]) == Flatten(fields[..i]) + fields[i]
  {
    assert fields[..i + 1][..i] == fields[..i];
  }

  predicate Measures(sizes: seq<nat>, fields: seq<Bytes>)
  {
    |sizes| == |fields| && forall i :: 0 <= i < |sizes| ==> sizes[i] == |fields[i]|
  }

  /** Total and offsets, from the sizes of fields not yet written. */
  method WriteHeader(sizes: seq<nat>, total: nat, ghost fields: seq<Bytes>) returns (b: Bytes)
    requires Measures(sizes, fields) && total == Size(fields) < U32_BOUND
    ensures (forall i :: 0 <= i < |fields| ==> Starts(fields)[i] < U32_BOUND) && b == U32(total) + Words(Starts(fields))
  {
    b := U32(total);
    var offset := 4 * (|sizes| + 1);
    StartsBounded(fields);
    for i := 0 to |sizes|
      invariant offset == Start(fields, i) && b == U32(total) + Words(Starts(fields)[..i])
    {
      OffsetsStep(fields, i);
      Associates(U32(total), Words(Starts(fields)[..i]), U32(offset));
      b := b + U32(offset);
      offset := offset + sizes[i];
    }
    assert Starts(fields)[..|fields|] == Starts(fields);
  }

  /** Total, offsets and fields written one after another are the table. */
  method WriteTable(fields: seq<Bytes>, total: nat) returns (b: Bytes)
    requires total == Size(fields) < U32_BOUND
    ensures b == Table(fields)
  {
    b := WriteHeader(seq(|fields|, i requires 0 <= i < |fields| => |fields[i]|), total, fields);
    ghost var head := b;
    for i := 0 to |fields|
      invariant b == head + Flatten(fields[..i])
    {
      FlattenStep(fields, i);
      Associates(head, Flatten(fields[..i]), fields[i]);
      b := b + fields[i];
    }
    assert fields[..|fields|] == fields;
  }

  // ----- exact inverse

  lemma {:induction false} TableOffset(fields: seq<Bytes>, i: nat)
    requires Size(fields) < U32_BOUND && i <= |fields|
    ensures Offset(Table(fields), |fields|, i) == Start(fields, i)
  {
    var b := Table(fields);
    StartsBounded(fields);
    if i < |fields| {
      var words := Words(Starts(fields));
      WordsAt(Starts(fields), i);
      assert b[4 + 4 * i..4 + 4 * i + 4] == words[4 * i..4 * i + 4];
      WordInside(b, 4 + 4 * i, Start(fields, i));
    } else {
      assert fields[..i] == fields;
    }
  }

  /** Reading a table back gives its fields. */
  lemma {:induction false} TableReads(fields: seq<Bytes>)
    requires Size(fields) < U32_BOUND
    ensures IsTable(Table(fields), |fields|) && FieldsOf(Table(fields), |fields|) == fields
  {
    var b := Table(fields);
    assert b[0..4] == U32(Size(fields));
    WordInside(b, 0, Size(fields));
    TableOffset(fields, 0);
    forall i | 0 <= i < |fields| ensures Ordered(b, |fields|, i) {
      TableFieldAt(fields, i);
    }
    forall i | 0 <= i < |fields| ensures FieldAt(b, |fields|, i) == fields[i] {
      TableFieldAt(fields, i);
    }
  }

  lemma {:induction false} TableFieldAt(fields: seq<Bytes>, i: nat)
    requires Size(fields) < U32_BOUND && i < |fields|
    ensures Start(fields, i) <= Start(fields, i + 1) <= |Table(fields)|
    ensures Table(fields)[Start(fields, i)..Start(fields, i + 1)] == fields[i]
    ensures Offset(Table(fields), |fields|, i) == Start(fields, i)
    ensures Offset(Table(fields), |fields|, i + 1) == Start(fields, i + 1)
  {
    TableOffset(fields, i);
    TableOffset(fields, i + 1);
    FlattenSlice(fields, i);
    StartsBounded(fields);
    var h := Header(|fields|);
    var b, flat := Table(fields), Flatten(fields);
    assert b[h..] == flat;
    assert b[h + |Flatten(fields[..i])|..h + |Flatten(fields[..i + 1])|] ==
           b[h..][|Flatten(fields[..i])|..|Flatten(fields[..i + 1])|];
  }

  lemma {:induction false} FlattenOfSlices(b: Bytes, count: nat, i: nat)
    requires IsTable(b, count) && i <= count
    ensures Header(count) <= Offset(b, count, i) <= |b|
    ensures Flatten(FieldsOf(b, count)[..i]) == b[Header(count)..Offset(b, count, i)]
  {
    OffsetInside(b, count, i);
    if i > 0 {
      FlattenOfSlices(b, count, i - 1);
      var fields := FieldsOf(b, count);
      assert fields[..i][..i - 1] == fields[..i - 1] && fields[..i][i - 1] == FieldAt(b, count, i - 1);
      assert Ordered(b, count, i - 1);
      assert b[Header(count)..Offset(b, count, i - 1)] + b[Offset(b, count, i - 1)..Offset(b, count, i)] ==
             b[Header(count)..Offset(b, count, i)];
    }
  }

  lemma {:induction false} OffsetIsStart(b: Bytes, count: nat, k: nat)
    requires IsTable(b, count) && k <= count
    ensures Offset(b, count, k) == Start(FieldsOf(b, count), k)
  {
    FlattenOfSlices(b, count, k);
  }

  lemma {:induction false} TableSize(b: Bytes, count: nat)
    requires IsTable(b, count)
    ensures |b| == Size(FieldsOf(b, count)) < U32_BOUND && b[Header(count)..] == Flatten(FieldsOf(b, count))
  {
    FlattenOfSlices(b, count, count);
    assert FieldsOf(b, count)[..count] == FieldsOf(b, count);
  }

  lemma {:induction false} TableWords(b: Bytes, count: nat)
    requires IsTable(b, count)
    ensures forall k :: 0 <= k < count ==> Starts(FieldsOf(b, count))[k] < U32_BOUND
    ensures b[4..Header(count)] == Words(Starts(FieldsOf(b, count)))
  {
    var starts := Starts(FieldsOf(b, count));
    forall k | 0 <= k < count ensures Word(b, 4 + 4 * k) == starts[k] && starts[k] < U32_BOUND {
      OffsetIsStart(b, count, k);
    }
    WordsFrom(b, 4, starts);
  }

  /** Nothing but the canonical encoding of its fields reads as a table. */
  lemma {:induction false} TableIsCanonical(b: Bytes, count: nat)
    requires IsTable(b, count)
    ensures |b| == Size(FieldsOf(b, count)) < U32_BOUND && b == Table(FieldsOf(b, count))
  {
    TableSize(b, count);
    TableWords(b, count);
    U32OfWord(b, 0);
    InThree(b, 4, Header(count));
  }

  lemma InThree(b: Bytes, i: nat, j: nat)
    requires i <= j <= |b|
    ensures b == b[0..i] + b[i..j] + b[j..]
  {
  }

  // ----- the strict reader

  predicate IsSlice(b: Bytes, count: nat, i: nat, field: Bytes)
    requires Header(count) <= |b| && i < count
  {
    Ordered(b, count, i) && field == b[Offset(b, count, i)..Offset(b, count, i + 1)]
  }

  lemma {:induction false} SlicesAreFields(b: Bytes, count: nat, fields: seq<Bytes>)
    requires Header(count) <= |b| && Word(b, 0) == |b| && Offset(b, count, 0) == Header(count) && |fields| == count
    requires forall i :: 0 <= i < count ==> IsSlice(b, count, i, fields[i])
    ensures IsTable(b, count) && fields == FieldsOf(b, count)
  {
    forall i | 0 <= i < count ensures Ordered(b, count, i) {
      assert IsSlice(b, count, i, fields[i]);
    }
    forall i | 0 <= i < count ensures fields[i] == FieldsOf(b, count)[i] {
      assert IsSlice(b, count, i, fields[i]);
    }
  }

  /** Accepts exactly the canonical encodings of `count` fields, and returns them. */
  method ReadFields(b: Bytes, count: nat) returns (r: Option<seq<Bytes>>)
    requires count > 0
    ensures r.Some? <==> IsTable(b, count)
    ensures r.Some? ==> r.value == FieldsOf(b, count)
  {
    var header := 4 * (count + 1);
    if |b| < header || ReadU32(b, 0) != Some(|b|) || ReadU32(b, 4) != Some(header) {
      return None;
    }
    var fields: seq<Bytes> := [];
    var previous := header;
    for index := 0 to count
      invariant previous == Offset(b, count, index) <= |b| && |fields| == index
      invariant forall i :: 0 <= i < index ==> IsSlice(b, count, i, fields[i])
    {
      var start := ReadU32(b, 4 + index * 4);
      var end := if index + 1 == count then Some(|b|) else ReadU32(b, 8 + index * 4);
      assert start == Some(previous) && end == Some(Offset(b, count, index + 1));
      if start != Some(previous) || end.value < previous || end.value > |b| {
        assert !Ordered(b, count, index);
        return None;
      }
      assert IsSlice(b, count, index, b[previous..end.value]);
      fields := fields + [b[previous..end.value]];
      previous := end.value;
    }
    SlicesAreFields(b, count, fields);
    return Some(fields);
  }
}
