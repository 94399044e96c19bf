/** Bounded nested values: a dynamic vector of byte strings or of records that end in a byte string, and Cell data made
    of them. */
module NestedValues {
  import opened Options
  import opened Molecule

  const MAX_ITEMS: nat := 32
  const MAX_PAYLOAD_BYTES: nat := 256
  const MAX_TOTAL_BYTES: nat := 4096
  const MAX_FIXED_FIELDS: nat := 8
  const MAX_FIXED_FIELD_BYTES: nat := 256

  /** Limits and record widths; no widths means plain byte strings. */
  datatype Contract = Contract(widths: seq<nat>, maxItems: nat, maxPayload: nat, maxTotal: nat)

  predicate ValidContract(c: Contract)
  {
    && c.maxItems <= MAX_ITEMS && c.maxPayload <= MAX_PAYLOAD_BYTES && 4 <= c.maxTotal <= MAX_TOTAL_BYTES
    && |c.widths| <= MAX_FIXED_FIELDS && forall i :: 0 <= i < |c.widths| ==> 1 <= c.widths[i] <= MAX_FIXED_FIELD_BYTES
  }

  datatype Element = Element(fixedFields: seq<Bytes>, payload: Bytes)

  predicate FieldsMatch(fields: seq<Bytes>, widths: seq<nat>)
  {
    |fields| == |widths| && forall i :: 0 <= i < |widths| ==> |fields[i]| == widths[i]
  }

  predicate ElementFits(c: Contract, e: Element)
  {
    FieldsMatch(e.fixedFields, c.widths) && |e.payload| <= c.maxPayload
  }

  // ----- the canonical bytes

  function PayloadBytes(payload: Bytes): Bytes
    requires |payload| <= MAX_PAYLOAD_BYTES
  {
    U32(|payload|) + payload
  }

  function Sum(ns: seq<nat>): nat
  {
    if ns == [] then 0 else Sum(ns[..|ns| - 1]) + ns[|ns| - 1]
  }

  lemma {:induction false} FlattenWidths(fields: seq<Bytes>, widths: seq<nat>)
    requires FieldsMatch(fields, widths)
    ensures |Flatten(fields)| == Sum(widths)
  {
    if fields != [] {
      FlattenWidths(fields[..|fields| - 1], widths[..|fields| - 1]);
    }
  }

  lemma {:induction false} SumBounded(widths: seq<nat>)
    requires forall i :: 0 <= i < |widths| ==> widths[i] <= MAX_FIXED_FIELD_BYTES
    ensures Sum(widths) <= MAX_FIXED_FIELD_BYTES * |widths|
  {
    if widths != [] {
      SumBounded(widths[..|widths| - 1]);
    }
  }

  function RecordHeader(c: Contract): nat
  {
    if c.widths == [] then 0 else 4 * (|c.widths| + 2)
  }

  function ElementSize(c: Contract, e: Element): nat
  {
    RecordHeader(c) + Sum(c.widths) + 4 + |e.payload|
  }

  function ElementFields(e: Element): seq<Bytes>
    requires |e.payload| <= MAX_PAYLOAD_BYTES
  {
    e.fixedFields + [PayloadBytes(e.payload)]
  }

  lemma ElementFieldsSize(c: Contract, e: Element)
    requires ValidContract(c) && ElementFits(c, e) && c.widths != []
    ensures Size(ElementFields(e)) == ElementSize(c, e) < U32_BOUND
  {
    var fields := ElementFields(e);
    assert fields[..|fields| - 1] == e.fixedFields;
    FlattenWidths(e.fixedFields, c.widths);
    SumBounded(c.widths);
  }

  function ElementBytes(c: Contract, e: Element): (b: Bytes)
    requires ValidContract(c) && ElementFits(c, e)
    ensures |b| == ElementSize(c, e)
  {
    if c.widths == [] then PayloadBytes(e.payload) else ElementFieldsSize(c, e); Table(ElementFields(e))
  }

  predicate AllFit(c: Contract, items: seq<Element>)
  {
    forall i :: 0 <= i < |items| ==> ElementFits(c, items[i])
  }

  function Elements(c: Contract, items: seq<Element>): (r: seq<Bytes>)
    requires ValidContract(c) && AllFit(c, items)
    ensures |r| == |items| && forall i :: 0 <= i < |items| ==> r[i] == ElementBytes(c, items[i])
  {
    seq(|items|, i requires 0 <= i < |items| => ElementBytes(c, items[i]))
  }

  function ItemsSize(c: Contract, items: seq<Element>): nat
  {
    if items == [] then 0 else ItemsSize(c, items[..|items| - 1]) + ElementSize(c, items[|items| - 1])
  }

  function TotalSize(c: Contract, items: seq<Element>): nat
  {
    Header(|items|) + ItemsSize(c, items)
  }

  lemma {:induction false} ElementsSize(c: Contract, items: seq<Element>)
    requires ValidContract(c) && AllFit(c, items)
    ensures Size(Elements(c, items)) == TotalSize(c, items)
  {
    if items != [] {
      var front := items[..|items| - 1];
      ElementsSize(c, front);
      assert Elements(c, items)[..|items| - 1] == Elements(c, front);
    }
  }

  /** Within the item, payload and total bounds of its contract. */
  predicate Accepted(c: Contract, items: seq<Element>)
  {
    |items| <= c.maxItems && AllFit(c, items) && TotalSize(c, items) <= c.maxTotal
  }

  function Encoding(c: Contract, items: seq<Element>): (b: Bytes)
    requires ValidContract(c) && Accepted(c, items)
    ensures |b| == TotalSize(c, items) <= c.maxTotal
  {
    ElementsSize(c, items);
    Table(Elements(c, items))
  }

  // ----- the reader

  function ReadPayload(c: Contract, b: Bytes): Option<Bytes>
  {
    if |b| >= 4 && Word(b, 0) <= c.maxPayload && Word(b, 0) + 4 == |b| then Some(b[4..]) else None
  }

  function ReadElement(c: Contract, b: Bytes): Option<Element>
  {
    var count := |c.widths| + 1;
    if c.widths == [] then
      var payload := ReadPayload(c, b);
      if payload.None? then None else Some(Element([], payload.value))
    else if !IsTable(b, count) then None
    else
      var fields := FieldsOf(b, count);
      var payload := ReadPayload(c, fields[count - 1]);
      if !FieldsMatch(fields[..count - 1], c.widths) || payload.None? then None
      else Some(Element(fields[..count - 1], payload.value))
  }

  lemma PayloadExactly(c: Contract, b: Bytes, payload: Bytes)
    requires ValidContract(c)
    ensures ReadPayload(c, b) == Some(payload) <==> |payload| <= c.maxPayload && b == PayloadBytes(payload)
  {
    if |payload| <= c.maxPayload && b == PayloadBytes(payload) {
      assert b[0..4] == U32(|payload|) && b[4..] == payload;
      WordInside(b, 0, |payload|);
    }
    if ReadPayload(c, b) == Some(payload) {
      U32OfWord(b, 0);
      assert b == b[0..4] + b[4..];
    }
  }

  lemma ElementReads(c: Contract, e: Element)
    requires ValidContract(c) && ElementFits(c, e)
    ensures ReadElement(c, ElementBytes(c, e)) == Some(e)
  {
    PayloadExactly(c, PayloadBytes(e.payload), e.payload);
    if c.widths != [] {
      ElementFieldsSize(c, e);
      TableReads(ElementFields(e));
      assert ElementFields(e)[..|c.widths|] == e.fixedFields;
    }
  }

  lemma ElementIsCanonical(c: Contract, b: Bytes)
    requires ValidContract(c) && ReadElement(c, b).Some?
    ensures ElementFits(c, ReadElement(c, b).value) && b == ElementBytes(c, ReadElement(c, b).value)
  {
    var e := ReadElement(c, b).value;
    if c.widths == [] {
      PayloadExactly(c, b, e.payload);
    } else {
      var fields := FieldsOf(b, |c.widths| + 1);
      PayloadExactly(c, fields[|c.widths|], e.payload);
      assert fields == ElementFields(e);
      TableIsCanonical(b, |c.widths| + 1);
    }
  }

  /** The element count the first offset declares. */
  function DeclaredCount(b: Bytes): Option<nat>
  {
    if |b| < 4 || Word(b, 0) != |b| then None
    else if |b| == 4 then Some(0)
    else if |b| < 8 || Word(b, 4) < 8 || Word(b, 4) % 4 != 0 || Word(b, 4) > |b| then None
    else Some(Word(b, 4) / 4 - 1)
  }

  predicate Reads(c: Contract, b: Bytes, count: nat)
  {
    IsTable(b, count) && forall i :: 0 <= i < count ==> ReadElement(c, FieldsOf(b, count)[i]).Some?
  }

  function ElementsOf(c: Contract, b: Bytes, count: nat): (items: seq<Element>)
    requires Reads(c, b, count)
    ensures |items| == count && forall i :: 0 <= i < count ==> Some(items[i]) == ReadElement(c, FieldsOf(b, count)[i])
  {
    seq(count, i requires 0 <= i < count => ReadElement(c, FieldsOf(b, count)[i]).value)
  }

  /** What a contract accepts as the value of some bytes. */
  function Checked(c: Contract, b: Bytes): Option<seq<Element>>
  {
    var count := DeclaredCount(b);
    if !ValidContract(c) || |b| > c.maxTotal || count.None? || count.value > c.maxItems || !Reads(c, b, count.value)
    then None
    else Some(ElementsOf(c, b, count.value))
  }

  lemma TableCount(b: Bytes, count: nat)
    requires IsTable(b, count)
    ensures DeclaredCount(b) == Some(count)
  {
    assert Offset(b, count, 0) == Header(count);
  }

  /** Encoded values read back as the items they were made of. */
  lemma {:induction false} EncodingChecks(c: Contract, items: seq<Element>)
    requires ValidContract(c) && Accepted(c, items)
    ensures Checked(c, Encoding(c, items)) == Some(items)
  {
    var b, fields := Encoding(c, items), Elements(c, items);
    ElementsSize(c, items);
    TableReads(fields);
    TableCount(b, |items|);
    forall i | 0 <= i < |items| ensures ReadElement(c, FieldsOf(b, |items|)[i]) == Some(items[i]) {
      ElementReads(c, items[i]);
    }
    assert ElementsOf(c, b, |items|) == items;
  }

  /** Only canonical bytes are accepted. */
  lemma {:induction false} CheckedIsCanonical(c: Contract, b: Bytes)
    requires Checked(c, b).Some?
    ensures Accepted(c, Checked(c, b).value) && b == Encoding(c, Checked(c, b).value)
  {
    var count := DeclaredCount(b).value;
    var items := ElementsOf(c, b, count);
    forall i | 0 <= i < count ensures ElementFits(c, items[i]) && FieldsOf(b, count)[i] == ElementBytes(c, items[i]) {
      assert Some(items[i]) == ReadElement(c, FieldsOf(b, count)[i]);
      ElementIsCanonical(c, FieldsOf(b, count)[i]);
    }
    assert FieldsOf(b, count) == Elements(c, items);
    TableIsCanonical(b, count);
    ElementsSize(c, items);
  }

  /** The element loop of the reader. */
  method CheckValues(c: Contract, b: Bytes) returns (r: Option<seq<Element>>)
    ensures r == Checked(c, b)
  {
    if !ValidContract(c) || |b| > c.maxTotal {
      return None;
    }
    var declared := DeclaredCount(b);
    if declared.None? || declared.value > c.maxItems {
      return None;
    }
    var count := declared.value;
    var fields: Option<seq<Bytes>> := Some([]);
    if count > 0 {
      fields := ReadFields(b, count);
    }
    if fields.None? {
      return None;
    }
    assert IsTable(b, count) && fields.value == FieldsOf(b, count);
    var items: seq<Element> := [];
    for i := 0 to count
      invariant |items| == i && forall k :: 0 <= k < i ==> ReadElement(c, FieldsOf(b, count)[k]) == Some(items[k])
    {
      var item := ReadElement(c, fields.value[i]);
      if item.None? {
        return None;
      }
      items := items + [item.value];
    }
    assert items == ElementsOf(c, b, count);
    return Some(items);
  }

  // ----- the writer

  /** Every width and bound is checked, and the size added up, before anything is written. */
  method MeasureValues(c: Contract, items: seq<Element>) returns (r: Option<nat>)
    requires ValidContract(c)
    ensures r.Some? <==> Accepted(c, items)
    ensures r.Some? ==> r.value == TotalSize(c, items)
  {
    if |items| > c.maxItems {
      return None;
    }
    var total := 4 * (|items| + 1);
    for i := 0 to |items|
      invariant total == Header(|items|) + ItemsSize(c, items[..i]) && AllFit(c, items[..i])
    {
      assert items[..i + 1][..i] == items[..i];
      if !FieldsMatch(items[i].fixedFields, c.widths) || |items[i].payload| > c.maxPayload {
        assert !ElementFits(c, items[i]);
        return None;
      }
      total := total + RecordHeader(c) + Sum(c.widths) + 4 + |items[i].payload|;
      if total > c.maxTotal {
        ItemsGrow(c, items, i + 1);
        return None;
      }
    }
    assert items[..|items|] == items;
    return if total > c.maxTotal then None else Some(total);
  }

  lemma {:induction false} ItemsGrow(c: Contract, items: seq<Element>, k: nat)
    requires k <= |items|
    ensures ItemsSize(c, items[..k]) <= ItemsSize(c, items)
    decreases |items|
  {
    if k < |items| {
      var front := items[..|items| - 1];
      ItemsGrow(c, front, k);
      assert front[..k] == items[..k];
    } else {
      assert items[..k] == items;
    }
  }

  function ElementSizes(c: Contract, items: seq<Element>): (sizes: seq<nat>)
    ensures |sizes| == |items| && forall i :: 0 <= i < |items| ==> sizes[i] == ElementSize(c, items[i])
  {
    seq(|items|, i requires 0 <= i < |items| => ElementSize(c, items[i]))
  }

  method WriteElement(c: Contract, e: Element) returns (b: Bytes)
    requires ValidContract(c) && ElementFits(c, e)
    ensures b == ElementBytes(c, e)
  {
    if c.widths == [] {
      b := U32(|e.payload|) + e.payload;
    } else {
      ElementFieldsSize(c, e);
      b := WriteTable(e.fixedFields + [U32(|e.payload|) + e.payload],
                      RecordHeader(c) + Sum(c.widths) + 4 + |e.payload|);
    }
  }

  lemma {:induction false} ElementsStep(c: Contract, items: seq<Element>, i: nat)
    requires ValidContract(c) && AllFit(c, items) && i < |items|
    ensures Flatten(Elements(c, items[..i + 1])) == Flatten(Elements(c, items[..i])) + ElementBytes(c, items[i])
  {
    assert Elements(c, items[..i + 1])[..i] == Elements(c, items[..i]);
  }

  method WriteElements(c: Contract, items: seq<Element>, head: Bytes) returns (b: Bytes)
    requires ValidContract(c) && AllFit(c, items)
    ensures b == head + Flatten(Elements(c, items))
  {
    b := head;
    for i := 0 to |items|
      invariant b == head + Flatten(Elements(c, items[..i]))
    {
      ElementsStep(c, items, i);
      var element := WriteElement(c, items[i]);
      Associates(head, Flatten(Elements(c, items[..i])), element);
      b := b + element;
    }
    assert items[..|items|] == items;
  }

  /** Succeeds exactly within the declared bounds, with as many bytes as were measured; the reader's own check of the
      result cannot fail. */
  method EncodeValues(c: Contract, items: seq<Element>) returns (r: Option<Bytes>)
    requires ValidContract(c)
    ensures r.Some? <==> Accepted(c, items)
    ensures r.Some? ==> r.value == Encoding(c, items)
  {
    var total := MeasureValues(c, items);
    if total.None? {
      return None;
    }
    ElementsSize(c, items);
    var head := WriteHeader(ElementSizes(c, items), total.value, Elements(c, items));
    var b := WriteElements(c, items, head);
    var checked := CheckValues(c, b);
    EncodingChecks(c, items);
    assert checked == Some(items);
    return Some(b);
  }

  // ----- Cell data

  /** A Cell field is fixed-width bytes or a nested value. */
  datatype CellField = CellField(name: string, width: Option<nat>, values: Contract)

  datatype FieldInput = FixedBytes(bytes: Bytes) | Nested(items: seq<Element>)

  function Limit(f: CellField): nat
  {
    if f.width.Some? then f.width.value else f.values.maxTotal
  }

  function Limits(fields: seq<CellField>): nat
  {
    if fields == [] then 0 else Limits(fields[..|fields| - 1]) + Limit(fields[|fields| - 1])
  }

  function MaximumSize(fields: seq<CellField>): nat
  {
    Header(|fields|) + Limits(fields)
  }

  predicate ValidCell(fields: seq<CellField>)
  {
    && (forall i, j :: 0 <= i < j < |fields| ==> fields[i].name != fields[j].name)
    && MaximumSize(fields) < U32_BOUND
    && forall i :: 0 <= i < |fields| ==> fields[i].width.None? ==> ValidContract(fields[i].values)
  }

  predicate InputFits(f: CellField, input: FieldInput)
  {
    match input
    case FixedBytes(bytes) => f.width == Some(|bytes|)
    case Nested(items) => f.width.None? && Accepted(f.values, items)
  }

  predicate Given(f: CellField, inputs: map<string, FieldInput>)
  {
    f.name in inputs && InputFits(f, inputs[f.name])
  }

  /** Exactly the declared fields are given, each in its declared representation. */
  predicate InputsFit(fields: seq<CellField>, inputs: map<string, FieldInput>)
  {
    |inputs| == |fields| && forall i :: 0 <= i < |fields| ==> Given(fields[i], inputs)
  }

  function FieldBytes(f: CellField, inputs: map<string, FieldInput>): (b: Bytes)
    requires Given(f, inputs) && (f.width.None? ==> ValidContract(f.values))
    ensures |b| <= Limit(f)
  {
    match inputs[f.name]
    case FixedBytes(bytes) => bytes
    case Nested(items) => Encoding(f.values, items)
  }

  function CellBytes(fields: seq<CellField>, inputs: map<string, FieldInput>): (r: seq<Bytes>)
    requires ValidCell(fields)
    requires forall i :: 0 <= i < |fields| ==> Given(fields[i], inputs)
    ensures |r| == |fields| && forall i :: 0 <= i < |fields| ==> r[i] == FieldBytes(fields[i], inputs)
  {
    seq(|fields|, i requires 0 <= i < |fields| => FieldBytes(fields[i], inputs))
  }

  lemma {:induction false} WithinLimits(fields: seq<CellField>, bytes: seq<Bytes>)
    requires |bytes| == |fields| && forall i :: 0 <= i < |fields| ==> |bytes[i]| <= Limit(fields[i])
    ensures |Flatten(bytes)| <= Limits(fields)
  {
    if fields != [] {
      WithinLimits(fields[..|fields| - 1], bytes[..|fields| - 1]);
    }
  }

  lemma {:induction false} LimitsGrow(fields: seq<CellField>, k: nat)
    requires k <= |fields|
    ensures Limits(fields[..k]) <= Limits(fields)
    decreases |fields|
  {
    if k < |fields| {
      LimitsGrow(fields[..|fields| - 1], k);
      assert fields[..|fields| - 1][..k] == fields[..k];
    } else {
      assert fields[..k] == fields;
    }
  }

  /** The names of the first fields, which are distinct. */
  ghost predicate Seen(fields: seq<CellField>, i: nat, names: set<string>)
    requires i <= |fields|
  {
    && (forall k :: 0 <= k < i ==> fields[k].name in names)
    && (forall name :: name in names ==> exists k :: 0 <= k < i && fields[k].name == name)
    && forall j, k :: 0 <= j < k < i ==> fields[j].name != fields[k].name
  }

  lemma SeenStep(fields: seq<CellField>, i: nat, names: set<string>)
    requires i < |fields| && Seen(fields, i, names)
    ensures fields[i].name in names ==> !ValidCell(fields)
    ensures fields[i].name !in names ==> Seen(fields, i + 1, names + {fields[i].name})
  {
    var more := names + {fields[i].name};
    forall name | name in more ensures exists k :: 0 <= k < i + 1 && fields[k].name == name {
      if name in names {
        var k :| 0 <= k < i && fields[k].name == name;
        assert 0 <= k < i + 1;
      }
    }
  }

  lemma LimitsStep(fields: seq<CellField>, i: nat)
    requires i < |fields|
    ensures Limits(fields[..i + 1]) == Limits(fields[..i]) + Limit(fields[i])
  {
    assert fields[..i + 1][..i] == fields[..i];
  }

  lemma OverBound(fields: seq<CellField>, i: nat)
    requires i <= |fields| && Header(|fields|) + Limits(fields[..i]) >= U32_BOUND
    ensures !ValidCell(fields)
  {
    LimitsGrow(fields, i);
  }

  lemma AllBounded(fields: seq<CellField>, names: set<string>)
    requires forall i :: 0 <= i < |fields| && fields[i].width.None? ==> ValidContract(fields[i].values)
    requires Seen(fields, |fields|, names)
    ensures MaximumSize(fields) == Header(|fields|) + Limits(fields[..|fields|])
    ensures ValidCell(fields) <==> MaximumSize(fields) < U32_BOUND
  {
    assert fields[..|fields|] == fields;
  }

  /** The declared bound of a Cell, refused when a name repeats or the sum leaves 32 bits. */
  method BoundCell(fields: seq<CellField>) returns (r: Option<nat>)
    requires forall i :: 0 <= i < |fields| && fields[i].width.None? ==> ValidContract(fields[i].values)
    ensures r.Some? <==> ValidCell(fields)
    ensures r.Some? ==> r.value == MaximumSize(fields)
  {
    var maximum := 4 * (|fields| + 1);
    var names: set<string> := {};
    for i := 0 to |fields|
      invariant maximum == Header(|fields|) + Limits(fields[..i]) && (i > 0 ==> maximum < U32_BOUND)
      invariant Seen(fields, i, names)
    {
      SeenStep(fields, i, names);
      if fields[i].name in names {
        return None;
      }
      names := names + {fields[i].name};
      LimitsStep(fields, i);
      maximum := maximum + Limit(fields[i]);
      if maximum >= U32_BOUND {
        OverBound(fields, i + 1);
        return None;
      }
    }
    AllBounded(fields, names);
    return Some(maximum);
  }

  predicate IsField(f: CellField, inputs: map<string, FieldInput>, bytes: Bytes)
    requires f.width.None? ==> ValidContract(f.values)
  {
    Given(f, inputs) && bytes == FieldBytes(f, inputs)
  }

  lemma {:induction false} FieldsAreCellBytes(fields: seq<CellField>, inputs: map<string, FieldInput>,
                                              encoded: seq<Bytes>)
    requires ValidCell(fields) && |encoded| == |fields|
    requires forall k :: 0 <= k < |fields| ==> IsField(fields[k], inputs, encoded[k])
    ensures (forall k :: 0 <= k < |fields| ==> Given(fields[k], inputs)) && encoded == CellBytes(fields, inputs)
  {
    forall k | 0 <= k < |fields| ensures Given(fields[k], inputs) {
      assert IsField(fields[k], inputs, encoded[k]);
    }
    forall k | 0 <= k < |fields| ensures encoded[k] == CellBytes(fields, inputs)[k] {
      assert IsField(fields[k], inputs, encoded[k]);
    }
  }

  /** The fields in declaration order, with their total; a missing or ill-shaped field refuses. */
  method EncodeFields(fields: seq<CellField>, inputs: map<string, FieldInput>)
    returns (r: Option<seq<Bytes>>, total: nat)
    requires ValidCell(fields)
    ensures r.Some? <==> forall i :: 0 <= i < |fields| ==> Given(fields[i], inputs)
    ensures r.Some? ==> r.value == CellBytes(fields, inputs) && total == Size(r.value)
  {
    var encoded: seq<Bytes> := [];
    total := 4 * (|fields| + 1);
    for i := 0 to |fields|
      invariant |encoded| == i && total == Header(|fields|) + |Flatten(encoded)|
      invariant forall k :: 0 <= k < i ==> IsField(fields[k], inputs, encoded[k])
    {
      var bytes := EncodeField(fields[i], inputs);
      if bytes.None? {
        return None, total;
      }
      assert (encoded + [bytes.value])[..i] == encoded;
      encoded := encoded + [bytes.value];
      total := total + |bytes.value|;
    }
    FieldsAreCellBytes(fields, inputs, encoded);
    return Some(encoded), total;
  }

  /** Cell data is the table of its fields in declaration order; the bound on its size cannot be exceeded. */
  method EncodeCell(fields: seq<CellField>, inputs: map<string, FieldInput>) returns (r: Option<Bytes>)
    requires ValidCell(fields)
    ensures r.Some? <==> InputsFit(fields, inputs)
    ensures r.Some? ==> Size(CellBytes(fields, inputs)) < U32_BOUND && r.value == Table(CellBytes(fields, inputs))
    ensures r.Some? ==> |r.value| <= MaximumSize(fields)
  {
    if |inputs| != |fields| {
      return None;
    }
    var encoded, total := EncodeFields(fields, inputs);
    if encoded.None? {
      return None;
    }
    WithinLimits(fields, encoded.value);
    var b := WriteTable(encoded.value, total);
    return Some(b);
  }

  method EncodeField(f: CellField, inputs: map<string, FieldInput>) returns (r: Option<Bytes>)
    requires f.width.None? ==> ValidContract(f.values)
    ensures r.Some? <==> Given(f, inputs)
    ensures r.Some? ==> r.value == FieldBytes(f, inputs)
  {
    if f.name !in inputs {
      return None;
    }
    var input := inputs[f.name];
    if f.width.Some? && input.FixedBytes? && |input.bytes| == f.width.value {
      return Some(input.bytes);
    } else if f.width.None? && input.Nested? {
      r := EncodeValues(f.values, input.items);
    } else {
      return None;
    }
  }

  /** Following the offsets of Cell data gives back each field, and each nested field its items. */
  lemma {:induction false} CellReads(fields: seq<CellField>, inputs: map<string, FieldInput>, i: nat)
    requires ValidCell(fields) && InputsFit(fields, inputs) && i < |fields| && Given(fields[i], inputs)
    ensures var bytes := CellBytes(fields, inputs);
            && Size(bytes) < U32_BOUND && IsTable(Table(bytes), |fields|)
            && FieldsOf(Table(bytes), |fields|)[i] == FieldBytes(fields[i], inputs)
    ensures inputs[fields[i].name].Nested? ==>
              Checked(fields[i].values, FieldBytes(fields[i], inputs)) == Some(inputs[fields[i].name].items)
  {
    assert Given(fields[i], inputs);
    var bytes := CellBytes(fields, inputs);
    WithinLimits(fields, bytes);
    TableReads(bytes);
    if inputs[fields[i].name].Nested? {
      EncodingChecks(fields[i].values, inputs[fields[i].name].items);
    }
  }
}
