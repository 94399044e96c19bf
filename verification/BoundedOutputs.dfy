/** Bounded outputs: the outputs of the current Type Script group materialize a plan, element by element. */
module BoundedOutputs {
  import opened Options
  import opened Molecule

  const PLAN_MAGIC: Bytes := [0x43, 0x53, 0x42, 0x50, 0x4C, 0x76, 0x31, 0x00]
  const PLAN_HEADER: nat := 12
  const MAX_PLAN_BYTES: nat := 4084

  /** `width` bytes of a plan element and, for a field, their place in the output data. */
  datatype Binding = Binding(planOffset: nat, outputOffset: nat, width: nat)

  datatype Contract = Contract(
    elementWidth: nat,
    maxElements: nat,
    outputWidth: nat,
    bindings: seq<Binding>,
    lock: Binding,
    capacityFloor: nat
  )

  datatype Output = Output(typeHash: Option<Bytes>, lockHash: Bytes, capacity: nat, data: Bytes)

  /** The number of elements a plan declares, when its header and length agree. */
  function PlanCount(payload: Bytes, elementWidth: nat, maxElements: nat): Option<nat>
  {
    if |payload| < PLAN_HEADER || payload[..8] != PLAN_MAGIC then None
    else
      var count := Word(payload, 8);
      if count > maxElements || count * elementWidth + PLAN_HEADER != |payload| || |payload| > MAX_PLAN_BYTES then None
      else Some(count)
  }

  // ----- what materializing means

  function ElementStart(c: Contract, ordinal: nat): nat
  {
    PLAN_HEADER + ordinal * c.elementWidth
  }

  predicate Covers(b: Binding, j: nat)
  {
    b.outputOffset <= j < b.outputOffset + b.width
  }

  /** The plan byte a field binding puts at output byte `j`. */
  function SourceOf(c: Contract, ordinal: nat, b: Binding, j: nat): nat
    requires Covers(b, j)
  {
    ElementStart(c, ordinal) + b.planOffset + (j - b.outputOffset)
  }

  /** The binding reads inside the payload and writes inside the output. */
  predicate InRange(c: Contract, payload: Bytes, ordinal: nat, b: Binding)
  {
    ElementStart(c, ordinal) + b.planOffset + b.width <= |payload| && b.outputOffset + b.width <= c.outputWidth
  }

  predicate Disjoint(a: Binding, b: Binding)
  {
    a.width == 0 || b.width == 0 || a.outputOffset + a.width <= b.outputOffset ||
    b.outputOffset + b.width <= a.outputOffset
  }

  predicate Covered(bindings: seq<Binding>, j: nat)
  {
    exists k :: 0 <= k < |bindings| && Covers(bindings[k], j)
  }

  /** The bindings tile the output: in range, without overlap, without gap. */
  predicate Tiles(c: Contract, payload: Bytes, ordinal: nat)
  {
    && (forall k :: 0 <= k < |c.bindings| ==> InRange(c, payload, ordinal, c.bindings[k]))
    && (forall k, l :: 0 <= k < l < |c.bindings| ==> Disjoint(c.bindings[k], c.bindings[l]))
    && forall j :: 0 <= j < c.outputWidth ==> Covered(c.bindings, j)
  }

  predicate Copies(c: Contract, payload: Bytes, ordinal: nat, b: Binding, data: Bytes)
  {
    forall j :: 0 <= j < |data| && Covers(b, j) && SourceOf(c, ordinal, b, j) < |payload| ==>
      data[j] == payload[SourceOf(c, ordinal, b, j)]
  }

  /** The output is in the group and its data, lock and capacity are what element `ordinal` asks for. */
  predicate Materializes(c: Contract, payload: Bytes, ordinal: nat, output: Output, hash: Bytes)
  {
    && output.typeHash == Some(hash) && |output.data| == c.outputWidth && Tiles(c, payload, ordinal)
    && (forall k :: 0 <= k < |c.bindings| ==> Copies(c, payload, ordinal, c.bindings[k], output.data))
    && LockMatches(c, payload, ordinal, output) && output.capacity >= c.capacityFloor
  }

  predicate LockMatches(c: Contract, payload: Bytes, ordinal: nat, output: Output)
  {
    var at := ElementStart(c, ordinal) + c.lock.planOffset;
    at + c.lock.width <= |payload| && payload[at..at + c.lock.width] == output.lockHash
  }

  // ----- one output

  predicate AllInRange(c: Contract, payload: Bytes, ordinal: nat, bindings: seq<Binding>)
  {
    forall k :: 0 <= k < |bindings| ==> InRange(c, payload, ordinal, bindings[k])
  }

  predicate AllDisjoint(bindings: seq<Binding>)
  {
    forall k, l :: 0 <= k < l < |bindings| ==> Disjoint(bindings[k], bindings[l])
  }

  /** The bytes written so far: marked where some binding covers them, and copied from the plan. */
  predicate WrittenBy(c: Contract, payload: Bytes, ordinal: nat, bindings: seq<Binding>, expected: Bytes,
                      written: seq<bool>)
  {
    && |expected| == |written| == c.outputWidth
    && (forall j :: 0 <= j < |written| ==> (written[j] <==> Covered(bindings, j)))
    && forall k :: 0 <= k < |bindings| ==> Copies(c, payload, ordinal, bindings[k], expected)
  }

  lemma CoveredAppend(bindings: seq<Binding>, b: Binding, j: nat)
    ensures Covered(bindings + [b], j) <==> Covered(bindings, j) || Covers(b, j)
  {
    var next := bindings + [b];
    if Covered(bindings, j) {
      var k :| 0 <= k < |bindings| && Covers(bindings[k], j);
      assert next[k] == bindings[k];
    }
    assert next[|bindings|] == b;
  }

  /** A binding overlaps an earlier one exactly when it meets a marked byte. */
  lemma {:induction false} OverlapShows(bindings: seq<Binding>, b: Binding)
    ensures (forall k :: 0 <= k < |bindings| ==> Disjoint(bindings[k], b)) <==>
            forall j :: Covers(b, j) ==> !Covered(bindings, j)
  {
    if forall j :: Covers(b, j) ==> !Covered(bindings, j) {
      forall k | 0 <= k < |bindings| ensures Disjoint(bindings[k], b) {
        var a := bindings[k];
        if !Disjoint(a, b) {
          var j := if a.outputOffset > b.outputOffset then a.outputOffset else b.outputOffset;
          assert Covers(a, j) && Covers(b, j);
        }
      }
    }
  }

  /** Copies one binding into the buffers, or finds that it escapes or overlaps. */
  method WriteBinding(c: Contract, payload: Bytes, ordinal: nat, b: Binding, expected: array<Byte>,
                      written: array<bool>)
    returns (ok: bool)
    requires expected.Length == written.Length == c.outputWidth
    modifies expected, written
    ensures ok <==>
            InRange(c, payload, ordinal, b) &&
            forall j :: 0 <= j < c.outputWidth && Covers(b, j) ==> !old(written[j])
    ensures ok ==> forall j :: 0 <= j < c.outputWidth ==> written[j] == (old(written[j]) || Covers(b, j))
    ensures ok ==> forall j :: 0 <= j < c.outputWidth && !Covers(b, j) ==> expected[j] == old(expected[j])
    ensures ok ==>
            forall j :: 0 <= j < c.outputWidth && Covers(b, j) ==>
              expected[j] == payload[SourceOf(c, ordinal, b, j)]
  {
    var sourceStart := PLAN_HEADER + ordinal * c.elementWidth + b.planOffset;
    var outputEnd := b.outputOffset + b.width;
    if sourceStart + b.width > |payload| || outputEnd > expected.Length {
      return false;
    }
    var j := b.outputOffset;
    while j < outputEnd
      invariant b.outputOffset <= j <= outputEnd
      invariant forall i :: b.outputOffset <= i < j ==> !written[i]
    {
      if written[j] {
        return false;
      }
      j := j + 1;
    }
    j := b.outputOffset;
    while j < outputEnd
      invariant b.outputOffset <= j <= outputEnd
      invariant forall i :: 0 <= i < c.outputWidth ==> written[i] == (old(written[i]) || b.outputOffset <= i < j)
      invariant forall i :: 0 <= i < c.outputWidth && !(b.outputOffset <= i < j) ==> expected[i] == old(expected[i])
      invariant forall i :: b.outputOffset <= i < j ==> expected[i] == payload[sourceStart + (i - b.outputOffset)]
    {
      written[j] := true;
      expected[j] := payload[sourceStart + (j - b.outputOffset)];
      j := j + 1;
    }
    return true;
  }

  lemma {:induction false} WrittenStep(c: Contract, payload: Bytes, ordinal: nat, bindings: seq<Binding>, b: Binding,
                                       expected: Bytes, written: seq<bool>, expected': Bytes, written': seq<bool>)
    requires WrittenBy(c, payload, ordinal, bindings, expected, written) && InRange(c, payload, ordinal, b)
    requires |expected'| == |written'| == c.outputWidth
    requires forall k :: 0 <= k < |bindings| ==> Disjoint(bindings[k], b)
    requires forall j :: 0 <= j < c.outputWidth ==> written'[j] == (written[j] || Covers(b, j))
    requires forall j :: 0 <= j < c.outputWidth && !Covers(b, j) ==> expected'[j] == expected[j]
    requires forall j :: 0 <= j < c.outputWidth && Covers(b, j) ==> expected'[j] == payload[SourceOf(c, ordinal, b, j)]
    ensures WrittenBy(c, payload, ordinal, bindings + [b], expected', written')
  {
    forall j | 0 <= j < |written'| ensures written'[j] <==> Covered(bindings + [b], j) {
      CoveredAppend(bindings, b, j);
    }
    forall k | 0 <= k < |bindings + [b]| ensures Copies(c, payload, ordinal, (bindings + [b])[k], expected') {
      if k < |bindings| {
        assert Copies(c, payload, ordinal, bindings[k], expected) && Disjoint(bindings[k], b);
      }
    }
  }

  /** Every byte marked and equal data is the tiling without gap and the copying of every field. */
  lemma {:induction false} WholeOutput(c: Contract, payload: Bytes, ordinal: nat, expected: Bytes, written: seq<bool>,
                                       data: Bytes)
    requires AllInRange(c, payload, ordinal, c.bindings) && AllDisjoint(c.bindings)
    requires WrittenBy(c, payload, ordinal, c.bindings, expected, written) && |data| == c.outputWidth
    ensures (forall j :: 0 <= j < |written| ==> written[j]) && data == expected <==>
            Tiles(c, payload, ordinal) &&
            forall k :: 0 <= k < |c.bindings| ==> Copies(c, payload, ordinal, c.bindings[k], data)
  {
    if
      && Tiles(c, payload, ordinal)
      && forall k :: 0 <= k < |c.bindings| ==> Copies(c, payload, ordinal, c.bindings[k], data)
    {
      forall j | 0 <= j < |data| ensures data[j] == expected[j] {
        assert Covered(c.bindings, j);
        var k :| 0 <= k < |c.bindings| && Covers(c.bindings[k], j);
        assert Copies(c, payload, ordinal, c.bindings[k], data) && Copies(c, payload, ordinal, c.bindings[k], expected);
        assert InRange(c, payload, ordinal, c.bindings[k]);
      }
    }
  }

  /** The buffers after all bindings, or that some binding escapes or overlaps another. */
  method WriteBindings(c: Contract, payload: Bytes, ordinal: nat, expected: array<Byte>, written: array<bool>)
    returns (ok: bool)
    requires expected.Length == written.Length == c.outputWidth && forall j :: 0 <= j < written.Length ==> !written[j]
    modifies expected, written
    ensures ok <==> AllInRange(c, payload, ordinal, c.bindings) && AllDisjoint(c.bindings)
    ensures ok ==> WrittenBy(c, payload, ordinal, c.bindings, expected[..], written[..])
  {
    for i := 0 to |c.bindings|
      invariant WrittenBy(c, payload, ordinal, c.bindings[..i], expected[..], written[..])
      invariant AllInRange(c, payload, ordinal, c.bindings[..i]) && AllDisjoint(c.bindings[..i])
    {
      var b := c.bindings[i];
      ghost var sofar, expected0, written0 := c.bindings[..i], expected[..], written[..];
      OverlapShows(sofar, b);
      ok := WriteBinding(c, payload, ordinal, b, expected, written);
      if !ok {
        if InRange(c, payload, ordinal, b) {
          ghost var j :| 0 <= j < c.outputWidth && Covers(b, j) && written0[j];
          assert Covered(sofar, j);
          ghost var k :| 0 <= k < |sofar| && !Disjoint(sofar[k], b);
          assert !Disjoint(c.bindings[k], c.bindings[i]);
        }
        return;
      }
      assert c.bindings[..i + 1] == sofar + [b];
      WrittenStep(c, payload, ordinal, sofar, b, expected0, written0, expected[..], written[..]);
    }
    assert c.bindings[..|c.bindings|] == c.bindings;
    return true;
  }

  method ValidateOne(c: Contract, payload: Bytes, ordinal: nat, output: Output, hash: Bytes) returns (ok: bool)
    ensures ok <==> Materializes(c, payload, ordinal, output, hash)
  {
    if output.typeHash != Some(hash) || |output.data| != c.outputWidth {
      return false;
    }
    var expected := new Byte[c.outputWidth](_ => 0);
    var written := new bool[c.outputWidth](_ => false);
    ok := WriteBindings(c, payload, ordinal, expected, written);
    if !ok {
      return;
    }
    WholeOutput(c, payload, ordinal, expected[..], written[..], output.data);
    if (exists j :: 0 <= j < written.Length && !written[j]) || output.data != expected[..] {
      return false;
    }
    return LockMatches(c, payload, ordinal, output) && output.capacity >= c.capacityFloor;
  }

  // ----- the group

  /** The indexes of the outputs that carry the current Type Script hash, in transaction order. */
  function GroupIndexes(outputs: seq<Output>, hash: Bytes): (indexes: seq<nat>)
  {
    if outputs == [] then []
    else
      var last := |outputs| - 1;
      GroupIndexes(outputs[..last], hash) + if outputs[last].typeHash == Some(hash) then [last] else []
  }

  predicate Increasing(indexes: seq<nat>)
  {
    forall i, j :: 0 <= i < j < |indexes| ==> indexes[i] < indexes[j]
  }

  predicate InGroup(outputs: seq<Output>, hash: Bytes, p: nat)
  {
    p < |outputs| && outputs[p].typeHash == Some(hash)
  }

  lemma {:induction false} GroupExactly(outputs: seq<Output>, hash: Bytes)
    ensures Increasing(GroupIndexes(outputs, hash))
    ensures forall p: nat :: p in GroupIndexes(outputs, hash) <==> InGroup(outputs, hash, p)
  {
    if outputs != [] {
      var last := |outputs| - 1;
      GroupExactly(outputs[..last], hash);
      var rest := GroupIndexes(outputs[..last], hash);
      forall i | 0 <= i < |rest| ensures rest[i] < last {
        assert rest[i] in rest;
        assert InGroup(outputs[..last], hash, rest[i]);
      }
      forall p: nat
        ensures InGroup(outputs, hash, p) <==>
                InGroup(outputs[..last], hash, p) || (p == last && InGroup(outputs, hash, last))
      {
      }
    }
  }

  /** The plan has one element per group output, in order, and each output materializes its element. */
  predicate Accepts(c: Contract, payload: Bytes, indexes: seq<nat>, outputs: seq<Output>, hash: Bytes)
  {
    && PlanCount(payload, c.elementWidth, c.maxElements) == Some(|indexes|) && indexes == GroupIndexes(outputs, hash)
    && forall i :: 0 <= i < |indexes| ==>
       indexes[i] < |outputs| && Materializes(c, payload, i, outputs[indexes[i]], hash)
  }

  method Validate(c: Contract, payload: Bytes, indexes: seq<nat>, outputs: seq<Output>, hash: Bytes) returns (ok: bool)
    ensures ok <==> Accepts(c, payload, indexes, outputs, hash)
  {
    GroupExactly(outputs, hash);
    var count := PlanCount(payload, c.elementWidth, c.maxElements);
    if count.None? || |indexes| != count.value || !Increasing(indexes) || GroupIndexes(outputs, hash) != indexes {
      return false;
    }
    for ordinal := 0 to |indexes|
      invariant forall i :: 0 <= i < ordinal ==>
                indexes[i] < |outputs| && Materializes(c, payload, i, outputs[indexes[i]], hash)
    {
      assert indexes[ordinal] in indexes && InGroup(outputs, hash, indexes[ordinal]);
      ok := ValidateOne(c, payload, ordinal, outputs[indexes[ordinal]], hash);
      if !ok {
        return;
      }
    }
    return true;
  }

  lemma NoRoomPast(count: nat, width: nat, offset: nat, size: nat)
    requires count > 0 && PLAN_HEADER + (count - 1) * width + offset + size <= count * width + PLAN_HEADER
    ensures offset + size <= width
  {
    assert count * width == (count - 1) * width + width;
  }

  lemma LastReadsOwnElement(c: Contract, payload: Bytes, count: nat, output: Output, hash: Bytes)
    requires count > 0 && count * c.elementWidth + PLAN_HEADER == |payload|
    requires Materializes(c, payload, count - 1, output, hash)
    ensures forall k :: 0 <= k < |c.bindings| ==> c.bindings[k].planOffset + c.bindings[k].width <= c.elementWidth
    ensures c.lock.planOffset + c.lock.width <= c.elementWidth
  {
    forall k | 0 <= k < |c.bindings| ensures c.bindings[k].planOffset + c.bindings[k].width <= c.elementWidth {
      assert InRange(c, payload, count - 1, c.bindings[k]);
      NoRoomPast(count, c.elementWidth, c.bindings[k].planOffset, c.bindings[k].width);
    }
    NoRoomPast(count, c.elementWidth, c.lock.planOffset, c.lock.width);
  }

  /** On acceptance the group outputs are the listed ones and no other, and each field and the lock come from inside
      the output's own element: the last element leaves no room to read past. */
  lemma AcceptedReadsOwnElement(c: Contract, payload: Bytes, indexes: seq<nat>, outputs: seq<Output>, hash: Bytes)
    requires Accepts(c, payload, indexes, outputs, hash) && indexes != []
    ensures forall k :: 0 <= k < |c.bindings| ==> c.bindings[k].planOffset + c.bindings[k].width <= c.elementWidth
    ensures c.lock.planOffset + c.lock.width <= c.elementWidth
    ensures forall p: nat :: p in indexes <==> InGroup(outputs, hash, p)
  {
    GroupExactly(outputs, hash);
    LastReadsOwnElement(c, payload, |indexes|, outputs[indexes[|indexes| - 1]], hash);
  }

  /** Every output byte comes from exactly one field. */
  lemma TilesOnce(c: Contract, payload: Bytes, ordinal: nat, j: nat) returns (k: nat)
    requires Tiles(c, payload, ordinal) && j < c.outputWidth
    ensures k < |c.bindings| && Covers(c.bindings[k], j)
    ensures forall l :: 0 <= l < |c.bindings| && Covers(c.bindings[l], j) ==> l == k
  {
    assert Covered(c.bindings, j);
    k :| 0 <= k < |c.bindings| && Covers(c.bindings[k], j);
    forall l | 0 <= l < |c.bindings| && Covers(c.bindings[l], j) ensures l == k {
      assert l < k ==> Disjoint(c.bindings[l], c.bindings[k]);
      assert k < l ==> Disjoint(c.bindings[k], c.bindings[l]);
    }
  }
}
