/** The entry payload of a witness: a magic, then one segment per parameter that travels in it. */
module EntryPayload {
  import opened Options
  import opened Molecule

  const ENTRY_MAGIC: Bytes := [0x43, 0x53, 0x41, 0x52, 0x47, 0x76, 0x31, 0x00]

  /** A compiled entry parameter: whether it consumes payload, and what fixes its width. */
  datatype Param = Param(
    name: string,
    ty: string,
    consumes: bool,
    schema: bool,
    fixedLength: Option<nat>,
    scalarWidth: Option<nat>,
    isPlan: bool
  )

  /** A parameter with the bytes it consumed. */
  datatype Part = Part(param: Param, bytes: Bytes)

  // ----- what a payload means

  /** The bytes are a length-prefixed value, or have the declared width. */
  predicate Matches(p: Param, bytes: Bytes)
  {
    if p.schema then |bytes| >= 4 && Word(bytes, 0) + 4 == |bytes|
    else if p.fixedLength.Some? then |bytes| == p.fixedLength.value
    else p.scalarWidth == Some(|bytes|)
  }

  function Consuming(params: seq<Param>): seq<Param>
  {
    if params == [] then []
    else if params[0].consumes then [params[0]] + Consuming(params[1..])
    else Consuming(params[1..])
  }

  function Concat(parts: seq<Part>): Bytes
  {
    if parts == [] then [] else parts[0].bytes + Concat(parts[1..])
  }

  /** One matching part per consuming parameter, in order. */
  predicate Fill(params: seq<Param>, parts: seq<Part>)
  {
    && |parts| == |Consuming(params)|
    && forall i :: 0 <= i < |parts| ==>
       parts[i].param == Consuming(params)[i] && Matches(parts[i].param, parts[i].bytes)
  }

  // ----- the split

  function SegmentLength(p: Param, rest: Bytes): Option<nat>
  {
    if p.schema then if |rest| < 4 then None else Some(4 + Word(rest, 0))
    else if p.fixedLength.Some? then p.fixedLength
    else p.scalarWidth
  }

  /** The parts of a payload body, when it splits with no gap and no trailing byte. */
  function Split(params: seq<Param>, rest: Bytes): Option<seq<Part>>
  {
    if params == [] then if rest == [] then Some([]) else None
    else if !params[0].consumes then Split(params[1..], rest)
    else
      var length := SegmentLength(params[0], rest);
      if length.None? || length.value > |rest| then None
      else
        var tail := Split(params[1..], rest[length.value..]);
        if tail.None? then None else Some([Part(params[0], rest[..length.value])] + tail.value)
  }

  lemma MatchesLength(p: Param, bytes: Bytes, after: Bytes)
    ensures Matches(p, bytes) ==> SegmentLength(p, bytes + after) == Some(|bytes|)
  {
    if p.schema && |bytes| >= 4 {
      WordPrefix(bytes, after);
    }
  }

  lemma WordPrefix(bytes: Bytes, after: Bytes)
    requires |bytes| >= 4
    ensures Word(bytes + after, 0) == Word(bytes, 0)
  {
  }

  lemma LengthMatches(p: Param, rest: Bytes)
    requires SegmentLength(p, rest).Some? && SegmentLength(p, rest).value <= |rest|
    ensures Matches(p, rest[..SegmentLength(p, rest).value])
  {
    if p.schema {
      var n := SegmentLength(p, rest).value;
      WordPrefix(rest[..n], rest[n..]);
      assert rest[..n] + rest[n..] == rest;
    }
  }

  /** A payload body splits into exactly the parts that fill the parameters and make it up; hence in one way at most. */
  lemma {:induction false} SplitExactly(params: seq<Param>, rest: Bytes, parts: seq<Part>)
    ensures Split(params, rest) == Some(parts) <==> Fill(params, parts) && rest == Concat(parts)
    decreases |params|, 1
  {
    if params == [] {
      assert Fill(params, parts) <==> parts == [];
    } else if !params[0].consumes {
      SplitExactly(params[1..], rest, parts);
    } else {
      SplitFirst(params, rest, parts);
    }
  }

  lemma {:induction false} SplitFirst(params: seq<Param>, rest: Bytes, parts: seq<Part>)
    requires params != [] && params[0].consumes
    ensures Split(params, rest) == Some(parts) <==> Fill(params, parts) && rest == Concat(parts)
    decreases |params|, 0
  {
    var p := params[0];
    var length := SegmentLength(p, rest);
    if Fill(params, parts) && rest == Concat(parts) {
      var first, others := parts[0].bytes, parts[1..];
      assert parts[0].param == p && Matches(p, first);
      MatchesLength(p, first, Concat(others));
      assert rest[..|first|] == first && rest[|first|..] == Concat(others);
      FillRest(params, parts);
      SplitExactly(params[1..], Concat(others), others);
      assert parts == [Part(p, first)] + others;
    }
    if Split(params, rest) == Some(parts) {
      var n := length.value;
      LengthMatches(p, rest);
      assert parts[1..] == Split(params[1..], rest[n..]).value;
      SplitExactly(params[1..], rest[n..], parts[1..]);
      FillWhole(params, parts);
      assert rest == rest[..n] + rest[n..];
    }
  }

  lemma FillRest(params: seq<Param>, parts: seq<Part>)
    requires params != [] && params[0].consumes && Fill(params, parts)
    ensures Fill(params[1..], parts[1..])
  {
    assert Consuming(params)[1..] == Consuming(params[1..]);
  }

  lemma FillWhole(params: seq<Param>, parts: seq<Part>)
    requires params != [] && params[0].consumes && parts != [] && Fill(params[1..], parts[1..])
    requires parts[0].param == params[0] && Matches(params[0], parts[0].bytes)
    ensures Fill(params, parts)
  {
    forall i | 0 <= i < |parts|
      ensures parts[i].param == Consuming(params)[i] && Matches(parts[i].param, parts[i].bytes)
    {
      if i > 0 {
        assert parts[1..][i - 1] == parts[i] && Consuming(params)[i] == Consuming(params[1..])[i - 1];
      }
    }
  }

  /** The parts of a whole payload. */
  function PartsOf(params: seq<Param>, payload: Bytes): Option<seq<Part>>
  {
    if ENTRY_MAGIC <= payload then Split(params, payload[|ENTRY_MAGIC|..]) else None
  }

  // ----- the walkers

  /** The last part of this name. */
  function Chosen(parts: seq<Part>, target: string): Option<Bytes>
  {
    if parts == [] then None
    else if parts[|parts| - 1].param.name == target then Some(parts[|parts| - 1].bytes)
    else Chosen(parts[..|parts| - 1], target)
  }

  /** With distinct names, the chosen part is the target's. */
  lemma {:induction false} ChosenExactly(parts: seq<Part>, target: string, bytes: Bytes)
    requires forall i, j :: 0 <= i < j < |parts| ==> parts[i].param.name != parts[j].param.name
    ensures Chosen(parts, target) == Some(bytes) <==>
            exists i :: 0 <= i < |parts| && parts[i].param.name == target && parts[i].bytes == bytes
  {
    if parts != [] {
      var front := parts[..|parts| - 1];
      ChosenExactly(front, target, bytes);
      if i :| 0 <= i < |parts| && parts[i].param.name == target && parts[i].bytes == bytes {
        assert i < |parts| - 1 ==> front[i] == parts[i];
      }
    }
  }

  predicate AllFixed(parts: seq<Part>, target: string, ty: string, width: nat)
  {
    forall i :: 0 <= i < |parts| && parts[i].param.name == target ==>
      parts[i].param.ty == ty && parts[i].param.fixedLength == Some(width)
  }

  /** The payload splits, the target is present, and everything of that name has the expected type and width. */
  function FixedParameter(payload: Bytes, params: seq<Param>, target: string, ty: string, width: nat): Option<Bytes>
  {
    var parts := PartsOf(params, payload);
    if parts.None? || !AllFixed(parts.value, target, ty, width) then None else Chosen(parts.value, target)
  }

  /** Splitting from a cursor: what was consumed, then the split of what is left. */
  ghost predicate AtCursor(params: seq<Param>, payload: Bytes, i: nat, cursor: nat, done: seq<Part>)
  {
    && ENTRY_MAGIC <= payload && i <= |params| && cursor <= |payload|
    && PartsOf(params, payload) == Prepend(done, Split(params[i..], payload[cursor..]))
  }

  function Prepend(done: seq<Part>, tail: Option<seq<Part>>): Option<seq<Part>>
  {
    if tail.None? then None else Some(done + tail.value)
  }

  lemma CursorStarts(params: seq<Param>, payload: Bytes)
    requires ENTRY_MAGIC <= payload
    ensures AtCursor(params, payload, 0, |ENTRY_MAGIC|, [])
  {
    assert params[0..] == params;
    var tail := Split(params, payload[|ENTRY_MAGIC|..]);
    if tail.Some? {
      assert [] + tail.value == tail.value;
    }
  }

  lemma {:induction false} CursorSkips(params: seq<Param>, payload: Bytes, i: nat, cursor: nat, done: seq<Part>)
    requires AtCursor(params, payload, i, cursor, done) && i < |params| && !params[i].consumes
    ensures AtCursor(params, payload, i + 1, cursor, done)
  {
    assert params[i..][1..] == params[i + 1..];
  }

  lemma {:induction false} CursorMoves(params: seq<Param>, payload: Bytes, i: nat, cursor: nat, done: seq<Part>,
                                       next: nat)
    requires AtCursor(params, payload, i, cursor, done) && i < |params| && params[i].consumes
    requires cursor <= next <= |payload|
    requires SegmentLength(params[i], payload[cursor..]) == Some(next - cursor)
    ensures AtCursor(params, payload, i + 1, next, done + [Part(params[i], payload[cursor..next])])
  {
    var part, length := Part(params[i], payload[cursor..next]), next - cursor;
    assert params[i..][1..] == params[i + 1..];
    assert payload[cursor..][length..] == payload[next..] && payload[cursor..][..length] == part.bytes;
    var tail := Split(params[i + 1..], payload[next..]);
    if tail.Some? {
      assert done + ([part] + tail.value) == (done + [part]) + tail.value;
    }
  }

  lemma {:induction false} CursorEnds(params: seq<Param>, payload: Bytes, cursor: nat, done: seq<Part>)
    requires AtCursor(params, payload, |params|, cursor, done)
    ensures PartsOf(params, payload) == if cursor == |payload| then Some(done) else None
  {
    assert params[|params|..] == [] && done + [] == done;
    assert payload[cursor..] == [] <==> cursor == |payload|;
  }

  /** One parameter of either walker: the cursor past its segment, or the whole payload does not split. */
  method Advance(params: seq<Param>, payload: Bytes, i: nat, cursor: nat, ghost done: seq<Part>)
    returns (next: Option<nat>)
    requires AtCursor(params, payload, i, cursor, done) && i < |params| && params[i].consumes
    ensures next.None? ==> PartsOf(params, payload).None?
    ensures next.Some? ==> cursor <= next.value <= |payload| && Matches(params[i], payload[cursor..next.value])
    ensures next.Some? ==>
            AtCursor(params, payload, i + 1, next.value, done + [Part(params[i], payload[cursor..next.value])])
  {
    var length := SegmentLength(params[i], payload[cursor..]);
    if length.None? || cursor + length.value > |payload| {
      return None;
    }
    next := Some(cursor + length.value);
    CursorMoves(params, payload, i, cursor, done, next.value);
    LengthMatches(params[i], payload[cursor..]);
    assert payload[cursor..][..length.value] == payload[cursor..next.value];
  }

  lemma {:induction false} NotAllFixed(params: seq<Param>, payload: Bytes, i: nat, cursor: nat, done: seq<Part>,
                                       target: string, ty: string, width: nat)
    requires AtCursor(params, payload, i, cursor, done) && !AllFixed(done, target, ty, width)
    ensures FixedParameter(payload, params, target, ty, width).None?
  {
    var parts := PartsOf(params, payload);
    if parts.Some? {
      var k :| 0 <= k < |done| && done[k].param.name == target &&
        !(done[k].param.ty == ty && done[k].param.fixedLength == Some(width));
      assert parts.value[k] == done[k];
    }
  }

  lemma ChosenAppend(done: seq<Part>, part: Part, target: string)
    ensures Chosen(done + [part], target) == if part.param.name == target then Some(part.bytes)
                                             else Chosen(done, target)
  {
    assert (done + [part])[..|done|] == done;
  }

  /** The fixed-width walker. */
  method WalkFixed(payload: Bytes, params: seq<Param>, target: string, ty: string, width: nat)
    returns (r: Option<Bytes>)
    ensures r == FixedParameter(payload, params, target, ty, width)
  {
    if !(ENTRY_MAGIC <= payload) {
      return None;
    }
    var cursor: nat := |ENTRY_MAGIC|;
    var selected: Option<Bytes> := None;
    ghost var done: seq<Part> := [];
    CursorStarts(params, payload);
    for i := 0 to |params|
      invariant AtCursor(params, payload, i, cursor, done)
      invariant selected == Chosen(done, target) && AllFixed(done, target, ty, width)
    {
      var param := params[i];
      if !param.consumes {
        CursorSkips(params, payload, i, cursor, done);
        continue;
      }
      var next := Advance(params, payload, i, cursor, done);
      if next.None? {
        return None;
      }
      var bytes := payload[cursor..next.value];
      ChosenAppend(done, Part(param, bytes), target);
      done := done + [Part(param, bytes)];
      cursor := next.value;
      if param.name == target {
        if param.ty != ty || param.fixedLength != Some(width) {
          assert done[|done| - 1] == Part(param, bytes);
          NotAllFixed(params, payload, i + 1, cursor, done, target, ty, width);
          return None;
        }
        selected := Some(bytes);
      }
    }
    CursorEnds(params, payload, cursor, done);
    if cursor != |payload| {
      return None;
    }
    return selected;
  }

  // ----- the schema walker

  predicate AllPlans(parts: seq<Part>, target: string)
  {
    forall i :: 0 <= i < |parts| && parts[i].param.name == target && parts[i].param.schema ==> parts[i].param.isPlan
  }

  /** The value of the last schema part of this name, without its length. */
  function ChosenSchema(parts: seq<Part>, target: string): Option<Bytes>
  {
    if parts == [] then None
    else
      var last := parts[|parts| - 1];
      if last.param.name == target && last.param.schema && |last.bytes| >= 4 then Some(last.bytes[4..])
      else ChosenSchema(parts[..|parts| - 1], target)
  }

  function SchemaParameter(payload: Bytes, params: seq<Param>, target: string): Option<Bytes>
  {
    var parts := PartsOf(params, payload);
    if parts.None? || !AllPlans(parts.value, target) then None else ChosenSchema(parts.value, target)
  }

  lemma {:induction false} NotAllPlans(params: seq<Param>, payload: Bytes, i: nat, cursor: nat, done: seq<Part>,
                                       target: string)
    requires AtCursor(params, payload, i, cursor, done) && !AllPlans(done, target)
    ensures SchemaParameter(payload, params, target).None?
  {
    var parts := PartsOf(params, payload);
    if parts.Some? {
      var k :| 0 <= k < |done| && done[k].param.name == target && done[k].param.schema && !done[k].param.isPlan;
      assert parts.value[k] == done[k];
    }
  }

  lemma ChosenSchemaAppend(done: seq<Part>, part: Part, target: string)
    requires part.param.schema ==> |part.bytes| >= 4
    ensures ChosenSchema(done + [part], target) ==
            if part.param.name == target && part.param.schema then Some(part.bytes[4..]) else ChosenSchema(done, target)
  {
    assert (done + [part])[..|done|] == done;
  }

  /** The schema walker. */
  method WalkSchema(payload: Bytes, params: seq<Param>, target: string) returns (r: Option<Bytes>)
    ensures r == SchemaParameter(payload, params, target)
  {
    if !(ENTRY_MAGIC <= payload) {
      return None;
    }
    var cursor: nat := |ENTRY_MAGIC|;
    var selected: Option<Bytes> := None;
    ghost var done: seq<Part> := [];
    CursorStarts(params, payload);
    for i := 0 to |params|
      invariant AtCursor(params, payload, i, cursor, done)
      invariant selected == ChosenSchema(done, target) && AllPlans(done, target)
    {
      var param := params[i];
      if !param.consumes {
        CursorSkips(params, payload, i, cursor, done);
        continue;
      }
      var next := Advance(params, payload, i, cursor, done);
      if next.None? {
        return None;
      }
      var bytes := payload[cursor..next.value];
      ChosenSchemaAppend(done, Part(param, bytes), target);
      done := done + [Part(param, bytes)];
      cursor := next.value;
      if param.schema && param.name == target {
        if !param.isPlan {
          assert done[|done| - 1] == Part(param, bytes);
          NotAllPlans(params, payload, i + 1, cursor, done, target);
          return None;
        }
        selected := Some(bytes[4..]);
      }
    }
    CursorEnds(params, payload, cursor, done);
    if cursor != |payload| {
      return None;
    }
    return selected;
  }

  // ----- what the walkers mean

  predicate DistinctNames(params: seq<Param>)
  {
    forall i, j :: 0 <= i < j < |params| ==> params[i].name != params[j].name
  }

  /** The payload is the magic and these parts, one per consuming parameter, and nothing else. */
  ghost predicate MadeOf(payload: Bytes, params: seq<Param>, parts: seq<Part>)
  {
    Fill(params, parts) && payload == ENTRY_MAGIC + Concat(parts)
  }

  lemma {:induction false} PartsExactly(payload: Bytes, params: seq<Param>, parts: seq<Part>)
    ensures PartsOf(params, payload) == Some(parts) <==> MadeOf(payload, params, parts)
  {
    if ENTRY_MAGIC <= payload {
      var body := payload[|ENTRY_MAGIC|..];
      SplitExactly(params, body, parts);
      assert payload == ENTRY_MAGIC + body;
      if payload == ENTRY_MAGIC + Concat(parts) {
        assert body == Concat(parts);
      }
    }
  }

  predicate FixedPart(part: Part, target: string, ty: string, width: nat, bytes: Bytes)
  {
    part.param.name == target && part.param.ty == ty && part.param.fixedLength == Some(width) && part.bytes == bytes
  }

  lemma {:induction false} DistinctParts(params: seq<Param>, parts: seq<Part>)
    requires DistinctNames(Consuming(params)) && Fill(params, parts)
    ensures forall i, j :: 0 <= i < j < |parts| ==> parts[i].param.name != parts[j].param.name
  {
  }

  ghost predicate HasFixedPart(parts: seq<Part>, target: string, ty: string, width: nat, bytes: Bytes)
  {
    exists i :: 0 <= i < |parts| && FixedPart(parts[i], target, ty, width, bytes)
  }

  lemma {:induction false} FixedPartChosen(parts: seq<Part>, target: string, ty: string, width: nat, bytes: Bytes)
    requires forall i, j :: 0 <= i < j < |parts| ==> parts[i].param.name != parts[j].param.name
    ensures AllFixed(parts, target, ty, width) && Chosen(parts, target) == Some(bytes) <==>
            HasFixedPart(parts, target, ty, width, bytes)
  {
    ChosenExactly(parts, target, bytes);
    if HasFixedPart(parts, target, ty, width, bytes) {
      var i :| 0 <= i < |parts| && FixedPart(parts[i], target, ty, width, bytes);
      forall j | 0 <= j < |parts| && parts[j].param.name == target ensures j == i {
      }
    }
  }

  /** With distinct parameter names the fixed walker returns the target's own segment of a payload without gap or
      trailing byte, and nothing otherwise. */
  lemma {:induction false} FixedExactly(payload: Bytes, params: seq<Param>, target: string, ty: string, width: nat,
                                        bytes: Bytes)
    requires DistinctNames(Consuming(params))
    ensures FixedParameter(payload, params, target, ty, width) == Some(bytes) <==>
            exists parts :: MadeOf(payload, params, parts) && HasFixedPart(parts, target, ty, width, bytes)
  {
    forall parts | MadeOf(payload, params, parts) ensures PartsOf(params, payload) == Some(parts) {
      PartsExactly(payload, params, parts);
    }
    if PartsOf(params, payload).Some? {
      var parts := PartsOf(params, payload).value;
      PartsExactly(payload, params, parts);
      DistinctParts(params, parts);
      FixedPartChosen(parts, target, ty, width, bytes);
    }
  }

  predicate SchemaPart(part: Part, target: string, value: Bytes)
  {
    && part.param.name == target && part.param.schema && part.param.isPlan
    && |value| < U32_BOUND && part.bytes == U32(|value|) + value
  }

  lemma PrefixedBytes(p: Param, bytes: Bytes)
    requires p.schema && Matches(p, bytes)
    ensures |bytes[4..]| < U32_BOUND && bytes == U32(|bytes[4..]|) + bytes[4..]
  {
    U32OfWord(bytes, 0);
    assert bytes == bytes[0..4] + bytes[4..];
  }

  lemma {:induction false} ChosenSchemaExactly(parts: seq<Part>, target: string, value: Bytes)
    requires forall i, j :: 0 <= i < j < |parts| ==> parts[i].param.name != parts[j].param.name
    requires forall i :: 0 <= i < |parts| ==> Matches(parts[i].param, parts[i].bytes)
    requires AllPlans(parts, target)
    ensures ChosenSchema(parts, target) == Some(value) <==>
            exists i :: 0 <= i < |parts| && SchemaPart(parts[i], target, value)
  {
    if parts != [] {
      var front, last := parts[..|parts| - 1], parts[|parts| - 1];
      ChosenSchemaExactly(front, target, value);
      if last.param.schema {
        PrefixedBytes(last.param, last.bytes);
      }
      if i :| 0 <= i < |parts| && SchemaPart(parts[i], target, value) {
        assert i < |parts| - 1 ==> front[i] == parts[i];
        assert i == |parts| - 1 ==> last.bytes[4..] == value;
      }
    }
  }

  ghost predicate HasSchemaPart(parts: seq<Part>, target: string, value: Bytes)
  {
    exists i :: 0 <= i < |parts| && SchemaPart(parts[i], target, value)
  }

  lemma {:induction false} SchemaPartChosen(parts: seq<Part>, target: string, value: Bytes)
    requires forall i, j :: 0 <= i < j < |parts| ==> parts[i].param.name != parts[j].param.name
    requires forall i :: 0 <= i < |parts| ==> Matches(parts[i].param, parts[i].bytes)
    ensures AllPlans(parts, target) && ChosenSchema(parts, target) == Some(value) <==>
            HasSchemaPart(parts, target, value)
  {
    if AllPlans(parts, target) {
      ChosenSchemaExactly(parts, target, value);
    }
    if HasSchemaPart(parts, target, value) {
      var i :| 0 <= i < |parts| && SchemaPart(parts[i], target, value);
      forall j | 0 <= j < |parts| && parts[j].param.name == target ensures j == i {
      }
    }
  }

  /** Likewise the schema walker returns the value of the target's length-prefixed segment. */
  lemma {:induction false} SchemaExactly(payload: Bytes, params: seq<Param>, target: string, value: Bytes)
    requires DistinctNames(Consuming(params))
    ensures SchemaParameter(payload, params, target) == Some(value) <==>
            exists parts :: MadeOf(payload, params, parts) && HasSchemaPart(parts, target, value)
  {
    forall parts | MadeOf(payload, params, parts) ensures PartsOf(params, payload) == Some(parts) {
      PartsExactly(payload, params, parts);
    }
    if PartsOf(params, payload).Some? {
      var parts := PartsOf(params, payload).value;
      PartsExactly(payload, params, parts);
      DistinctParts(params, parts);
      SchemaPartChosen(parts, target, value);
    }
  }

  // ----- the payload's place in WitnessArgs

  /** The `input_type` bytes of a raw WitnessArgs table, when it has them. */
  function InputType(b: Bytes): Option<Bytes>
  {
    if |b| < 16 then None
    else
      var from, to := Word(b, 8), Word(b, 12);
      if Word(b, 0) != |b| || Word(b, 4) != 16 || !(16 <= from <= to <= |b|) then None
      else if from == to || to - from < 4 || Word(b, from) != to - from - 4 then None
      else Some(b[from + 4..to])
  }

  /** It is read exactly from canonical three-field tables whose middle field is that byte string. */
  lemma InputTypeExactly(b: Bytes, value: Bytes)
    ensures InputType(b) == Some(value) <==>
            exists lock: Bytes, outputType: Bytes ::
              && |value| < U32_BOUND && Size([lock, U32(|value|) + value, outputType]) < U32_BOUND
              && b == Table([lock, U32(|value|) + value, outputType])
  {
    if InputType(b) == Some(value) {
      InputTypeIsField(b, value);
    }
    if lock: Bytes, outputType: Bytes :|
         && |value| < U32_BOUND && Size([lock, U32(|value|) + value, outputType]) < U32_BOUND
         && b == Table([lock, U32(|value|) + value, outputType])
    {
      FieldIsInputType(lock, value, outputType);
    }
  }

  lemma Halves(b: Bytes, from: nat, to: nat, x: Bytes, y: Bytes)
    requires from + 4 <= to <= |b| && |x| == 4
    ensures b[from..to] == x + y <==> b[from..from + 4] == x && b[from + 4..to] == y
  {
    assert b[from..to] == b[from..from + 4] + b[from + 4..to];
    if b[from..to] == x + y {
      assert b[from..from + 4] == b[from..to][..4] && b[from + 4..to] == b[from..to][4..];
    }
  }

  lemma InputTypeIsField(b: Bytes, value: Bytes)
    requires InputType(b) == Some(value)
    ensures |value| < U32_BOUND && IsTable(b, 3)
    ensures var f := FieldsOf(b, 3);
            Size([f[0], U32(|value|) + value, f[2]]) < U32_BOUND && b == Table([f[0], U32(|value|) + value, f[2]])
  {
    assert Offset(b, 3, 0) == 16 && Offset(b, 3, 1) == Word(b, 8) && Offset(b, 3, 2) == Word(b, 12) &&
           Offset(b, 3, 3) == |b|;
    assert IsTable(b, 3);
    var f := FieldsOf(b, 3);
    TableIsCanonical(b, 3);
    assert f[1] == U32(|value|) + value by {
      U32OfWord(b, Word(b, 8));
      Halves(b, Word(b, 8), Word(b, 12), U32(|value|), value);
    }
    assert f == [f[0], U32(|value|) + value, f[2]];
  }

  lemma ThreeFields(f: seq<Bytes>)
    requires |f| == 3 && Size(f) < U32_BOUND
    ensures var b := Table(f);
            && |b| >= 16 && Word(b, 0) == |b| && Word(b, 4) == 16 && 16 <= Word(b, 8) <= Word(b, 12) <= |b|
            && b[Word(b, 8)..Word(b, 12)] == f[1]
  {
    var b := Table(f);
    TableReads(f);
    assert Ordered(b, 3, 0) && Ordered(b, 3, 1) && Ordered(b, 3, 2);
    assert Offset(b, 3, 0) == Word(b, 4) && Offset(b, 3, 1) == Word(b, 8) && Offset(b, 3, 2) == Word(b, 12);
    assert FieldAt(b, 3, 1) == FieldsOf(b, 3)[1];
  }

  lemma SpanIsInputType(b: Bytes, value: Bytes)
    requires |value| < U32_BOUND && |b| >= 16 && Word(b, 0) == |b| && Word(b, 4) == 16
    requires 16 <= Word(b, 8) <= Word(b, 12) <= |b|
    requires b[Word(b, 8)..Word(b, 12)] == U32(|value|) + value
    ensures InputType(b) == Some(value)
  {
    var from, to := Word(b, 8), Word(b, 12);
    assert to - from == |b[from..to]| == 4 + |value|;
    Halves(b, from, to, U32(|value|), value);
    WordInside(b, from, |value|);
  }

  lemma FieldIsInputType(lock: Bytes, value: Bytes, outputType: Bytes)
    requires |value| < U32_BOUND && Size([lock, U32(|value|) + value, outputType]) < U32_BOUND
    ensures InputType(Table([lock, U32(|value|) + value, outputType])) == Some(value)
  {
    var f := [lock, U32(|value|) + value, outputType];
    ThreeFields(f);
    SpanIsInputType(Table(f), value);
  }
}
