/** The versioned multi-policy witness envelope: a magic, then a dynamic vector of record tables in key order. */
module PolicyWitness {
  import opened Molecule
  import opened Sorting

  const MAGIC: Bytes := [0x43, 0x53, 0x50, 0x4F, 0x4C, 0x76, 0x31, 0x00]
  const ENTRY_ARGS_MAGIC: Bytes := [0x43, 0x53, 0x41, 0x52, 0x47, 0x76, 0x31, 0x00]
  const MAX_BUNDLE_BYTES: nat := 4076
  const MAX_RECORDS: nat := 8
  const RECORD_FIXED_BYTES: nat := 61

  datatype Role = Lock | Type

  datatype Record = Record(role: Role, scriptHash: Bytes, tag: nat, args: Bytes)

  /** A full Script hash and a 32-bit tag. */
  predicate WellTyped(r: Record)
  {
    |r.scriptHash| == 32 && r.tag < U32_BOUND
  }

  datatype Error =
    | RecordCount(count: nat)
    | SizeLimit
    | InvalidMagic
    | InvalidStructure
    | UnknownRole(role: Byte)
    | DuplicateKey
    | NonCanonicalOrder
    | InvalidArgsMagic

  datatype Result<+T> = Ok(value: T) | Err(error: Error)

  function RoleByte(role: Role): Byte
  {
    match role
    case Lock => 0
    case Type => 1
  }

  function KeyOf(r: Record): Key
  {
    [RoleByte(r.role) as int] + seq(|r.scriptHash|, i requires 0 <= i < |r.scriptHash| => r.scriptHash[i] as int)
  }

  predicate ArgsAllowed(args: Bytes)
  {
    args == [] || ENTRY_ARGS_MAGIC <= args
  }

  // ----- the canonical bytes

  predicate Small(r: Record)
  {
    WellTyped(r) && |r.args| < MAX_BUNDLE_BYTES
  }

  function RecordFields(r: Record): seq<Bytes>
    requires Small(r)
  {
    [[RoleByte(r.role)], r.scriptHash, U32(r.tag), U32(|r.args|) + r.args]
  }

  lemma RecordSize(r: Record)
    requires Small(r)
    ensures Size(RecordFields(r)) == RECORD_FIXED_BYTES + |r.args|
    ensures Starts(RecordFields(r)) == [20, 21, 53, 57]
    ensures Flatten(RecordFields(r)) == [RoleByte(r.role)] + r.scriptHash + U32(r.tag) + (U32(|r.args|) + r.args)
  {
    var f := RecordFields(r);
    assert f[..3] == [f[0], f[1], f[2]] && f[..2] == [f[0], f[1]] && f[..1] == [f[0]];
    assert f[..3][..2] == f[..2] && f[..2][..1] == f[..1];
    assert Flatten(f[..1]) == f[0];
    assert Flatten(f[..2]) == f[0] + f[1];
    assert Flatten(f[..3]) == f[0] + f[1] + f[2];
    assert Flatten(f) == f[0] + f[1] + f[2] + f[3];
  }

  function RecordBytes(r: Record): Bytes
    requires Small(r)
  {
    RecordSize(r);
    Table(RecordFields(r))
  }

  predicate AllSmall(rs: seq<Record>)
  {
    forall i :: 0 <= i < |rs| ==> Small(rs[i])
  }

  function Encoded(rs: seq<Record>): (fields: seq<Bytes>)
    requires AllSmall(rs)
    ensures |fields| == |rs| && forall i :: 0 <= i < |rs| ==> fields[i] == RecordBytes(rs[i])
  {
    seq(|rs|, i requires 0 <= i < |rs| => RecordBytes(rs[i]))
  }

  function BundleSize(rs: seq<Record>): nat
  {
    |MAGIC| + Header(|rs|) + RecordsSize(rs)
  }

  function RecordsSize(rs: seq<Record>): nat
  {
    if rs == [] then 0 else RecordsSize(rs[..|rs| - 1]) + RECORD_FIXED_BYTES + |rs[|rs| - 1].args|
  }

  /** What a canonical bundle holds: one to eight records in strict key order, within the byte bound. */
  predicate Canonical(rs: seq<Record>)
  {
    && 1 <= |rs| <= MAX_RECORDS && IsStrict(KeyOf, rs) && BundleSize(rs) <= MAX_BUNDLE_BYTES
    && AllWellTyped(rs) && forall i :: 0 <= i < |rs| ==> ArgsAllowed(rs[i].args)
  }

  predicate AllWellTyped(rs: seq<Record>)
  {
    forall i :: 0 <= i < |rs| ==> WellTyped(rs[i])
  }

  lemma {:induction false} RecordsFit(rs: seq<Record>, bound: nat)
    requires RecordsSize(rs) <= bound < MAX_BUNDLE_BYTES && AllWellTyped(rs)
    ensures AllSmall(rs) && |Flatten(Encoded(rs))| == RecordsSize(rs)
  {
    if rs != [] {
      var front, last := rs[..|rs| - 1], rs[|rs| - 1];
      RecordsFit(front, bound);
      assert rs == front + [last];
      RecordSize(last);
      assert Encoded(rs)[..|rs| - 1] == Encoded(front);
    }
  }

  lemma CanonicalSize(rs: seq<Record>)
    requires BundleSize(rs) <= MAX_BUNDLE_BYTES && AllWellTyped(rs)
    ensures AllSmall(rs) && Size(Encoded(rs)) + |MAGIC| == BundleSize(rs)
  {
    RecordsFit(rs, RecordsSize(rs));
  }

  /** The bytes of a record list. */
  function Bundle(rs: seq<Record>): (b: Bytes)
    requires BundleSize(rs) <= MAX_BUNDLE_BYTES && AllWellTyped(rs)
    ensures |b| == BundleSize(rs)
  {
    CanonicalSize(rs);
    MAGIC + Table(Encoded(rs))
  }

  ghost predicate IsBundle(b: Bytes, rs: seq<Record>)
  {
    Canonical(rs) && b == Bundle(rs)
  }

  // ----- records

  function DecodeRecord(b: Bytes): Result<Record>
  {
    if |b| < RECORD_FIXED_BYTES || Word(b, 0) != |b| then Err(InvalidStructure)
    else if Word(b, 4) != 20 || Word(b, 8) != 21 || Word(b, 12) != 53 || Word(b, 16) != 57 then Err(InvalidStructure)
    else if b[20] > 1 then Err(UnknownRole(b[20]))
    else if Word(b, 57) != |b| - RECORD_FIXED_BYTES then Err(InvalidStructure)
    else if !ArgsAllowed(b[61..]) then Err(InvalidArgsMagic)
    else Ok(Record(if b[20] == 0 then Lock else Type, b[21..53], Word(b, 53), b[61..]))
  }

  lemma RecordDecodes(r: Record)
    requires Small(r) && ArgsAllowed(r.args)
    ensures DecodeRecord(RecordBytes(r)) == Ok(r)
  {
    var b, f := RecordBytes(r), RecordFields(r);
    RecordSize(r);
    TableReads(f);
    assert Offset(b, 4, 0) == 20 && Offset(b, 4, 1) == 21 && Offset(b, 4, 2) == 53 && Offset(b, 4, 3) == 57 by {
      TableOffset(f, 0);
      TableOffset(f, 1);
      TableOffset(f, 2);
      TableOffset(f, 3);
      assert Starts(f)[0] == 20 && Starts(f)[1] == 21 && Starts(f)[2] == 53 && Starts(f)[3] == 57;
    }
    assert FieldAt(b, 4, 0) == f[0] && FieldAt(b, 4, 1) == f[1] && FieldAt(b, 4, 2) == f[2] && FieldAt(b, 4, 3) == f[3];
    assert b[20..21][0] == b[20];
    WordInside(b, 53, r.tag);
    assert b[57..][..4] == U32(|r.args|) && b[57..][4..] == r.args;
    assert b[57..61] == b[57..][..4] && b[61..] == b[57..][4..];
    WordInside(b, 57, |r.args|);
  }

  lemma RecordShape(b: Bytes)
    requires |b| >= RECORD_FIXED_BYTES && Word(b, 0) == |b|
    requires Word(b, 4) == 20 && Word(b, 8) == 21 && Word(b, 12) == 53 && Word(b, 16) == 57
    ensures IsTable(b, 4) && FieldsOf(b, 4) == [b[20..21], b[21..53], b[53..57], b[57..]]
  {
    assert Offset(b, 4, 0) == 20 && Offset(b, 4, 1) == 21 && Offset(b, 4, 2) == 53 && Offset(b, 4, 3) == 57 &&
           Offset(b, 4, 4) == |b|;
    assert IsTable(b, 4);
    var f := FieldsOf(b, 4);
    assert f[0] == b[20..21] && f[1] == b[21..53] && f[2] == b[53..57] && f[3] == b[57..];
  }

  lemma RecordIsCanonical(b: Bytes, r: Record)
    requires DecodeRecord(b) == Ok(r) && |b| < MAX_BUNDLE_BYTES
    ensures Small(r) && ArgsAllowed(r.args) && b == RecordBytes(r)
  {
    RecordShape(b);
    TableIsCanonical(b, 4);
    DecodedValues(b, r);
    TagBytes(b);
    LengthAndArgs(b);
    assert FieldsOf(b, 4) == RecordFields(r);
  }

  lemma DecodedValues(b: Bytes, r: Record)
    requires DecodeRecord(b) == Ok(r) && |b| < MAX_BUNDLE_BYTES
    ensures |b| >= RECORD_FIXED_BYTES && Word(b, 57) == |b| - RECORD_FIXED_BYTES && b[20] == RoleByte(r.role)
    ensures r.scriptHash == b[21..53] && r.tag == Word(b, 53) && r.args == b[61..] && ArgsAllowed(r.args) && Small(r)
  {
  }

  lemma LengthAndArgs(b: Bytes)
    requires |b| >= RECORD_FIXED_BYTES && Word(b, 57) == |b| - RECORD_FIXED_BYTES
    ensures |b[61..]| < U32_BOUND && b[57..] == U32(|b[61..]|) + b[61..]
  {
    U32OfWord(b, 57);
    assert b[57..] == b[57..61] + b[61..];
  }

  lemma TagBytes(b: Bytes)
    requires |b| >= RECORD_FIXED_BYTES
    ensures b[20..21] == [b[20]] && Word(b, 53) < U32_BOUND && b[53..57] == U32(Word(b, 53))
  {
    U32OfWord(b, 53);
  }

  // ----- decoding is exact

  /** The vector behind the magic holds the encodings of exactly these records. */
  ghost predicate Holds(v: Bytes, count: nat, rs: seq<Record>)
  {
    && |rs| == count && IsTable(v, count) && AllSmall(rs) && FieldsOf(v, count) == Encoded(rs)
    && IsStrict(KeyOf, rs) && forall i :: 0 <= i < |rs| ==> ArgsAllowed(rs[i].args)
  }

  lemma BundleHolds(b: Bytes, rs: seq<Record>)
    requires IsBundle(b, rs)
    ensures |b| <= MAX_BUNDLE_BYTES && MAGIC <= b && Holds(b[|MAGIC|..], |rs|, rs)
  {
    CanonicalSize(rs);
    TableReads(Encoded(rs));
    assert b[|MAGIC|..] == Table(Encoded(rs));
  }

  lemma HoldsBundle(b: Bytes, count: nat, rs: seq<Record>)
    requires |b| <= MAX_BUNDLE_BYTES && MAGIC <= b && 1 <= count <= MAX_RECORDS && Holds(b[|MAGIC|..], count, rs)
    ensures IsBundle(b, rs)
  {
    var v := b[|MAGIC|..];
    TableIsCanonical(v, count);
    assert b == MAGIC + v;
    RecordsSizeOf(rs);
  }

  lemma {:induction false} RecordsSizeOf(rs: seq<Record>)
    requires AllSmall(rs)
    ensures |Flatten(Encoded(rs))| == RecordsSize(rs)
  {
    if rs != [] {
      RecordsSizeOf(rs[..|rs| - 1]);
      RecordSize(rs[|rs| - 1]);
      assert Encoded(rs)[..|rs| - 1] == Encoded(rs[..|rs| - 1]);
    }
  }

  /** What the offsets of record `i` select, decoded; its range must not be empty. */
  function RecordAt(v: Bytes, count: nat, i: nat): Result<Record>
    requires Header(count) <= |v| && i < count
  {
    var start, end := Offset(v, count, i), Offset(v, count, i + 1);
    if start < Header(count) || start >= end || end > |v| then Err(InvalidStructure) else DecodeRecord(v[start..end])
  }

  predicate AllDecode(v: Bytes, count: nat)
  {
    Header(count) <= |v| && forall i :: 0 <= i < count ==> RecordAt(v, count, i).Ok?
  }

  function RecordsOf(v: Bytes, count: nat): (rs: seq<Record>)
    requires AllDecode(v, count)
    ensures |rs| == count && forall i {:trigger rs[i]} :: 0 <= i < count ==> Ok(rs[i]) == RecordAt(v, count, i)
  {
    seq(count, i requires 0 <= i < count => RecordAt(v, count, i).value)
  }

  /** Every record decodes, in strict key order. */
  predicate Decodable(v: Bytes, count: nat)
  {
    AllDecode(v, count) && IsStrict(KeyOf, RecordsOf(v, count))
  }

  /** Each slice of a held vector decodes to its record. */
  lemma {:induction false} HeldRecord(v: Bytes, count: nat, rs: seq<Record>, i: nat)
    requires Holds(v, count, rs) && i < count
    ensures RecordAt(v, count, i) == Ok(rs[i])
  {
    OffsetInside(v, count, i);
    assert Ordered(v, count, i);
    assert FieldsOf(v, count)[i] == FieldAt(v, count, i) == RecordBytes(rs[i]);
    RecordSize(rs[i]);
    RecordDecodes(rs[i]);
  }

  lemma {:induction false} HeldIsDecodable(v: Bytes, count: nat, rs: seq<Record>)
    requires Holds(v, count, rs)
    ensures Decodable(v, count) && RecordsOf(v, count) == rs
  {
    forall i | 0 <= i < count ensures RecordAt(v, count, i) == Ok(rs[i]) {
      HeldRecord(v, count, rs, i);
    }
    assert RecordsOf(v, count) == rs;
  }

  lemma {:induction false} DecodableIsTable(v: Bytes, count: nat)
    requires 0 < count && AllDecode(v, count) && Word(v, 0) == |v| && Word(v, 4) == Header(count)
    ensures IsTable(v, count)
  {
    forall i | 0 <= i < count ensures Ordered(v, count, i) {
      assert RecordAt(v, count, i).Ok?;
    }
  }

  lemma {:induction false} DecodableIsHeld(v: Bytes, count: nat)
    requires 0 < count && Decodable(v, count) && |v| < MAX_BUNDLE_BYTES && Word(v, 0) == |v|
    requires Word(v, 4) == Header(count)
    ensures Holds(v, count, RecordsOf(v, count))
  {
    var rs := RecordsOf(v, count);
    DecodableIsTable(v, count);
    forall i | 0 <= i < count
      ensures Small(rs[i]) && ArgsAllowed(rs[i].args) && FieldsOf(v, count)[i] == RecordBytes(rs[i])
    {
      assert RecordAt(v, count, i) == Ok(rs[i]);
      RecordIsCanonical(FieldAt(v, count, i), rs[i]);
    }
  }

  /** The first records of the vector, in strict key order. */
  predicate ReadSoFar(v: Bytes, count: nat, records: seq<Record>)
    requires Header(count) <= |v|
  {
    && |records| <= count && IsStrict(KeyOf, records)
    && forall i {:trigger records[i]} :: 0 <= i < |records| ==> Ok(records[i]) == RecordAt(v, count, i)
  }

  lemma {:induction false} ReadStep(v: Bytes, count: nat, records: seq<Record>, record: Record)
    requires Header(count) <= |v| && |records| < count && ReadSoFar(v, count, records)
    requires RecordAt(v, count, |records|) == Ok(record)
    requires records != [] ==> Less(KeyOf(records[|records| - 1]), KeyOf(record))
    ensures ReadSoFar(v, count, records + [record])
  {
    StrictAppend(records, record);
  }

  lemma {:induction false} StrictAppend(records: seq<Record>, r: Record)
    requires IsStrict(KeyOf, records) && (records != [] ==> Less(KeyOf(records[|records| - 1]), KeyOf(r)))
    ensures IsStrict(KeyOf, records + [r])
  {
    forall i | 0 <= i < |records| ensures Less(KeyOf(records[i]), KeyOf(r)) {
      if i < |records| - 1 {
        LessTransitive(KeyOf(records[i]), KeyOf(records[|records| - 1]), KeyOf(r));
      }
    }
  }

  /** A record out of order after its predecessor spoils the vector. */
  lemma {:induction false} OutOfOrder(v: Bytes, count: nat, index: nat, before: Record, next: Record)
    requires Header(count) <= |v| && 0 < index < count && !Less(KeyOf(before), KeyOf(next))
    requires RecordAt(v, count, index - 1) == Ok(before) && RecordAt(v, count, index) == Ok(next)
    ensures !Decodable(v, count)
  {
    if AllDecode(v, count) {
      var rs := RecordsOf(v, count);
      assert Ok(rs[index - 1]) == Ok(before) && Ok(rs[index]) == Ok(next);
    }
  }

  lemma {:induction false} ReadAll(v: Bytes, count: nat, records: seq<Record>)
    requires Header(count) <= |v| && ReadSoFar(v, count, records) && |records| == count
    ensures Decodable(v, count) && records == RecordsOf(v, count)
  {
    forall i | 0 <= i < count ensures RecordAt(v, count, i).Ok? {
      assert Ok(records[i]) == RecordAt(v, count, i);
    }
    var rs := RecordsOf(v, count);
    forall i | 0 <= i < count ensures records[i] == rs[i] {
      assert Ok(records[i]) == Ok(rs[i]);
    }
    assert records == rs;
  }

  /** The record loop: accepts exactly when every record decodes and follows its predecessor. */
  method DecodeRecords(v: Bytes, count: nat) returns (r: Result<seq<Record>>)
    requires Header(count) <= |v|
    ensures r.Ok? <==> Decodable(v, count)
    ensures r.Ok? ==> r.value == RecordsOf(v, count)
    ensures r != Err(SizeLimit) && r != Err(InvalidMagic)
  {
    var records: seq<Record> := [];
    for index := 0 to count
      invariant |records| == index && ReadSoFar(v, count, records)
    {
      var record := RecordAt(v, count, index);
      if record.Err? {
        return Err(record.error);
      }
      if index > 0 {
        var before, next := records[index - 1], record.value;
        if KeyOf(before) == KeyOf(next) {
          LessIrreflexive(KeyOf(before));
          OutOfOrder(v, count, index, before, next);
          return Err(DuplicateKey);
        }
        if Less(KeyOf(next), KeyOf(before)) {
          LessAsymmetric(KeyOf(next), KeyOf(before));
          OutOfOrder(v, count, index, before, next);
          return Err(NonCanonicalOrder);
        }
        LessTotal(KeyOf(before), KeyOf(next));
      }
      ReadStep(v, count, records, record.value);
      records := records + [record.value];
    }
    ReadAll(v, count, records);
    return Ok(records);
  }

  lemma LessIrreflexive(a: Key)
    ensures !Less(a, a)
  {
    if Less(a, a) {
      LessAsymmetric(a, a);
    }
  }

  /** A vector that decodes as a bundle body. */
  predicate IsBody(v: Bytes)
  {
    && |v| >= 8 && Word(v, 0) == |v| && Word(v, 4) % 4 == 0 && 8 <= Word(v, 4) <= |v|
    && Word(v, 4) / 4 - 1 <= MAX_RECORDS && Decodable(v, Word(v, 4) / 4 - 1)
  }

  function BodyOf(v: Bytes): seq<Record>
    requires IsBody(v)
  {
    RecordsOf(v, Word(v, 4) / 4 - 1)
  }

  method DecodeVector(v: Bytes) returns (r: Result<seq<Record>>)
    ensures r.Ok? <==> IsBody(v)
    ensures r.Ok? ==> r.value == BodyOf(v)
    ensures r != Err(SizeLimit) && r != Err(InvalidMagic)
  {
    if |v| < 4 || Word(v, 0) != |v| {
      return Err(InvalidStructure);
    }
    if |v| == 4 {
      return Err(RecordCount(0));
    }
    if |v| < 8 {
      return Err(InvalidStructure);
    }
    var firstOffset := Word(v, 4);
    if firstOffset < 8 || firstOffset % 4 != 0 || firstOffset > |v| {
      return Err(InvalidStructure);
    }
    var count := firstOffset / 4 - 1;
    if count > MAX_RECORDS {
      return Err(RecordCount(count));
    }
    r := DecodeRecords(v, count);
  }

  /** What a bundle decodes to. */
  function Decoding(b: Bytes): Result<seq<Record>>
  {
    if |b| > MAX_BUNDLE_BYTES then Err(SizeLimit)
    else if !(MAGIC <= b) then Err(InvalidMagic)
    else if IsBody(b[|MAGIC|..]) then Ok(BodyOf(b[|MAGIC|..]))
    else Err(InvalidStructure)
  }

  method Decode(b: Bytes) returns (r: Result<seq<Record>>)
    ensures r.Ok? <==> Decoding(b).Ok?
    ensures r.Ok? ==> r == Decoding(b)
    ensures r == Err(SizeLimit) <==> Decoding(b) == Err(SizeLimit)
    ensures r == Err(InvalidMagic) <==> Decoding(b) == Err(InvalidMagic)
  {
    if |b| > MAX_BUNDLE_BYTES {
      return Err(SizeLimit);
    }
    if !(MAGIC <= b) {
      return Err(InvalidMagic);
    }
    r := DecodeVector(b[|MAGIC|..]);
  }

  lemma {:induction false} BundleDecodes(rs: seq<Record>)
    requires Canonical(rs)
    ensures Decoding(Bundle(rs)) == Ok(rs)
  {
    var b := Bundle(rs);
    BundleHolds(b, rs);
    HeldIsBody(b[|MAGIC|..], rs);
  }

  lemma HeldIsBody(v: Bytes, rs: seq<Record>)
    requires Holds(v, |rs|, rs) && Canonical(rs) && |v| <= MAX_BUNDLE_BYTES
    ensures IsBody(v) && BodyOf(v) == rs
  {
    HeldShape(v, rs);
    assert Word(v, 4) / 4 - 1 == |rs|;
    HeldIsDecodable(v, |rs|, rs);
  }

  lemma {:induction false} DecodedIsBundle(b: Bytes)
    requires Decoding(b).Ok?
    ensures Canonical(Decoding(b).value) && b == Bundle(Decoding(b).value)
  {
    var v, rs := b[|MAGIC|..], Decoding(b).value;
    var count := Word(v, 4) / 4 - 1;
    assert Word(v, 4) == Header(count);
    DecodableIsHeld(v, count);
    HoldsBundle(b, count, rs);
  }

  /** Decoding accepts the bytes of canonical record lists and nothing else, and returns the list they encode. */
  lemma {:induction false} DecodingExactly(b: Bytes, rs: seq<Record>)
    ensures Decoding(b) == Ok(rs) <==> IsBundle(b, rs)
  {
    if IsBundle(b, rs) {
      BundleDecodes(rs);
    }
    if Decoding(b).Ok? {
      DecodedIsBundle(b);
    }
  }

  lemma HeldShape(v: Bytes, rs: seq<Record>)
    requires Holds(v, |rs|, rs) && rs != []
    ensures 8 <= Header(|rs|) <= |v| && Word(v, 0) == |v| && Word(v, 4) == Header(|rs|)
  {
    assert Offset(v, |rs|, 0) == Header(|rs|);
  }

  // ----- encoding

  /** The first reason, in key order, to refuse the first `k` records. */
  function Refusal(s: seq<Record>, k: nat): Result<()>
    requires k <= |s|
  {
    if k == 0 then Ok(())
    else if Refusal(s, k - 1).Err? then Refusal(s, k - 1)
    else if !ArgsAllowed(s[k - 1].args) then Err(InvalidArgsMagic)
    else if |MAGIC| + Header(|s|) + RecordsSize(s[..k]) > MAX_BUNDLE_BYTES then Err(SizeLimit)
    else Ok(())
  }

  lemma {:induction false} RefusalExactly(s: seq<Record>, k: nat)
    requires 0 < k <= |s|
    ensures Refusal(s, k).Ok? <==>
            |MAGIC| + Header(|s|) + RecordsSize(s[..k]) <= MAX_BUNDLE_BYTES &&
            forall i :: 0 <= i < k ==> ArgsAllowed(s[i].args)
  {
    assert s[..k][..k - 1] == s[..k - 1];
    if k > 1 {
      RefusalExactly(s, k - 1);
    }
  }

  lemma PermutedWellTyped(a: seq<Record>, b: seq<Record>)
    requires AllWellTyped(a) && multiset(a) == multiset(b)
    ensures AllWellTyped(b)
  {
    forall i | 0 <= i < |b| ensures WellTyped(b[i]) {
      assert b[i] in multiset(a);
    }
  }

  /** What a record list encodes to: the bundle of its key-sorted form, or the first refusal. */
  function Encoding(records: seq<Record>): Result<Bytes>
    requires AllWellTyped(records)
  {
    if !(1 <= |records| <= MAX_RECORDS) then Err(RecordCount(|records|))
    else if !DistinctKeys(KeyOf, records) then Err(DuplicateKey)
    else
      var s := Sort(KeyOf, records);
      SortSorts(KeyOf, records);
      PermutedWellTyped(records, s);
      assert |s| == |multiset(s)| == |multiset(records)| == |records|;
      var refusal := Refusal(s, |s|);
      RefusalExactly(s, |s|);
      assert s[..|s|] == s;
      if refusal.Err? then Err(refusal.error) else Ok(Bundle(s))
  }

  lemma {:induction false} StrictIsDetermined(s: seq<Record>)
    requires DistinctKeys(KeyOf, s)
    ensures KeyDetermines(KeyOf, s)
  {
    forall i, j | 0 <= i < |s| && 0 <= j < |s| && KeyOf(s[i]) == KeyOf(s[j]) ensures s[i] == s[j] {
      assert i == j;
    }
  }

  /** Reordering the input changes neither the bytes nor the error. */
  lemma {:induction false} EncodingIgnoresOrder(a: seq<Record>, b: seq<Record>)
    requires AllWellTyped(a) && AllWellTyped(b) && multiset(a) == multiset(b)
    ensures Encoding(a) == Encoding(b)
  {
    assert |a| == |multiset(a)| == |multiset(b)| == |b|;
    SortSorts(KeyOf, a);
    SortSorts(KeyOf, b);
    if DistinctKeys(KeyOf, a) {
      DistinctKeysPermute(KeyOf, a, b);
      DistinctKeysPermute(KeyOf, a, Sort(KeyOf, a));
      StrictIsDetermined(Sort(KeyOf, a));
      SortedUnique(KeyOf, Sort(KeyOf, a), Sort(KeyOf, b));
    } else if DistinctKeys(KeyOf, b) {
      DistinctKeysPermute(KeyOf, b, a);
    }
  }

  lemma {:induction false} EncodingIsCanonical(records: seq<Record>)
    requires AllWellTyped(records) && Encoding(records).Ok?
    ensures Canonical(Sort(KeyOf, records)) && Encoding(records).value == Bundle(Sort(KeyOf, records))
  {
    var s := Sort(KeyOf, records);
    SortSorts(KeyOf, records);
    PermutedWellTyped(records, s);
    assert |s| == |multiset(s)| == |multiset(records)| == |records|;
    DistinctKeysPermute(KeyOf, records, s);
    StrictMeansDistinct(KeyOf, s);
    RefusalExactly(s, |s|);
    assert s[..|s|] == s;
  }

  /** Decoding an encoding gives the records in key order. */
  lemma {:induction false} DecodeEncoded(records: seq<Record>)
    requires AllWellTyped(records) && Encoding(records).Ok?
    ensures Decoding(Encoding(records).value) == Ok(Sort(KeyOf, records))
  {
    EncodingIsCanonical(records);
    BundleDecodes(Sort(KeyOf, records));
  }

  lemma {:induction false} SortedAlready(rs: seq<Record>)
    requires IsStrict(KeyOf, rs)
    ensures Sort(KeyOf, rs) == rs && DistinctKeys(KeyOf, rs)
  {
    StrictMeansDistinct(KeyOf, rs);
    SortSorts(KeyOf, rs);
    StrictIsDetermined(rs);
    SortedUnique(KeyOf, rs, Sort(KeyOf, rs));
  }

  /** Encoding what was decoded gives the same bytes back. */
  lemma {:induction false} EncodeDecoded(b: Bytes)
    requires Decoding(b).Ok?
    ensures AllWellTyped(Decoding(b).value) && Encoding(Decoding(b).value) == Ok(b)
  {
    DecodedIsBundle(b);
    var rs := Decoding(b).value;
    SortedAlready(rs);
    RefusalExactly(rs, |rs|);
    assert rs[..|rs|] == rs;
  }

  // ----- the encoder's loops

  /** Comparing neighbours of the sorted list finds every repeated key. */
  method HasRepeatedKey(ordered: seq<Record>) returns (repeated: bool)
    requires IsSorted(KeyOf, ordered)
    ensures repeated <==> !DistinctKeys(KeyOf, ordered)
  {
    var i := 0;
    while i + 1 < |ordered|
      invariant forall k {:trigger ordered[k]} :: 0 <= k < i && k + 1 < |ordered| ==>
                KeyOf(ordered[k]) != KeyOf(ordered[k + 1])
    {
      if KeyOf(ordered[i]) == KeyOf(ordered[i + 1]) {
        return true;
      }
      i := i + 1;
    }
    if !DistinctKeys(KeyOf, ordered) {
      var a, b :| 0 <= a < b < |ordered| && KeyOf(ordered[a]) == KeyOf(ordered[b]);
      var k := NeighboursShow(KeyOf, ordered, a, b);
      assert false;
    }
    return false;
  }

  /** Validates the arguments and adds up the size, in key order. */
  method Measure(ordered: seq<Record>) returns (r: Result<nat>)
    ensures r.Ok? <==> Refusal(ordered, |ordered|).Ok?
    ensures r.Err? ==> r.error == Refusal(ordered, |ordered|).error
    ensures r.Ok? ==> r.value == BundleSize(ordered)
  {
    var total := |MAGIC| + 4 * (|ordered| + 1);
    for i := 0 to |ordered|
      invariant total == |MAGIC| + Header(|ordered|) + RecordsSize(ordered[..i]) && Refusal(ordered, i).Ok?
    {
      assert ordered[..i + 1][..i] == ordered[..i];
      if !ArgsAllowed(ordered[i].args) {
        RefusalStays(ordered, i + 1, |ordered|);
        return Err(InvalidArgsMagic);
      }
      total := total + RECORD_FIXED_BYTES + |ordered[i].args|;
      if total > MAX_BUNDLE_BYTES {
        RefusalStays(ordered, i + 1, |ordered|);
        return Err(SizeLimit);
      }
    }
    assert ordered[..|ordered|] == ordered;
    return Ok(total);
  }

  lemma {:induction false} RefusalStays(s: seq<Record>, k: nat, n: nat)
    requires k <= n <= |s| && Refusal(s, k).Err?
    ensures Refusal(s, n) == Refusal(s, k)
  {
    if k < n {
      RefusalStays(s, k, n - 1);
    }
  }

  /** One record, field by field, with the fixed offsets of its table. */
  method WriteRecord(r: Record) returns (b: Bytes)
    requires Small(r)
    ensures b == RecordBytes(r)
  {
    RecordSize(r);
    b := U32(RECORD_FIXED_BYTES + |r.args|);
    b := b + U32(20) + U32(21) + U32(53) + U32(57);
    ghost var head := b;
    assert head == U32(RECORD_FIXED_BYTES + |r.args|) + Words([20, 21, 53, 57]) by {
      WordsOfFour(20, 21, 53, 57);
    }
    b := b + [RoleByte(r.role)] + r.scriptHash + U32(r.tag) + U32(|r.args|) + r.args;
    assert b == head + ([RoleByte(r.role)] + r.scriptHash + U32(r.tag) + (U32(|r.args|) + r.args));
  }

  lemma WordsOfFour(a: nat, b: nat, c: nat, d: nat)
    requires a < U32_BOUND && b < U32_BOUND && c < U32_BOUND && d < U32_BOUND
    ensures Words([a, b, c, d]) == U32(a) + U32(b) + U32(c) + U32(d)
  {
    assert [a, b, c, d][1..] == [b, c, d] && [b, c, d][1..] == [c, d] && [c, d][1..] == [d];
    assert Words([d]) == U32(d);
    assert Words([c, d]) == U32(c) + U32(d);
    assert Words([b, c, d]) == U32(b) + U32(c) + U32(d);
  }

  lemma EncodedLength(rs: seq<Record>, i: nat)
    requires AllSmall(rs) && i < |rs|
    ensures |Encoded(rs)[i]| == RECORD_FIXED_BYTES + |rs[i].args|
  {
    RecordSize(rs[i]);
  }

  function RecordSizes(rs: seq<Record>): (sizes: seq<nat>)
    ensures |sizes| == |rs| && forall i :: 0 <= i < |rs| ==> sizes[i] == RECORD_FIXED_BYTES + |rs[i].args|
  {
    seq(|rs|, i requires 0 <= i < |rs| => RECORD_FIXED_BYTES + |rs[i].args|)
  }

  lemma RecordSizesMeasure(rs: seq<Record>)
    requires AllSmall(rs)
    ensures Measures(RecordSizes(rs), Encoded(rs))
  {
    forall i | 0 <= i < |rs| ensures RecordSizes(rs)[i] == |Encoded(rs)[i]| {
      EncodedLength(rs, i);
    }
  }

  /** Magic, total, one offset per record, then the records. */
  method WriteBundle(ordered: seq<Record>, total: nat) returns (b: Bytes)
    requires AllWellTyped(ordered) && total == BundleSize(ordered) <= MAX_BUNDLE_BYTES
    ensures b == Bundle(ordered)
  {
    CanonicalSize(ordered);
    RecordSizesMeasure(ordered);
    var head := WriteHeader(RecordSizes(ordered), total - |MAGIC|, Encoded(ordered));
    b := WriteRecords(ordered, MAGIC + head);
    assert b == MAGIC + (head + Flatten(Encoded(ordered)));
  }

  method WriteRecords(ordered: seq<Record>, head: Bytes) returns (b: Bytes)
    requires AllSmall(ordered)
    ensures b == head + Flatten(Encoded(ordered))
  {
    ghost var fields := Encoded(ordered);
    b := head;
    for i := 0 to |ordered|
      invariant b == head + Flatten(fields[..i])
    {
      FlattenStep(fields, i);
      var record := WriteRecord(ordered[i]);
      Associates(head, Flatten(fields[..i]), record);
      b := b + record;
    }
    assert fields[..|ordered|] == fields;
  }

  method Encode(records: seq<Record>) returns (r: Result<Bytes>)
    requires AllWellTyped(records)
    ensures r == Encoding(records)
  {
    if |records| < 1 || |records| > MAX_RECORDS {
      return Err(RecordCount(|records|));
    }
    var ordered := Sort(KeyOf, records);
    SortSorts(KeyOf, records);
    assert DistinctKeys(KeyOf, ordered) <==> DistinctKeys(KeyOf, records) by {
      if DistinctKeys(KeyOf, records) {
        DistinctKeysPermute(KeyOf, records, ordered);
      }
      if DistinctKeys(KeyOf, ordered) {
        DistinctKeysPermute(KeyOf, ordered, records);
      }
    }
    var repeated := HasRepeatedKey(ordered);
    if repeated {
      return Err(DuplicateKey);
    }
    PermutedWellTyped(records, ordered);
    var total := Measure(ordered);
    if total.Err? {
      return Err(total.error);
    }
    EncodedWithin(ordered);
    var b := WriteBundle(ordered, total.value);
    return Ok(b);
  }

  lemma EncodedWithin(s: seq<Record>)
    requires Refusal(s, |s|).Ok? && s != []
    ensures BundleSize(s) <= MAX_BUNDLE_BYTES
  {
    RefusalExactly(s, |s|);
    assert s[..|s|] == s;
  }

  // ----- selection

  /** The record a Script of this role and hash selects. */
  function Selected(records: seq<Record>, role: Role, scriptHash: Bytes): (r: seq<Record>)
    ensures |r| <= 1
  {
    if records == [] then []
    else if records[0].role == role && records[0].scriptHash == scriptHash then [records[0]]
    else Selected(records[1..], role, scriptHash)
  }

  /** In a decoded bundle the selected record is the only one with its key, and it is found when there is one. */
  lemma {:induction false} SelectedExactly(records: seq<Record>, role: Role, scriptHash: Bytes, r: Record)
    requires DistinctKeys(KeyOf, records)
    ensures Selected(records, role, scriptHash) == [r] <==> r in records && r.role == role && r.scriptHash == scriptHash
  {
    if records != [] {
      var rest := records[1..];
      SelectedExactly(rest, role, scriptHash, r);
      assert records == [records[0]] + rest;
      if r in rest {
        var i :| 0 <= i < |rest| && rest[i] == r;
        assert KeyOf(records[0]) != KeyOf(records[i + 1]);
      }
    }
  }
}
