/** The ledger side of a deployment line: one TYPE_ID Cell holds the current receipt and is replaced by transactions. */
module AdmissionLedger {
  import opened Options
  import opened DeploymentLine
  import opened Interface
  import opened Molecule

  datatype OutPoint = OutPoint(transaction: Hash, index: nat)

  datatype Script = Script(codeHash: Hash, hashType: string, args: Hash)

  /** A Cell by its Type Script and data. */
  datatype Cell = Cell(script: Option<Script>, data: Hash)

  datatype Input = Input(outPoint: OutPoint, since: nat)

  datatype Transaction = Transaction(inputs: seq<Input>, outputs: seq<Cell>)

  /** The hashes the validator computes: receipts, the commitment of a full handle, Scripts, and TYPE_ID arguments. */
  datatype Rules = Rules(
    hashing: Hashing,
    commit: Receipt -> Hash,
    ofScript: Script -> Hash,
    ofBytes: Bytes -> Hash,
    typeIdCode: Hash
  )

  // ----- TYPE_ID arguments

  function Power(width: nat): nat
  {
    if width == 0 then 1 else 256 * Power(width - 1)
  }

  function LittleEndian(n: nat, width: nat): (b: Bytes)
    ensures |b| == width
  {
    if width == 0 then [] else [(n % 256) as Byte] + LittleEndian(n / 256, width - 1)
  }

  lemma {:induction false} LittleEndianInjective(n: nat, m: nat, width: nat)
    requires n < Power(width) && m < Power(width) && LittleEndian(n, width) == LittleEndian(m, width)
    ensures n == m
  {
    if width > 0 {
      var a, b := LittleEndian(n, width), LittleEndian(m, width);
      assert a[0] == b[0] && a[1..] == b[1..];
      LittleEndianInjective(n / 256, m / 256, width - 1);
    }
  }

  /** The field widths of a serialized CellInput. */
  predicate FixedWidth(input: Input)
  {
    input.since < Power(8) && input.outPoint.transaction < Power(32) && input.outPoint.index < Power(4)
  }

  function Serialize(input: Input): (b: Bytes)
    ensures |b| == 44
  {
    LittleEndian(input.since, 8) + LittleEndian(input.outPoint.transaction, 32) + LittleEndian(input.outPoint.index, 4)
  }

  lemma SerializeInjective(a: Input, b: Input)
    requires FixedWidth(a) && FixedWidth(b) && Serialize(a) == Serialize(b)
    ensures a == b
  {
    var x, y := Serialize(a), Serialize(b);
    assert x[..8] == LittleEndian(a.since, 8) && x[8..40] == LittleEndian(a.outPoint.transaction, 32) &&
           x[40..] == LittleEndian(a.outPoint.index, 4);
    assert y[..8] == LittleEndian(b.since, 8) && y[8..40] == LittleEndian(b.outPoint.transaction, 32) &&
           y[40..] == LittleEndian(b.outPoint.index, 4);
    LittleEndianInjective(a.since, b.since, 8);
    LittleEndianInjective(a.outPoint.transaction, b.outPoint.transaction, 32);
    LittleEndianInjective(a.outPoint.index, b.outPoint.index, 4);
  }

  /** What is hashed into the arguments: the first input and the output index. */
  function TypeIdBytes(first: Input, outputIndex: nat): Bytes
  {
    Serialize(first) + LittleEndian(outputIndex, 8)
  }

  lemma TypeIdBytesInjective(a: Input, k: nat, b: Input, l: nat)
    requires FixedWidth(a) && FixedWidth(b) && TypeIdBytes(a, k) == TypeIdBytes(b, l)
    ensures a == b
  {
    assert TypeIdBytes(a, k)[..44] == Serialize(a) && TypeIdBytes(b, l)[..44] == Serialize(b);
    SerializeInjective(a, b);
  }

  // ----- the transition validator

  /** Creation has no previous receipt; replacement names the input that held it. */
  datatype Transition = Transition(previous: Option<Receipt>, next: Receipt, inputIndex: nat, outputIndex: nat)

  function Count(cells: seq<Cell>, s: Script): nat
  {
    if cells == [] then 0 else Count(cells[..|cells| - 1], s) + if cells[|cells| - 1].script == Some(s) then 1 else 0
  }

  predicate ValidTransition(c: Rules, t: Transition, tx: Transaction, resolved: seq<Cell>)
  {
    && ValidReceipt(c.hashing, t.next) && t.outputIndex < |tx.outputs| && tx.outputs[t.outputIndex].script.Some?
    && var s := tx.outputs[t.outputIndex].script.value;
       && s.codeHash == c.typeIdCode && s.hashType == "type" && c.ofScript(s) == t.next.admission
       && tx.outputs[t.outputIndex].data == c.commit(t.next)
       && match t.previous
          case None =>
            && t.next.sequence == 0 && Count(resolved, s) == 0 && Count(tx.outputs, s) == 1
            && tx.inputs != [] && s.args == c.ofBytes(TypeIdBytes(tx.inputs[0], t.outputIndex))
          case Some(previous) =>
            && ValidSuccessor(c.hashing, previous, t.next)
            && t.inputIndex < |resolved| && resolved[t.inputIndex] == Cell(Some(s), c.commit(previous))
            && Count(resolved, s) == 1 && Count(tx.outputs, s) == 1
  }

  lemma {:induction false} CountAtLeast(cells: seq<Cell>, s: Script, i: nat)
    requires i < |cells| && cells[i].script == Some(s)
    ensures Count(cells, s) >= 1
  {
    if i < |cells| - 1 {
      CountAtLeast(cells[..|cells| - 1], s, i);
    }
  }

  /** With a count of one, the Cell of this Script is at one position. */
  lemma {:induction false} CountOne(cells: seq<Cell>, s: Script, i: nat, j: nat)
    requires i < |cells| && j < |cells| && cells[i].script == cells[j].script == Some(s) && Count(cells, s) == 1
    ensures i == j
  {
    var last := |cells| - 1;
    if i < last {
      CountAtLeast(cells[..last], s, i);
    }
    if j < last {
      CountAtLeast(cells[..last], s, j);
    }
    if i < last && j < last {
      CountOne(cells[..last], s, i, j);
    }
  }

  // ----- the ledger

  /** Live Cells, and every out point that ever existed. */
  datatype State = State(live: map<OutPoint, Cell>, used: set<OutPoint>)

  function Spent(tx: Transaction): set<OutPoint>
  {
    set i | 0 <= i < |tx.inputs| :: tx.inputs[i].outPoint
  }

  function Created(tx: Transaction, id: Hash): map<OutPoint, Cell>
  {
    map k | 0 <= k < |tx.outputs| :: OutPoint(id, k) := tx.outputs[k]
  }

  /** Inputs are live and distinct, and the outputs have new out points. */
  predicate CanApply(state: State, tx: Transaction, id: Hash)
  {
    && (forall i :: 0 <= i < |tx.inputs| ==> tx.inputs[i].outPoint in state.live && FixedWidth(tx.inputs[i]))
    && (forall i, j :: 0 <= i < j < |tx.inputs| ==> tx.inputs[i].outPoint != tx.inputs[j].outPoint)
    && Created(tx, id).Keys !! state.used
  }

  function After(state: State, tx: Transaction, id: Hash): State
  {
    State((state.live - Spent(tx)) + Created(tx, id), state.used + Created(tx, id).Keys)
  }

  function Resolved(state: State, tx: Transaction): (cells: seq<Cell>)
    requires forall i :: 0 <= i < |tx.inputs| ==> tx.inputs[i].outPoint in state.live
    ensures |cells| == |tx.inputs| && forall i :: 0 <= i < |cells| ==> cells[i] == state.live[tx.inputs[i].outPoint]
  {
    seq(|tx.inputs|, i requires 0 <= i < |tx.inputs| => state.live[tx.inputs[i].outPoint])
  }

  predicate Touches(state: State, tx: Transaction, s: Script)
  {
    || (exists i :: 0 <= i < |tx.inputs| && tx.inputs[i].outPoint in state.live &&
                    state.live[tx.inputs[i].outPoint].script == Some(s))
    || (exists k :: 0 <= k < |tx.outputs| && tx.outputs[k].script == Some(s))
  }

  /** A transaction, its hash, and the transition shown for the Script in question when the transaction touches it. */
  datatype Entry = Entry(tx: Transaction, id: Hash, transition: Option<Transition>)

  ghost predicate ValidEntry(c: Rules, s: Script, state: State, entry: Entry)
  {
    && CanApply(state, entry.tx, entry.id)
    && (entry.transition.Some? <==> Touches(state, entry.tx, s))
    && (entry.transition.Some? ==>
         && ValidTransition(c, entry.transition.value, entry.tx, Resolved(state, entry.tx))
         && entry.tx.outputs[entry.transition.value.outputIndex].script == Some(s))
  }

  /** A run of the ledger from a state that has no Cell of the Script. */
  ghost predicate IsRun(c: Rules, s: Script, entries: seq<Entry>, states: seq<State>)
  {
    && |states| == |entries| + 1 && states[0].live.Keys <= states[0].used && LiveCells(states[0], s) == {}
    && forall i :: 0 <= i < |entries| ==>
         ValidEntry(c, s, states[i], entries[i]) && states[i + 1] == After(states[i], entries[i].tx, entries[i].id)
  }

  function LiveCells(state: State, s: Script): set<OutPoint>
  {
    set p | p in state.live && state.live[p].script == Some(s)
  }

  predicate IsCreation(entry: Entry)
  {
    entry.transition.Some? && entry.transition.value.previous.None?
  }

  /** The arguments of two creations are hashes of different bytes, or of the same bytes. */
  ghost predicate TypeIdsApart(c: Rules, entries: seq<Entry>)
  {
    forall i, j :: 0 <= i < |entries| && 0 <= j < |entries| && IsCreation(entries[i]) && IsCreation(entries[j]) ==>
      (c.ofBytes(Derivation(entries[i])) == c.ofBytes(Derivation(entries[j])) ==>
       Derivation(entries[i]) == Derivation(entries[j]))
  }

  function Derivation(entry: Entry): Bytes
    requires IsCreation(entry)
  {
    if entry.tx.inputs == [] then [] else TypeIdBytes(entry.tx.inputs[0], entry.transition.value.outputIndex)
  }

  // ----- created at most once

  lemma {:induction false} UsedIsKept(c: Rules, s: Script, entries: seq<Entry>, states: seq<State>, i: nat)
    requires IsRun(c, s, entries, states) && i < |states|
    ensures states[i].live.Keys <= states[i].used
  {
    if i > 0 {
      UsedIsKept(c, s, entries, states, i - 1);
      assert states[i - 1 + 1] == After(states[i - 1], entries[i - 1].tx, entries[i - 1].id);
    }
  }

  /** A spent out point is never live again. */
  lemma {:induction false} SpentStays(c: Rules, s: Script, entries: seq<Entry>, states: seq<State>, i: nat, j: nat,
                                      p: OutPoint)
    requires IsRun(c, s, entries, states) && i < j < |states| && p in Spent(entries[i].tx)
    ensures p in states[j].used && p !in states[j].live
    decreases j
  {
    assert ValidEntry(c, s, states[j - 1], entries[j - 1]) &&
           states[j - 1 + 1] == After(states[j - 1], entries[j - 1].tx, entries[j - 1].id);
    if i < j - 1 {
      SpentStays(c, s, entries, states, i, j - 1, p);
    } else {
      UsedIsKept(c, s, entries, states, i);
      assert p in states[i].live;
    }
  }

  /** One Script is created at most once: its arguments name an input that can be spent only once. */
  lemma {:induction false} CreatedOnce(c: Rules, s: Script, entries: seq<Entry>, states: seq<State>, i: nat, j: nat)
    requires IsRun(c, s, entries, states) && TypeIdsApart(c, entries)
    requires i < j < |entries| && IsCreation(entries[i])
    ensures !IsCreation(entries[j])
  {
    if IsCreation(entries[j]) {
      var a, b := entries[i], entries[j];
      assert ValidEntry(c, s, states[i], a) && ValidEntry(c, s, states[j], b);
      assert c.ofBytes(Derivation(a)) == s.args == c.ofBytes(Derivation(b));
      TypeIdBytesInjective(a.tx.inputs[0], a.transition.value.outputIndex, b.tx.inputs[0],
                           b.transition.value.outputIndex);
      assert a.tx.inputs[0].outPoint in Spent(a.tx);
      SpentStays(c, s, entries, states, i, j, a.tx.inputs[0].outPoint);
    }
  }

  // ----- exactly one live Cell, on the tip of the chain

  /** The receipts the Script's transitions published, in order. */
  function Published(entries: seq<Entry>): seq<Receipt>
  {
    if entries == [] then []
    else
      var last := entries[|entries| - 1].transition;
      Published(entries[..|entries| - 1]) + if last.Some? then [last.value.next] else []
  }

  /** A commitment names one receipt among those the run's transitions carry. */
  ghost predicate CommitsApart(c: Rules, entries: seq<Entry>)
  {
    forall i, j ::
      && 0 <= i < |entries| && 0 <= j < |entries| && entries[i].transition.Some? && entries[j].transition.Some?
      && entries[i].transition.value.previous.Some?
      && c.commit(entries[i].transition.value.previous.value) == c.commit(entries[j].transition.value.next) ==>
      entries[i].transition.value.previous.value == entries[j].transition.value.next
  }

  /** Before creation there is no Cell of the Script; afterwards there is exactly one, and it commits the chain's
      tip. */
  ghost predicate Settled(c: Rules, s: Script, entries: seq<Entry>, state: State)
  {
    var chain := Published(entries);
    if chain == [] then LiveCells(state, s) == {} && forall k :: 0 <= k < |entries| ==> !IsCreation(entries[k])
    else
      && IsChain(c.hashing, chain) && (exists k :: 0 <= k < |entries| && IsCreation(entries[k]))
      && exists p :: LiveCells(state, s) == {p} && state.live[p].data == c.commit(chain[|chain| - 1])
  }

  lemma {:induction false} Untouched(state: State, tx: Transaction, id: Hash, s: Script)
    requires CanApply(state, tx, id) && !Touches(state, tx, s) && state.live.Keys <= state.used
    ensures LiveCells(After(state, tx, id), s) == LiveCells(state, s)
    ensures forall p :: p in LiveCells(state, s) ==> After(state, tx, id).live[p] == state.live[p]
  {
    var after := After(state, tx, id);
    forall p | p in LiveCells(state, s) ensures p in after.live && after.live[p] == state.live[p] {
      assert p !in Created(tx, id).Keys;
      assert p !in Spent(tx);
    }
    forall p | p in LiveCells(after, s) ensures p in LiveCells(state, s) {
      assert p !in Created(tx, id).Keys;
    }
  }

  lemma {:induction false} OneOutput(c: Rules, s: Script, state: State, entry: Entry)
    requires ValidEntry(c, s, state, entry) && entry.transition.Some?
    ensures forall k :: 0 <= k < |entry.tx.outputs| && entry.tx.outputs[k].script == Some(s) ==>
            k == entry.transition.value.outputIndex
  {
    forall k | 0 <= k < |entry.tx.outputs| && entry.tx.outputs[k].script == Some(s)
      ensures k == entry.transition.value.outputIndex
    {
      CountOne(entry.tx.outputs, s, k, entry.transition.value.outputIndex);
    }
  }

  lemma {:induction false} OnlyNewCell(state: State, tx: Transaction, id: Hash, s: Script, o: nat)
    requires CanApply(state, tx, id) && state.live.Keys <= state.used && o < |tx.outputs|
    requires tx.outputs[o].script == Some(s)
    requires forall k :: 0 <= k < |tx.outputs| && tx.outputs[k].script == Some(s) ==> k == o
    ensures var p, after := OutPoint(id, o), After(state, tx, id);
            LiveCells(after, s) == (LiveCells(state, s) - Spent(tx)) + {p} && p in after.live &&
            after.live[p] == tx.outputs[o]
  {
    var p, after, created := OutPoint(id, o), After(state, tx, id), Created(tx, id);
    assert p in created && after.live[p] == tx.outputs[o];
    forall q | q in LiveCells(after, s) && q in created ensures q == p {
      assert created[q] == tx.outputs[q.index];
    }
    forall q | q in LiveCells(state, s) && q !in Spent(tx) ensures q in LiveCells(after, s) {
      assert q !in created;
    }
  }

  /** After a touching transaction the only new Cell of the Script is the transition's output. */
  lemma {:induction false} Touched(c: Rules, s: Script, state: State, entry: Entry)
    requires ValidEntry(c, s, state, entry) && entry.transition.Some? && state.live.Keys <= state.used
    ensures var p, after := OutPoint(entry.id, entry.transition.value.outputIndex), After(state, entry.tx, entry.id);
            && LiveCells(after, s) == (LiveCells(state, s) - Spent(entry.tx)) + {p}
            && p in after.live && after.live[p].data == c.commit(entry.transition.value.next)
  {
    OneOutput(c, s, state, entry);
    OnlyNewCell(state, entry.tx, entry.id, s, entry.transition.value.outputIndex);
  }

  /** A replacement spends the Cell it names. */
  lemma {:induction false} ReplacementSpends(c: Rules, s: Script, state: State, entry: Entry)
    requires ValidEntry(c, s, state, entry) && entry.transition.Some? && entry.transition.value.previous.Some?
    ensures var q := entry.tx.inputs[entry.transition.value.inputIndex].outPoint;
            q in LiveCells(state, s) && q in Spent(entry.tx) &&
            state.live[q].data == c.commit(entry.transition.value.previous.value)
  {
    var t := entry.transition.value;
    assert Resolved(state, entry.tx)[t.inputIndex] == state.live[entry.tx.inputs[t.inputIndex].outPoint];
  }

  lemma {:induction false} ChainGrows(h: Hashing, chain: seq<Receipt>, next: Receipt)
    requires IsChain(h, chain) && ValidSuccessor(h, chain[|chain| - 1], next)
    ensures IsChain(h, chain + [next])
  {
    var longer := chain + [next];
    forall i | 0 <= i < |longer| - 1 ensures ValidSuccessor(h, longer[i], longer[i + 1]) {
      assert i < |chain| - 1 ==> ValidSuccessor(h, chain[i], chain[i + 1]);
    }
  }

  lemma {:induction false} LastPublished(entries: seq<Entry>) returns (k: nat)
    requires Published(entries) != []
    ensures k < |entries| && entries[k].transition.Some?
    ensures entries[k].transition.value.next == Published(entries)[|Published(entries)| - 1]
  {
    var last := |entries| - 1;
    if entries[last].transition.Some? {
      k := last;
    } else {
      k := LastPublished(entries[..last]);
    }
  }

  lemma {:induction false} SettledAfterCreation(c: Rules, s: Script, entries: seq<Entry>, state: State, entry: Entry)
    requires ValidEntry(c, s, state, entry) && IsCreation(entry) && state.live.Keys <= state.used
    requires Settled(c, s, entries, state) && Published(entries) == []
    ensures Settled(c, s, entries + [entry], After(state, entry.tx, entry.id))
  {
    var more, after := entries + [entry], After(state, entry.tx, entry.id);
    Touched(c, s, state, entry);
    assert more[..|entries|] == entries && more[|entries|] == entry;
    var p := OutPoint(entry.id, entry.transition.value.outputIndex);
    assert LiveCells(after, s) == {p};
    assert Published(more) == [entry.transition.value.next];
  }

  lemma {:induction false} SettledAfterReplacement(c: Rules, s: Script, entries: seq<Entry>, state: State, entry: Entry)
    requires ValidEntry(c, s, state, entry) && entry.transition.Some? && entry.transition.value.previous.Some?
    requires state.live.Keys <= state.used
    requires Settled(c, s, entries, state) && CommitsApart(c, entries + [entry])
    ensures Settled(c, s, entries + [entry], After(state, entry.tx, entry.id))
  {
    var more, after, t := entries + [entry], After(state, entry.tx, entry.id), entry.transition.value;
    assert more[..|entries|] == entries && more[|entries|] == entry;
    ReplacementSpends(c, s, state, entry);
    Touched(c, s, state, entry);
    var chain := Published(entries);
    var k := LastPublished(entries);
    assert more[k] == entries[k];
    assert t.previous.value == chain[|chain| - 1];
    ChainGrows(c.hashing, chain, t.next);
    assert Published(more) == chain + [t.next];
    var p := OutPoint(entry.id, t.outputIndex);
    assert LiveCells(after, s) == {p};
    var a :| 0 <= a < |entries| && IsCreation(entries[a]);
    assert more[a] == entries[a];
  }

  lemma {:induction false} SettledUntouched(c: Rules, s: Script, entries: seq<Entry>, state: State, entry: Entry)
    requires ValidEntry(c, s, state, entry) && entry.transition.None? && state.live.Keys <= state.used
    requires Settled(c, s, entries, state)
    ensures Settled(c, s, entries + [entry], After(state, entry.tx, entry.id))
  {
    var more, after := entries + [entry], After(state, entry.tx, entry.id);
    assert more[..|entries|] == entries && more[|entries|] == entry;
    Untouched(state, entry.tx, entry.id, s);
    assert Published(more) == Published(entries);
    if Published(entries) != [] {
      var a :| 0 <= a < |entries| && IsCreation(entries[a]);
      assert more[a] == entries[a];
      var p :|
        LiveCells(state, s) == {p} && state.live[p].data == c.commit(Published(entries)[|Published(entries)| - 1]);
      assert p in LiveCells(state, s);
      assert LiveCells(after, s) == {p};
    }
  }

  /** In every run, at every point: created at most once, exactly one live Cell after creation, and that Cell commits
      the tip of one unbroken chain of receipts. */
  lemma {:induction false} AlwaysSettled(c: Rules, s: Script, entries: seq<Entry>, states: seq<State>, i: nat)
    requires IsRun(c, s, entries, states) && TypeIdsApart(c, entries) && CommitsApart(c, entries) && i < |states|
    ensures Settled(c, s, entries[..i], states[i])
  {
    if i > 0 {
      AlwaysSettled(c, s, entries, states, i - 1);
      UsedIsKept(c, s, entries, states, i - 1);
      var done, entry := entries[..i - 1], entries[i - 1];
      assert ValidEntry(c, s, states[i - 1], entry) && states[i - 1 + 1] == After(states[i - 1], entry.tx, entry.id);
      assert entries[..i] == done + [entry];
      if entry.transition.None? {
        SettledUntouched(c, s, done, states[i - 1], entry);
      } else if IsCreation(entry) {
        FirstCreation(c, s, entries, states, i - 1);
        SettledAfterCreation(c, s, done, states[i - 1], entry);
      } else {
        CommitsApartPrefix(c, entries, i);
        SettledAfterReplacement(c, s, done, states[i - 1], entry);
      }
    }
  }

  lemma {:induction false} CreationBefore(c: Rules, s: Script, entries: seq<Entry>, state: State) returns (a: nat)
    requires Settled(c, s, entries, state) && Published(entries) != []
    ensures a < |entries| && IsCreation(entries[a])
  {
    a :| 0 <= a < |entries| && IsCreation(entries[a]);
  }

  lemma {:induction false} FirstCreation(c: Rules, s: Script, entries: seq<Entry>, states: seq<State>, i: nat)
    requires IsRun(c, s, entries, states) && TypeIdsApart(c, entries) && i < |entries| && IsCreation(entries[i])
    requires Settled(c, s, entries[..i], states[i])
    ensures Published(entries[..i]) == []
  {
    if Published(entries[..i]) != [] {
      var a := CreationBefore(c, s, entries[..i], states[i]);
      CreatedOnce(c, s, entries, states, a, i);
    }
  }

  lemma {:induction false} CommitsApartPrefix(c: Rules, entries: seq<Entry>, i: nat)
    requires CommitsApart(c, entries) && i <= |entries|
    ensures CommitsApart(c, entries[..i])
  {
  }

  // ----- what an admitted history does not keep

  /** The entry with another exact receipt of the same version in its transition, committed in its output. */
  function ReissuedEntry(c: Rules, entry: Entry, exact: Exact): Entry
    requires entry.transition.Some? && entry.transition.value.outputIndex < |entry.tx.outputs|
  {
    var t := entry.transition.value;
    var next := Reissued(c.hashing, t.next, exact);
    var output := entry.tx.outputs[t.outputIndex].(data := c.commit(next));
    Entry(entry.tx.(outputs := entry.tx.outputs[t.outputIndex := output]), entry.id, Some(t.(next := next)))
  }

  lemma {:induction false} SameScriptsSameCount(a: seq<Cell>, b: seq<Cell>, s: Script)
    requires |a| == |b| && forall i :: 0 <= i < |a| ==> a[i].script == b[i].script
    ensures Count(a, s) == Count(b, s)
  {
    if a != [] {
      SameScriptsSameCount(a[..|a| - 1], b[..|b| - 1], s);
    }
  }

  /** The ledger admits an upgrade whatever target profile, runtime ABI and interface hash its exact receipt states. */
  lemma {:induction false} LedgerIgnoresExact(c: Rules, s: Script, state: State, entry: Entry, exact: Exact)
    requires ValidEntry(c, s, state, entry) && entry.transition.Some? && entry.transition.value.previous.Some?
    requires entry.transition.value.next.status == Active && SameVersion(entry.transition.value.next.exact, exact)
    ensures ValidEntry(c, s, state, ReissuedEntry(c, entry, exact))
  {
    var t, other := entry.transition.value, ReissuedEntry(c, entry, exact);
    ReissuedIsSuccessor(c.hashing, t.previous.value, t.next, exact);
    SameScriptsSameCount(entry.tx.outputs, other.tx.outputs, s);
    assert Created(other.tx, entry.id).Keys == Created(entry.tx, entry.id).Keys;
    assert Resolved(state, other.tx) == Resolved(state, entry.tx);
    assert other.tx.outputs[t.outputIndex].script == Some(s);
  }

  /** In every run, at every point, the published history is a line that the constructors build exactly when it starts
      from its first interface and every step keeps what the validators do not check. */
  lemma PublishedExactly(c: Rules, s: Script, entries: seq<Entry>, states: seq<State>, i: nat, xs: seq<Interface>)
    requires IsRun(c, s, entries, states) && TypeIdsApart(c, entries) && CommitsApart(c, entries) && i < |states|
    requires Published(entries[..i]) != [] && |xs| == |Published(entries[..i])|
    requires forall k :: 0 <= k < |xs| ==> c.hashing.ofInterface(xs[k]) == Published(entries[..i])[k].currentInterface
    ensures var chain := Published(entries[..i]);
            IsLine(c.hashing, chain[0].exact, xs[0], chain[0].admission, EventsOf(chain, xs), chain) <==>
            StartsFrom(c.hashing, chain[0], xs[0]) && forall k :: 0 <= k < |chain| - 1 ==> StepKept(chain, xs, k)
  {
    AlwaysSettled(c, s, entries, states, i);
    HistoryExactly(c.hashing, Published(entries[..i]), xs);
  }
}
