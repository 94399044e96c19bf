/** The exact value of every variable of a straight path of instructions: a term over what the path does not determine,
    and an execution for every choice of that. */
module ValueTerms {
  import opened Options
  import opened AliasAnalysis

  // ----- terms

  /** A value the body does not determine: of a parameter, or written by an instruction that is not read. */
  datatype Seed = Start(id: nat) | Written(at: nat, id: nat)

  datatype Term = Read(seed: Seed, path: seq<string>) | Constant(value: Value)

  type Terms = map<nat, Term>

  function FieldTerm(term: Term, field: string): Option<Term>
  {
    match term
    case Read(seed, path) => Some(Read(seed, path + [field]))
    case Constant(value) =>
      var inner := ReadField(value, field);
      if inner.None? then None else Some(Constant(inner.value))
  }

  function OperandTerm(terms: Terms, operand: Operand): Option<Term>
  {
    match operand
    case Var(id) => if id in terms then Some(terms[id]) else None
    case Literal(value) => Some(Constant(value))
  }

  /** The term an instruction writes; an instruction that cannot execute has none. */
  function TermStep(terms: Terms, at: nat, instruction: Instruction): Option<Terms>
  {
    match instruction
    case FieldAccess(dest, obj, field) =>
      var term := OperandTerm(terms, obj);
      if term.None? then None
      else
        var inner := FieldTerm(term.value, field);
        if inner.None? then None else Some(terms[dest := inner.value])
    case Move(dest, src) =>
      var term := OperandTerm(terms, src);
      if term.None? then None else Some(terms[dest := term.value])
    case Other(writes) => Some(terms + map id | id in writes :: Read(Written(at, id), []))
  }

  /** The terms after the instructions, from the parameters on; none where they cannot execute. */
  function TermsOf(params: set<nat>, path: seq<Instruction>): Option<Terms>
  {
    if path == [] then Some(map id | id in params :: Read(Start(id), []))
    else
      var last := |path| - 1;
      var terms := TermsOf(params, path[..last]);
      if terms.None? then None else TermStep(terms.value, last, path[last])
  }

  ghost predicate Runs(params: set<nat>, path: seq<Instruction>, trace: seq<Env>)
  {
    Executes(path, trace) && trace[0].Keys == params
  }

  ghost predicate SeedIs(trace: seq<Env>, seed: Seed, value: Value)
  {
    match seed
    case Start(id) => |trace| > 0 && id in trace[0] && value == trace[0][id]
    case Written(at, id) => at + 1 < |trace| && id in trace[at + 1] && value == trace[at + 1][id]
  }

  ghost predicate TermIs(trace: seq<Env>, term: Term, value: Value)
  {
    match term
    case Read(seed, path) => exists root :: SeedIs(trace, seed, root) && ReadPath(root, path) == Some(value)
    case Constant(known) => value == known
  }

  ghost predicate TermsAre(trace: seq<Env>, terms: Terms, env: Env)
  {
    terms.Keys == env.Keys && forall id :: id in terms ==> TermIs(trace, terms[id], env[id])
  }

  lemma {:induction false} FieldTermIs(trace: seq<Env>, term: Term, value: Value, field: string, inner: Value)
    requires TermIs(trace, term, value) && ReadField(value, field) == Some(inner)
    ensures FieldTerm(term, field).Some? && TermIs(trace, FieldTerm(term, field).value, inner)
  {
    if term.Read? {
      var root :| SeedIs(trace, term.seed, root) && ReadPath(root, term.path) == Some(value);
      var longer := term.path + [field];
      assert longer[..|term.path|] == term.path;
      assert ReadPath(root, longer) == Some(inner);
    }
  }

  lemma {:induction false} OperandTermIs(trace: seq<Env>, terms: Terms, env: Env, operand: Operand)
    requires TermsAre(trace, terms, env) && Eval(env, operand).Some?
    ensures OperandTerm(terms, operand).Some?
    ensures TermIs(trace, OperandTerm(terms, operand).value, Eval(env, operand).value)
  {
  }

  /** One variable gets a term, and the others keep theirs. */
  lemma {:induction false} OneTermIs(trace: seq<Env>, terms: Terms, before: Env, after: Env, dest: nat, term: Term)
    requires TermsAre(trace, terms, before) && after.Keys == before.Keys + {dest} && TermIs(trace, term, after[dest])
    requires forall id :: id in before && id != dest ==> after[id] == before[id]
    ensures TermsAre(trace, terms[dest := term], after)
  {
  }

  lemma {:induction false} WrittenTermsAre(trace: seq<Env>, terms: Terms, at: nat, writes: set<nat>)
    requires at + 1 < |trace| && TermsAre(trace, terms, trace[at]) && Step(trace[at], Other(writes), trace[at + 1])
    ensures TermsAre(trace, terms + map id | id in writes :: Read(Written(at, id), []), trace[at + 1])
  {
    var after := trace[at + 1];
    forall id | id in writes ensures TermIs(trace, Read(Written(at, id), []), after[id]) {
      assert SeedIs(trace, Written(at, id), after[id]) && ReadPath(after[id], []) == Some(after[id]);
    }
  }

  lemma {:induction false} TermStepIs(trace: seq<Env>, terms: Terms, at: nat, instruction: Instruction)
    requires at + 1 < |trace| && TermsAre(trace, terms, trace[at]) && Step(trace[at], instruction, trace[at + 1])
    ensures TermStep(terms, at, instruction).Some?
    ensures TermsAre(trace, TermStep(terms, at, instruction).value, trace[at + 1])
  {
    var before, after := trace[at], trace[at + 1];
    match instruction
    case FieldAccess(dest, obj, field) =>
      OperandTermIs(trace, terms, before, obj);
      var term := OperandTerm(terms, obj).value;
      FieldTermIs(trace, term, Eval(before, obj).value, field, after[dest]);
      OneTermIs(trace, terms, before, after, dest, FieldTerm(term, field).value);
    case Move(dest, src) =>
      OperandTermIs(trace, terms, before, src);
      OneTermIs(trace, terms, before, after, dest, OperandTerm(terms, src).value);
    case Other(writes) => WrittenTermsAre(trace, terms, at, writes);
  }

  /** In every execution every variable has the value of its term. */
  lemma {:induction false} TermsSound(params: set<nat>, path: seq<Instruction>, trace: seq<Env>, i: nat)
    requires Runs(params, path, trace) && i <= |path|
    ensures TermsOf(params, path[..i]).Some? && TermsAre(trace, TermsOf(params, path[..i]).value, trace[i])
  {
    if i == 0 {
      forall id | id in params ensures TermIs(trace, Read(Start(id), []), trace[0][id]) {
        assert SeedIs(trace, Start(id), trace[0][id]) && ReadPath(trace[0][id], []) == Some(trace[0][id]);
      }
    } else {
      TermsSound(params, path, trace, i - 1);
      assert Step(trace[i - 1], path[i - 1], trace[i - 1 + 1]);
      assert path[..i][..i - 1] == path[..i - 1];
      TermStepIs(trace, TermsOf(params, path[..i - 1]).value, i - 1, path[i - 1]);
    }
  }

  // ----- an execution for every choice of seeds

  /** Every seed is a record of all fields to the same depth; below the marked term the leaves differ. */
  datatype Choice = Choice(fields: set<string>, depth: nat, seed: Seed, path: seq<string>)

  predicate Marks(choice: Choice, seed: Seed, path: seq<string>)
  {
    seed == choice.seed && |choice.path| <= |path| && path[..|choice.path|] == choice.path
  }

  /** The term is as long as the marked one, and another. */
  predicate Beside(choice: Choice, seed: Seed, path: seq<string>)
  {
    |choice.path| <= |path| && (seed != choice.seed || path[..|choice.path|] != choice.path)
  }

  lemma Below(choice: Choice, seed: Seed, path: seq<string>, field: string)
    ensures Marks(choice, seed, path) ==> Marks(choice, seed, path + [field])
    ensures Beside(choice, seed, path) ==> Beside(choice, seed, path + [field])
  {
    if |choice.path| <= |path| {
      assert (path + [field])[..|choice.path|] == path[..|choice.path|];
    }
  }

  function Tree(choice: Choice, seed: Seed, path: seq<string>, depth: nat): Value
    decreases depth
  {
    if depth == 0 then Scalar(if Marks(choice, seed, path) then 1 else 0)
    else Record(map field | field in choice.fields :: Tree(choice, seed, path + [field], depth - 1))
  }

  function TermValue(choice: Choice, term: Term): Value
  {
    match term
    case Read(seed, path) => Tree(choice, seed, path, if |path| <= choice.depth then choice.depth - |path| else 0)
    case Constant(value) => value
  }

  predicate Shallow(terms: Terms, bound: nat)
  {
    forall id :: id in terms && terms[id].Read? ==> |terms[id].path| <= bound
  }

  function FieldsRead(path: seq<Instruction>): set<string>
  {
    set i | 0 <= i < |path| && path[i].FieldAccess? :: path[i].field
  }

  lemma {:induction false} TermsShallow(params: set<nat>, path: seq<Instruction>)
    requires TermsOf(params, path).Some?
    ensures Shallow(TermsOf(params, path).value, |path|)
  {
    if path != [] {
      TermsShallow(params, path[..|path| - 1]);
    }
  }

  function Valued(choice: Choice, terms: Terms): Env
  {
    map id | id in terms :: TermValue(choice, terms[id])
  }

  lemma OperandValued(choice: Choice, terms: Terms, operand: Operand)
    requires OperandTerm(terms, operand).Some?
    ensures Eval(Valued(choice, terms), operand) == Some(TermValue(choice, OperandTerm(terms, operand).value))
  {
  }

  lemma FieldValued(choice: Choice, term: Term, field: string)
    requires FieldTerm(term, field).Some? && field in choice.fields && (term.Read? ==> |term.path| < choice.depth)
    ensures ReadField(TermValue(choice, term), field) == Some(TermValue(choice, FieldTerm(term, field).value))
  {
  }

  lemma OperandShallow(terms: Terms, operand: Operand, bound: nat)
    requires Shallow(terms, bound) && OperandTerm(terms, operand).Some? && OperandTerm(terms, operand).value.Read?
    ensures |OperandTerm(terms, operand).value.path| <= bound
  {
  }

  lemma ChosenStep(choice: Choice, terms: Terms, at: nat, instruction: Instruction)
    requires TermStep(terms, at, instruction).Some? && Shallow(terms, at) && at < choice.depth
    requires instruction.FieldAccess? ==> instruction.field in choice.fields
    ensures Step(Valued(choice, terms), instruction, Valued(choice, TermStep(terms, at, instruction).value))
  {
    match instruction
    case FieldAccess(_, obj, field) =>
      var term := OperandTerm(terms, obj).value;
      OperandValued(choice, terms, obj);
      if term.Read? {
        OperandShallow(terms, obj, at);
      }
      FieldValued(choice, term, field);
    case Move(_, src) => OperandValued(choice, terms, src);
    case Other(_) =>
  }

  lemma {:induction false} PrefixTerms(params: set<nat>, path: seq<Instruction>, i: nat)
    requires TermsOf(params, path).Some? && i <= |path|
    ensures TermsOf(params, path[..i]).Some?
  {
    if i < |path| {
      PrefixTerms(params, path[..|path| - 1], i);
      assert path[..|path| - 1][..i] == path[..i];
    } else {
      assert path[..i] == path;
    }
  }

  ghost function ChosenTrace(choice: Choice, params: set<nat>, path: seq<Instruction>): seq<Env>
    requires forall i :: 0 <= i <= |path| ==> TermsOf(params, path[..i]).Some?
  {
    seq(|path| + 1, i requires 0 <= i <= |path| => Valued(choice, TermsOf(params, path[..i]).value))
  }

  /** Instructions that have terms execute, whatever the seeds are chosen to be. */
  lemma {:induction false} ChosenRuns(choice: Choice, params: set<nat>, path: seq<Instruction>)
    requires TermsOf(params, path).Some? && |path| <= choice.depth && FieldsRead(path) <= choice.fields
    ensures forall i :: 0 <= i <= |path| ==> TermsOf(params, path[..i]).Some?
    ensures Runs(params, path, ChosenTrace(choice, params, path))
  {
    forall i | 0 <= i <= |path| ensures TermsOf(params, path[..i]).Some? {
      PrefixTerms(params, path, i);
    }
    var trace := ChosenTrace(choice, params, path);
    forall i | 0 <= i < |path| ensures Step(trace[i], path[i], trace[i + 1]) {
      assert path[..i + 1][..i] == path[..i];
      TermsShallow(params, path[..i]);
      ChosenStep(choice, TermsOf(params, path[..i]).value, i, path[i]);
    }
    assert path[..0] == [];
  }

  lemma Subtree(choice: Choice, seed: Seed, path: seq<string>, less: nat, field: string)
    requires field in choice.fields
    ensures ReadField(Tree(choice, seed, path, less + 1), field) == Some(Tree(choice, seed, path + [field], less))
  {
  }

  /** Reading the field this often ends at the scalar. */
  predicate EndsAt(value: Value, field: string, depth: nat, n: int)
  {
    if depth == 0 then value == Scalar(n)
    else
      var inner := ReadField(value, field);
      inner.Some? && EndsAt(inner.value, field, depth - 1, n)
  }

  lemma {:induction false} EndsOnce(value: Value, field: string, low: nat, n: int, high: nat, m: int)
    requires EndsAt(value, field, low, n) && EndsAt(value, field, high, m)
    ensures low == high && n == m
    decreases low
  {
    if low > 0 && high > 0 {
      EndsOnce(ReadField(value, field).value, field, low - 1, n, high - 1, m);
    }
  }

  lemma EndsAbove(value: Value, field: string, depth: nat, n: int, inner: Value)
    requires ReadField(value, field) == Some(inner) && EndsAt(inner, field, depth, n)
    ensures EndsAt(value, field, depth + 1, n)
  {
  }

  /** The leaf below a term says whether the term is the marked one. */
  predicate Tells(choice: Choice, seed: Seed, path: seq<string>, n: int)
  {
    (Marks(choice, seed, path) ==> n == 1) && (Beside(choice, seed, path) ==> n == 0)
  }

  lemma {:induction false} TreeEnds(choice: Choice, seed: Seed, path: seq<string>, depth: nat, field: string)
    returns (n: int)
    requires field in choice.fields
    ensures EndsAt(Tree(choice, seed, path, depth), field, depth, n) && Tells(choice, seed, path, n)
    decreases depth
  {
    if depth == 0 {
      n := if Marks(choice, seed, path) then 1 else 0;
    } else {
      var less := depth - 1;
      n := TreeEnds(choice, seed, path + [field], less, field);
      assert Tells(choice, seed, path, n) by {
        Below(choice, seed, path, field);
      }
      Subtree(choice, seed, path, less, field);
      EndsAbove(Tree(choice, seed, path, less + 1), field, less, n, Tree(choice, seed, path + [field], less));
    }
  }

  function Marking(path: seq<Instruction>, field: string, seed: Seed): Choice
  {
    Choice(FieldsRead(path) + {field}, |path| + 1, seed, [field])
  }

  lemma {:induction false} ReadTold(path: seq<Instruction>, field: string, seed: Seed, inner: seq<string>, cell: nat)
    requires Read(seed, inner) != Read(Start(cell), [field]) && |inner| <= |path| + 1
    ensures TermValue(Marking(path, field, Start(cell)), Read(seed, inner)) !=
            TermValue(Marking(path, field, Start(cell)), Read(Start(cell), [field]))
  {
    var choice, one := Marking(path, field, Start(cell)), [field];
    assert field in choice.fields && one[..1] == one && (|inner| == 1 ==> inner[..1] == inner);
    var n := TreeEnds(choice, seed, inner, |path| + 1 - |inner|, field);
    var m := TreeEnds(choice, Start(cell), one, |path|, field);
    if TermValue(choice, Read(seed, inner)) == TermValue(choice, Read(Start(cell), one)) {
      EndsOnce(TermValue(choice, Read(seed, inner)), field, |path| + 1 - |inner|, n, |path|, m);
    }
  }

  lemma {:induction false} MarksTell(path: seq<Instruction>, field: string, cell: nat)
    ensures TermValue(Marking(path, field, Start(cell)), Read(Start(cell), [field])) !=
            TermValue(Marking(path, field, Written(0, cell)), Read(Start(cell), [field]))
  {
    var marked, other, one := Marking(path, field, Start(cell)), Marking(path, field, Written(0, cell)), [field];
    assert field in marked.fields && one[..1] == one;
    var n := TreeEnds(marked, Start(cell), one, |path|, field);
    var m := TreeEnds(other, Start(cell), one, |path|, field);
    if TermValue(marked, Read(Start(cell), one)) == TermValue(other, Read(Start(cell), one)) {
      EndsOnce(TermValue(marked, Read(Start(cell), one)), field, |path|, n, |path|, m);
    }
  }

  /** Where a term is not this field of the Cell, some choice of seeds makes their values differ. */
  lemma {:induction false} TermsTold(path: seq<Instruction>, field: string, term: Term, cell: nat) returns (seed: Seed)
    requires term != Read(Start(cell), [field]) && (term.Read? ==> |term.path| <= |path| + 1)
    ensures TermValue(Marking(path, field, seed), term) !=
            TermValue(Marking(path, field, seed), Read(Start(cell), [field]))
  {
    seed := Start(cell);
    if term.Read? {
      ReadTold(path, field, term.seed, term.path, cell);
    } else if TermValue(Marking(path, field, seed), Read(Start(cell), [field])) == term.value {
      MarksTell(path, field, cell);
      seed := Written(0, cell);
    }
  }

  // ----- fields of a Cell that a path leaves alone

  /** After the trace the operand is the field of the Cell that the parameter was given. */
  predicate Preserved(trace: seq<Env>, operand: Operand, cell: nat, field: string)
    requires trace != []
  {
    && cell in trace[0] && Eval(trace[|trace| - 1], operand).Some?
    && ReadField(trace[0][cell], field) == Eval(trace[|trace| - 1], operand)
  }

  ghost predicate Conserves(params: set<nat>, path: seq<Instruction>, operand: Operand, cell: nat, field: string)
  {
    forall trace :: Runs(params, path, trace) ==> Preserved(trace, operand, cell, field)
  }

  /** The instructions cannot execute, or leave in the operand this field of the Cell. */
  predicate LeavesField(params: set<nat>, path: seq<Instruction>, operand: Operand, cell: nat, field: string)
  {
    var terms := TermsOf(params, path);
    terms.None? || OperandTerm(terms.value, operand) == Some(Read(Start(cell), [field]))
  }

  lemma {:induction false} FieldOfCell(trace: seq<Env>, cell: nat, field: string, path: seq<string>, value: Value)
    requires path == [field] && TermIs(trace, Read(Start(cell), path), value)
    ensures |trace| > 0 && cell in trace[0] && ReadField(trace[0][cell], field) == Some(value)
  {
    var root :| SeedIs(trace, Start(cell), root) && ReadPath(root, path) == Some(value);
    assert path[..0] == [];
    assert ReadPath(root, path[..0]) == Some(root);
  }

  lemma {:induction false} LeftIsPreserved(params: set<nat>, path: seq<Instruction>, operand: Operand, cell: nat,
                                           field: string, trace: seq<Env>)
    requires Runs(params, path, trace) && LeavesField(params, path, operand, cell, field)
    ensures Preserved(trace, operand, cell, field)
  {
    TermsSound(params, path, trace, |path|);
    assert path[..|path|] == path;
    var terms := TermsOf(params, path).value;
    assert operand.Var? && terms[operand.id] == Read(Start(cell), [field]);
    FieldOfCell(trace, cell, field, [field], trace[|path|][operand.id]);
  }

  lemma {:induction false} LostDiffers(params: set<nat>, path: seq<Instruction>, operand: Operand, cell: nat,
                                       field: string)
    returns (trace: seq<Env>)
    requires cell in params && !LeavesField(params, path, operand, cell, field)
    ensures Runs(params, path, trace) && !Preserved(trace, operand, cell, field)
  {
    var terms := TermsOf(params, path).value;
    var term, seed := OperandTerm(terms, operand), Start(cell);
    TermsShallow(params, path);
    if term.Some? {
      seed := TermsTold(path, field, term.value, cell);
    }
    var choice := Marking(path, field, seed);
    ChosenRuns(choice, params, path);
    trace := ChosenTrace(choice, params, path);
    assert path[..|path|] == path && path[..0] == [];
    FieldValued(choice, Read(Start(cell), []), field);
    assert [] + [field] == [field];
    if term.Some? {
      OperandValued(choice, terms, operand);
    }
  }

  /** A field of a Cell is what every execution of the instructions leaves in the operand, if and only if they cannot
      execute or the operand's term is that field. */
  lemma {:induction false} ConservesExactly(params: set<nat>, path: seq<Instruction>, operand: Operand, cell: nat,
                                            field: string)
    requires cell in params
    ensures Conserves(params, path, operand, cell, field) <==> LeavesField(params, path, operand, cell, field)
  {
    if LeavesField(params, path, operand, cell, field) {
      forall trace | Runs(params, path, trace) ensures Preserved(trace, operand, cell, field) {
        LeftIsPreserved(params, path, operand, cell, field, trace);
      }
    } else {
      var trace := LostDiffers(params, path, operand, cell, field);
    }
  }
}
