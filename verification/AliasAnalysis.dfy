/** Field aliases of an action body: what they mean, and when they hold. */
module AliasAnalysis {
  import opened Options

  datatype Value = Scalar(n: int) | Record(fields: map<string, Value>)

  datatype Operand = Var(id: nat) | Literal(value: Value)

  /** The instructions the analysis reads; every other one is known by the variables it writes. */
  datatype Instruction =
    | FieldAccess(dest: nat, obj: Operand, field: string)
    | Move(dest: nat, src: Operand)
    | Other(writes: set<nat>)

  /** A variable holds what the dotted `field` path reads from the root variable. */
  datatype Alias = Alias(root: nat, field: string)

  type Aliases = map<nat, Alias>
  type Env = map<nat, Value>

  // ----- the analysis

  function AliasStep(aliases: Aliases, instruction: Instruction): Aliases
  {
    match instruction
    case FieldAccess(dest, Var(obj), field) =>
      aliases[dest := if obj in aliases then Alias(aliases[obj].root, aliases[obj].field + "." + field)
                      else Alias(obj, field)]
    case Move(dest, Var(src)) => if src in aliases then aliases[dest := aliases[src]] else aliases
    case _ => aliases
  }

  function AliasesOf(body: seq<Instruction>): Aliases
  {
    if body == [] then map[] else AliasStep(AliasesOf(body[..|body| - 1]), body[|body| - 1])
  }

  method FieldAliases(body: seq<Instruction>) returns (aliases: Aliases)
    ensures aliases == AliasesOf(body)
  {
    aliases := map[];
    for i := 0 to |body|
      invariant aliases == AliasesOf(body[..i])
    {
      assert body[..i + 1][..i] == body[..i];
      match body[i]
      case FieldAccess(dest, Var(obj), field) =>
        var alias := if obj in aliases then Alias(aliases[obj].root, aliases[obj].field + "." + field)
                     else Alias(obj, field);
        aliases := aliases[dest := alias];
      case Move(dest, Var(src)) =>
        if src in aliases {
          aliases := aliases[dest := aliases[src]];
        }
      case _ =>
    }
    assert body[..|body|] == body;
  }

  // ----- execution

  function Writes(instruction: Instruction): set<nat>
  {
    match instruction
    case FieldAccess(dest, _, _) => {dest}
    case Move(dest, _) => {dest}
    case Other(writes) => writes
  }

  function Eval(env: Env, operand: Operand): Option<Value>
  {
    match operand
    case Var(id) => if id in env then Some(env[id]) else None
    case Literal(value) => Some(value)
  }

  function ReadField(value: Value, field: string): Option<Value>
  {
    if value.Record? && field in value.fields then Some(value.fields[field]) else None
  }

  /** One instruction: it reads defined operands and changes only what it writes. */
  ghost predicate Step(before: Env, instruction: Instruction, after: Env)
  {
    && after.Keys == before.Keys + Writes(instruction)
    && (forall id :: id in before && id !in Writes(instruction) ==> after[id] == before[id])
    && match instruction
       case FieldAccess(dest, obj, field) =>
         var value := Eval(before, obj);
         value.Some? && dest in after && ReadField(value.value, field) == Some(after[dest])
       case Move(dest, src) => dest in after && Eval(before, src) == Some(after[dest])
       case Other(_) => true
  }

  ghost predicate Executes(body: seq<Instruction>, trace: seq<Env>)
  {
    |trace| == |body| + 1 && forall i :: 0 <= i < |body| ==> Step(trace[i], body[i], trace[i + 1])
  }

  lemma {:induction false} UnwrittenStays(path: seq<Instruction>, trace: seq<Env>, id: nat, i: nat)
    requires Executes(path, trace) && i <= |path| && id in trace[0]
    requires forall k :: 0 <= k < |path| ==> id !in Writes(path[k])
    ensures id in trace[i] && trace[i][id] == trace[0][id]
  {
    if i > 0 {
      UnwrittenStays(path, trace, id, i - 1);
      assert Step(trace[i - 1], path[i - 1], trace[i - 1 + 1]);
    }
  }

  // ----- what an alias means

  function ReadPath(value: Value, path: seq<string>): Option<Value>
  {
    if path == [] then Some(value)
    else
      var rest := ReadPath(value, path[..|path| - 1]);
      if rest.None? then None else ReadField(rest.value, path[|path| - 1])
  }

  /** The dotted text of a non-empty path. */
  function Dotted(path: seq<string>): string
    requires path != []
  {
    if |path| == 1 then path[0] else Dotted(path[..|path| - 1]) + "." + path[|path| - 1]
  }

  predicate Denotes(env: Env, id: nat, alias: Alias, path: seq<string>)
  {
    && path != [] && Dotted(path) == alias.field
    && id in env && alias.root in env && ReadPath(env[alias.root], path) == Some(env[id])
  }

  ghost predicate Holds(env: Env, id: nat, alias: Alias)
  {
    exists path :: Denotes(env, id, alias, path)
  }

  ghost predicate AllHold(env: Env, aliases: Aliases)
  {
    forall id :: id in aliases ==> Holds(env, id, aliases[id])
  }

  lemma {:induction false} HoldsLater(before: Env, after: Env, id: nat, alias: Alias)
    requires Holds(before, id, alias) && {id, alias.root} <= after.Keys
    requires after[id] == before[id] && after[alias.root] == before[alias.root]
    ensures Holds(after, id, alias)
  {
    var path :| Denotes(before, id, alias, path);
    assert Denotes(after, id, alias, path);
  }

  /** What a step reads of an alias or of its root is an alias afterwards, where it writes neither. */
  lemma {:induction false} FieldRecorded(before: Env, after: Env, dest: nat, obj: nat, field: string,
                                         alias: Option<Alias>)
    requires Step(before, FieldAccess(dest, Var(obj), field), after)
    requires alias.Some? ==> Holds(before, obj, alias.value) && alias.value.root != dest
    requires alias.None? ==> obj != dest
    ensures Holds(after, dest, if alias.Some? then Alias(alias.value.root, alias.value.field + "." + field)
                               else Alias(obj, field))
  {
    if alias.Some? {
      var path :| Denotes(before, obj, alias.value, path);
      var longer := path + [field];
      assert longer[..|path|] == path;
      assert Denotes(after, dest, Alias(alias.value.root, alias.value.field + "." + field), longer);
    } else {
      assert [field][..0] == [];
      assert Denotes(after, dest, Alias(obj, field), [field]);
    }
  }

  lemma {:induction false} MoveRecorded(before: Env, after: Env, dest: nat, src: nat, alias: Alias)
    requires Step(before, Move(dest, Var(src)), after) && Holds(before, src, alias) && alias.root != dest
    ensures Holds(after, dest, alias)
  {
    var path :| Denotes(before, src, alias, path);
    assert Denotes(after, dest, alias, path);
  }

  // ----- one block of instructions, executed in order

  /** The instruction records an alias of this variable. */
  predicate Records(aliases: Aliases, instruction: Instruction, id: nat)
  {
    match instruction
    case FieldAccess(dest, Var(_), _) => id == dest
    case Move(dest, Var(src)) => id == dest && src in aliases
    case _ => false
  }

  /** Each written variable that is aliased afterwards is recorded here, with a root other than itself, and no alias of
      another variable has a written root. */
  predicate StepKeeps(aliases: Aliases, instruction: Instruction)
  {
    var after := AliasStep(aliases, instruction);
    forall id :: id in after ==>
      if id in Writes(instruction) then Records(aliases, instruction, id) && after[id].root != id
      else after[id].root !in Writes(instruction)
  }

  predicate Undisturbed(body: seq<Instruction>)
  {
    forall i :: 0 <= i < |body| ==> StepKeeps(AliasesOf(body[..i]), body[i])
  }

  lemma {:induction false} AliasStepHolds(before: Env, after: Env, aliases: Aliases, instruction: Instruction)
    requires Step(before, instruction, after) && StepKeeps(aliases, instruction) && AllHold(before, aliases)
    ensures AllHold(after, AliasStep(aliases, instruction))
  {
    var grown := AliasStep(aliases, instruction);
    forall id | id in grown ensures Holds(after, id, grown[id]) {
      if id !in Writes(instruction) {
        assert Holds(before, id, aliases[id]);
        HoldsLater(before, after, id, grown[id]);
      } else {
        match instruction
        case FieldAccess(dest, Var(obj), field) =>
          FieldRecorded(before, after, dest, obj, field, if obj in aliases then Some(aliases[obj]) else None);
        case Move(dest, Var(src)) => MoveRecorded(before, after, dest, src, aliases[src]);
      }
    }
  }

  /** Every recorded alias holds after every execution of an undisturbed body. */
  lemma {:induction false} AliasesSound(body: seq<Instruction>, trace: seq<Env>)
    requires Executes(body, trace) && Undisturbed(body)
    ensures AllHold(trace[|body|], AliasesOf(body))
  {
    AliasesSoundUpTo(body, trace, |body|);
    assert body[..|body|] == body;
  }

  lemma {:induction false} AliasesSoundUpTo(body: seq<Instruction>, trace: seq<Env>, i: nat)
    requires Executes(body, trace) && Undisturbed(body) && i <= |body|
    ensures AllHold(trace[i], AliasesOf(body[..i]))
  {
    if i > 0 {
      AliasesSoundUpTo(body, trace, i - 1);
      assert Step(trace[i - 1], body[i - 1], trace[i - 1 + 1]);
      AliasStepHolds(trace[i - 1], trace[i], AliasesOf(body[..i - 1]), body[i - 1]);
      assert body[..i][..i - 1] == body[..i - 1];
    }
  }

  // ----- blocks in any order

  /** What the instruction writes agrees with the aliases of the whole body, and is the root of none. */
  predicate Agrees(aliases: Aliases, instruction: Instruction)
  {
    && (forall id :: id in aliases ==> aliases[id].root !in Writes(instruction))
    && match instruction
       case FieldAccess(dest, Var(obj), field) =>
         dest in aliases ==>
           aliases[dest] == if obj in aliases then Alias(aliases[obj].root, aliases[obj].field + "." + field)
                            else Alias(obj, field)
       case Move(dest, Var(src)) => dest in aliases ==> src in aliases && aliases[src] == aliases[dest]
       case _ => Writes(instruction) !! aliases.Keys
  }

  /** The aliases of the variables that are defined hold. */
  ghost predicate DefinedHold(env: Env, aliases: Aliases)
  {
    forall id :: id in aliases && id in env ==> Holds(env, id, aliases[id])
  }

  lemma {:induction false} AgreedStepHolds(before: Env, after: Env, aliases: Aliases, instruction: Instruction)
    requires Step(before, instruction, after) && Agrees(aliases, instruction) && DefinedHold(before, aliases)
    ensures DefinedHold(after, aliases)
  {
    forall id | id in aliases && id in after ensures Holds(after, id, aliases[id]) {
      if id !in Writes(instruction) {
        HoldsLater(before, after, id, aliases[id]);
      } else {
        match instruction
        case FieldAccess(dest, Var(obj), field) =>
          FieldRecorded(before, after, dest, obj, field, if obj in aliases then Some(aliases[obj]) else None);
        case Move(dest, Var(src)) => MoveRecorded(before, after, dest, src, aliases[src]);
      }
    }
  }

  lemma {:induction false} AgreedPathHolds(aliases: Aliases, path: seq<Instruction>, trace: seq<Env>, i: nat)
    requires Executes(path, trace) && i <= |path| && trace[0].Keys !! aliases.Keys
    requires forall k :: 0 <= k < |path| ==> Agrees(aliases, path[k])
    ensures DefinedHold(trace[i], aliases)
  {
    if i > 0 {
      AgreedPathHolds(aliases, path, trace, i - 1);
      assert Step(trace[i - 1], path[i - 1], trace[i - 1 + 1]);
      AgreedStepHolds(trace[i - 1], trace[i], aliases, path[i - 1]);
    }
  }

  // ----- texts without dots

  lemma LongPathIsDotted(path: seq<string>)
    requires |path| > 1
    ensures '.' in Dotted(path)
  {
    var front := Dotted(path[..|path| - 1]);
    assert Dotted(path)[|front|] == '.';
  }

  /** A text without a dot is the path of one field. */
  lemma UndottedPath(value: Value, path: seq<string>, text: string)
    requires path != [] && Dotted(path) == text && '.' !in text
    ensures path == [text] && ReadPath(value, path) == ReadField(value, text)
  {
    if |path| > 1 {
      LongPathIsDotted(path);
    } else {
      assert path[..0] == [] && path == [path[0]];
    }
  }
}
