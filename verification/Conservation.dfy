/** Conservation evidence of an action: what it means, exactly when it is right, and where it is wrong. */
module Conservation {
  import opened Options
  import opened AliasAnalysis
  import opened ValueTerms

  datatype Parameter = Parameter(name: string, id: nat, typeName: Option<string>)

  datatype Consume = Consume(binding: string, operation: string)

  datatype Create = Create(operation: string, typeName: string, fields: seq<(string, Operand)>)

  datatype Action = Action(params: seq<Parameter>, consumes: seq<Consume>, creates: seq<Create>, body: seq<Instruction>)

  /** The first parameter of this name and type. */
  function FindParameter(params: seq<Parameter>, name: string, typeName: string): Option<Parameter>
  {
    if params == [] then None
    else if params[0].name == name && params[0].typeName == Some(typeName) then Some(params[0])
    else FindParameter(params[1..], name, typeName)
  }

  function Consumed(action: Action, consumes: seq<Consume>, typeName: string): seq<Parameter>
  {
    if consumes == [] then []
    else
      var found := FindParameter(action.params, consumes[0].binding, typeName);
      (if consumes[0].operation == "consume" && found.Some? then [found.value] else []) +
        Consumed(action, consumes[1..], typeName)
  }

  function Created(creates: seq<Create>, typeName: string): seq<Create>
  {
    if creates == [] then []
    else
      (if creates[0].operation in {"create", "output"} && creates[0].typeName == typeName then [creates[0]] else [])
      + Created(creates[1..], typeName)
  }

  function FieldOperand(fields: seq<(string, Operand)>, name: string): Option<Operand>
  {
    if fields == [] then None else if fields[0].0 == name then Some(fields[0].1) else FieldOperand(fields[1..], name)
  }

  /** One consumed and one created Cell of the type, the created amount an alias of the consumed one. */
  predicate HasConservationEvidence(action: Action, typeName: string)
  {
    var consumed, created := Consumed(action, action.consumes, typeName), Created(action.creates, typeName);
    && |consumed| == 1 && |created| == 1
    && var amount := FieldOperand(created[0].fields, "amount");
       && amount.Some? && amount.value.Var?
       && var aliases := AliasesOf(action.body);
          amount.value.id in aliases && aliases[amount.value.id] == Alias(consumed[0].id, "amount")
  }

  function ParamIds(action: Action): set<nat>
  {
    set i | 0 <= i < |action.params| :: action.params[i].id
  }

  // ----- what the evidence means

  function TheCell(action: Action, typeName: string): nat
    requires |Consumed(action, action.consumes, typeName)| == 1
  {
    Consumed(action, action.consumes, typeName)[0].id
  }

  function TheAmount(action: Action, typeName: string): Operand
    requires HasConservationEvidence(action, typeName)
  {
    FieldOperand(Created(action.creates, typeName)[0].fields, "amount").value
  }

  lemma {:induction false} FoundIsParameter(params: seq<Parameter>, name: string, typeName: string)
    ensures FindParameter(params, name, typeName).Some? ==> FindParameter(params, name, typeName).value in params
  {
    if params != [] {
      FoundIsParameter(params[1..], name, typeName);
    }
  }

  lemma {:induction false} ConsumedAreParameters(action: Action, consumes: seq<Consume>, typeName: string, k: nat)
    requires k < |Consumed(action, consumes, typeName)|
    ensures Consumed(action, consumes, typeName)[k].id in ParamIds(action)
  {
    var found := FindParameter(action.params, consumes[0].binding, typeName);
    FoundIsParameter(action.params, consumes[0].binding, typeName);
    var first := if consumes[0].operation == "consume" && found.Some? then 1 else 0;
    if k >= first {
      ConsumedAreParameters(action, consumes[1..], typeName, k - first);
    }
  }

  /** An action with evidence conserves the amount in every execution of a path, if and only if the path cannot execute
      or its terms leave the amount of the consumed Cell in the created one. */
  lemma EvidenceExactly(action: Action, typeName: string, path: seq<Instruction>)
    requires HasConservationEvidence(action, typeName)
    ensures var cell, amount := TheCell(action, typeName), TheAmount(action, typeName);
            Conserves(ParamIds(action), path, amount, cell, "amount") <==>
            LeavesField(ParamIds(action), path, amount, cell, "amount")
  {
    ConsumedAreParameters(action, action.consumes, typeName, 0);
    ConservesExactly(ParamIds(action), path, TheAmount(action, typeName), TheCell(action, typeName), "amount");
  }

  lemma {:induction false} HeldIsPreserved(trace: seq<Env>, id: nat, cell: nat, field: string)
    requires trace != [] && '.' !in field && cell in trace[0] && cell in trace[|trace| - 1]
    requires trace[|trace| - 1][cell] == trace[0][cell] && Holds(trace[|trace| - 1], id, Alias(cell, field))
    ensures Preserved(trace, Var(id), cell, field)
  {
    var env := trace[|trace| - 1];
    var path :| Denotes(env, id, Alias(cell, field), path);
    UndottedPath(env[cell], path, field);
  }

  predicate Unwritten(body: seq<Instruction>, id: nat)
  {
    forall i :: 0 <= i < |body| ==> id !in Writes(body[i])
  }

  /** Evidence means conservation in every execution of an undisturbed body that does not write the consumed Cell. */
  lemma {:induction false} EvidenceMeansConservation(action: Action, typeName: string)
    requires HasConservationEvidence(action, typeName)
    requires Undisturbed(action.body) && Unwritten(action.body, TheCell(action, typeName))
    ensures Conserves(ParamIds(action), action.body, TheAmount(action, typeName), TheCell(action, typeName), "amount")
  {
    var cell, amount := TheCell(action, typeName), TheAmount(action, typeName);
    ConsumedAreParameters(action, action.consumes, typeName, 0);
    forall trace | Runs(ParamIds(action), action.body, trace) ensures Preserved(trace, amount, cell, "amount") {
      UnwrittenStays(action.body, trace, cell, |action.body|);
      AliasesSound(action.body, trace);
      HeldIsPreserved(trace, amount.id, cell, "amount");
    }
  }

  /** Whatever the order of the blocks: where every instruction agrees with the aliases of the body, evidence means
      conservation in every execution of a path that defines the created amount. */
  lemma {:induction false} EvidenceOnEveryPath(action: Action, typeName: string, path: seq<Instruction>,
                                               trace: seq<Env>)
    requires HasConservationEvidence(action, typeName) && ParamIds(action) !! AliasesOf(action.body).Keys
    requires forall k :: 0 <= k < |action.body| ==> Agrees(AliasesOf(action.body), action.body[k])
    requires forall k :: 0 <= k < |path| ==> path[k] in action.body
    requires Runs(ParamIds(action), path, trace) && Eval(trace[|path|], TheAmount(action, typeName)).Some?
    ensures Preserved(trace, TheAmount(action, typeName), TheCell(action, typeName), "amount")
  {
    var cell, amount, aliases := TheCell(action, typeName), TheAmount(action, typeName), AliasesOf(action.body);
    ConsumedAreParameters(action, action.consumes, typeName, 0);
    AgreedPathHolds(aliases, path, trace, |path|);
    assert aliases[amount.id].root == cell;
    UnwrittenStays(path, trace, cell, |path|);
    HeldIsPreserved(trace, amount.id, cell, "amount");
  }

  // ----- evidence that is wrong

  /** An action that consumes one Cell, held by variable 0, and creates one with the amount in variable 2. */
  function Transfer(name: string, typeName: string, body: seq<Instruction>): Action
  {
    Action([Parameter(name, 0, Some(typeName))], [Consume(name, "consume")],
           [Create("create", typeName, [("amount", Var(2))])], body)
  }

  lemma TransferEvidence(name: string, typeName: string, body: seq<Instruction>)
    requires 2 in AliasesOf(body) && AliasesOf(body)[2] == Alias(0, "amount")
    ensures var action := Transfer(name, typeName, body);
            && ParamIds(action) == {0} && HasConservationEvidence(action, typeName)
            && TheCell(action, typeName) == 0 && TheAmount(action, typeName) == Var(2)
  {
    var action := Transfer(name, typeName, body);
    assert action.consumes[1..] == [] && action.creates[1..] == [];
    assert action.params[0].id == 0;
    assert Consumed(action, action.consumes, typeName) == [action.params[0]];
    assert Created(action.creates, typeName) == [action.creates[0]];
  }

  lemma Unfolded(body: seq<Instruction>, last: Instruction, params: set<nat>)
    ensures AliasesOf(body + [last]) == AliasStep(AliasesOf(body), last)
    ensures TermsOf(params, body).Some? ==>
            TermsOf(params, body + [last]) == TermStep(TermsOf(params, body).value, |body|, last)
  {
    assert (body + [last])[..|body|] == body;
  }

  /** A mutable local that is read from the consumed Cell, changed and created: variable 3 is the changed value. */
  function Reassigned(): seq<Instruction>
  {
    [FieldAccess(1, Var(0), "amount"), Move(2, Var(1)), Other({3}), Move(2, Var(3))]
  }

  /** The action has evidence, and some execution does not conserve the amount. */
  lemma ReassignedNotConserved(name: string, typeName: string)
    ensures var action := Transfer(name, typeName, Reassigned());
            && HasConservationEvidence(action, typeName)
            && !Conserves(ParamIds(action), action.body, TheAmount(action, typeName), TheCell(action, typeName),
                          "amount")
  {
    var body := Reassigned();
    var first, second, third := body[..1], body[..2], body[..3];
    Unfolded([], body[0], {0});
    Unfolded(first, body[1], {0});
    Unfolded(second, body[2], {0});
    Unfolded(third, body[3], {0});
    assert first == [] + [body[0]] && second == first + [body[1]] && third == second + [body[2]] &&
           body == third + [body[3]];
    TransferEvidence(name, typeName, body);
    EvidenceExactly(Transfer(name, typeName, body), typeName, body);
  }

  /** One variable written by the two branches of an expression, in two blocks. */
  function Branched(n: int): seq<Instruction>
  {
    [FieldAccess(1, Var(0), "amount"), Move(2, Var(1)), Move(2, Literal(Scalar(n)))]
  }

  /** The action has evidence, and the path through the second branch does not conserve the amount. */
  lemma BranchNotConserved(name: string, typeName: string, n: int)
    ensures var action := Transfer(name, typeName, Branched(n));
            && HasConservationEvidence(action, typeName)
            && !Conserves(ParamIds(action), action.body[2..], TheAmount(action, typeName), TheCell(action, typeName),
                          "amount")
  {
    var body := Branched(n);
    var first, second := body[..1], body[..2];
    Unfolded([], body[0], {0});
    Unfolded(first, body[1], {0});
    Unfolded(second, body[2], {0});
    assert first == [] + [body[0]] && second == first + [body[1]] && body == second + [body[2]];
    TransferEvidence(name, typeName, body);
    Unfolded([], body[2], {0});
    assert body[2..] == [] + [body[2]];
    EvidenceExactly(Transfer(name, typeName, body), typeName, body[2..]);
  }
}
