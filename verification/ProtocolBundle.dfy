/** ProtocolBundle conflict detection: claims against a transaction skeleton, closed roles over them, and what no
    conflict means. */
module ProtocolBundle {
  import opened Options
  import opened Sorting
  import opened Claims

  // ----- the bundle

  datatype CellSlot = CellSlot(commitment: string, capacity: nat, lock: string, typeScript: Option<string>)

  datatype WitnessSlot = WitnessSlot(lock: Option<string>, inputType: Option<string>, outputType: Option<string>)

  datatype Skeleton = Skeleton(
    inputs: seq<CellSlot>,
    outputs: seq<CellSlot>,
    witnesses: seq<WitnessSlot>,
    cellDeps: seq<string>,
    headerDeps: seq<string>,
    feePolicy: string,
    changePolicy: string
  )

  /** `named` and `wellFormed` say whether the texts of the claim pass their format checks. */
  datatype RoleClaim = RoleClaim(
    artifact: string,
    name: string,
    output: bool,
    index: nat,
    exclusive: bool,
    expectedLock: Option<string>,
    expectedType: Option<string>,
    resource: Option<string>,
    commitment: Option<string>,
    exactCapacity: Option<nat>,
    minimumCapacity: Option<nat>,
    named: bool,
    wellFormed: bool
  )

  datatype WitnessClaim = WitnessClaim(
    artifact: string,
    name: string,
    index: nat,
    field: Field,
    exclusive: bool,
    abi: string,
    commitment: Option<string>,
    signingDomain: Option<string>,
    named: bool,
    wellFormed: bool
  )

  datatype DepClaim = DepClaim(artifact: string, name: string, index: nat, dep: string, named: bool, wellFormed: bool)

  datatype PolicyClaim = PolicyClaim(artifact: string, change: bool, exclusive: bool, policy: string, wellFormed: bool)

  datatype Schema = Schema(typeName: string, schemaHash: string)

  datatype Artifact = Artifact(id: string, network: string, profile: string, script: string, schemas: set<Schema>)

  datatype Participant = Participant(artifact: string, claim: string, script: string)

  datatype ClosedRole = ClosedRole(id: string, cell: bool, schema: Schema, source: Slot, provider: Participant,
                                   consumers: seq<Participant>)

  datatype Bundle = Bundle(
    network: string,
    artifacts: seq<Artifact>,
    skeleton: Skeleton,
    roles: seq<RoleClaim>,
    closedRoles: seq<ClosedRole>,
    witnesses: seq<WitnessClaim>,
    cellDeps: seq<DepClaim>,
    headerDeps: seq<DepClaim>,
    policies: seq<PolicyClaim>
  )

  // ----- each claim against the skeleton

  function Says(aspect: Aspect, value: Option<string>): map<Aspect, Said>
  {
    if value.Some? then map[aspect := Text(value.value)] else map[]
  }

  function When(condition: bool, site: Site): set<Site>
  {
    if condition then {site} else {}
  }

  function CellsAt(tx: Skeleton, output: bool): seq<CellSlot>
  {
    if output then tx.outputs else tx.inputs
  }

  function RoleSlot(r: RoleClaim): Slot
  {
    CellAt(r.output, r.index)
  }

  function OfRole(tx: Skeleton, r: RoleClaim): Claim
  {
    var slot, cells := RoleSlot(r), CellsAt(tx, r.output);
    if r.index >= |cells| then Claim(slot, r.artifact, {Outside(slot)}, false, r.exclusive, map[])
    else
      var cell := cells[r.index];
      var own := When(r.expectedLock.Some? && r.expectedLock.value != cell.lock, Differs(slot, Lock))
                 + When(r.expectedType.Some? && cell.typeScript != r.expectedType, Differs(slot, Type))
                 + When(r.commitment.Some? && r.commitment.value != cell.commitment, Differs(slot, Commitment))
                 + (if r.exactCapacity.Some? then
                      When(r.exactCapacity.value != cell.capacity,
                           ExactCapacity(slot, r.exactCapacity.value, cell.capacity))
                    else {})
                 + (if r.minimumCapacity.Some? then
                      When(cell.capacity < r.minimumCapacity.value,
                           MinimumCapacity(slot, r.minimumCapacity.value, cell.capacity))
                    else {});
      Claim(slot, r.artifact, own, true, r.exclusive,
            Says(Lock, r.expectedLock) + Says(Type, r.expectedType) + Says(Resource, r.resource) +
              Says(Commitment, r.commitment))
  }

  function WitnessValue(w: WitnessSlot, field: Field): Option<string>
  {
    match field
    case LockField => w.lock
    case InputTypeField => w.inputType
    case OutputTypeField => w.outputType
  }

  function OfWitness(tx: Skeleton, w: WitnessClaim): Claim
  {
    var slot := WitnessAt(w.index, w.field);
    if w.index >= |tx.witnesses| then Claim(slot, w.artifact, {Outside(slot)}, false, w.exclusive, map[])
    else
      Claim(slot, w.artifact,
            When(w.commitment.Some? && WitnessValue(tx.witnesses[w.index], w.field) != w.commitment,
                 Differs(slot, Value)),
            true, w.exclusive,
            Says(Abi, Some(w.abi)) + Says(Value, w.commitment) + Says(SigningDomain, w.signingDomain))
  }

  function OfDep(header: bool, deps: seq<string>, d: DepClaim): Claim
  {
    Claim(if header then HeaderDepNamed(d.name) else CellDepNamed(d.name), d.artifact,
          if d.index >= |deps| then {DepOutside(header, d.index)}
          else When(deps[d.index] != d.dep, DepDiffers(header, d.index)),
          true, false, map[Position := Number(d.index)])
  }

  function OfPolicy(tx: Skeleton, p: PolicyClaim): Claim
  {
    Claim(PolicyFor(p.change), p.artifact,
          When(p.policy != (if p.change then tx.changePolicy else tx.feePolicy), Differs(PolicyFor(p.change), Policy)),
          true, p.exclusive, map[Policy := Text(p.policy)])
  }

  function RoleClaims(tx: Skeleton, roles: seq<RoleClaim>): seq<Claim>
  {
    Map(r => OfRole(tx, r), roles)
  }

  function WitnessClaims(tx: Skeleton, witnesses: seq<WitnessClaim>): seq<Claim>
  {
    Map(w => OfWitness(tx, w), witnesses)
  }

  function DepClaims(header: bool, deps: seq<string>, claims: seq<DepClaim>): seq<Claim>
  {
    Map(d => OfDep(header, deps, d), claims)
  }

  function PolicyClaims(tx: Skeleton, policies: seq<PolicyClaim>): seq<Claim>
  {
    Map(p => OfPolicy(tx, p), policies)
  }

  /** All claims of one bundle, family after family; their slots keep the families apart. */
  function ClaimsOf(b: Bundle): seq<Claim>
  {
    RoleClaims(b.skeleton, b.roles) + WitnessClaims(b.skeleton, b.witnesses) +
      DepClaims(false, b.skeleton.cellDeps, b.cellDeps)
    + DepClaims(true, b.skeleton.headerDeps, b.headerDeps) + PolicyClaims(b.skeleton, b.policies)
  }

  // ----- closed roles

  function FindArtifact(artifacts: seq<Artifact>, id: string): Option<Artifact>
  {
    if artifacts == [] then None
    else if artifacts[0].id == id then Some(artifacts[0])
    else FindArtifact(artifacts[1..], id)
  }

  function FindRole(roles: seq<RoleClaim>, artifact: string, name: string): Option<RoleClaim>
  {
    if roles == [] then None
    else if roles[0].artifact == artifact && roles[0].name == name then Some(roles[0])
    else FindRole(roles[1..], artifact, name)
  }

  function FindWitness(witnesses: seq<WitnessClaim>, artifact: string, name: string): Option<WitnessClaim>
  {
    if witnesses == [] then None
    else if witnesses[0].artifact == artifact && witnesses[0].name == name then Some(witnesses[0])
    else FindWitness(witnesses[1..], artifact, name)
  }

  function ParticipantsOf(role: ClosedRole): seq<Participant>
  {
    [role.provider] + role.consumers
  }

  function ParticipantArtifacts(role: ClosedRole): set<string>
  {
    set p | p in ParticipantsOf(role) :: p.artifact
  }

  /** The physical claim of a participant: where it is, whether it is exclusive, and what it names. */
  datatype Physical = Physical(slot: Slot, exclusive: bool, typeName: Option<string>)

  function PhysicalClaim(b: Bundle, role: ClosedRole, p: Participant): Option<Physical>
  {
    if role.cell then
      var claim := FindRole(b.roles, p.artifact, p.claim);
      if claim.None? then None else Some(Physical(RoleSlot(claim.value), claim.value.exclusive, claim.value.resource))
    else
      var claim := FindWitness(b.witnesses, p.artifact, p.claim);
      if claim.None? then None
      else Some(Physical(WitnessAt(claim.value.index, claim.value.field), claim.value.exclusive, Some(claim.value.abi)))
  }

  function If(condition: bool, conflict: Conflict): set<Conflict>
  {
    if condition then {conflict} else {}
  }

  function OfParticipant(b: Bundle, role: ClosedRole, p: Participant, provider: bool): set<Conflict>
  {
    var artifact, physical := FindArtifact(b.artifacts, p.artifact), PhysicalClaim(b, role, p);
    if artifact.None? then {}
    else
      If(role.schema !in artifact.value.schemas, Conflict(ClosedSchema(role.id), {p.artifact}))
      + If(!provider && p.script == role.provider.script,
           Conflict(ClosedIdentity(role.id), {role.provider.artifact, p.artifact}))
      + if physical.None? then {} else
        If(physical.value.slot != role.source, Conflict(ClosedSource(role.id), ParticipantArtifacts(role)))
        + If(physical.value.exclusive != provider, Conflict(ClosedOwnership(role.id, provider), {p.artifact}))
        + If(physical.value.typeName != Some(role.schema.typeName), Conflict(ClosedType(role.id), {p.artifact}))
  }

  function OfClosedRole(b: Bundle, role: ClosedRole): set<Conflict>
  {
    OfParticipant(b, role, role.provider, true) + OfConsumers(b, role, role.consumers)
  }

  function OfConsumers(b: Bundle, role: ClosedRole, consumers: seq<Participant>): set<Conflict>
  {
    set p, conflict | p in consumers && conflict in OfParticipant(b, role, p, false) :: conflict
  }

  lemma ConsumersStep(b: Bundle, role: ClosedRole, consumers: seq<Participant>, p: Participant)
    ensures OfConsumers(b, role, consumers + [p]) == OfConsumers(b, role, consumers) + OfParticipant(b, role, p, false)
  {
    assert (consumers + [p])[|consumers|] == p;
    assert forall x :: x in consumers + [p] <==> x in consumers || x == p;
  }

  function ClosedConflicts(b: Bundle): set<Conflict>
  {
    OfClosedRoles(b, b.closedRoles)
  }

  function OfClosedRoles(b: Bundle, roles: seq<ClosedRole>): set<Conflict>
  {
    set role, conflict | role in roles && conflict in OfClosedRole(b, role) :: conflict
  }

  lemma ClosedRolesStep(b: Bundle, roles: seq<ClosedRole>, role: ClosedRole)
    ensures OfClosedRoles(b, roles + [role]) == OfClosedRoles(b, roles) + OfClosedRole(b, role)
  {
    assert (roles + [role])[|roles|] == role;
    assert forall x :: x in roles + [role] <==> x in roles || x == role;
  }

  function ArtifactConflicts(b: Bundle): set<Conflict>
  {
    (set a | a in b.artifacts && a.network != b.network :: Conflict(Network(a.id), {a.id}))
    + set a | a in b.artifacts && a.profile != b.artifacts[0].profile :: Conflict(Profile, {b.artifacts[0].id, a.id})
  }

  function BundleConflicts(b: Bundle): set<Conflict>
  {
    ArtifactConflicts(b) + ConflictsOf(ClaimsOf(b)) + ClosedConflicts(b)
  }

  // ----- refusal

  function Ids(b: Bundle): set<string>
  {
    set a | a in b.artifacts :: a.id
  }

  function RoleName(r: RoleClaim): (string, string) { (r.artifact, r.name) }
  function WitnessName(w: WitnessClaim): (string, string) { (w.artifact, w.name) }
  function DepName(d: DepClaim): (string, string) { (d.artifact, d.name) }

  predicate RoleAdmitted(b: Bundle, r: RoleClaim)
  {
    r.artifact in Ids(b) && r.named && (r.index < |CellsAt(b.skeleton, r.output)| ==> r.wellFormed)
  }

  predicate WitnessAdmitted(b: Bundle, w: WitnessClaim)
  {
    w.artifact in Ids(b) && w.named && (w.index < |b.skeleton.witnesses| ==> w.wellFormed)
  }

  predicate DepAdmitted(b: Bundle, d: DepClaim)
  {
    d.artifact in Ids(b) && d.named && d.wellFormed
  }

  predicate PolicyAdmitted(b: Bundle, p: PolicyClaim)
  {
    p.artifact in Ids(b) && p.wellFormed
  }

  /** Every claim names a known artifact, names are unique within a family, and texts are well formed. */
  predicate Admitted(b: Bundle)
  {
    && (forall r :: r in b.roles ==> RoleAdmitted(b, r)) && DistinctKeys(RoleName, b.roles)
    && (forall w :: w in b.witnesses ==> WitnessAdmitted(b, w)) && DistinctKeys(WitnessName, b.witnesses)
    && (forall d :: d in b.cellDeps ==> DepAdmitted(b, d)) && DistinctKeys(DepName, b.cellDeps)
    && (forall d :: d in b.headerDeps ==> DepAdmitted(b, d)) && DistinctKeys(DepName, b.headerDeps)
    && forall p :: p in b.policies ==> PolicyAdmitted(b, p)
  }

  // ----- detection

  method DetectClosed(b: Bundle, conflicts: seq<Conflict>) returns (r: seq<Conflict>)
    ensures Elements(r) == Elements(conflicts) + ClosedConflicts(b)
  {
    r := conflicts;
    for i := 0 to |b.closedRoles|
      invariant Elements(r) == Elements(conflicts) + OfClosedRoles(b, b.closedRoles[..i])
    {
      assert b.closedRoles[..i + 1] == b.closedRoles[..i] + [b.closedRoles[i]];
      ClosedRolesStep(b, b.closedRoles[..i], b.closedRoles[i]);
      r := DetectClosedRole(b, b.closedRoles[i], r);
    }
    assert b.closedRoles[..|b.closedRoles|] == b.closedRoles;
  }

  method DetectConsumers(b: Bundle, role: ClosedRole, consumers: seq<Participant>, conflicts: seq<Conflict>)
    returns (r: seq<Conflict>)
    ensures Elements(r) == Elements(conflicts) + OfConsumers(b, role, consumers)
  {
    r := conflicts;
    for i := 0 to |consumers|
      invariant Elements(r) == Elements(conflicts) + OfConsumers(b, role, consumers[..i])
    {
      assert consumers[..i + 1] == consumers[..i] + [consumers[i]];
      ConsumersStep(b, role, consumers[..i], consumers[i]);
      ghost var before := Elements(r);
      var more := OfParticipant(b, role, consumers[i], false);
      r := PushAll(r, more);
      assert Elements(r) == before + more;
    }
    assert consumers[..|consumers|] == consumers;
  }

  method DetectClosedRole(b: Bundle, role: ClosedRole, conflicts: seq<Conflict>) returns (r: seq<Conflict>)
    ensures Elements(r) == Elements(conflicts) + OfClosedRole(b, role)
  {
    r := PushAll(conflicts, OfParticipant(b, role, role.provider, true));
    r := DetectConsumers(b, role, role.consumers, r);
  }

  method DetectArtifacts(b: Bundle) returns (r: seq<Conflict>)
    ensures Elements(r) == ArtifactConflicts(b)
  {
    r := [];
    for i := 0 to |b.artifacts|
      invariant Elements(r) ==
                (set a | a in b.artifacts[..i] && a.network != b.network :: Conflict(Network(a.id), {a.id}))
                + set a | a in b.artifacts[..i] && a.profile != b.artifacts[0].profile ::
                    Conflict(Profile, {b.artifacts[0].id, a.id})
    {
      var a := b.artifacts[i];
      assert b.artifacts[..i + 1] == b.artifacts[..i] + [a];
      if a.network != b.network {
        ElementsAppend(r, Conflict(Network(a.id), {a.id}));
        r := r + [Conflict(Network(a.id), {a.id})];
      }
      if a.profile != b.artifacts[0].profile {
        ElementsAppend(r, Conflict(Profile, {b.artifacts[0].id, a.id}));
        r := r + [Conflict(Profile, {b.artifacts[0].id, a.id})];
      }
    }
    assert b.artifacts[..|b.artifacts|] == b.artifacts;
  }

  /** Refuses exactly the bundles that are not admitted; otherwise lists the conflict set in strict order. */
  method DetectConflicts(b: Bundle, key: Conflict -> Key) returns (r: Option<seq<Conflict>>)
    requires Injective(key)
    ensures r.Some? <==> Admitted(b)
    ensures r.Some? ==> IsStrict(key, r.value) && Elements(r.value) == BundleConflicts(b)
  {
    if !Admitted(b) {
      return None;
    }
    var conflicts := DetectArtifacts(b);
    conflicts := Detect(ClaimsOf(b), conflicts);
    conflicts := DetectClosed(b, conflicts);
    ReportLists(key, conflicts);
    return Some(Report(key, conflicts));
  }

  // ----- order does not matter

  /** The same bundle with its claims and closed roles in another order. */
  predicate Permuted(a: Bundle, b: Bundle)
  {
    && a.network == b.network && a.artifacts == b.artifacts && a.skeleton == b.skeleton
    && multiset(a.roles) == multiset(b.roles) && multiset(a.closedRoles) == multiset(b.closedRoles)
    && multiset(a.witnesses) == multiset(b.witnesses) && multiset(a.cellDeps) == multiset(b.cellDeps)
    && multiset(a.headerDeps) == multiset(b.headerDeps) && multiset(a.policies) == multiset(b.policies)
  }

  lemma Members<T>(a: seq<T>, b: seq<T>)
    requires multiset(a) == multiset(b)
    ensures forall x :: x in b ==> x in a
  {
    forall x | x in b ensures x in a {
      assert x in multiset(a);
    }
  }

  lemma {:induction false} AdmittedPermutes(a: Bundle, b: Bundle)
    requires Permuted(a, b) && Admitted(a)
    ensures Admitted(b)
  {
    assert Ids(a) == Ids(b);
    Members(a.roles, b.roles);
    Members(a.witnesses, b.witnesses);
    Members(a.cellDeps, b.cellDeps);
    Members(a.headerDeps, b.headerDeps);
    Members(a.policies, b.policies);
    DistinctKeysPermute(RoleName, a.roles, b.roles);
    DistinctKeysPermute(WitnessName, a.witnesses, b.witnesses);
    DistinctKeysPermute(DepName, a.cellDeps, b.cellDeps);
    DistinctKeysPermute(DepName, a.headerDeps, b.headerDeps);
    AdmittedMembers(a, b);
  }

  lemma {:induction false} AdmittedMembers(a: Bundle, b: Bundle)
    requires Ids(a) == Ids(b) && a.skeleton == b.skeleton && Admitted(a)
    requires (forall x :: x in b.roles ==> x in a.roles) && (forall x :: x in b.witnesses ==> x in a.witnesses)
    requires (forall x :: x in b.cellDeps ==> x in a.cellDeps) && (forall x :: x in b.headerDeps ==> x in a.headerDeps)
    requires forall x :: x in b.policies ==> x in a.policies
    requires DistinctKeys(RoleName, b.roles) && DistinctKeys(WitnessName, b.witnesses)
    requires DistinctKeys(DepName, b.cellDeps) && DistinctKeys(DepName, b.headerDeps)
    ensures Admitted(b)
  {
    forall r | r in b.roles ensures RoleAdmitted(b, r) { assert RoleAdmitted(a, r); }
    forall w | w in b.witnesses ensures WitnessAdmitted(b, w) { assert WitnessAdmitted(a, w); }
    forall d | d in b.cellDeps ensures DepAdmitted(b, d) { assert DepAdmitted(a, d); }
    forall d | d in b.headerDeps ensures DepAdmitted(b, d) { assert DepAdmitted(a, d); }
    forall p | p in b.policies ensures PolicyAdmitted(b, p) { assert PolicyAdmitted(a, p); }
  }

  lemma {:induction false} ClaimsPermute(a: Bundle, b: Bundle)
    requires Permuted(a, b)
    ensures multiset(ClaimsOf(a)) == multiset(ClaimsOf(b))
  {
    MapPermutes(r => OfRole(a.skeleton, r), a.roles, b.roles);
    MapPermutes(w => OfWitness(a.skeleton, w), a.witnesses, b.witnesses);
    MapPermutes(d => OfDep(false, a.skeleton.cellDeps, d), a.cellDeps, b.cellDeps);
    MapPermutes(d => OfDep(true, a.skeleton.headerDeps, d), a.headerDeps, b.headerDeps);
    MapPermutes(p => OfPolicy(a.skeleton, p), a.policies, b.policies);
  }

  /** With distinct names, finding a claim does not depend on where it stands. */
  lemma {:induction false} FindRoleExactly(roles: seq<RoleClaim>, artifact: string, name: string, r: RoleClaim)
    requires DistinctKeys(RoleName, roles)
    ensures FindRole(roles, artifact, name) == Some(r) <==> r in roles && r.artifact == artifact && r.name == name
  {
    if roles != [] {
      FindRoleExactly(roles[1..], artifact, name, r);
      assert roles == [roles[0]] + roles[1..];
      if r in roles[1..] {
        var i :| 0 <= i < |roles[1..]| && roles[1..][i] == r;
        assert RoleName(roles[0]) != RoleName(roles[i + 1]);
      }
    }
  }

  lemma {:induction false} FindWitnessExactly(witnesses: seq<WitnessClaim>, artifact: string, name: string,
                                              w: WitnessClaim)
    requires DistinctKeys(WitnessName, witnesses)
    ensures FindWitness(witnesses, artifact, name) == Some(w) <==>
            w in witnesses && w.artifact == artifact && w.name == name
  {
    if witnesses != [] {
      FindWitnessExactly(witnesses[1..], artifact, name, w);
      assert witnesses == [witnesses[0]] + witnesses[1..];
      if w in witnesses[1..] {
        var i :| 0 <= i < |witnesses[1..]| && witnesses[1..][i] == w;
        assert WitnessName(witnesses[0]) != WitnessName(witnesses[i + 1]);
      }
    }
  }

  lemma {:induction false} FindRolePermutes(a: seq<RoleClaim>, b: seq<RoleClaim>, artifact: string, name: string)
    requires multiset(a) == multiset(b) && DistinctKeys(RoleName, a) && DistinctKeys(RoleName, b)
    ensures FindRole(a, artifact, name) == FindRole(b, artifact, name)
  {
    Members(a, b);
    Members(b, a);
    forall r ensures FindRole(a, artifact, name) == Some(r) <==> FindRole(b, artifact, name) == Some(r) {
      FindRoleExactly(a, artifact, name, r);
      FindRoleExactly(b, artifact, name, r);
    }
    SameOption(FindRole(a, artifact, name), FindRole(b, artifact, name));
  }

  lemma {:induction false} FindWitnessPermutes(a: seq<WitnessClaim>, b: seq<WitnessClaim>, artifact: string,
                                               name: string)
    requires multiset(a) == multiset(b) && DistinctKeys(WitnessName, a) && DistinctKeys(WitnessName, b)
    ensures FindWitness(a, artifact, name) == FindWitness(b, artifact, name)
  {
    Members(a, b);
    Members(b, a);
    forall w ensures FindWitness(a, artifact, name) == Some(w) <==> FindWitness(b, artifact, name) == Some(w) {
      FindWitnessExactly(a, artifact, name, w);
      FindWitnessExactly(b, artifact, name, w);
    }
    SameOption(FindWitness(a, artifact, name), FindWitness(b, artifact, name));
  }

  lemma SameOption<T(!new)>(x: Option<T>, y: Option<T>)
    requires forall v :: x == Some(v) <==> y == Some(v)
    ensures x == y
  {
    assert x.Some? ==> y == x by {
      if x.Some? {
        assert y == Some(x.value);
      }
    }
    assert y.Some? ==> y == x by {
      if y.Some? {
        assert x == Some(y.value);
      }
    }
  }

  lemma {:induction false} ParticipantPermutes(a: Bundle, b: Bundle, role: ClosedRole, p: Participant, provider: bool)
    requires Permuted(a, b) && Admitted(a) && Admitted(b)
    ensures OfParticipant(a, role, p, provider) == OfParticipant(b, role, p, provider)
  {
    FindRolePermutes(a.roles, b.roles, p.artifact, p.claim);
    FindWitnessPermutes(a.witnesses, b.witnesses, p.artifact, p.claim);
  }

  lemma {:induction false} ClosedPermutes(a: Bundle, b: Bundle)
    requires Permuted(a, b) && Admitted(a) && Admitted(b)
    ensures ClosedConflicts(a) == ClosedConflicts(b)
  {
    forall role ensures OfClosedRole(a, role) == OfClosedRole(b, role) {
      ParticipantPermutes(a, b, role, role.provider, true);
      forall p ensures OfParticipant(a, role, p, false) == OfParticipant(b, role, p, false) {
        ParticipantPermutes(a, b, role, p, false);
      }
      assert OfConsumers(a, role, role.consumers) == OfConsumers(b, role, role.consumers);
    }
    Members(a.closedRoles, b.closedRoles);
    Members(b.closedRoles, a.closedRoles);
  }

  /** Reordering the claims changes neither the verdict nor any conflict. */
  lemma {:induction false} OrderIrrelevant(a: Bundle, b: Bundle)
    requires Permuted(a, b)
    ensures Admitted(a) <==> Admitted(b)
    ensures Admitted(a) ==> BundleConflicts(a) == BundleConflicts(b)
  {
    if Admitted(a) {
      AdmittedPermutes(a, b);
      ClosedPermutes(a, b);
    }
    if Admitted(b) {
      AdmittedPermutes(b, a);
    }
    ClaimsPermute(a, b);
    ConflictsPermute(ClaimsOf(a), ClaimsOf(b));
  }

  /** Two reports of the same claims in different orders are the same list. */
  lemma {:induction false} ReportsAgree(a: Bundle, b: Bundle, key: Conflict -> Key, ra: seq<Conflict>,
                                        rb: seq<Conflict>)
    requires Permuted(a, b) && Admitted(a)
    requires IsStrict(key, ra) && Elements(ra) == BundleConflicts(a)
    requires IsStrict(key, rb) && Elements(rb) == BundleConflicts(b)
    ensures ra == rb
  {
    OrderIrrelevant(a, b);
    StrictListUnique(key, ra, rb);
  }

  // ----- sort keys

  function Chars(s: string): (r: seq<int>)
  {
    seq(|s|, i requires 0 <= i < |s| => s[i] as int)
  }

  /** Two texts compared one after the other. */
  function Pair(a: string, b: string): Key
  {
    Chars(a) + [-1] + Chars(b)
  }

  function ClosedKey(role: ClosedRole): Key { Chars(role.id) }
  function ParticipantKey(p: Participant): Key { Pair(p.artifact, p.claim) }

  // ----- resolving closed roles

  const MAX_ARTIFACTS: nat := 64

  datatype Reference = Reference(artifact: string, claim: string)

  datatype Binding = Binding(id: string, cell: bool, schema: Schema, provider: Reference, consumers: seq<Reference>,
                             wellFormed: bool)

  function RoleMatches(roles: seq<RoleClaim>, artifact: string, name: string): nat
  {
    if roles == [] then 0
    else
      (if roles[0].artifact == artifact && roles[0].name == name then 1 else 0) +
      RoleMatches(roles[1..], artifact, name)
  }

  function WitnessMatches(witnesses: seq<WitnessClaim>, artifact: string, name: string): nat
  {
    if witnesses == [] then 0
    else
      (if witnesses[0].artifact == artifact && witnesses[0].name == name then 1 else 0) +
      WitnessMatches(witnesses[1..], artifact, name)
  }

  lemma {:induction false} MatchedRoleFound(roles: seq<RoleClaim>, artifact: string, name: string)
    ensures RoleMatches(roles, artifact, name) > 0 <==> FindRole(roles, artifact, name).Some?
  {
    if roles != [] {
      MatchedRoleFound(roles[1..], artifact, name);
    }
  }

  lemma {:induction false} MatchedWitnessFound(witnesses: seq<WitnessClaim>, artifact: string, name: string)
    ensures WitnessMatches(witnesses, artifact, name) > 0 <==> FindWitness(witnesses, artifact, name).Some?
  {
    if witnesses != [] {
      MatchedWitnessFound(witnesses[1..], artifact, name);
    }
  }

  /** The participant a reference names: a known artifact with exactly one such claim. */
  function ResolveReference(b: Bundle, cell: bool, ref: Reference): Option<Participant>
  {
    var artifact := FindArtifact(b.artifacts, ref.artifact);
    var matches := if cell then RoleMatches(b.roles, ref.artifact, ref.claim)
                   else WitnessMatches(b.witnesses, ref.artifact, ref.claim);
    if artifact.None? || matches != 1 then None else Some(Participant(ref.artifact, ref.claim, artifact.value.script))
  }

  function SlotOf(b: Bundle, cell: bool, p: Participant): Option<Slot>
  {
    if cell then
      var claim := FindRole(b.roles, p.artifact, p.claim); if claim.None? then None else Some(RoleSlot(claim.value))
    else
      var claim := FindWitness(b.witnesses, p.artifact, p.claim);
      if claim.None? then None else Some(WitnessAt(claim.value.index, claim.value.field))
  }

  predicate ParticipantResolved(b: Bundle, cell: bool, p: Participant)
  {
    FindArtifact(b.artifacts, p.artifact).Some? && FindArtifact(b.artifacts, p.artifact).value.script == p.script &&
    SlotOf(b, cell, p).Some?
  }

  lemma ReferenceResolved(b: Bundle, cell: bool, ref: Reference)
    requires ResolveReference(b, cell, ref).Some?
    ensures ParticipantResolved(b, cell, ResolveReference(b, cell, ref).value)
  {
    MatchedRoleFound(b.roles, ref.artifact, ref.claim);
    MatchedWitnessFound(b.witnesses, ref.artifact, ref.claim);
  }

  function ParticipantId(p: Participant): string { p.artifact }

  /** Every participant is resolved, no artifact takes part twice, and the source is where the provider's claim is. */
  predicate RoleResolved(b: Bundle, role: ClosedRole)
  {
    && (forall p :: p in ParticipantsOf(role) ==> ParticipantResolved(b, role.cell, p))
    && DistinctKeys(ParticipantId, ParticipantsOf(role)) && role.consumers != []
    && SlotOf(b, role.cell, role.provider) == Some(role.source) && IsSorted(ParticipantKey, role.consumers)
  }

  function ReferenceArtifact(ref: Reference): string { ref.artifact }

  predicate AllResolve(b: Bundle, cell: bool, refs: seq<Reference>)
  {
    forall k :: 0 <= k < |refs| ==> ResolveReference(b, cell, refs[k]).Some?
  }

  /** The participants a list of references names, in order. */
  function ResolvedAll(b: Bundle, cell: bool, refs: seq<Reference>): (r: seq<Participant>)
    requires AllResolve(b, cell, refs)
    ensures |r| == |refs| && forall k :: 0 <= k < |refs| ==> ResolveReference(b, cell, refs[k]) == Some(r[k])
  {
    if refs == [] then []
    else ResolvedAll(b, cell, refs[..|refs| - 1]) + [ResolveReference(b, cell, refs[|refs| - 1]).value]
  }

  /** Every reference of the binding names one participant, and no artifact takes part twice. */
  predicate BindingResolves(b: Bundle, binding: Binding)
  {
    && binding.wellFormed && 0 < |binding.consumers| < MAX_ARTIFACTS
    && ResolveReference(b, binding.cell, binding.provider).Some?
    && AllResolve(b, binding.cell, binding.consumers)
    && DistinctKeys(ReferenceArtifact, [binding.provider] + binding.consumers)
  }

  /** The role a binding stands for: its participants are exactly the ones referenced, ordered. */
  predicate Answers(b: Bundle, binding: Binding, role: ClosedRole)
  {
    && BindingResolves(b, binding) && role.id == binding.id && role.cell == binding.cell &&
       role.schema == binding.schema
    && Some(role.provider) == ResolveReference(b, binding.cell, binding.provider)
    && multiset(role.consumers) == multiset(ResolvedAll(b, binding.cell, binding.consumers))
    && RoleResolved(b, role)
  }

  lemma {:induction false} ResolvedStep(b: Bundle, cell: bool, refs: seq<Reference>, i: nat)
    requires i < |refs| && AllResolve(b, cell, refs[..i]) && ResolveReference(b, cell, refs[i]).Some?
    ensures AllResolve(b, cell, refs[..i + 1])
    ensures ResolvedAll(b, cell, refs[..i + 1]) ==
            ResolvedAll(b, cell, refs[..i]) + [ResolveReference(b, cell, refs[i]).value]
  {
    assert refs[..i + 1][..i] == refs[..i];
    assert forall k :: 0 <= k < i ==> refs[..i + 1][k] == refs[..i][k];
  }

  method ResolveConsumers(b: Bundle, cell: bool, provider: Reference, refs: seq<Reference>)
    returns (r: Option<seq<Participant>>)
    ensures r.Some? <==> AllResolve(b, cell, refs) && DistinctKeys(ReferenceArtifact, [provider] + refs)
    ensures r.Some? ==> r.value == ResolvedAll(b, cell, refs)
  {
    ghost var all := [provider] + refs;
    DistinctNext(ReferenceArtifact, all, 0);
    var consumers: seq<Participant> := [];
    var seen := {provider.artifact};
    for i := 0 to |refs|
      invariant AllResolve(b, cell, refs[..i]) && consumers == ResolvedAll(b, cell, refs[..i])
      invariant DistinctKeys(ReferenceArtifact, all[..i + 1]) && seen == KeySet(ReferenceArtifact, all[..i + 1])
    {
      DistinctNext(ReferenceArtifact, all, i + 1);
      if refs[i].artifact in seen {
        return None;
      }
      var consumer := ResolveReference(b, cell, refs[i]);
      if consumer.None? {
        return None;
      }
      seen := seen + {refs[i].artifact};
      ResolvedStep(b, cell, refs, i);
      consumers := consumers + [consumer.value];
    }
    assert refs[..|refs|] == refs && all[..|refs| + 1] == all;
    return Some(consumers);
  }

  method ResolveRole(b: Bundle, binding: Binding) returns (r: Option<ClosedRole>)
    ensures r.Some? <==> BindingResolves(b, binding)
    ensures r.Some? ==> Answers(b, binding, r.value)
  {
    if !binding.wellFormed || binding.consumers == [] || |binding.consumers| > MAX_ARTIFACTS - 1 {
      return None;
    }
    var provider := ResolveReference(b, binding.cell, binding.provider);
    if provider.None? {
      return None;
    }
    ReferenceResolved(b, binding.cell, binding.provider);
    var consumers := ResolveConsumers(b, binding.cell, binding.provider, binding.consumers);
    if consumers.None? {
      return None;
    }
    var source := SlotOf(b, binding.cell, provider.value).value;
    var role :=
      ClosedRole(binding.id, binding.cell, binding.schema, source, provider.value,
                 Sort(ParticipantKey, consumers.value));
    ParticipantsResolved(b, binding);
    SortedRoleResolved(b, role, consumers.value);
    SortSorts(ParticipantKey, consumers.value);
    return Some(role);
  }

  lemma {:induction false} ParticipantsResolved(b: Bundle, binding: Binding)
    requires BindingResolves(b, binding)
    ensures var provider := ResolveReference(b, binding.cell, binding.provider).value;
            var consumers := ResolvedAll(b, binding.cell, binding.consumers);
            && DistinctKeys(ParticipantId, [provider] + consumers)
            && forall p :: p in consumers ==> ParticipantResolved(b, binding.cell, p)
  {
    var refs, consumers := [binding.provider] + binding.consumers, ResolvedAll(b, binding.cell, binding.consumers);
    var all := [ResolveReference(b, binding.cell, binding.provider).value] + consumers;
    forall k | 0 <= k < |all| ensures ParticipantId(all[k]) == ReferenceArtifact(refs[k]) {
      if k > 0 {
        assert all[k] == consumers[k - 1] && refs[k] == binding.consumers[k - 1];
      }
    }
    forall p | p in consumers ensures ParticipantResolved(b, binding.cell, p) {
      var k :| 0 <= k < |consumers| && consumers[k] == p;
      ReferenceResolved(b, binding.cell, binding.consumers[k]);
    }
  }

  lemma {:induction false} SortedRoleResolved(b: Bundle, role: ClosedRole, consumers: seq<Participant>)
    requires role.consumers == Sort(ParticipantKey, consumers) && consumers != []
    requires DistinctKeys(ParticipantId, [role.provider] + consumers)
    requires ParticipantResolved(b, role.cell, role.provider)
    requires forall p :: p in consumers ==> ParticipantResolved(b, role.cell, p)
    requires SlotOf(b, role.cell, role.provider) == Some(role.source)
    ensures RoleResolved(b, role)
  {
    SortSorts(ParticipantKey, consumers);
    Members(consumers, role.consumers);
    assert |role.consumers| == |multiset(role.consumers)| == |multiset(consumers)| == |consumers|;
    assert multiset([role.provider] + consumers) == multiset(ParticipantsOf(role));
    DistinctKeysPermute(ParticipantId, [role.provider] + consumers, ParticipantsOf(role));
  }

  function ClosedId(role: ClosedRole): string { role.id }

  function BindingId(binding: Binding): string { binding.id }

  /** Resolves every binding, refusing a repeated role id, and orders the roles by id. */
  method ResolveClosedRoles(b: Bundle, bindings: seq<Binding>) returns (r: Option<seq<ClosedRole>>)
    ensures r.Some? <==>
            DistinctKeys(BindingId, bindings) && forall k :: 0 <= k < |bindings| ==> BindingResolves(b, bindings[k])
    ensures r.Some? ==> |r.value| == |bindings| && DistinctKeys(ClosedId, r.value) && IsSorted(ClosedKey, r.value)
    ensures r.Some? ==> forall role :: role in r.value ==> RoleResolved(b, role)
    ensures r.Some? ==>
            forall k :: 0 <= k < |bindings| ==> exists role :: role in r.value && Answers(b, bindings[k], role)
  {
    var resolved: seq<ClosedRole> := [];
    var ids: set<string> := {};
    for i := 0 to |bindings|
      invariant AllAnswer(b, bindings[..i], resolved)
      invariant DistinctKeys(BindingId, bindings[..i]) && ids == KeySet(BindingId, bindings[..i])
    {
      DistinctNext(BindingId, bindings, i);
      if bindings[i].id in ids {
        return None;
      }
      ids := ids + {bindings[i].id};
      var role := ResolveRole(b, bindings[i]);
      if role.None? {
        return None;
      }
      AnswersAppend(b, bindings, resolved, role.value);
      resolved := resolved + [role.value];
    }
    assert bindings[..|bindings|] == bindings;
    AnswersDistinct(b, bindings, resolved);
    AnswersSorted(b, bindings, resolved);
    return Some(Sort(ClosedKey, resolved));
  }

  predicate AllAnswer(b: Bundle, bindings: seq<Binding>, roles: seq<ClosedRole>)
  {
    |roles| == |bindings| && forall k :: 0 <= k < |bindings| ==> Answers(b, bindings[k], roles[k])
  }

  lemma {:induction false} AnswersAppend(b: Bundle, bindings: seq<Binding>, roles: seq<ClosedRole>, role: ClosedRole)
    requires |roles| < |bindings| && AllAnswer(b, bindings[..|roles|], roles) && Answers(b, bindings[|roles|], role)
    ensures AllAnswer(b, bindings[..|roles| + 1], roles + [role])
  {
    forall k | 0 <= k < |roles| + 1 ensures Answers(b, bindings[..|roles| + 1][k], (roles + [role])[k]) {
      if k < |roles| {
        assert bindings[..|roles|][k] == bindings[k];
      }
    }
  }

  lemma {:induction false} AnswersDistinct(b: Bundle, bindings: seq<Binding>, roles: seq<ClosedRole>)
    requires AllAnswer(b, bindings, roles) && DistinctKeys(BindingId, bindings)
    ensures DistinctKeys(ClosedId, roles)
    ensures forall k :: 0 <= k < |bindings| ==> BindingResolves(b, bindings[k]) && RoleResolved(b, roles[k])
  {
    forall k | 0 <= k < |bindings|
      ensures BindingResolves(b, bindings[k]) && RoleResolved(b, roles[k])
      ensures BindingId(bindings[k]) == ClosedId(roles[k])
    {
      assert Answers(b, bindings[k], roles[k]);
    }
  }

  lemma {:induction false} AnswersSorted(b: Bundle, bindings: seq<Binding>, roles: seq<ClosedRole>)
    requires AllAnswer(b, bindings, roles) && DistinctKeys(ClosedId, roles)
    requires forall k :: 0 <= k < |roles| ==> RoleResolved(b, roles[k])
    ensures var r := Sort(ClosedKey, roles);
            && |r| == |roles| && DistinctKeys(ClosedId, r) && IsSorted(ClosedKey, r)
            && (forall role :: role in r ==> RoleResolved(b, role))
            && forall k :: 0 <= k < |bindings| ==> exists role :: role in r && Answers(b, bindings[k], role)
  {
    var r := Sort(ClosedKey, roles);
    SortSorts(ClosedKey, roles);
    Members(roles, r);
    Members(r, roles);
    DistinctKeysPermute(ClosedId, roles, r);
    assert |r| == |multiset(r)| == |multiset(roles)| == |roles|;
    forall k | 0 <= k < |bindings| ensures exists role :: role in r && Answers(b, bindings[k], role) {
      assert roles[k] in r && Answers(b, bindings[k], roles[k]);
    }
  }

  /** Resolved roles have everything the detection looks up. */
  lemma ResolvedRoles(b: Bundle)
    requires forall role :: role in b.closedRoles ==> RoleResolved(b, role)
    ensures Resolved(b)
  {
    forall role, p | role in b.closedRoles && p in ParticipantsOf(role)
      ensures FindArtifact(b.artifacts, p.artifact).Some? && PhysicalClaim(b, role, p).Some?
    {
      assert ParticipantResolved(b, role.cell, p);
    }
  }

  // ----- what no conflict means

  /** What resolving closed roles establishes: each participant has its artifact and its physical claim. */
  predicate Resolved(b: Bundle)
  {
    forall role, p :: role in b.closedRoles && p in ParticipantsOf(role) ==>
      FindArtifact(b.artifacts, p.artifact).Some? && PhysicalClaim(b, role, p).Some?
  }

  predicate Silent(b: Bundle)
  {
    Admitted(b) && BundleConflicts(b) == {}
  }

  lemma RoleIsClaimed(b: Bundle, r: RoleClaim)
    requires r in b.roles
    ensures OfRole(b.skeleton, r) in ClaimsOf(b)
  {
    var i :| 0 <= i < |b.roles| && b.roles[i] == r;
    assert RoleClaims(b.skeleton, b.roles)[i] == OfRole(b.skeleton, r);
    assert ClaimsOf(b)[i] == OfRole(b.skeleton, r);
  }

  /** The claim agrees with the Cell the skeleton has at its index. */
  predicate RoleAgrees(tx: Skeleton, r: RoleClaim)
  {
    && r.index < |CellsAt(tx, r.output)|
    && var cell := CellsAt(tx, r.output)[r.index];
       && (r.expectedLock.Some? ==> cell.lock == r.expectedLock.value)
       && (r.expectedType.Some? ==> cell.typeScript == r.expectedType)
       && (r.commitment.Some? ==> cell.commitment == r.commitment.value)
       && (r.exactCapacity.Some? ==> cell.capacity == r.exactCapacity.value)
       && (r.minimumCapacity.Some? ==> cell.capacity >= r.minimumCapacity.value)
  }

  lemma {:induction false} RoleSound(tx: Skeleton, r: RoleClaim)
    ensures OfRole(tx, r).own == {} <==> RoleAgrees(tx, r)
  {
    var slot := RoleSlot(r);
    if r.index < |CellsAt(tx, r.output)| {
      var own := OfRole(tx, r).own;
      var cell := CellsAt(tx, r.output)[r.index];
      assert Differs(slot, Lock) in own <==> r.expectedLock.Some? && r.expectedLock.value != cell.lock;
      assert Differs(slot, Type) in own <==> r.expectedType.Some? && cell.typeScript != r.expectedType;
      assert Differs(slot, Commitment) in own <==> r.commitment.Some? && r.commitment.value != cell.commitment;
      assert r.exactCapacity.Some? ==>
          (ExactCapacity(slot, r.exactCapacity.value, cell.capacity) in own <==>
           r.exactCapacity.value != cell.capacity);
      assert r.minimumCapacity.Some? ==>
          (MinimumCapacity(slot, r.minimumCapacity.value, cell.capacity) in own <==>
           cell.capacity < r.minimumCapacity.value);
    } else {
      assert Outside(slot) in OfRole(tx, r).own;
    }
  }

  lemma SilentClaims(b: Bundle)
    requires Silent(b)
    ensures ConflictsOf(ClaimsOf(b)) == {} && ClosedConflicts(b) == {}
  {
    assert ConflictsOf(ClaimsOf(b)) <= BundleConflicts(b) && ClosedConflicts(b) <= BundleConflicts(b);
  }

  /** Without conflicts every role claim agrees with the skeleton at an index in range. */
  lemma {:induction false} SilentRolesAgree(b: Bundle, r: RoleClaim)
    requires Silent(b) && r in b.roles
    ensures RoleAgrees(b.skeleton, r)
  {
    SilentClaims(b);
    RoleIsClaimed(b, r);
    SoundAlone(ClaimsOf(b), OfRole(b.skeleton, r));
    RoleSound(b.skeleton, r);
  }

  lemma {:induction false} RoleOwnersAt(b: Bundle, i: nat, j: nat)
    requires i < j < |b.roles| && b.roles[i].exclusive && b.roles[j].exclusive
    requires RoleSlot(b.roles[i]) == RoleSlot(b.roles[j])
    requires RoleAgrees(b.skeleton, b.roles[i]) && RoleAgrees(b.skeleton, b.roles[j])
    ensures TwoOwners(ClaimsOf(b), RoleSlot(b.roles[i]))
  {
    var claims, slot := ClaimsOf(b), RoleSlot(b.roles[i]);
    assert claims[i] == OfRole(b.skeleton, b.roles[i]) && claims[j] == OfRole(b.skeleton, b.roles[j]);
    assert Owns(claims[i], slot) && Owns(claims[j], slot);
  }

  lemma {:induction false} RoleValues(tx: Skeleton, r: RoleClaim)
    requires RoleAgrees(tx, r)
    ensures var c := OfRole(tx, r);
            && c.grouped && c.slot == RoleSlot(r)
            && (r.resource.Some? ==> Resource in c.values && c.values[Resource] == Text(r.resource.value))
            && (r.expectedLock.Some? ==> Lock in c.values && c.values[Lock] == Text(r.expectedLock.value))
            && (r.expectedType.Some? ==> Type in c.values && c.values[Type] == Text(r.expectedType.value))
  {
  }

  /** Without conflicts a Cell has at most one exclusive claim. */
  lemma {:induction false} SilentRolesExclusive(b: Bundle, i: nat, j: nat)
    requires Silent(b) && i < j < |b.roles| && RoleSlot(b.roles[i]) == RoleSlot(b.roles[j])
    ensures !(b.roles[i].exclusive && b.roles[j].exclusive)
  {
    var x := b.roles[i];
    var c := OfRole(b.skeleton, x);
    SilentClaims(b);
    RoleIsClaimed(b, x);
    SilentRolesAgree(b, x);
    SilentRolesAgree(b, b.roles[j]);
    RoleValues(b.skeleton, x);
    assert !Contested(ClaimsOf(b), RoleSlot(x)) by {
      Quiet(ClaimsOf(b), c, c);
    }
    if x.exclusive && b.roles[j].exclusive {
      RoleOwnersAt(b, i, j);
    }
  }

  /** Without conflicts claims on one Cell name the same resource, lock and type. */
  lemma {:induction false} SilentRolesSame(b: Bundle, x: RoleClaim, y: RoleClaim)
    requires Silent(b) && x in b.roles && y in b.roles && RoleSlot(x) == RoleSlot(y)
    ensures x.resource.Some? && y.resource.Some? ==> x.resource == y.resource
    ensures x.expectedLock.Some? && y.expectedLock.Some? ==> x.expectedLock == y.expectedLock
    ensures x.expectedType.Some? && y.expectedType.Some? ==> x.expectedType == y.expectedType
  {
    SilentClaims(b);
    RoleIsClaimed(b, x);
    RoleIsClaimed(b, y);
    SilentRolesAgree(b, x);
    SilentRolesAgree(b, y);
    RoleValues(b.skeleton, x);
    RoleValues(b.skeleton, y);
    var c, d := OfRole(b.skeleton, x), OfRole(b.skeleton, y);
    assert forall aspect :: aspect in c.values && aspect in d.values ==> c.values[aspect] == d.values[aspect] by {
      Quiet(ClaimsOf(b), c, d);
    }
  }

  /** The provider of a silent closed Cell role holds the exclusive claim on its source, of its type. */
  lemma {:induction false} ProviderHolds(b: Bundle, role: ClosedRole) returns (i: nat)
    requires Silent(b) && Resolved(b) && role in b.closedRoles && role.cell
    ensures i < |b.roles| && b.roles[i].artifact == role.provider.artifact && b.roles[i].name == role.provider.claim
    ensures b.roles[i].exclusive && RoleSlot(b.roles[i]) == role.source
    ensures b.roles[i].resource == Some(role.schema.typeName)
  {
    var p := role.provider;
    assert p in ParticipantsOf(role) by { assert ParticipantsOf(role)[0] == p; }
    assert OfParticipant(b, role, p, true) == {} by {
      SilentClaims(b);
      ProviderQuiet(b, role);
    }
    var r := FindRole(b.roles, p.artifact, p.claim).value;
    FindRoleExactly(b.roles, p.artifact, p.claim, r);
    i :| 0 <= i < |b.roles| && b.roles[i] == r;
    QuietParticipant(b, role, p, true);
  }

  lemma {:induction false} ProviderQuiet(b: Bundle, role: ClosedRole)
    requires ClosedConflicts(b) == {} && role in b.closedRoles
    ensures OfParticipant(b, role, role.provider, true) == {}
  {
    assert forall conflict :: conflict in OfClosedRole(b, role) ==> conflict in OfClosedRoles(b, b.closedRoles);
    assert OfParticipant(b, role, role.provider, true) <= OfClosedRole(b, role);
  }

  lemma {:induction false} QuietParticipant(b: Bundle, role: ClosedRole, p: Participant, provider: bool)
    requires FindArtifact(b.artifacts, p.artifact).Some? && PhysicalClaim(b, role, p).Some?
    requires OfParticipant(b, role, p, provider) == {}
    ensures var physical := PhysicalClaim(b, role, p).value;
            physical.slot == role.source && physical.exclusive == provider &&
            physical.typeName == Some(role.schema.typeName)
  {
    var physical, own := PhysicalClaim(b, role, p).value, OfParticipant(b, role, p, provider);
    assert physical.slot != role.source ==> Conflict(ClosedSource(role.id), ParticipantArtifacts(role)) in own;
    assert physical.exclusive != provider ==> Conflict(ClosedOwnership(role.id, provider), {p.artifact}) in own;
    assert physical.typeName != Some(role.schema.typeName) ==> Conflict(ClosedType(role.id), {p.artifact}) in own;
  }

  /** Without conflicts, closed Cell roles on one slot have one provider, one claim and one type name. */
  lemma {:induction false} ClosedRolesAgree(b: Bundle, x: ClosedRole, y: ClosedRole)
    requires Silent(b) && Resolved(b) && x in b.closedRoles && y in b.closedRoles && x.cell && y.cell
    requires x.source == y.source
    ensures x.provider.artifact == y.provider.artifact && x.provider.claim == y.provider.claim
    ensures x.schema.typeName == y.schema.typeName
  {
    var i := ProviderHolds(b, x);
    var j := ProviderHolds(b, y);
    if i < j {
      SilentRolesExclusive(b, i, j);
    } else if j < i {
      SilentRolesExclusive(b, j, i);
    }
  }

  // ----- witnesses, dependencies and policies

  lemma WitnessIsClaimed(b: Bundle, i: nat)
    requires i < |b.witnesses|
    ensures |b.roles| + i < |ClaimsOf(b)| && ClaimsOf(b)[|b.roles| + i] == OfWitness(b.skeleton, b.witnesses[i])
  {
    assert WitnessClaims(b.skeleton, b.witnesses)[i] == OfWitness(b.skeleton, b.witnesses[i]);
  }

  /** Without conflicts every witness claim names a field in range with the value it commits to. */
  lemma {:induction false} SilentWitnessesAgree(b: Bundle, i: nat)
    requires Silent(b) && i < |b.witnesses|
    ensures var w := b.witnesses[i];
            && w.index < |b.skeleton.witnesses|
            && (w.commitment.Some? ==> WitnessValue(b.skeleton.witnesses[w.index], w.field) == w.commitment)
  {
    SilentClaims(b);
    WitnessIsClaimed(b, i);
    var c := OfWitness(b.skeleton, b.witnesses[i]);
    SoundAlone(ClaimsOf(b), c);
    assert Outside(c.slot) !in c.own && Differs(c.slot, Value) !in c.own;
  }

  /** Without conflicts a witness field has at most one exclusive artifact. */
  lemma {:induction false} SilentWitnessOwner(b: Bundle, i: nat, j: nat)
    requires Silent(b) && i < j < |b.witnesses| && b.witnesses[i].exclusive && b.witnesses[j].exclusive
    requires b.witnesses[i].index == b.witnesses[j].index && b.witnesses[i].field == b.witnesses[j].field
    ensures b.witnesses[i].artifact == b.witnesses[j].artifact
  {
    var claims, slot := ClaimsOf(b), WitnessAt(b.witnesses[i].index, b.witnesses[i].field);
    SilentClaims(b);
    WitnessIsClaimed(b, i);
    WitnessIsClaimed(b, j);
    SilentWitnessesAgree(b, i);
    SilentWitnessesAgree(b, j);
    var c, d := claims[|b.roles| + i], claims[|b.roles| + j];
    assert Owns(c, slot) && Owns(d, slot);
    assert TwoOwners(claims, slot);
    assert !Contested(claims, slot) by {
      Quiet(claims, c, d);
    }
    assert c in claims && d in claims;
    AtMostOne(Artifacts(claims, slot), c.artifact, d.artifact);
  }

  /** The provider of a silent closed witness role holds an exclusive claim on its source, with its type as ABI. */
  lemma {:induction false} WitnessProviderHolds(b: Bundle, role: ClosedRole) returns (i: nat)
    requires Silent(b) && Resolved(b) && role in b.closedRoles && !role.cell
    ensures i < |b.witnesses| && b.witnesses[i].artifact == role.provider.artifact
    ensures b.witnesses[i].name == role.provider.claim && b.witnesses[i].exclusive
    ensures WitnessAt(b.witnesses[i].index, b.witnesses[i].field) == role.source
    ensures b.witnesses[i].abi == role.schema.typeName
  {
    var p := role.provider;
    assert p in ParticipantsOf(role) by { assert ParticipantsOf(role)[0] == p; }
    assert OfParticipant(b, role, p, true) == {} by {
      SilentClaims(b);
      ProviderQuiet(b, role);
    }
    var w := FindWitness(b.witnesses, p.artifact, p.claim).value;
    FindWitnessExactly(b.witnesses, p.artifact, p.claim, w);
    i :| 0 <= i < |b.witnesses| && b.witnesses[i] == w;
    QuietParticipant(b, role, p, true);
  }

  lemma WitnessAbi(tx: Skeleton, w: WitnessClaim)
    requires w.index < |tx.witnesses|
    ensures var c := OfWitness(tx, w);
            c.grouped && c.slot == WitnessAt(w.index, w.field) && Abi in c.values && c.values[Abi] == Text(w.abi)
  {
  }

  lemma {:induction false} SilentAbisAgree(b: Bundle, i: nat, j: nat)
    requires Silent(b) && i < |b.witnesses| && j < |b.witnesses|
    requires b.witnesses[i].index == b.witnesses[j].index && b.witnesses[i].field == b.witnesses[j].field
    ensures b.witnesses[i].abi == b.witnesses[j].abi
  {
    SilentClaims(b);
    WitnessIsClaimed(b, i);
    WitnessIsClaimed(b, j);
    SilentWitnessesAgree(b, i);
    SilentWitnessesAgree(b, j);
    WitnessAbi(b.skeleton, b.witnesses[i]);
    WitnessAbi(b.skeleton, b.witnesses[j]);
    var c, d := OfWitness(b.skeleton, b.witnesses[i]), OfWitness(b.skeleton, b.witnesses[j]);
    assert c in ClaimsOf(b) && d in ClaimsOf(b);
    assert c.values[Abi] == d.values[Abi] by {
      Quiet(ClaimsOf(b), c, d);
    }
  }

  /** Without conflicts, closed witness roles on one field have one provider artifact and one type name. */
  lemma {:induction false} ClosedWitnessesAgree(b: Bundle, x: ClosedRole, y: ClosedRole)
    requires Silent(b) && Resolved(b) && x in b.closedRoles && y in b.closedRoles && !x.cell && !y.cell
    requires x.source == y.source
    ensures x.provider.artifact == y.provider.artifact && x.schema.typeName == y.schema.typeName
  {
    var i := WitnessProviderHolds(b, x);
    var j := WitnessProviderHolds(b, y);
    SilentAbisAgree(b, i, j);
    if i < j {
      SilentWitnessOwner(b, i, j);
    } else if j < i {
      SilentWitnessOwner(b, j, i);
    }
  }

  lemma {:induction false} DepIsClaimed(b: Bundle, header: bool, d: DepClaim)
    requires d in (if header then b.headerDeps else b.cellDeps)
    ensures OfDep(header, if header then b.skeleton.headerDeps else b.skeleton.cellDeps, d) in ClaimsOf(b)
  {
    var deps := if header then b.headerDeps else b.cellDeps;
    var i :| 0 <= i < |deps| && deps[i] == d;
    var list := DepClaims(header, if header then b.skeleton.headerDeps else b.skeleton.cellDeps, deps);
    assert list[i] in list;
  }

  /** Without conflicts every dependency claim names the exact dependency at an index in range, and one logical name one
      position. */
  lemma {:induction false} SilentDepsAgree(b: Bundle, header: bool, d: DepClaim, e: DepClaim)
    requires Silent(b) && d in (if header then b.headerDeps else b.cellDeps)
    requires e in (if header then b.headerDeps else b.cellDeps)
    ensures var deps := if header then b.skeleton.headerDeps else b.skeleton.cellDeps;
            d.index < |deps| && deps[d.index] == d.dep
    ensures d.name == e.name ==> d.index == e.index
  {
    var deps := if header then b.skeleton.headerDeps else b.skeleton.cellDeps;
    SilentClaims(b);
    DepIsClaimed(b, header, d);
    DepIsClaimed(b, header, e);
    var c, c' := OfDep(header, deps, d), OfDep(header, deps, e);
    SoundAlone(ClaimsOf(b), c);
    assert DepOutside(header, d.index) !in c.own && DepDiffers(header, d.index) !in c.own;
    if d.name == e.name {
      Quiet(ClaimsOf(b), c, c');
      assert c.values[Position] == c'.values[Position];
    }
  }

  lemma {:induction false} PolicyIsClaimed(b: Bundle, p: PolicyClaim) returns (i: nat)
    requires p in b.policies
    ensures i < |ClaimsOf(b)| && ClaimsOf(b)[i] == OfPolicy(b.skeleton, p)
  {
    var k :| 0 <= k < |b.policies| && b.policies[k] == p;
    var list := PolicyClaims(b.skeleton, b.policies);
    i := |ClaimsOf(b)| - |list| + k;
    assert ClaimsOf(b)[i] == list[k];
  }

  /** Without conflicts every policy claim is the skeleton's policy, and an exclusive one belongs to one artifact
      alone. */
  lemma {:induction false} SilentPoliciesAgree(b: Bundle, p: PolicyClaim, q: PolicyClaim)
    requires Silent(b) && p in b.policies && q in b.policies && p.change == q.change
    ensures p.policy == if p.change then b.skeleton.changePolicy else b.skeleton.feePolicy
    ensures p.exclusive ==> p.artifact == q.artifact
  {
    var claims, slot := ClaimsOf(b), PolicyFor(p.change);
    SilentClaims(b);
    var i := PolicyIsClaimed(b, p);
    var j := PolicyIsClaimed(b, q);
    var c, d := OfPolicy(b.skeleton, p), OfPolicy(b.skeleton, q);
    assert c in claims && d in claims;
    SoundAlone(claims, c);
    PolicyShape(b.skeleton, p);
    PolicyShape(b.skeleton, q);
    if p.exclusive {
      assert !Contested(claims, slot) by {
        Quiet(claims, c, d);
      }
      OwnedAlone(claims, slot, i, c, d);
    }
  }

  lemma PolicyShape(tx: Skeleton, p: PolicyClaim)
    ensures var c := OfPolicy(tx, p);
            && c.slot == PolicyFor(p.change) && c.grouped && c.exclusive == p.exclusive && c.artifact == p.artifact
            && (c.own == {} ==> p.policy == if p.change then tx.changePolicy else tx.feePolicy)
  {
    var c := OfPolicy(tx, p);
    assert Differs(c.slot, Policy) in c.own <==> p.policy != if p.change then tx.changePolicy else tx.feePolicy;
  }

  /** A policy slot that is not contested and has an owner has no other artifact. */
  lemma OwnedAlone(claims: seq<Claim>, slot: Slot, i: nat, c: Claim, d: Claim)
    requires slot.PolicyFor? && !Contested(claims, slot) && i < |claims| && claims[i] == c && d in claims
    requires c.grouped && c.exclusive && c.slot == slot && d.grouped && d.slot == slot
    ensures c.artifact == d.artifact
  {
    assert Owns(claims[i], slot) && SomeOwner(claims, slot);
    assert c in claims;
    AtMostOne(Artifacts(claims, slot), c.artifact, d.artifact);
  }
}
