/** The canonical order of a protocol bundle: claims by key, and the consumers of every closed role. */
module BundleOrder {
  import opened Options
  import opened Sorting
  import opened Claims
  import opened ProtocolBundle

  function FieldRank(field: Field): int
  {
    match field
    case LockField => 0
    case InputTypeField => 1
    case OutputTypeField => 2
  }

  function RoleKey(r: RoleClaim): Key { [if r.output then 1 else 0, r.index] + Pair(r.artifact, r.name) }
  function WitnessKey(w: WitnessClaim): Key { [w.index, FieldRank(w.field)] + Pair(w.artifact, w.name) }
  function DepKey(d: DepClaim): Key { [d.index] + Pair(d.artifact, d.name) }
  function PolicyKey(p: PolicyClaim): Key { [if p.change then 1 else 0] + Pair(p.artifact, p.policy) }

  function SortedConsumers(role: ClosedRole): ClosedRole
  {
    role.(consumers := Sort(ParticipantKey, role.consumers))
  }

  function Canonical(b: Bundle): Bundle
  {
    b.(roles := Sort(RoleKey, b.roles),
       closedRoles := Sort(ClosedKey, Map(SortedConsumers, b.closedRoles)),
       witnesses := Sort(WitnessKey, b.witnesses),
       cellDeps := Sort(DepKey, b.cellDeps),
       headerDeps := Sort(DepKey, b.headerDeps),
       policies := Sort(PolicyKey, b.policies))
  }

  /** No two claims of a family share a sort key, and no two consumers of a role. */
  predicate KeysDetermine(b: Bundle)
  {
    && KeyDetermines(RoleKey, b.roles) && KeyDetermines(ClosedKey, b.closedRoles)
    && KeyDetermines(WitnessKey, b.witnesses) && KeyDetermines(DepKey, b.cellDeps)
    && KeyDetermines(DepKey, b.headerDeps) && KeyDetermines(PolicyKey, b.policies)
    && forall role :: role in b.closedRoles ==> KeyDetermines(ParticipantKey, role.consumers)
  }

  // ----- reordered bundles

  /** One closed role with its consumers in another order. */
  predicate SameRole(x: ClosedRole, y: ClosedRole)
  {
    y == x.(consumers := y.consumers) && multiset(x.consumers) == multiset(y.consumers)
  }

  predicate SameRoles(xs: seq<ClosedRole>, ys: seq<ClosedRole>)
  {
    |xs| == |ys| && forall i :: 0 <= i < |xs| ==> SameRole(xs[i], ys[i])
  }

  /** The same bundle with its claims, its closed roles and their consumers in another order. */
  ghost predicate Reordered(a: Bundle, b: Bundle)
  {
    exists roles :: SameRoles(a.closedRoles, roles) && Permuted(a.(closedRoles := roles), b)
  }

  lemma SameParticipants(x: ClosedRole, y: ClosedRole)
    requires SameRole(x, y)
    ensures ParticipantArtifacts(x) == ParticipantArtifacts(y)
    ensures forall p :: p in x.consumers <==> p in y.consumers
  {
    Members(x.consumers, y.consumers);
    Members(y.consumers, x.consumers);
    assert forall p :: p in ParticipantsOf(x) <==> p in ParticipantsOf(y);
  }

  lemma {:induction false} SameRoleConflicts(b: Bundle, x: ClosedRole, y: ClosedRole)
    requires SameRole(x, y)
    ensures OfClosedRole(b, x) == OfClosedRole(b, y)
  {
    SameParticipants(x, y);
    forall p, provider ensures OfParticipant(b, x, p, provider) == OfParticipant(b, y, p, provider) {
    }
  }

  /** Conflicts of a closed role look at the claims of the bundle, not at its closed roles. */
  lemma OtherRolesIrrelevant(a: Bundle, roles: seq<ClosedRole>, role: ClosedRole)
    ensures OfClosedRole(a.(closedRoles := roles), role) == OfClosedRole(a, role)
  {
    var b := a.(closedRoles := roles);
    forall p, provider ensures OfParticipant(b, role, p, provider) == OfParticipant(a, role, p, provider) {
      assert PhysicalClaim(b, role, p) == PhysicalClaim(a, role, p);
    }
  }

  lemma {:induction false} SameRolesConflicts(a: Bundle, roles: seq<ClosedRole>)
    requires SameRoles(a.closedRoles, roles)
    ensures ClosedConflicts(a.(closedRoles := roles)) == ClosedConflicts(a)
  {
    var b := a.(closedRoles := roles);
    forall i | 0 <= i < |roles| ensures OfClosedRole(b, roles[i]) == OfClosedRole(a, a.closedRoles[i]) {
      OtherRolesIrrelevant(a, roles, roles[i]);
      SameRoleConflicts(a, a.closedRoles[i], roles[i]);
    }
    forall conflict | conflict in ClosedConflicts(a) ensures conflict in ClosedConflicts(b) {
      var role :| role in a.closedRoles && conflict in OfClosedRole(a, role);
      var i :| 0 <= i < |roles| && a.closedRoles[i] == role;
      assert roles[i] in roles;
    }
    forall conflict | conflict in ClosedConflicts(b) ensures conflict in ClosedConflicts(a) {
      var role :| role in roles && conflict in OfClosedRole(b, role);
      var i :| 0 <= i < |roles| && roles[i] == role;
      assert a.closedRoles[i] in a.closedRoles;
    }
  }

  /** Admission and the other conflicts do not look at closed roles. */
  lemma RolesUnclaimed(a: Bundle, roles: seq<ClosedRole>)
    ensures Admitted(a.(closedRoles := roles)) <==> Admitted(a)
    ensures BundleConflicts(a.(closedRoles := roles)) ==
            ArtifactConflicts(a) + ConflictsOf(ClaimsOf(a)) + ClosedConflicts(a.(closedRoles := roles))
  {
    var b := a.(closedRoles := roles);
    AdmissionUnclaimed(a, roles);
    assert ClaimsOf(b) == ClaimsOf(a) && ArtifactConflicts(b) == ArtifactConflicts(a);
  }

  lemma AdmissionUnclaimed(a: Bundle, roles: seq<ClosedRole>)
    ensures Admitted(a.(closedRoles := roles)) <==> Admitted(a)
  {
    var b := a.(closedRoles := roles);
    assert Ids(b) == Ids(a);
    assert forall r :: RoleAdmitted(b, r) <==> RoleAdmitted(a, r);
    assert forall w :: WitnessAdmitted(b, w) <==> WitnessAdmitted(a, w);
    assert forall d :: DepAdmitted(b, d) <==> DepAdmitted(a, d);
    assert forall p :: PolicyAdmitted(b, p) <==> PolicyAdmitted(a, p);
  }

  /** Neither the verdict nor the conflicts depend on the order of claims, closed roles and consumers. */
  lemma {:induction false} ReorderingIrrelevant(a: Bundle, b: Bundle)
    requires Reordered(a, b)
    ensures Admitted(a) <==> Admitted(b)
    ensures Admitted(a) ==> BundleConflicts(a) == BundleConflicts(b)
  {
    var roles :| SameRoles(a.closedRoles, roles) && Permuted(a.(closedRoles := roles), b);
    var same := a.(closedRoles := roles);
    RolesUnclaimed(a, roles);
    SameRolesConflicts(a, roles);
    OrderIrrelevant(same, b);
  }

  /** Reports of reordered bundles are the same list. */
  lemma {:induction false} ReorderedReportsAgree(a: Bundle, b: Bundle, key: Conflict -> Key, ra: seq<Conflict>,
                                                 rb: seq<Conflict>)
    requires Reordered(a, b) && Admitted(a)
    requires IsStrict(key, ra) && Elements(ra) == BundleConflicts(a)
    requires IsStrict(key, rb) && Elements(rb) == BundleConflicts(b)
    ensures ra == rb
  {
    ReorderingIrrelevant(a, b);
    StrictListUnique(key, ra, rb);
  }

  // ----- the canonical form

  lemma {:induction false} SameRolesSort(xs: seq<ClosedRole>, ys: seq<ClosedRole>)
    requires SameRoles(xs, ys) && forall role :: role in xs ==> KeyDetermines(ParticipantKey, role.consumers)
    ensures Map(SortedConsumers, xs) == Map(SortedConsumers, ys)
  {
    forall i | 0 <= i < |xs| ensures SortedConsumers(xs[i]) == SortedConsumers(ys[i]) {
      assert xs[i] in xs;
      SortIgnoresOrder(ParticipantKey, xs[i].consumers, ys[i].consumers);
    }
  }

  lemma SortedKeysDetermine(roles: seq<ClosedRole>)
    requires KeyDetermines(ClosedKey, roles)
    ensures KeyDetermines(ClosedKey, Map(SortedConsumers, roles))
  {
  }

  /** The canonical form does not depend on the order of claims, closed roles and consumers. */
  lemma {:induction false} CanonicalIgnoresOrder(a: Bundle, b: Bundle)
    requires Reordered(a, b) && KeysDetermine(a)
    ensures Canonical(a) == Canonical(b)
  {
    var roles :| SameRoles(a.closedRoles, roles) && Permuted(a.(closedRoles := roles), b);
    SameRolesSort(a.closedRoles, roles);
    SortedKeysDetermine(a.closedRoles);
    MapPermutes(SortedConsumers, roles, b.closedRoles);
    SortIgnoresOrder(ClosedKey, Map(SortedConsumers, roles), Map(SortedConsumers, b.closedRoles));
    SortIgnoresOrder(RoleKey, a.roles, b.roles);
    SortIgnoresOrder(WitnessKey, a.witnesses, b.witnesses);
    SortIgnoresOrder(DepKey, a.cellDeps, b.cellDeps);
    SortIgnoresOrder(DepKey, a.headerDeps, b.headerDeps);
    SortIgnoresOrder(PolicyKey, a.policies, b.policies);
  }

  /** Canonicalising only reorders. */
  lemma CanonicalReorders(b: Bundle)
    ensures Reordered(b, Canonical(b))
  {
    var roles := Map(SortedConsumers, b.closedRoles);
    forall i | 0 <= i < |roles| ensures SameRole(b.closedRoles[i], roles[i]) {
      SortSorts(ParticipantKey, b.closedRoles[i].consumers);
    }
    assert SameRoles(b.closedRoles, roles);
    SortSorts(RoleKey, b.roles);
    SortSorts(ClosedKey, roles);
    SortSorts(WitnessKey, b.witnesses);
    SortSorts(DepKey, b.cellDeps);
    SortSorts(DepKey, b.headerDeps);
    SortSorts(PolicyKey, b.policies);
    assert Permuted(b.(closedRoles := roles), Canonical(b));
  }

  /** A canonical bundle is its own canonical form. */
  lemma CanonicalTwice(b: Bundle)
    requires KeysDetermine(b)
    ensures Canonical(Canonical(b)) == Canonical(b)
  {
    CanonicalReorders(b);
    CanonicalIgnoresOrder(b, Canonical(b));
  }

  /** Detection says the same of a bundle and of its canonical form. */
  lemma CanonicalReportsAgree(b: Bundle, key: Conflict -> Key, r: seq<Conflict>, canonical: seq<Conflict>)
    requires Admitted(b)
    requires IsStrict(key, r) && Elements(r) == BundleConflicts(b)
    requires IsStrict(key, canonical) && Elements(canonical) == BundleConflicts(Canonical(b))
    ensures Admitted(Canonical(b)) && r == canonical
  {
    CanonicalReorders(b);
    ReorderingIrrelevant(b, Canonical(b));
    ReorderedReportsAgree(b, Canonical(b), key, r, canonical);
  }
}
