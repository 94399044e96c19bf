/** Claims on transaction slots: grouped by slot, compared, and reduced to a set of conflicts. */
module Claims {
  import opened Sorting

  datatype Field = LockField | InputTypeField | OutputTypeField

  datatype Slot =
    | CellAt(output: bool, index: nat)
    | WitnessAt(index: nat, field: Field)
    | CellDepNamed(name: string)
    | HeaderDepNamed(name: string)
    | PolicyFor(change: bool)

  datatype Aspect = Lock | Type | Resource | Commitment | Abi | Value | SigningDomain | Position | Policy

  /** What a claim says about an aspect of its slot. */
  datatype Said = Text(text: string) | Number(number: nat)

  /** Where a conflict is reported, with everything its text depends on but the artifacts. */
  datatype Site =
    | Outside(slot: Slot)
    | DepOutside(header: bool, index: nat)
    | Differs(slot: Slot, aspect: Aspect)
    | DepDiffers(header: bool, index: nat)
    | ExactCapacity(slot: Slot, wanted: nat, found: nat)
    | MinimumCapacity(slot: Slot, wanted: nat, found: nat)
    | Shared(slot: Slot)
    | Distinct(slot: Slot, aspect: Aspect)
    | ClosedSchema(role: string)
    | ClosedIdentity(role: string)
    | ClosedSource(role: string)
    | ClosedOwnership(role: string, provider: bool)
    | ClosedType(role: string)
    | Network(artifact: string)
    | Profile

  datatype Conflict = Conflict(site: Site, artifacts: set<string>)

  /** A claim as the grouping sees it: what is wrong with it alone, and what it says about its slot. */
  datatype Claim = Claim(
    slot: Slot,
    artifact: string,
    own: set<Site>,
    grouped: bool,
    exclusive: bool,
    values: map<Aspect, Said>
  )

  // ----- what the conflicts of a claim list are

  predicate At(c: Claim, slot: Slot)
  {
    c.grouped && c.slot == slot
  }

  function Artifacts(claims: seq<Claim>, slot: Slot): set<string>
  {
    set c | c in claims && At(c, slot) :: c.artifact
  }

  function Values(claims: seq<Claim>, slot: Slot, aspect: Aspect): set<Said>
  {
    set c | c in claims && At(c, slot) && aspect in c.values :: c.values[aspect]
  }

  predicate Owns(c: Claim, slot: Slot)
  {
    At(c, slot) && c.exclusive
  }

  predicate SomeOwner(claims: seq<Claim>, slot: Slot)
  {
    exists i :: 0 <= i < |claims| && Owns(claims[i], slot)
  }

  predicate TwoOwners(claims: seq<Claim>, slot: Slot)
  {
    exists i, j :: 0 <= i < j < |claims| && Owns(claims[i], slot) && Owns(claims[j], slot)
  }

  /** A Cell has one exclusive claim; a witness field one exclusive artifact; an exclusive policy is not shared at
      all. */
  predicate Contested(claims: seq<Claim>, slot: Slot)
  {
    match slot
    case CellAt(_, _) => TwoOwners(claims, slot)
    case WitnessAt(_, _) => |Artifacts(claims, slot)| > 1 && TwoOwners(claims, slot)
    case PolicyFor(_) => |Artifacts(claims, slot)| > 1 && SomeOwner(claims, slot)
    case _ => false
  }

  predicate Disagree(claims: seq<Claim>, slot: Slot, aspect: Aspect)
  {
    |Values(claims, slot, aspect)| > 1
  }

  function AllAspects(): set<Aspect>
  {
    {Lock, Type, Resource, Commitment, Abi, Value, SigningDomain, Position, Policy}
  }

  lemma EveryAspect(aspect: Aspect)
    ensures aspect in AllAspects()
  {
    match aspect
    case Lock =>
    case _ =>
  }

  function Own(c: Claim): set<Conflict>
  {
    set site | site in c.own :: Conflict(site, {c.artifact})
  }

  function OfSlot(claims: seq<Claim>, slot: Slot): set<Conflict>
  {
    (if Contested(claims, slot) then {Conflict(Shared(slot), Artifacts(claims, slot))} else {})
    + (set aspect | aspect in AllAspects() && Disagree(claims, slot, aspect) ::
         Conflict(Distinct(slot, aspect), Artifacts(claims, slot)))
  }

  function Slots(claims: seq<Claim>): set<Slot>
  {
    set c | c in claims && c.grouped :: c.slot
  }

  function ConflictsOf(claims: seq<Claim>): set<Conflict>
  {
    (set c, conflict | c in claims && conflict in Own(c) :: conflict)
    + (set slot, conflict | slot in Slots(claims) && conflict in OfSlot(claims, slot) :: conflict)
  }

  // ----- order does not matter

  lemma {:induction false} TwoOwnersPermute(a: seq<Claim>, b: seq<Claim>, slot: Slot)
    requires multiset(a) == multiset(b) && TwoOwners(a, slot)
    ensures TwoOwners(b, slot)
  {
    var i, j :| 0 <= i < j < |a| && Owns(a[i], slot) && Owns(a[j], slot);
    if a[i] == a[j] {
      var k, l := Twice(a, i, j, b);
    } else {
      assert a[i] in multiset(b) && a[j] in multiset(b);
      var k :| 0 <= k < |b| && b[k] == a[i];
      var l :| 0 <= l < |b| && b[l] == a[j];
      assert k < l || l < k;
    }
  }

  lemma {:induction false} SomeOwnerPermutes(a: seq<Claim>, b: seq<Claim>, slot: Slot)
    requires multiset(a) == multiset(b) && SomeOwner(a, slot)
    ensures SomeOwner(b, slot)
  {
    var i :| 0 <= i < |a| && Owns(a[i], slot);
    assert a[i] in multiset(b);
    var k :| 0 <= k < |b| && b[k] == a[i];
  }

  lemma SameMembers(a: seq<Claim>, b: seq<Claim>)
    requires multiset(a) == multiset(b)
    ensures forall c :: c in a <==> c in b
  {
    forall c ensures c in a <==> c in b {
      assert c in a <==> c in multiset(a);
      assert c in b <==> c in multiset(b);
    }
  }

  lemma {:induction false} SlotPermutes(a: seq<Claim>, b: seq<Claim>, slot: Slot)
    requires multiset(a) == multiset(b)
    ensures OfSlot(a, slot) == OfSlot(b, slot)
  {
    SameMembers(a, b);
    assert Artifacts(a, slot) == Artifacts(b, slot);
    assert Contested(a, slot) <==> Contested(b, slot) by {
      if TwoOwners(a, slot) { TwoOwnersPermute(a, b, slot); }
      if TwoOwners(b, slot) { TwoOwnersPermute(b, a, slot); }
      if SomeOwner(a, slot) { SomeOwnerPermutes(a, b, slot); }
      if SomeOwner(b, slot) { SomeOwnerPermutes(b, a, slot); }
    }
    forall aspect ensures Disagree(a, slot, aspect) <==> Disagree(b, slot, aspect) {
      assert Values(a, slot, aspect) == Values(b, slot, aspect);
    }
  }

  /** Any order of the claims gives the same conflicts. */
  lemma {:induction false} ConflictsPermute(a: seq<Claim>, b: seq<Claim>)
    requires multiset(a) == multiset(b)
    ensures ConflictsOf(a) == ConflictsOf(b)
  {
    SameMembers(a, b);
    assert Slots(a) == Slots(b);
    forall slot ensures OfSlot(a, slot) == OfSlot(b, slot) {
      SlotPermutes(a, b, slot);
    }
  }

  // ----- no conflicts

  lemma AtMostOne<T>(s: set<T>, x: T, y: T)
    requires |s| <= 1 && x in s && y in s
    ensures x == y
  {
    assert s - {x} == {} by {
      assert |s - {x}| == |s| - 1;
    }
    assert y !in s - {x};
  }

  /** Without conflicts every claim is sound alone, no slot is contested, and claims on one slot say the same. */
  lemma {:induction false} Quiet(claims: seq<Claim>, c: Claim, d: Claim)
    requires ConflictsOf(claims) == {} && c in claims && d in claims && c.grouped && d.grouped && c.slot == d.slot
    ensures c.own == {} && !Contested(claims, c.slot)
    ensures forall aspect :: aspect in c.values && aspect in d.values ==> c.values[aspect] == d.values[aspect]
  {
    assert OfSlot(claims, c.slot) == {} by {
      assert c.slot in Slots(claims);
      assert forall conflict :: conflict in OfSlot(claims, c.slot) ==> conflict in ConflictsOf(claims);
    }
    forall aspect | aspect in c.values && aspect in d.values ensures c.values[aspect] == d.values[aspect] {
      EveryAspect(aspect);
      assert Disagree(claims, c.slot, aspect) ==>
             Conflict(Distinct(c.slot, aspect), Artifacts(claims, c.slot)) in OfSlot(claims, c.slot);
      AtMostOne(Values(claims, c.slot, aspect), c.values[aspect], d.values[aspect]);
    }
    SoundAlone(claims, c);
  }

  lemma {:induction false} SoundAlone(claims: seq<Claim>, c: Claim)
    requires ConflictsOf(claims) == {} && c in claims
    ensures c.own == {}
  {
    assert forall site :: site in c.own ==> Conflict(site, {c.artifact}) in Own(c);
    assert forall conflict :: conflict in Own(c) ==> conflict in ConflictsOf(claims);
  }

  // ----- the grouping loops

  function Elements(conflicts: seq<Conflict>): set<Conflict>
  {
    set i | 0 <= i < |conflicts| :: conflicts[i]
  }

  lemma ElementsAppend(conflicts: seq<Conflict>, c: Conflict)
    ensures Elements(conflicts + [c]) == Elements(conflicts) + {c}
  {
    var next := conflicts + [c];
    assert next[|conflicts|] == c;
    forall x | x in Elements(conflicts) ensures x in Elements(next) {
      var i :| 0 <= i < |conflicts| && conflicts[i] == x;
      assert next[i] == x;
    }
  }

  /** The claims of one slot, in order. */
  function Group(claims: seq<Claim>, slot: Slot): seq<Claim>
  {
    if claims == [] then []
    else
      var rest, last := Group(claims[..|claims| - 1], slot), claims[|claims| - 1];
      if At(last, slot) then rest + [last] else rest
  }

  lemma {:induction false} GroupMembers(claims: seq<Claim>, slot: Slot, c: Claim)
    ensures c in Group(claims, slot) <==> c in claims && At(c, slot)
  {
    if claims != [] {
      var front := claims[..|claims| - 1];
      GroupMembers(front, slot, c);
      assert claims == front + [claims[|claims| - 1]];
    }
  }

  function Owners(group: seq<Claim>): nat
  {
    if group == [] then 0 else Owners(group[..|group| - 1]) + if group[|group| - 1].exclusive then 1 else 0
  }

  lemma OwnersAppend(group: seq<Claim>, c: Claim)
    ensures Owners(group + [c]) == Owners(group) + if c.exclusive then 1 else 0
  {
    assert (group + [c])[..|group|] == group;
  }

  lemma {:induction false} OwnersCounted(claims: seq<Claim>, slot: Slot)
    ensures Owners(Group(claims, slot)) > 0 <==> SomeOwner(claims, slot)
    ensures Owners(Group(claims, slot)) > 1 <==> TwoOwners(claims, slot)
  {
    if claims != [] {
      var front, last := claims[..|claims| - 1], claims[|claims| - 1];
      OwnersCounted(front, slot);
      OwnerAppend(front, last, slot);
      OwnersAppend(Group(front, slot), last);
      assert front + [last] == claims;
    }
  }

  lemma {:induction false} OwnerAppend(front: seq<Claim>, last: Claim, slot: Slot)
    ensures SomeOwner(front + [last], slot) <==> SomeOwner(front, slot) || Owns(last, slot)
    ensures TwoOwners(front + [last], slot) <==> TwoOwners(front, slot) || (SomeOwner(front, slot) && Owns(last, slot))
  {
    var claims := front + [last];
    assert claims[|front|] == last;
    assert forall i :: 0 <= i < |front| ==> claims[i] == front[i];
  }

  lemma GroupSays(claims: seq<Claim>, slot: Slot, aspect: Aspect)
    ensures (set c | c in Group(claims, slot) :: c.artifact) == Artifacts(claims, slot)
    ensures (set c | c in Group(claims, slot) && aspect in c.values :: c.values[aspect]) == Values(claims, slot, aspect)
  {
    forall c ensures c in Group(claims, slot) <==> c in claims && At(c, slot) {
      GroupMembers(claims, slot, c);
    }
  }

  /** Every group is the claims of its slot, and every slot has its group. */
  ghost predicate GroupsOf(claims: seq<Claim>, groups: map<Slot, seq<Claim>>)
  {
    groups.Keys == Slots(claims) && forall slot :: slot in groups ==> groups[slot] == Group(claims, slot)
  }

  lemma {:induction false} GroupsStep(claims: seq<Claim>, groups: map<Slot, seq<Claim>>, c: Claim)
    requires GroupsOf(claims, groups)
    ensures !c.grouped ==> GroupsOf(claims + [c], groups)
    ensures c.grouped ==>
            GroupsOf(claims + [c], groups[c.slot := (if c.slot in groups then groups[c.slot] else []) + [c]])
  {
    var next := claims + [c];
    assert next[..|claims|] == claims && next[|claims|] == c;
    assert forall x :: x in next <==> x in claims || x == c;
    assert Slots(next) == Slots(claims) + if c.grouped then {c.slot} else {};
    if c.grouped && c.slot !in groups {
      if Group(claims, c.slot) != [] {
        GroupMembers(claims, c.slot, Group(claims, c.slot)[0]);
      }
    }
  }

  /** Appends every conflict of a set. */
  method PushAll(conflicts: seq<Conflict>, more: set<Conflict>) returns (r: seq<Conflict>)
    ensures Elements(r) == Elements(conflicts) + more
  {
    r := conflicts;
    var todo := more;
    while todo != {}
      invariant todo <= more && Elements(r) == Elements(conflicts) + (more - todo)
      decreases todo
    {
      var c :| c in todo;
      ElementsAppend(r, c);
      r, todo := r + [c], todo - {c};
    }
  }

  /** Reports an ownership the slot does not allow. */
  method DetectShared(ghost claims: seq<Claim>, slot: Slot, group: seq<Claim>, artifacts: set<string>,
                      conflicts: seq<Conflict>)
    returns (r: seq<Conflict>)
    requires group == Group(claims, slot) && artifacts == Artifacts(claims, slot)
    ensures Elements(r) == Elements(conflicts) +
            if Contested(claims, slot) then {Conflict(Shared(slot), Artifacts(claims, slot))} else {}
  {
    r := conflicts;
    OwnersCounted(claims, slot);
    var owners := Owners(group);
    var contested := match slot
      case CellAt(_, _) => owners > 1
      case WitnessAt(_, _) => |artifacts| > 1 && owners > 1
      case PolicyFor(_) => |artifacts| > 1 && owners > 0
      case _ => false;
    if contested {
      ElementsAppend(r, Conflict(Shared(slot), artifacts));
      r := r + [Conflict(Shared(slot), artifacts)];
    }
  }

  /** Reports an aspect on which the group's claims give more than one value. */
  method DetectDistinct(ghost claims: seq<Claim>, slot: Slot, group: seq<Claim>, artifacts: set<string>, aspect: Aspect,
                        conflicts: seq<Conflict>)
    returns (r: seq<Conflict>)
    requires group == Group(claims, slot) && artifacts == Artifacts(claims, slot)
    ensures Elements(r) == Elements(conflicts) + DistinctIn(claims, slot, {aspect})
  {
    r := conflicts;
    GroupSays(claims, slot, aspect);
    if |set c | c in group && aspect in c.values :: c.values[aspect]| > 1 {
      ElementsAppend(r, Conflict(Distinct(slot, aspect), artifacts));
      r := r + [Conflict(Distinct(slot, aspect), artifacts)];
    }
  }

  /** The conflicts of one group. */
  method DetectGroup(ghost claims: seq<Claim>, slot: Slot, group: seq<Claim>, conflicts: seq<Conflict>)
    returns (r: seq<Conflict>)
    requires group == Group(claims, slot)
    ensures Elements(r) == Elements(conflicts) + OfSlot(claims, slot)
  {
    GroupSays(claims, slot, Lock);
    var artifacts := set c | c in group :: c.artifact;
    r := DetectShared(claims, slot, group, artifacts, conflicts);
    ghost var shared := Elements(r);
    var todo, done := AllAspects(), {};
    while todo != {}
      invariant todo + done == AllAspects() && Elements(r) == shared + DistinctIn(claims, slot, done)
      decreases todo
    {
      var aspect :| aspect in todo;
      DistinctStep(claims, slot, done, aspect);
      r := DetectDistinct(claims, slot, group, artifacts, aspect, r);
      todo, done := todo - {aspect}, done + {aspect};
    }
  }

  function DistinctIn(claims: seq<Claim>, slot: Slot, aspects: set<Aspect>): set<Conflict>
  {
    set aspect | aspect in aspects && Disagree(claims, slot, aspect) ::
      Conflict(Distinct(slot, aspect), Artifacts(claims, slot))
  }

  lemma DistinctStep(claims: seq<Claim>, slot: Slot, aspects: set<Aspect>, aspect: Aspect)
    ensures DistinctIn(claims, slot, aspects + {aspect}) ==
            DistinctIn(claims, slot, aspects) + DistinctIn(claims, slot, {aspect})
  {
  }

  /** Claims are checked alone and grouped by slot; then each group is compared. */
  method Detect(claims: seq<Claim>, conflicts: seq<Conflict>) returns (r: seq<Conflict>)
    ensures Elements(r) == Elements(conflicts) + ConflictsOf(claims)
  {
    r := conflicts;
    var groups: map<Slot, seq<Claim>> := map[];
    for i := 0 to |claims|
      invariant GroupsOf(claims[..i], groups) && Elements(r) == Elements(conflicts) + OwnConflicts(claims[..i])
    {
      var c := claims[i];
      assert claims[..i + 1] == claims[..i] + [c];
      GroupsStep(claims[..i], groups, c);
      OwnStep(claims[..i], c);
      r := PushAll(r, Own(c));
      if c.grouped {
        groups := groups[c.slot := (if c.slot in groups then groups[c.slot] else []) + [c]];
      }
    }
    assert claims[..|claims|] == claims;
    r := DetectGroups(claims, groups, r);
  }

  function OwnConflicts(claims: seq<Claim>): set<Conflict>
  {
    set c, conflict | c in claims && conflict in Own(c) :: conflict
  }

  lemma OwnStep(claims: seq<Claim>, c: Claim)
    ensures OwnConflicts(claims + [c]) == OwnConflicts(claims) + Own(c)
  {
    var next := claims + [c];
    assert next[|claims|] == c;
    assert forall x :: x in next <==> x in claims || x == c;
  }

  function GroupConflicts(claims: seq<Claim>, slots: set<Slot>): set<Conflict>
  {
    set slot, conflict | slot in slots && conflict in OfSlot(claims, slot) :: conflict
  }

  method DetectGroups(ghost claims: seq<Claim>, groups: map<Slot, seq<Claim>>, conflicts: seq<Conflict>)
    returns (r: seq<Conflict>)
    requires GroupsOf(claims, groups)
    ensures Elements(r) == Elements(conflicts) + GroupConflicts(claims, Slots(claims))
  {
    r := conflicts;
    var todo := groups.Keys;
    while todo != {}
      invariant todo <= groups.Keys && Elements(r) == Elements(conflicts) + GroupConflicts(claims, groups.Keys - todo)
      decreases todo
    {
      var slot :| slot in todo;
      ghost var seen := groups.Keys - todo;
      r := DetectGroup(claims, slot, groups[slot], r);
      todo := todo - {slot};
      assert groups.Keys - todo == seen + {slot};
      assert GroupConflicts(claims, seen + {slot}) == GroupConflicts(claims, seen) + OfSlot(claims, slot);
    }
  }

  // ----- the reported list

  /** A list without repeated neighbours. */
  function Dedup(s: seq<Conflict>): seq<Conflict>
  {
    if |s| <= 1 then s
    else
      var n := |s| - 1;
      if s[n] == s[n - 1] then Dedup(s[..n]) else Dedup(s[..n]) + [s[n]]
  }

  lemma {:induction false} DedupKeeps(s: seq<Conflict>)
    ensures Elements(Dedup(s)) == Elements(s) && (s != [] ==> Dedup(s) != [] && Dedup(s)[|Dedup(s)| - 1] == s[|s| - 1])
  {
    if |s| > 1 {
      var n := |s| - 1;
      DedupKeeps(s[..n]);
      ElementsAppend(s[..n], s[n]);
      ElementsAppend(Dedup(s[..n]), s[n]);
      assert s == s[..n] + [s[n]];
      assert s[..n][n - 1] == s[n - 1];
      assert s[n - 1] in Elements(s[..n]) by { assert s[..n][n - 1] in Elements(s[..n]); }
    }
  }

  lemma {:induction false} DedupStrict(key: Conflict -> Key, s: seq<Conflict>)
    requires IsSorted(key, s) && KeyDetermines(key, s)
    ensures IsStrict(key, Dedup(s))
  {
    if |s| > 1 {
      var n := |s| - 1;
      WithoutLast(key, s);
      DedupStrict(key, s[..n]);
      DedupKeeps(s[..n]);
      if s[n] != s[n - 1] {
        var front := Dedup(s[..n]);
        forall i | 0 <= i < |front| ensures Less(key(front[i]), key(s[n])) {
          assert front[i] in Elements(front) && front[i] in Elements(s[..n]);
          var k :| 0 <= k < n && s[..n][k] == front[i];
          BelowLast(key, s, k);
        }
      }
    }
  }

  /** Where the last two differ, everything is strictly below the last. */
  lemma BelowLast(key: Conflict -> Key, s: seq<Conflict>, k: nat)
    requires IsSorted(key, s) && KeyDetermines(key, s) && k < |s| - 1 && s[|s| - 1] != s[|s| - 2]
    ensures Less(key(s[k]), key(s[|s| - 1]))
  {
    var n := |s| - 1;
    assert Le(key(s[k]), key(s[n])) && Le(key(s[n - 1]), key(s[n]));
    assert k < n - 1 ==> Le(key(s[k]), key(s[n - 1]));
    if key(s[k]) == key(s[n]) {
      LeAntisymmetric(key(s[n - 1]), key(s[n]));
    }
  }

  /** The order of reported conflicts: by all that is reported, so nothing else shares a place. */
  ghost predicate Injective(key: Conflict -> Key)
  {
    forall a, b :: key(a) == key(b) ==> a == b
  }

  function Report(key: Conflict -> Key, conflicts: seq<Conflict>): seq<Conflict>
  {
    Dedup(Sort(key, conflicts))
  }

  /** The report is the strictly sorted list of the conflict set. */
  lemma ReportLists(key: Conflict -> Key, conflicts: seq<Conflict>)
    requires Injective(key)
    ensures IsStrict(key, Report(key, conflicts)) && Elements(Report(key, conflicts)) == Elements(conflicts)
  {
    var s := Sort(key, conflicts);
    SortSorts(key, conflicts);
    DedupStrict(key, s);
    DedupKeeps(s);
    forall c ensures c in Elements(s) <==> c in Elements(conflicts) {
      assert c in Elements(s) <==> c in multiset(s);
      assert c in Elements(conflicts) <==> c in multiset(conflicts);
    }
  }

  lemma {:induction false} StrictListUnique(key: Conflict -> Key, a: seq<Conflict>, b: seq<Conflict>)
    requires IsStrict(key, a) && IsStrict(key, b) && Elements(a) == Elements(b)
    ensures a == b
  {
    StrictCounts(key, a);
    StrictCounts(key, b);
    forall c ensures multiset(a)[c] == multiset(b)[c] {
      assert c in Elements(a) <==> c in multiset(a);
      assert c in Elements(b) <==> c in multiset(b);
    }
    assert multiset(a) == multiset(b);
    forall i, j | 0 <= i < |a| && 0 <= j < |a| && key(a[i]) == key(a[j]) ensures i == j {
      if i < j {
        LessAsymmetric(key(a[i]), key(a[j]));
      } else if j < i {
        LessAsymmetric(key(a[j]), key(a[i]));
      }
    }
    SortedUnique(key, a, b);
  }

  lemma {:induction false} StrictCounts(key: Conflict -> Key, a: seq<Conflict>)
    requires IsStrict(key, a)
    ensures forall c :: multiset(a)[c] <= 1
  {
    if a != [] {
      var n := |a| - 1;
      StrictCounts(key, a[..n]);
      assert a == a[..n] + [a[n]];
      if a[n] in a[..n] {
        var i :| 0 <= i < n && a[i] == a[n];
        LessAsymmetric(key(a[i]), key(a[n]));
      }
      assert a[n] !in multiset(a[..n]);
    }
  }
}
