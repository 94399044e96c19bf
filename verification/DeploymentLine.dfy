/** Deployment lines: a hash-linked chain of receipts that begins, advances through compatible versions, and may be
    yanked. */
module DeploymentLine {
  import opened Options
  import opened Interface

  type Hash = nat

  const SEQUENCE_BOUND: nat := 0x1_0000_0000_0000_0000

  /** A version by major and minor number; `rank` orders what follows them. */
  datatype Version = Version(major: nat, minor: nat, rank: nat)

  predicate Older(a: Version, b: Version)
  {
    a.major < b.major || (a.major == b.major && (a.minor < b.minor || (a.minor == b.minor && a.rank < b.rank)))
  }

  datatype Coordinate = Coordinate(name: string, version: Version)

  /** Versions with one major number, or one minor number below 1.0, belong together. */
  datatype PackageLine = ZeroLine(name: string, minor: nat) | MajorLine(name: string, major: nat)

  function PackageLineOf(c: Coordinate): Option<PackageLine>
  {
    if c.name == "" then None
    else if c.version.major == 0 then Some(ZeroLine(c.name, c.version.minor))
    else Some(MajorLine(c.name, c.version.major))
  }

  datatype Identity = Identity(kind: string, role: string, entry: string, network: string, script: string)

  /** The exact receipt of one version; `typeHashCode` says its Script is found by Type hash with an exact code Cell. */
  datatype Exact = Exact(
    identity: Identity,
    coordinate: Coordinate,
    interfaceHash: Hash,
    targetProfile: Hash,
    runtimeAbi: Hash,
    typeHashCode: bool
  )

  datatype Report = Report(oldHash: Hash, newHash: Hash, compatible: bool)

  datatype Status = Active | Yanked

  datatype Receipt = Receipt(
    lineId: Hash,
    packageLine: PackageLine,
    sequence: nat,
    status: Status,
    previous: Option<Hash>,
    identity: Identity,
    baseline: Hash,
    previousInterface: Hash,
    currentInterface: Hash,
    predecessorReport: Report,
    baselineReport: Report,
    policy: Hash,
    admission: Hash,
    exact: Exact,
    exactHandle: Hash
  )

  datatype LineKey = LineKey(packageLine: PackageLine, identity: Identity, baseline: Hash, policy: Hash,
                             admission: Hash)

  /** The canonical hashes and the hash of the one supported policy. */
  datatype Hashing = Hashing(
    ofInterface: Interface -> Hash,
    ofReceipt: Receipt -> Hash,
    ofLine: LineKey -> Hash,
    ofExact: Exact -> Hash,
    policy: Hash
  )

  function Compared(h: Hashing, before: Interface, after: Interface): Report
  {
    Report(h.ofInterface(before), h.ofInterface(after), Compatible(before, after))
  }

  predicate Shaped(x: Interface)
  {
    x.schema == SCHEMA && x.version == SCHEMA_VERSION
  }

  // ----- validators

  predicate ReportHolds(report: Report, oldHash: Hash, newHash: Hash)
  {
    report.oldHash == oldHash && report.newHash == newHash && report.compatible
  }

  predicate ValidReceipt(h: Hashing, r: Receipt)
  {
    && r.exact.typeHashCode && r.identity == r.exact.identity
    && PackageLineOf(r.exact.coordinate) == Some(r.packageLine) && r.policy == h.policy
    && r.lineId == h.ofLine(LineKey(r.packageLine, r.identity, r.baseline, r.policy, r.admission))
    && (if r.sequence == 0 then r.previous.None? && r.status == Active else r.previous.Some?)
    && ReportHolds(r.predecessorReport, r.previousInterface, r.currentInterface)
    && ReportHolds(r.baselineReport, r.baseline, r.currentInterface)
    && r.exactHandle == h.ofExact(r.exact)
  }

  /** The fields that make a line what it is. */
  predicate SameLine(a: Receipt, b: Receipt)
  {
    && a.lineId == b.lineId && a.packageLine == b.packageLine && a.identity == b.identity && a.baseline == b.baseline
    && a.policy == b.policy && a.admission == b.admission
  }

  predicate Upgrades(before: Coordinate, after: Coordinate)
  {
    && before.name == after.name && PackageLineOf(before).Some? && PackageLineOf(before) == PackageLineOf(after)
    && Older(before.version, after.version)
  }

  predicate ValidSuccessor(h: Hashing, previous: Receipt, current: Receipt)
  {
    && ValidReceipt(h, previous) && ValidReceipt(h, current) && SameLine(previous, current)
    && previous.sequence + 1 < SEQUENCE_BOUND && current.sequence == previous.sequence + 1
    && current.previous == Some(h.ofReceipt(previous)) && current.previousInterface == previous.currentInterface
    && previous.status == Active
    && match current.status
       case Active => Upgrades(previous.exact.coordinate, current.exact.coordinate)
       case Yanked => current.exact == previous.exact && current.currentInterface == previous.currentInterface
  }

  // ----- constructors

  function Begin(h: Hashing, exact: Exact, current: Interface, admission: Hash): Option<Receipt>
  {
    if !Shaped(current) || h.ofInterface(current) != exact.interfaceHash || !exact.typeHashCode then None
    else if PackageLineOf(exact.coordinate).None? then None
    else
      var line, baseline := PackageLineOf(exact.coordinate).value, h.ofInterface(current);
      var report := Compared(h, current, current);
      var receipt :=
        Receipt(h.ofLine(LineKey(line, exact.identity, baseline, h.policy, admission)), line, 0, Active, None,
                exact.identity, baseline, baseline, baseline, report, report, h.policy, admission, exact,
                h.ofExact(exact));
      if ValidReceipt(h, receipt) then Some(receipt) else None
  }

  predicate StableIdentity(previous: Receipt, exact: Exact)
  {
    && previous.identity == exact.identity && PackageLineOf(exact.coordinate) == Some(previous.packageLine)
    && previous.exact.targetProfile == exact.targetProfile && previous.exact.runtimeAbi == exact.runtimeAbi
  }

  /** What `advance` demands before it compares interfaces. */
  predicate MayAdvance(h: Hashing, previous: Receipt, baseline: Interface, before: Interface, exact: Exact,
                       current: Interface)
  {
    && ValidReceipt(h, previous) && previous.status == Active
    && Shaped(baseline) && h.ofInterface(baseline) == previous.baseline
    && Shaped(before) && h.ofInterface(before) == previous.currentInterface
    && Shaped(current) && h.ofInterface(current) == exact.interfaceHash && exact.typeHashCode
    && StableIdentity(previous, exact) && Upgrades(previous.exact.coordinate, exact.coordinate)
  }

  function Advanced(h: Hashing, previous: Receipt, baseline: Interface, before: Interface, exact: Exact,
                    current: Interface): Receipt
  {
    Receipt(previous.lineId, previous.packageLine, previous.sequence + 1, Active, Some(h.ofReceipt(previous)),
            previous.identity, previous.baseline, previous.currentInterface, h.ofInterface(current),
            Compared(h, before, current), Compared(h, baseline, current), previous.policy, previous.admission, exact,
            h.ofExact(exact))
  }

  function Advance(h: Hashing, previous: Receipt, baseline: Interface, before: Interface, exact: Exact,
                   current: Interface): Option<Receipt>
  {
    if !MayAdvance(h, previous, baseline, before, exact, current) then None
    else if !Compatible(before, current) || !Compatible(baseline, current) then None
    else if previous.sequence + 1 >= SEQUENCE_BOUND then None
    else
      var receipt := Advanced(h, previous, baseline, before, exact, current);
      if ValidSuccessor(h, previous, receipt) && ValidReceipt(h, receipt) then Some(receipt) else None
  }

  function Yank(h: Hashing, previous: Receipt, current: Interface): Option<Receipt>
  {
    if !ValidReceipt(h, previous) || previous.status != Active then None
    else if !Shaped(current) || h.ofInterface(current) != previous.currentInterface then None
    else if previous.sequence + 1 >= SEQUENCE_BOUND then None
    else
      var receipt := previous.(
        sequence := previous.sequence + 1, status := Yanked, previous := Some(h.ofReceipt(previous)),
        previousInterface := previous.currentInterface, predecessorReport := Compared(h, current, current));
      if ValidSuccessor(h, previous, receipt) && ValidReceipt(h, receipt) then Some(receipt) else None
  }

  /** Begin succeeds exactly on a valid interface that matches a usable exact receipt of a named package. */
  lemma BeginExactly(h: Hashing, exact: Exact, current: Interface, admission: Hash)
    ensures Begin(h, exact, current, admission).Some? <==>
            h.ofInterface(current) == exact.interfaceHash && exact.typeHashCode && exact.coordinate.name != "" &&
            Valid(current)
  {
    ReflexiveExactly(current);
  }

  /** The successor check and the final receipt check never refuse what the earlier checks of `advance` admitted. */
  lemma AdvanceExactly(h: Hashing, previous: Receipt, baseline: Interface, before: Interface, exact: Exact,
                       current: Interface)
    ensures Advance(h, previous, baseline, before, exact, current).Some? <==>
            && MayAdvance(h, previous, baseline, before, exact, current) && previous.sequence + 1 < SEQUENCE_BOUND
            && Compatible(before, current) && Compatible(baseline, current)
  {
    if MayAdvance(h, previous, baseline, before, exact, current) && previous.sequence + 1 < SEQUENCE_BOUND
       && Compatible(before, current) && Compatible(baseline, current)
    {
      AdvancedIsValid(h, previous, baseline, before, exact, current);
    }
  }

  lemma AdvancedIsValid(h: Hashing, previous: Receipt, baseline: Interface, before: Interface, exact: Exact,
                        current: Interface)
    requires MayAdvance(h, previous, baseline, before, exact, current) && previous.sequence + 1 < SEQUENCE_BOUND
    requires Compatible(before, current) && Compatible(baseline, current)
    ensures ValidSuccessor(h, previous, Advanced(h, previous, baseline, before, exact, current))
  {
    var receipt := Advanced(h, previous, baseline, before, exact, current);
    assert ReportHolds(receipt.predecessorReport, receipt.previousInterface, receipt.currentInterface);
    assert ReportHolds(receipt.baselineReport, receipt.baseline, receipt.currentInterface);
  }

  lemma YankExactly(h: Hashing, previous: Receipt, current: Interface)
    ensures Yank(h, previous, current).Some? <==>
            && ValidReceipt(h, previous) && previous.status == Active && previous.sequence + 1 < SEQUENCE_BOUND
            && h.ofInterface(current) == previous.currentInterface && Valid(current)
  {
    ReflexiveExactly(current);
  }

  // ----- runs

  datatype Event =
    | Upgrade(baseline: Interface, before: Interface, exact: Exact, current: Interface)
    | Withdraw(current: Interface)

  function Apply(h: Hashing, previous: Receipt, event: Event): Option<Receipt>
  {
    match event
    case Upgrade(baseline, before, exact, current) => Advance(h, previous, baseline, before, exact, current)
    case Withdraw(current) => Yank(h, previous, current)
  }

  /** A line begun on an interface and carried through the events. */
  ghost predicate IsLine(h: Hashing, exact: Exact, first: Interface, admission: Hash, events: seq<Event>,
                         rs: seq<Receipt>)
  {
    && |rs| == |events| + 1 && Begin(h, exact, first, admission) == Some(rs[0])
    && forall i :: 0 <= i < |events| ==> Apply(h, rs[i], events[i]) == Some(rs[i + 1])
  }

  lemma StepExtends(h: Hashing, previous: Receipt, event: Event)
    requires Apply(h, previous, event).Some?
    ensures ValidSuccessor(h, previous, Apply(h, previous, event).value)
    ensures var current := Apply(h, previous, event).value;
            current.exact.targetProfile == previous.exact.targetProfile &&
            current.exact.runtimeAbi == previous.exact.runtimeAbi
  {
  }

  /** Sequence is position, and the line, its target profile and its runtime ABI never change. */
  lemma {:induction false} LineKeeps(h: Hashing, exact: Exact, first: Interface, admission: Hash, events: seq<Event>,
                                     rs: seq<Receipt>, i: nat)
    requires IsLine(h, exact, first, admission, events, rs) && i < |rs|
    ensures ValidReceipt(h, rs[i]) && rs[i].sequence == i && SameLine(rs[0], rs[i])
    ensures rs[i].exact.targetProfile == exact.targetProfile && rs[i].exact.runtimeAbi == exact.runtimeAbi
  {
    if i > 0 {
      LineKeeps(h, exact, first, admission, events, rs, i - 1);
      assert Apply(h, rs[i - 1], events[i - 1]) == Some(rs[i - 1 + 1]);
      StepExtends(h, rs[i - 1], events[i - 1]);
    }
  }

  /** Only an active receipt has a successor; it is linked by hash, and an active one is a newer version of the same
      line. */
  lemma {:induction false} LineSteps(h: Hashing, exact: Exact, first: Interface, admission: Hash, events: seq<Event>,
                                     rs: seq<Receipt>, i: nat)
    requires IsLine(h, exact, first, admission, events, rs) && i < |events|
    ensures rs[i].status == Active && rs[i + 1].previous == Some(h.ofReceipt(rs[i]))
    ensures rs[i + 1].status == Active ==> Upgrades(rs[i].exact.coordinate, rs[i + 1].exact.coordinate)
    ensures rs[i + 1].status == Yanked ==> rs[i + 1].exact == rs[i].exact && i + 1 == |events|
  {
    assert Apply(h, rs[i], events[i]) == Some(rs[i + 1]);
    StepExtends(h, rs[i], events[i]);
    if i + 1 < |events| {
      assert Apply(h, rs[i + 1], events[i + 1]) == Some(rs[i + 1 + 1]);
      StepExtends(h, rs[i + 1], events[i + 1]);
    }
  }

  /** Versions of active receipts increase strictly along the whole line. */
  lemma {:induction false} VersionsIncrease(h: Hashing, exact: Exact, first: Interface, admission: Hash,
                                            events: seq<Event>, rs: seq<Receipt>, i: nat, j: nat)
    requires IsLine(h, exact, first, admission, events, rs) && i < j < |rs| && rs[j].status == Active
    ensures Older(rs[i].exact.coordinate.version, rs[j].exact.coordinate.version)
    decreases j - i
  {
    LineSteps(h, exact, first, admission, events, rs, j - 1);
    if i < j - 1 {
      VersionsIncrease(h, exact, first, admission, events, rs, i, j - 1);
    }
  }

  ghost predicate Collides(h: Hashing, rs: seq<Receipt>, qs: seq<Receipt>)
  {
    exists k :: 0 <= k < |rs| && k < |qs| && rs[k] != qs[k] && h.ofReceipt(rs[k]) == h.ofReceipt(qs[k])
  }

  /** The head receipt determines the whole history, or exhibits two receipts with one hash. */
  lemma {:induction false} HeadDetermines(h: Hashing, exact: Exact, first: Interface, admission: Hash,
                                          events: seq<Event>, rs: seq<Receipt>, exact': Exact, first': Interface,
                                          admission': Hash, events': seq<Event>, qs: seq<Receipt>)
    requires IsLine(h, exact, first, admission, events, rs) && IsLine(h, exact', first', admission', events', qs)
    requires rs[|rs| - 1] == qs[|qs| - 1]
    ensures rs == qs || Collides(h, rs, qs)
  {
    LineKeeps(h, exact, first, admission, events, rs, |rs| - 1);
    LineKeeps(h, exact', first', admission', events', qs, |qs| - 1);
    if !Collides(h, rs, qs) {
      forall k | 0 <= k < |rs| ensures rs[k] == qs[k] {
        TailAgrees(h, exact, first, admission, events, rs, exact', first', admission', events', qs, k);
      }
    }
  }

  lemma {:induction false} TailAgrees(h: Hashing, exact: Exact, first: Interface, admission: Hash, events: seq<Event>,
                                      rs: seq<Receipt>, exact': Exact, first': Interface, admission': Hash,
                                      events': seq<Event>, qs: seq<Receipt>, k: nat)
    requires IsLine(h, exact, first, admission, events, rs) && IsLine(h, exact', first', admission', events', qs)
    requires |rs| == |qs| && k < |rs| && rs[|rs| - 1] == qs[|qs| - 1] && !Collides(h, rs, qs)
    ensures rs[k] == qs[k]
    decreases |rs| - k
  {
    if k < |rs| - 1 {
      TailAgrees(h, exact, first, admission, events, rs, exact', first', admission', events', qs, k + 1);
      LineSteps(h, exact, first, admission, events, rs, k);
      LineSteps(h, exact', first', admission', events', qs, k);
    }
  }

  // ----- the baseline check

  /** The interface each receipt of a line stands on. */
  function InterfaceAt(first: Interface, events: seq<Event>, i: nat): Interface
    requires i <= |events|
  {
    if i == 0 then first
    else if events[i - 1].Upgrade? then events[i - 1].current
    else InterfaceAt(first, events, i - 1)
  }

  ghost predicate HashesApart(h: Hashing, x: Interface, y: Interface)
  {
    h.ofInterface(x) == h.ofInterface(y) ==> x == y
  }

  /** No interface given to an event collides with one the line stands on. */
  ghost predicate NoCollisions(h: Hashing, first: Interface, events: seq<Event>, x: Interface)
  {
    forall i :: 0 <= i <= |events| ==> HashesApart(h, x, InterfaceAt(first, events, i))
  }

  ghost predicate NoEventCollides(h: Hashing, first: Interface, events: seq<Event>)
  {
    forall k :: 0 <= k < |events| && events[k].Upgrade? ==> NoCollisions(h, first, events, events[k].before)
  }

  lemma UpgradeStep(h: Hashing, previous: Receipt, event: Event)
    requires Apply(h, previous, event).Some? && event.Upgrade?
    ensures h.ofInterface(event.before) == previous.currentInterface && Compatible(event.before, event.current)
  {
  }

  lemma BeginStep(h: Hashing, exact: Exact, first: Interface, admission: Hash)
    requires Begin(h, exact, first, admission).Some?
    ensures Compatible(first, first)
  {
    BeginExactly(h, exact, first, admission);
    ReflexiveExactly(first);
  }

  lemma {:induction false} InterfaceHash(h: Hashing, exact: Exact, first: Interface, admission: Hash,
                                         events: seq<Event>, rs: seq<Receipt>, i: nat)
    requires IsLine(h, exact, first, admission, events, rs) && i < |rs|
    ensures rs[i].currentInterface == h.ofInterface(InterfaceAt(first, events, i))
    ensures rs[i].baseline == h.ofInterface(first)
  {
    if i > 0 {
      InterfaceHash(h, exact, first, admission, events, rs, i - 1);
      assert Apply(h, rs[i - 1], events[i - 1]) == Some(rs[i - 1 + 1]);
    }
  }

  ghost predicate CompatibleAt(first: Interface, events: seq<Event>, i: nat)
    requires i <= |events|
  {
    Compatible(first, InterfaceAt(first, events, i))
  }

  lemma UpgradeCompatible(first: Interface, events: seq<Event>, i: nat)
    requires i < |events| && CompatibleAt(first, events, i) && events[i].Upgrade?
    requires events[i].before == InterfaceAt(first, events, i) && Compatible(events[i].before, events[i].current)
    ensures CompatibleAt(first, events, i + 1)
  {
    Transitive(first, events[i].before, events[i].current);
  }

  lemma {:induction false} LineStaysCompatible(h: Hashing, exact: Exact, first: Interface, admission: Hash,
                                               events: seq<Event>, rs: seq<Receipt>, i: nat)
    requires IsLine(h, exact, first, admission, events, rs) && i <= |events| && NoEventCollides(h, first, events)
    requires CompatibleAt(first, events, 0)
    ensures CompatibleAt(first, events, i)
  {
    if i > 0 {
      LineStaysCompatible(h, exact, first, admission, events, rs, i - 1);
      if events[i - 1].Upgrade? {
        BeforeIsCurrent(h, exact, first, admission, events, rs, i - 1);
        UpgradeCompatible(first, events, i - 1);
      } else {
        assert InterfaceAt(first, events, i) == InterfaceAt(first, events, i - 1);
      }
    }
  }

  /** Every interface of the line is compatible with the one it began on. */
  lemma {:induction false} LineIsCompatible(h: Hashing, exact: Exact, first: Interface, admission: Hash,
                                            events: seq<Event>, rs: seq<Receipt>, i: nat)
    requires IsLine(h, exact, first, admission, events, rs) && i < |rs|
    requires NoEventCollides(h, first, events)
    ensures Compatible(first, InterfaceAt(first, events, i))
  {
    BeginStep(h, exact, first, admission);
    assert CompatibleAt(first, events, 0);
    LineStaysCompatible(h, exact, first, admission, events, rs, i);
    assert CompatibleAt(first, events, i);
  }

  lemma {:induction false} BeforeIsCurrent(h: Hashing, exact: Exact, first: Interface, admission: Hash,
                                           events: seq<Event>, rs: seq<Receipt>, i: nat)
    requires IsLine(h, exact, first, admission, events, rs) && i < |events| && events[i].Upgrade?
    requires NoEventCollides(h, first, events)
    ensures events[i].before == InterfaceAt(first, events, i) && Compatible(events[i].before, events[i].current)
  {
    assert Apply(h, rs[i], events[i]) == Some(rs[i + 1]);
    UpgradeStep(h, rs[i], events[i]);
    InterfaceHash(h, exact, first, admission, events, rs, i);
    assert NoCollisions(h, first, events, events[i].before);
    assert HashesApart(h, events[i].before, InterfaceAt(first, events, i));
  }

  /** Once the predecessor comparison passes, the baseline comparison cannot fail. */
  lemma {:induction false} BaselineNeverFails(h: Hashing, exact: Exact, first: Interface, admission: Hash,
                                              events: seq<Event>, rs: seq<Receipt>, baseline: Interface,
                                              before: Interface, next: Exact, current: Interface)
    requires IsLine(h, exact, first, admission, events, rs)
    requires NoEventCollides(h, first, events)
    requires NoCollisions(h, first, events, baseline) && NoCollisions(h, first, events, before)
    requires MayAdvance(h, rs[|events|], baseline, before, next, current) && Compatible(before, current)
    ensures Compatible(baseline, current)
  {
    InterfaceHash(h, exact, first, admission, events, rs, |events|);
    LineIsCompatible(h, exact, first, admission, events, rs, |events|);
    assert HashesApart(h, before, InterfaceAt(first, events, |events|));
    assert HashesApart(h, baseline, InterfaceAt(first, events, 0));
    Transitive(first, before, current);
  }

  // ----- validated histories and constructed ones

  /** Receipts from sequence zero, each the valid successor of the one before. */
  ghost predicate IsChain(h: Hashing, chain: seq<Receipt>)
  {
    && chain != [] && ValidReceipt(h, chain[0]) && chain[0].sequence == 0
    && forall i :: 0 <= i < |chain| - 1 ==> ValidSuccessor(h, chain[i], chain[i + 1])
  }

  /** All interface hashes of a first receipt are those of one valid interface. */
  predicate StartsFrom(h: Hashing, r: Receipt, first: Interface)
  {
    r.baseline == r.previousInterface == r.currentInterface == r.exact.interfaceHash == h.ofInterface(first) &&
    Valid(first)
  }

  /** What `advance` checks and the successor validator does not. */
  predicate KeepsExact(previous: Receipt, next: Receipt)
  {
    && next.exact.targetProfile == previous.exact.targetProfile && next.exact.runtimeAbi == previous.exact.runtimeAbi
    && next.exact.interfaceHash == next.currentInterface
  }

  /** A valid first receipt is the one `begin` builds exactly when it starts from the interface. */
  lemma InitialExactly(h: Hashing, r: Receipt, first: Interface)
    requires ValidReceipt(h, r) && r.sequence == 0
    ensures Begin(h, r.exact, first, r.admission) == Some(r) <==> StartsFrom(h, r, first)
  {
    ReflexiveExactly(first);
  }

  /** A validated upgrade is the one `advance` builds exactly when it keeps profile, ABI and interface hash, and the
      interfaces behind its reports are compatible. */
  lemma SuccessorExactly(h: Hashing, previous: Receipt, next: Receipt, baseline: Interface, before: Interface,
                         current: Interface)
    requires ValidSuccessor(h, previous, next) && next.status == Active && h.ofInterface(baseline) == next.baseline
    requires h.ofInterface(before) == previous.currentInterface && h.ofInterface(current) == next.currentInterface
    ensures Advance(h, previous, baseline, before, next.exact, current) == Some(next) <==>
            KeepsExact(previous, next) && Compatible(before, current) && Compatible(baseline, current)
  {
    if KeepsExact(previous, next) && Compatible(before, current) && Compatible(baseline, current) {
      AdvancedIsValid(h, previous, baseline, before, next.exact, current);
      assert Advanced(h, previous, baseline, before, next.exact, current) == next;
    }
  }

  /** A validated withdrawal is the one `yank` builds exactly when the interface behind it is valid. */
  lemma WithdrawalExactly(h: Hashing, previous: Receipt, next: Receipt, current: Interface)
    requires ValidSuccessor(h, previous, next) && next.status == Yanked
    requires h.ofInterface(current) == previous.currentInterface
    ensures Yank(h, previous, current) == Some(next) <==> Valid(current)
  {
    ReflexiveExactly(current);
  }

  /** The events that would build the receipts, over their interfaces. */
  function EventAt(chain: seq<Receipt>, xs: seq<Interface>, i: nat): Event
    requires i + 1 < |chain| == |xs|
  {
    if chain[i + 1].status == Active then Upgrade(xs[0], xs[i], chain[i + 1].exact, xs[i + 1]) else Withdraw(xs[i])
  }

  function EventsOf(chain: seq<Receipt>, xs: seq<Interface>): seq<Event>
    requires |chain| == |xs| > 0
  {
    seq(|chain| - 1, i requires 0 <= i < |chain| - 1 => EventAt(chain, xs, i))
  }

  predicate StepKept(chain: seq<Receipt>, xs: seq<Interface>, i: nat)
    requires i + 1 < |chain| == |xs|
  {
    if chain[i + 1].status == Active then
      KeepsExact(chain[i], chain[i + 1]) && Compatible(xs[i], xs[i + 1]) && Compatible(xs[0], xs[i + 1])
    else Valid(xs[i])
  }

  lemma {:induction false} ChainBaseline(h: Hashing, chain: seq<Receipt>, i: nat)
    requires IsChain(h, chain) && i < |chain|
    ensures chain[i].baseline == chain[0].baseline
  {
    if i > 0 {
      ChainBaseline(h, chain, i - 1);
      assert ValidSuccessor(h, chain[i - 1], chain[i - 1 + 1]);
    }
  }

  lemma {:induction false} StepExactly(h: Hashing, chain: seq<Receipt>, xs: seq<Interface>, i: nat)
    requires IsChain(h, chain) && i + 1 < |chain| == |xs| && h.ofInterface(xs[0]) == chain[0].baseline
    requires h.ofInterface(xs[i]) == chain[i].currentInterface
    requires h.ofInterface(xs[i + 1]) == chain[i + 1].currentInterface
    ensures Apply(h, chain[i], EventAt(chain, xs, i)) == Some(chain[i + 1]) <==> StepKept(chain, xs, i)
  {
    assert ValidSuccessor(h, chain[i], chain[i + 1]);
    if chain[i + 1].status == Active {
      ChainBaseline(h, chain, i + 1);
      SuccessorExactly(h, chain[i], chain[i + 1], xs[0], xs[i], xs[i + 1]);
    } else {
      WithdrawalExactly(h, chain[i], chain[i + 1], xs[i]);
    }
  }

  /** A validated history is the line its constructors build exactly when it starts from the first interface and every
      step keeps what the validators do not check. */
  lemma {:induction false} HistoryExactly(h: Hashing, chain: seq<Receipt>, xs: seq<Interface>)
    requires IsChain(h, chain) && |xs| == |chain|
    requires forall i :: 0 <= i < |chain| ==> h.ofInterface(xs[i]) == chain[i].currentInterface
    ensures IsLine(h, chain[0].exact, xs[0], chain[0].admission, EventsOf(chain, xs), chain) <==>
            StartsFrom(h, chain[0], xs[0]) && forall i :: 0 <= i < |chain| - 1 ==> StepKept(chain, xs, i)
  {
    InitialExactly(h, chain[0], xs[0]);
    if StartsFrom(h, chain[0], xs[0]) {
      forall i | 0 <= i < |chain| - 1
        ensures Apply(h, chain[i], EventsOf(chain, xs)[i]) == Some(chain[i + 1]) <==> StepKept(chain, xs, i)
      {
        StepExactly(h, chain, xs, i);
      }
    }
  }

  // ----- what the validators let through

  /** The receipts of one version that differ at most in profile, ABI and interface hash. */
  predicate SameVersion(a: Exact, b: Exact)
  {
    a.identity == b.identity && a.coordinate == b.coordinate && a.typeHashCode == b.typeHashCode
  }

  function Reissued(h: Hashing, next: Receipt, exact: Exact): Receipt
  {
    next.(exact := exact, exactHandle := h.ofExact(exact))
  }

  /** Whatever the profile, the ABI and the interface hash, a reissued successor is validated. */
  lemma ReissuedIsSuccessor(h: Hashing, previous: Receipt, next: Receipt, exact: Exact)
    requires ValidSuccessor(h, previous, next) && next.status == Active && SameVersion(next.exact, exact)
    ensures ValidSuccessor(h, previous, Reissued(h, next, exact))
  {
  }

  lemma SuccessorIgnoresProfile(h: Hashing, previous: Receipt, baseline: Interface, before: Interface, exact: Exact,
                                current: Interface, profile: Hash)
    returns (next: Receipt)
    requires Advance(h, previous, baseline, before, exact, current).Some? && profile != previous.exact.targetProfile
    ensures ValidSuccessor(h, previous, next) && next.exact == exact.(targetProfile := profile)
    ensures Advance(h, previous, baseline, before, next.exact, current).None?
  {
    next := Reissued(h, Advance(h, previous, baseline, before, exact, current).value, exact.(targetProfile := profile));
  }

  lemma SuccessorIgnoresAbi(h: Hashing, previous: Receipt, baseline: Interface, before: Interface, exact: Exact,
                            current: Interface, abi: Hash)
    returns (next: Receipt)
    requires Advance(h, previous, baseline, before, exact, current).Some? && abi != previous.exact.runtimeAbi
    ensures ValidSuccessor(h, previous, next) && next.exact == exact.(runtimeAbi := abi)
    ensures Advance(h, previous, baseline, before, next.exact, current).None?
  {
    next := Reissued(h, Advance(h, previous, baseline, before, exact, current).value, exact.(runtimeAbi := abi));
  }

  lemma SuccessorIgnoresInterface(h: Hashing, previous: Receipt, baseline: Interface, before: Interface, exact: Exact,
                                  current: Interface, other: Hash)
    returns (next: Receipt)
    requires Advance(h, previous, baseline, before, exact, current).Some? && other != exact.interfaceHash
    ensures ValidSuccessor(h, previous, next) && next.exact == exact.(interfaceHash := other)
    ensures next.currentInterface != next.exact.interfaceHash
    ensures Advance(h, previous, baseline, before, next.exact, current).None?
  {
    next := Reissued(h, Advance(h, previous, baseline, before, exact, current).value, exact.(interfaceHash := other));
  }

  /** The validators take the reports as they are stored: incompatible interfaces pass under a report that says so. */
  lemma SuccessorTrustsReports(h: Hashing, previous: Receipt, baseline: Interface, before: Interface, exact: Exact,
                               current: Interface)
    returns (next: Receipt)
    requires MayAdvance(h, previous, baseline, before, exact, current) && previous.sequence + 1 < SEQUENCE_BOUND
    requires !Compatible(before, current)
    ensures ValidSuccessor(h, previous, next) && next.exact == exact && next.currentInterface == h.ofInterface(current)
    ensures Advance(h, previous, baseline, before, exact, current).None?
  {
    next := Advanced(h, previous, baseline, before, exact, current).(
      predecessorReport := Report(previous.currentInterface, h.ofInterface(current), true),
      baselineReport := Report(previous.baseline, h.ofInterface(current), true));
  }
}
