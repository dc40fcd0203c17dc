/** The root lifecycle and root operation tables: what their CHECKs and triggers permit, and what the
    coordinator's transactions keep at every commit.  */
module RootLifecycle {
  import opened ChainModel

  datatype Kind = Register | Replicate | Fork

  /** A creation origin names the kind of operation that created the root. */
  datatype Origin = Created(kind: Kind) | ReadServiceability | MigrationV2

  datatype Access = Writable | Serviceable | Unserviceable

  datatype Phase = Recorded | SourceDurable | TreeDurable | Complete

  datatype Lifecycle = Lifecycle(state: Access, machine: string, path: string, origin: Origin)

  datatype Operation = Operation(id: string, kind: Kind, phase: Phase, request: string,
                                 source: Option<string>, destination: Option<string>, genesis: Option<string>)

  /** Both singleton tables. */
  datatype Root = Root(lifecycle: Option<Lifecycle>, operation: Option<Operation>)

  // ---- the CHECK constraints ----

  predicate LifecycleCheck(l: Lifecycle) {
    match l.origin
    case Created(Replicate) => l.state.Unserviceable? || l.state.Serviceable?
    case Created(_) => l.state.Unserviceable? || l.state.Writable?
    case ReadServiceability => l.state.Serviceable?
    case MigrationV2 => l.state.Writable?
  }

  predicate OperationCheck(o: Operation) {
    && (o.kind.Register? ==> o.source.None? && !o.phase.SourceDurable?)
    && (!o.kind.Register? ==> (o.source.Some? <==> !o.phase.Recorded?))
    && (o.destination.Some? <==> o.phase.TreeDurable? || o.phase.Complete?)
    && (o.genesis.Some? <==> !o.kind.Replicate? && (o.phase.TreeDurable? || o.phase.Complete?))
  }

  // ---- what the triggers let one statement do ----

  predicate LifecycleInsert(l: Lifecycle, operation: Option<Operation>) {
    match l.origin
    case Created(kind) => l.state.Unserviceable? && operation.Some? && operation.value.kind == kind && operation.value.phase.Recorded?
    case ReadServiceability => l.state.Serviceable? && operation.None?
    case MigrationV2 => l.state.Writable? && operation.None?
  }

  predicate StateStep(prior: Lifecycle, next: Lifecycle, operation: Option<Operation>) {
    || next.state == prior.state
    || (prior.state.Unserviceable? && next.state.Serviceable? && (operation.None? || operation.value.phase.Complete?))
    || (prior.state.Unserviceable? && next.state.Writable? && prior.origin.Created? && !prior.origin.kind.Replicate?
        && operation.Some? && operation.value.kind == prior.origin.kind && operation.value.phase.TreeDurable?)
  }

  predicate LifecycleUpdate(prior: Lifecycle, next: Lifecycle, operation: Option<Operation>) {
    && next.machine == prior.machine && next.path == prior.path && next.origin == prior.origin
    && StateStep(prior, next, operation)
  }

  predicate PhaseStep(kind: Kind, prior: Phase, next: Phase) {
    || (prior.Recorded? && next.SourceDurable? && !kind.Register?)
    || (prior.Recorded? && next.TreeDurable? && kind.Register?)
    || (prior.SourceDurable? && next.TreeDurable?)
    || (prior.TreeDurable? && next.Complete?)
  }

  predicate Kept(prior: Option<string>, next: Option<string>) {
    prior.Some? ==> next == prior
  }

  /** `phaseNamed`: the statement assigns the phase column, which is what fires the two phase triggers. */
  predicate OperationUpdate(prior: Operation, next: Operation, lifecycle: Option<Lifecycle>, phaseNamed: bool) {
    && next.id == prior.id && next.kind == prior.kind && next.request == prior.request
    && Kept(prior.source, next.source) && Kept(prior.destination, next.destination) && Kept(prior.genesis, next.genesis)
    && (if phaseNamed then PhaseStep(prior.kind, prior.phase, next.phase) else next.phase == prior.phase)
    && (phaseNamed && next.phase.Complete? ==>
          && lifecycle.Some? && lifecycle.value.origin == Created(next.kind)
          && lifecycle.value.state == FinalState(next.kind))
  }

  /** The state in which a completed operation leaves its root. */
  function FinalState(kind: Kind): Access {
    if kind.Replicate? then Unserviceable else Writable
  }

  /** One statement on either table that the schema accepts; deletions never are. */
  predicate Permitted(before: Root, after: Root) {
    || (before.operation.None? && after.operation.Some? && after.lifecycle == before.lifecycle == None
        && after.operation.value.phase.Recorded? && OperationCheck(after.operation.value))
    || (before.lifecycle.None? && after.lifecycle.Some? && after.operation == before.operation
        && LifecycleInsert(after.lifecycle.value, before.operation) && LifecycleCheck(after.lifecycle.value))
    || (before.lifecycle.Some? && after.lifecycle.Some? && after.operation == before.operation
        && LifecycleUpdate(before.lifecycle.value, after.lifecycle.value, before.operation) && LifecycleCheck(after.lifecycle.value))
    || (before.operation.Some? && after.operation.Some? && after.lifecycle == before.lifecycle
        && (OperationUpdate(before.operation.value, after.operation.value, before.lifecycle, false)
            || OperationUpdate(before.operation.value, after.operation.value, before.lifecycle, true))
        && OperationCheck(after.operation.value))
  }

  /** An operation may be inserted first of all, recorded and without any proof. */
  lemma OperationMayBeInserted(r: Root, o: Operation)
    requires r.operation.None?
    ensures Permitted(r, r.(operation := Some(o))) <==>
      r.lifecycle == None && o.phase == Recorded && o.source == None && o.destination == None && o.genesis == None
  {
  }

  /** A lifecycle row is created unserviceable beside the recorded operation of its kind, or admitted or
      migrated where there is none.  */
  lemma LifecycleMayBeInserted(r: Root, l: Lifecycle)
    requires r.lifecycle.None?
    ensures Permitted(r, r.(lifecycle := Some(l))) <==>
      || (l.origin.Created? && l.state == Unserviceable && r.operation.Some? && l.origin == Created(r.operation.value.kind)
          && r.operation.value.phase == Recorded)
      || (l.origin == ReadServiceability && l.state == Serviceable && r.operation == None)
      || (l.origin == MigrationV2 && l.state == Writable && r.operation == None)
  {
  }

  /** A lifecycle row keeps its identity and may change its state in two ways: a complete replica becomes
      serviceable, a proved registration or fork writable.  */
  lemma LifecycleMayBeUpdated(r: Root, l: Lifecycle)
    requires r.lifecycle.Some? && LifecycleCheck(r.lifecycle.value) && l != r.lifecycle.value
    ensures Permitted(r, r.(lifecycle := Some(l))) <==>
      var prior := r.lifecycle.value;
      && l == Lifecycle(l.state, prior.machine, prior.path, prior.origin) && prior.state == Unserviceable
      && ((l.state == Serviceable && l.origin == Created(Replicate) && (r.operation == None || r.operation.value.phase == Complete))
          || (l.state == Writable && l.origin in {Created(Register), Created(Fork)} && r.operation.Some?
              && l.origin == Created(r.operation.value.kind) && r.operation.value.phase == TreeDurable))
  {
  }

  /** An operation row keeps its identity and its proofs, and moves to the next phase, which brings that
      phase's proof; to completion only where the lifecycle row already has the final state.  */
  lemma OperationMayBeUpdated(r: Root, o: Operation)
    requires r.operation.Some? && OperationCheck(r.operation.value) && o != r.operation.value
    ensures Permitted(r, r.(operation := Some(o))) <==>
      var prior := r.operation.value;
      && o.id == prior.id && o.kind == prior.kind && o.request == prior.request
      && ((prior.phase == Recorded && o.phase == SourceDurable && o.kind != Register && o == prior.(phase := SourceDurable, source := o.source) && o.source.Some?)
          || (prior.phase == (if o.kind == Register then Recorded else SourceDurable) && o.phase == TreeDurable
              && o == prior.(phase := TreeDurable, destination := o.destination, genesis := o.genesis)
              && o.destination.Some? && (o.genesis.Some? <==> o.kind != Replicate))
          || (prior.phase == TreeDurable && o == prior.(phase := Complete) && r.lifecycle.Some?
              && r.lifecycle.value.origin == Created(o.kind)
              && r.lifecycle.value.state == if o.kind == Replicate then Unserviceable else Writable))
  {
  }

  // ---- what holds after any permitted statement at all ----

  predicate Checked(r: Root) {
    && (r.lifecycle.Some? ==> LifecycleCheck(r.lifecycle.value))
    && (r.operation.Some? ==> OperationCheck(r.operation.value))
  }

  /** A creation origin carries its operation and no other origin carries one. */
  predicate Paired(r: Root) {
    r.lifecycle.Some? ==>
      if r.lifecycle.value.origin.Created?
      then r.operation.Some? && r.operation.value.kind == r.lifecycle.value.origin.kind
      else r.operation.None?
  }

  predicate Proved(o: Operation) {
    o.phase.TreeDurable? || o.phase.Complete?
  }

  predicate Guarded(r: Root) {
    && Checked(r) && Paired(r)
    && (r.lifecycle.Some? && r.lifecycle.value.state.Writable? && r.operation.Some? ==> Proved(r.operation.value))
    && (r.lifecycle.Some? && r.lifecycle.value.state.Serviceable? && r.operation.Some? ==> r.operation.value.phase.Complete?)
    && (r.operation.Some? && r.operation.value.phase.Complete? ==>
          r.lifecycle.Some? && (r.operation.value.kind.Replicate? || r.lifecycle.value.state.Writable?))
  }

  /** What a guarded state promises. */
  lemma GuardedMeans(r: Root)
    requires Guarded(r)
    ensures r.lifecycle.Some? ==>
      var l := r.lifecycle.value;
      && (r.operation.Some? <==> l.origin.Created?)
      && (r.operation.Some? ==> l.origin == Created(r.operation.value.kind))
      && (l.state == Writable ==> l.origin in {Created(Register), Created(Fork), MigrationV2})
      && (l.state == Serviceable ==> l.origin in {Created(Replicate), ReadServiceability})
      && (l.state == Writable && r.operation.Some? ==> r.operation.value.destination.Some? && r.operation.value.genesis.Some?)
      && (l.state == Serviceable && r.operation.Some? ==> r.operation.value.phase == Complete)
    ensures r.operation.Some? ==>
      var o := r.operation.value;
      && (o.phase == Recorded ==> o.source == None && o.destination == None && o.genesis == None)
      && (o.phase == SourceDurable ==> o.kind != Register && o.source.Some? && o.destination == None && o.genesis == None)
      && (o.phase == TreeDurable || o.phase == Complete ==>
            (o.source.Some? <==> o.kind != Register) && o.destination.Some? && (o.genesis.Some? <==> o.kind != Replicate))
      && (o.phase == Complete ==> r.lifecycle.Some? && (o.kind == Replicate || r.lifecycle.value.state == Writable))
  {
  }

  /** No statement sequence, in any order and by any writer, leaves the guarded states. */
  lemma StatementsKeepGuarded(before: Root, after: Root)
    requires Guarded(before) && Permitted(before, after)
    ensures Guarded(after)
  {
    if before.lifecycle.Some? && after.lifecycle.Some? && before.lifecycle != after.lifecycle {
      assert LifecycleUpdate(before.lifecycle.value, after.lifecycle.value, before.operation);
    }
  }

  /** Nothing is deleted, identities and proofs stay, phases and grants only advance. */
  predicate Advances(before: Root, after: Root) {
    && (before.lifecycle.Some? ==> after.lifecycle.Some? && LifecycleAdvances(before.lifecycle.value, after.lifecycle.value))
    && (before.operation.Some? ==> after.operation.Some? && OperationAdvances(before.operation.value, after.operation.value))
  }

  predicate LifecycleAdvances(l: Lifecycle, l': Lifecycle) {
    && l'.machine == l.machine && l'.path == l.path && l'.origin == l.origin
    && (l.state == Unserviceable || l'.state == l.state)
  }

  predicate OperationAdvances(o: Operation, o': Operation) {
    && o'.id == o.id && o'.kind == o.kind && o'.request == o.request
    && (o.source == None || o'.source == o.source)
    && (o.destination == None || o'.destination == o.destination)
    && (o.genesis == None || o'.genesis == o.genesis)
    && (o.phase == SourceDurable ==> o'.phase != Recorded)
    && (o.phase == TreeDurable ==> o'.phase == TreeDurable || o'.phase == Complete)
    && (o.phase == Complete ==> o'.phase == Complete)
  }

  predicate StatementRun(run: seq<Root>) {
    forall i :: 0 <= i < |run| - 1 ==> Permitted(run[i], run[i + 1])
  }

  /** Over any run of statements, from any state to any later one. */
  lemma {:induction false} RunsAdvance(run: seq<Root>, i: nat, j: nat)
    requires StatementRun(run) && i <= j < |run|
    ensures Advances(run[i], run[j])
    ensures run[i].lifecycle.Some? ==>
      && run[j].lifecycle.Some?
      && var l, l' := run[i].lifecycle.value, run[j].lifecycle.value;
      && l'.machine == l.machine && l'.path == l.path && l'.origin == l.origin && (l.state == Unserviceable || l'.state == l.state)
    ensures run[i].operation.Some? ==>
      && run[j].operation.Some?
      && var o, o' := run[i].operation.value, run[j].operation.value;
      && o'.id == o.id && o'.kind == o.kind && o'.request == o.request
      && o.source in {None, o'.source} && o.destination in {None, o'.destination} && o.genesis in {None, o'.genesis}
      && (o.phase == SourceDurable ==> o'.phase != Recorded)
      && (o.phase == TreeDurable ==> o'.phase in {TreeDurable, Complete})
      && (o.phase == Complete ==> o'.phase == Complete)
    ensures Guarded(run[i]) ==> Guarded(run[j])
    decreases j
  {
    if i < j {
      RunsAdvance(run, i, j - 1);
      assert Permitted(run[j - 1], run[j - 1 + 1]);
      if Guarded(run[i]) {
        StatementsKeepGuarded(run[j - 1], run[j]);
      }
    }
  }

  // ---- the coordinator's statements ----

  function Guard(before: Root, after: Root): Option<Root> {
    if Permitted(before, after) then Some(after) else None
  }

  function InsertOperation(r: Root, id: string, kind: Kind, request: string): Option<Root> {
    if r.operation.Some? then None
    else Guard(r, r.(operation := Some(Operation(id, kind, Recorded, request, None, None, None))))
  }

  function InsertLifecycle(r: Root, state: Access, machine: string, path: string, origin: Origin): Option<Root> {
    if r.lifecycle.Some? then None else Guard(r, r.(lifecycle := Some(Lifecycle(state, machine, path, origin))))
  }

  function SetState(r: Root, state: Access): Option<Root> {
    if r.lifecycle.None? then None else Guard(r, r.(lifecycle := Some(r.lifecycle.value.(state := state))))
  }

  /** An UPDATE that assigns the phase column. */
  function UpdateOperation(r: Root, next: Operation): Option<Root> {
    if r.operation.Some? && OperationUpdate(r.operation.value, next, r.lifecycle, true) && OperationCheck(next)
    then Some(r.(operation := Some(next))) else None
  }

  function SetPhase(r: Root, phase: Phase): Option<Root> {
    if r.operation.None? then None else UpdateOperation(r, r.operation.value.(phase := phase))
  }

  // ---- the coordinator's transactions: an abort anywhere rolls back the whole of it ----

  datatype Transaction =
    | Stamp(id: string, kind: Kind, request: string, machine: string, path: string)
    | StoreSourceSnapshot(snapshot: string)
    | StoreTreeProof(proof: string, genesisDigest: Option<string>)
    | CompleteOperation(final: Access)
    | MakeServiceable
    | AdmitCold(machine: string, path: string)
    | Migrate(machine: string, path: string)

  function Then(r: Option<Root>, f: Root -> Option<Root>): Option<Root> {
    if r.Some? then f(r.value) else None
  }

  function Run(r: Root, t: Transaction): Option<Root> {
    match t
    case Stamp(id, kind, request, machine, path) =>
      Then(InsertOperation(r, id, kind, request), s => InsertLifecycle(s, Unserviceable, machine, path, Created(kind)))
    case StoreSourceSnapshot(snapshot) =>
      if r.operation.None? then None
      else UpdateOperation(r, r.operation.value.(source := Some(snapshot), phase := SourceDurable))
    case StoreTreeProof(proof, digest) =>
      if r.operation.None? then None
      else UpdateOperation(r, r.operation.value.(destination := Some(proof), genesis := digest, phase := TreeDurable))
    case CompleteOperation(final) => Then(SetState(r, final), s => SetPhase(s, Complete))
    case MakeServiceable => SetState(r, Serviceable)
    case AdmitCold(machine, path) => InsertLifecycle(r, Serviceable, machine, path, ReadServiceability)
    case Migrate(machine, path) => InsertLifecycle(r, Writable, machine, path, MigrationV2)
  }

  // ---- what each transaction does ----

  /** Recording an operation stamps an empty store with both rows, and does nothing else. */
  lemma StampWrites(r: Root, id: string, kind: Kind, request: string, machine: string, path: string, r': Root)
    ensures Run(r, Stamp(id, kind, request, machine, path)) == Some(r') <==>
      && r == Root(None, None)
      && r' == Root(Some(Lifecycle(Unserviceable, machine, path, Created(kind))),
                    Some(Operation(id, kind, Recorded, request, None, None, None)))
  {
    var o := Operation(id, kind, Recorded, request, None, None, None);
    var l := Lifecycle(Unserviceable, machine, path, Created(kind));
    if r.operation.None? {
      var s := r.(operation := Some(o));
      assert InsertOperation(r, id, kind, request) == Guard(r, s);
      if r.lifecycle.None? {
        assert Permitted(r, s) && OperationCheck(o);
        assert LifecycleInsert(l, s.operation) && LifecycleCheck(l);
        assert Permitted(s, s.(lifecycle := Some(l)));
      }
    }
  }

  /** A source snapshot is taken once, of an operation that is only recorded and copies something. */
  lemma SourceSnapshotWrites(r: Root, snapshot: string, r': Root)
    requires r.operation.Some? ==> OperationCheck(r.operation.value)
    ensures Run(r, StoreSourceSnapshot(snapshot)) == Some(r') <==>
      && r.operation.Some? && r.operation.value.kind != Register && r.operation.value.phase == Recorded
      && r' == Root(r.lifecycle, Some(r.operation.value.(source := Some(snapshot), phase := SourceDurable)))
  {
  }

  /** A tree proof follows the source snapshot, or the record of a registration, and brings a genesis digest
      exactly where a chain is begun.  */
  lemma TreeProofWrites(r: Root, proof: string, digest: Option<string>, r': Root)
    requires r.operation.Some? ==> OperationCheck(r.operation.value)
    ensures Run(r, StoreTreeProof(proof, digest)) == Some(r') <==>
      && r.operation.Some? && r.operation.value.phase == (if r.operation.value.kind == Register then Recorded else SourceDurable)
      && (digest.Some? <==> r.operation.value.kind != Replicate)
      && r' == Root(r.lifecycle, Some(r.operation.value.(destination := Some(proof), genesis := digest, phase := TreeDurable)))
  {
  }

  /** A store with neither row is admitted cold or migrated, and only such a store. */
  lemma AdmissionWrites(r: Root, machine: string, path: string, r': Root)
    ensures Run(r, AdmitCold(machine, path)) == Some(r') <==>
      r == Root(None, None) && r' == Root(Some(Lifecycle(Serviceable, machine, path, ReadServiceability)), None)
    ensures Run(r, Migrate(machine, path)) == Some(r') <==>
      r == Root(None, None) && r' == Root(Some(Lifecycle(Writable, machine, path, MigrationV2)), None)
  {
  }

  /** The pair rule: creation origins carry their operation, the others none, and no operation is alone. */
  predicate PairRule(r: Root) {
    Paired(r) && (r.operation.Some? ==> r.lifecycle.Some?)
  }

  /** What every commit keeps: an incomplete operation means no grant of any kind. */
  predicate Committed(r: Root) {
    && Checked(r) && PairRule(r)
    && (r.operation.Some? ==>
          if r.operation.value.phase.Complete?
          then r.operation.value.kind.Replicate? || r.lifecycle.value.state.Writable?
          else r.lifecycle.value.state.Unserviceable?)
  }

  lemma StampKeeps(r: Root, t: Transaction)
    requires Committed(r) && (t.Stamp? || t.AdmitCold? || t.Migrate?)
    ensures Run(r, t).Some? ==> Committed(Run(r, t).value)
  {
  }

  lemma ProofKeeps(r: Root, t: Transaction)
    requires Committed(r) && (t.StoreSourceSnapshot? || t.StoreTreeProof?)
    ensures Run(r, t).Some? ==> Committed(Run(r, t).value)
  {
  }

  lemma GrantKeeps(r: Root, t: Transaction)
    requires Committed(r) && (t.CompleteOperation? || t.MakeServiceable?)
    ensures Run(r, t).Some? ==> Committed(Run(r, t).value)
  {
    if Run(r, t).Some? && t.CompleteOperation? {
      var s := SetState(r, t.final);
      assert s.Some? && SetPhase(s.value, Complete) == Run(r, t);
      assert s.value.operation == r.operation;
    }
  }

  predicate TransactionRun(run: seq<Root>, transactions: seq<Transaction>) {
    && |run| == |transactions| + 1 && run[0] == Root(None, None)
    && forall i :: 0 <= i < |transactions| ==> run[i + 1] == run[i] || Some(run[i + 1]) == Run(run[i], transactions[i])
  }

  /** At every commit of every run of transactions, whatever their arguments and however many are cut off
      by a crash.  */
  lemma {:induction false} EveryCommitIsSound(run: seq<Root>, transactions: seq<Transaction>, i: nat)
    requires TransactionRun(run, transactions) && i < |run|
    ensures Committed(run[i])
    decreases i
  {
    if i > 0 {
      EveryCommitIsSound(run, transactions, i - 1);
      var r, t := run[i - 1], transactions[i - 1];
      assert run[i - 1 + 1] == r || Some(run[i - 1 + 1]) == Run(r, t);
      if t.Stamp? || t.AdmitCold? || t.Migrate? {
        StampKeeps(r, t);
      } else if t.StoreSourceSnapshot? || t.StoreTreeProof? {
        ProofKeeps(r, t);
      } else {
        GrantKeeps(r, t);
      }
    }
  }

  /** A registered or forked root that may be written has a complete operation with a tree proof and a
      genesis digest; a serviceable root never has an incomplete one.  */
  lemma GrantsAreEarned(run: seq<Root>, transactions: seq<Transaction>, i: nat)
    requires TransactionRun(run, transactions) && i < |run| && run[i].lifecycle.Some?
    ensures run[i].operation.Some? <==> run[i].lifecycle.value.origin.Created?
    ensures run[i].operation.Some? ==> run[i].lifecycle.value.origin == Created(run[i].operation.value.kind)
    ensures run[i].lifecycle.value.state.Writable? && run[i].lifecycle.value.origin.Created? ==>
      && run[i].operation.Some? && run[i].operation.value.phase.Complete?
      && run[i].operation.value.destination.Some? && run[i].operation.value.genesis.Some?
    ensures run[i].lifecycle.value.state.Serviceable? && run[i].operation.Some? ==> run[i].operation.value.phase.Complete?
  {
    EveryCommitIsSound(run, transactions, i);
  }

  /** Completing succeeds exactly on a proved operation asked for its own final state. */
  lemma CompletionIsExact(r: Root, final: Access)
    requires Committed(r)
    ensures Run(r, CompleteOperation(final)).Some? <==>
      r.operation.Some? && r.operation.value.phase.TreeDurable? && final == FinalState(r.operation.value.kind)
  {
    if r.operation.Some? && r.operation.value.phase.TreeDurable? && final == FinalState(r.operation.value.kind) {
      var s := r.(lifecycle := Some(r.lifecycle.value.(state := final)));
      assert StateStep(r.lifecycle.value, s.lifecycle.value, r.operation);
      assert SetState(r, final) == Some(s);
      var o := r.operation.value.(phase := Complete);
      assert OperationUpdate(r.operation.value, o, s.lifecycle, true) && OperationCheck(o);
    }
  }

  /** What completing and granting service leave behind, from a committed store. */
  lemma GrantWrites(r: Root, final: Access, r': Root)
    requires Committed(r)
    ensures Run(r, CompleteOperation(final)) == Some(r') <==>
      && r.operation.Some? && r.operation.value.phase == TreeDurable
      && final == (if r.operation.value.kind == Replicate then Unserviceable else Writable)
      && r' == Root(Some(r.lifecycle.value.(state := final)), Some(r.operation.value.(phase := Complete)))
    ensures Run(r, MakeServiceable) == Some(r') <==>
      && r.lifecycle.Some? && r' == Root(Some(r.lifecycle.value.(state := Serviceable)), r.operation)
      && (r.lifecycle.value.state == Serviceable
          || (r.lifecycle.value.state == Unserviceable && r.lifecycle.value.origin == Created(Replicate) && r.operation.value.phase == Complete))
  {
    CompletionIsExact(r, final);
    if r.lifecycle.Some? {
      var l := r.lifecycle.value.(state := Serviceable);
      assert SetState(r, Serviceable) == Guard(r, r.(lifecycle := Some(l)));
      assert Permitted(r, r.(lifecycle := Some(l))) <==> LifecycleUpdate(r.lifecycle.value, l, r.operation) && LifecycleCheck(l);
    }
    if Run(r, CompleteOperation(final)).Some? {
      var s := SetState(r, final);
      assert s.value.lifecycle == Some(r.lifecycle.value.(state := final)) && s.value.operation == r.operation;
    }
  }

  /** The triggers alone do not keep the commit rule: one permitted statement breaks it exactly when it
      raises a root to writable by itself or records an operation by itself.  */
  lemma StatementsThatNeedATransaction(before: Root, after: Root)
    requires Committed(before) && Permitted(before, after)
    ensures Committed(after) <==>
      && !(before.lifecycle.Some? && after.lifecycle.Some? && before.lifecycle.value.state.Unserviceable? && after.lifecycle.value.state.Writable?)
      && !(before.operation.None? && after.operation.Some?)
  {
  }

  /** Such a statement exists: a proved register operation can be granted without being completed. */
  lemma GrantWithoutCompletionIsPermitted() returns (before: Root, after: Root)
    ensures Committed(before) && Permitted(before, after) && !Committed(after)
    ensures after.lifecycle.Some? && after.lifecycle.value.state.Writable? && after.operation.Some? && !after.operation.value.phase.Complete?
  {
    var o := Operation("op", Register, TreeDurable, "request", None, Some("tree"), Some("genesis"));
    before := Root(Some(Lifecycle(Unserviceable, "machine", "/root", Created(Register))), Some(o));
    after := before.(lifecycle := Some(Lifecycle(Writable, "machine", "/root", Created(Register))));
  }

  /** Every kind of creation can be carried through, from an empty store to the final state, each transaction
      once and in order; a registration and a fork end writable.  */
  lemma CreationCompletes(id: string, kind: Kind, request: string, machine: string, path: string, snapshot: string, proof: string, digest: string)
    returns (run: seq<Root>, transactions: seq<Transaction>)
    ensures TransactionRun(run, transactions) && forall i :: 0 <= i < |transactions| ==> Some(run[i + 1]) == Run(run[i], transactions[i])
    ensures run[|run| - 1] == Root(
      Some(Lifecycle(if kind == Replicate then Unserviceable else Writable, machine, path, Created(kind))),
      Some(Operation(id, kind, Complete, request, if kind == Register then None else Some(snapshot), Some(proof), if kind == Replicate then None else Some(digest))))
  {
    var genesis := if kind == Replicate then None else Some(digest);
    var final := if kind == Replicate then Unserviceable else Writable;
    var l := Lifecycle(Unserviceable, machine, path, Created(kind));
    var o := Operation(id, kind, Recorded, request, None, None, None);
    var stamped := Root(Some(l), Some(o));
    StampWrites(Root(None, None), id, kind, request, machine, path, stamped);
    var copied, o' := stamped, o;
    run, transactions := [Root(None, None), stamped], [Stamp(id, kind, request, machine, path)];
    if kind != Register {
      o' := o.(source := Some(snapshot), phase := SourceDurable);
      copied := Root(Some(l), Some(o'));
      SourceSnapshotWrites(stamped, snapshot, copied);
      run, transactions := run + [copied], transactions + [StoreSourceSnapshot(snapshot)];
    }
    var proved := Root(Some(l), Some(o'.(destination := Some(proof), genesis := genesis, phase := TreeDurable)));
    TreeProofWrites(copied, proof, genesis, proved);
    var done := Root(Some(l.(state := final)), Some(proved.operation.value.(phase := Complete)));
    GrantWrites(proved, final, done);
    run, transactions := run + [proved, done], transactions + [StoreTreeProof(proof, genesis), CompleteOperation(final)];
  }
}
