/** The transaction protocol as a step relation over (disk, store, process), with process exit and
    power loss possible between any two steps.  */
module Protocol {
  import opened ChainModel
  import opened ChainRules
  import opened ChainDisk
  import opened RecordStore

  datatype Column = RegistrationColumn | SettlementColumn

  /** What follows a finished reconciliation. */
  datatype After = ToPlan | ToDetach

  /** What follows a finished append. */
  datatype Cont =
    | Plain
    | Forward(column: Column)
    | Repair(column: Column, settlement: Action, after: After)

  datatype Point = Created | Filled | Flushed | Renamed

  datatype Process =
    | Down
    | Ready
    | Derived(registration: Action, settlement: Action, after: After)
    | SurvivorMoved(registration: Action, settlement: Action, after: After)
    | Acting(registration: Action, settlement: Action, after: After)
    | Appending(entry: Entry, digest: Digest, file: nat, point: Point, cont: Cont)
    | Binding(column: Column, digest: Digest, cont: Cont)
    | Submitted
    | Executing
    | Deciding
    | Planning

  datatype State = State(disk: Disk, store: Store, process: Process)

  /** `validate_chain` returns the history `h`. */
  ghost predicate Validates(d: Disk, h: Hist) {
    ReadsAs(d, h) && Clean(h)
  }

  function ActiveRecord(st: Store): Option<Record> {
    if st.active.Some? && st.active.value in st.records then Some(st.records[st.active.value]) else None
  }

  predicate IsHalted(st: Store) {
    ActiveRecord(st).Some? && (ActiveRecord(st).value.state.Halted? || ActiveRecord(st).value.assemblyHalt)
  }

  // ---- faults and background activity ----

  ghost predicate LosePower(s: State, s': State) {
    PowerLoss(s.disk, s'.disk) && s' == s.(disk := s'.disk, process := Down)
  }

  ghost predicate WriteBack(s: State, s': State) {
    Writeback(s.disk, s'.disk) && s' == s.(disk := s'.disk)
  }

  /** Return, uncaught exception or kill: the kernel keeps its unflushed operations. */
  predicate Exit(s: State, s': State) {
    s' == s.(process := Down)
  }

  // ---- recovery: derive, apply the survivor, repair ----

  ghost predicate DeriveFrom(s: State, s': State, after: After) {
    exists h ::
      && Validates(s.disk, h)
      && (s.store.active.Some? ==> !h.Empty?)
      && Derive(s.store, h).Repairs?
      && s' == s.(process := Derived(Derive(s.store, h).registration, Derive(s.store, h).settlement, after))
  }

  /** `resolve` on entry of every command. */
  ghost predicate Begin(s: State, s': State) {
    s.process.Down? && !IsHalted(s.store) && DeriveFrom(s, s', ToPlan)
  }

  predicate InTryBlock(p: Process) {
    || p.Submitted? || p.Executing?
    || (p.Appending? && p.cont == Forward(RegistrationColumn))
    || (p.Binding? && p.cont == Forward(RegistrationColumn))
  }

  /** `_roll_back` after a caught failure of the forward executor. */
  ghost predicate RollBack(s: State, s': State) {
    InTryBlock(s.process) && s.store.active.Some? && DeriveFrom(s, s', ToPlan)
  }

  function PlannedDigest(reg: Action, settle: Action): Option<Digest> {
    if reg.Append? then Some(reg.digest) else if settle.Append? then Some(settle.digest) else None
  }

  /** A staging survivor holding exactly the planned envelope is finished, any other is removed. */
  predicate ApplySurvivor(s: State, s': State) {
    && s.process.Derived?
    && var Derived(reg, settle, after) := s.process;
    var planned := PlannedDigest(reg, settle);
    var staged := StagedBytes(s.disk);
    if staged.None? then s' == s.(process := Acting(reg, settle, after))
    else if planned.Some? && staged.value == planned.value.content && Leaf(planned.value) !in View(s.disk) then
      s' == s.(disk := PublishStage(s.disk, planned.value), process := SurvivorMoved(reg, settle, after))
    else
      s' == s.(disk := UnlinkStage(s.disk), process := SurvivorMoved(reg, settle, after))
  }

  predicate FlushSurvivor(s: State, s': State) {
    && s.process.SurvivorMoved?
    && s' == s.(disk := FlushDirectory(s.disk),
                process := Acting(s.process.registration, s.process.settlement, s.process.after))
  }

  /** The next outstanding action and its continuation. */
  function NextAction(p: Process): (Action, Cont)
    requires p.Acting?
  {
    if !p.registration.Skip? then (p.registration, Repair(RegistrationColumn, p.settlement, p.after))
    else (p.settlement, Repair(SettlementColumn, Skip, p.after))
  }

  /** A backfill, or an append whose entry already arrived, goes straight to the store. */
  predicate ActBind(s: State, s': State) {
    && s.process.Acting?
    && var (action, cont) := NextAction(s.process);
    && !action.Skip?
    && (action.Append? ==> Leaf(action.digest) in View(s.disk))
    && s' == s.(process := Binding(cont.column, action.digest, cont))
  }

  ghost predicate ActAppend(s: State, s': State) {
    && s.process.Acting?
    && var (action, cont) := NextAction(s.process);
    && action.Append?
    && Leaf(action.digest) !in View(s.disk)
    && StartAppend(s, s', action.entry, cont)
    && s'.process.digest == action.digest
  }

  predicate ActDone(s: State, s': State) {
    && s.process.Acting? && s.process.registration.Skip? && s.process.settlement.Skip?
    && if s.process.after.ToDetach? then
         ClearActive(s.store).Some? && s' == s.(store := ClearActive(s.store).value, process := Ready)
       else
         s' == s.(process := if s.store.active.None? then Ready else Planning)
  }

  // ---- append_entry ----

  ghost predicate StartAppend(s: State, s': State, e: Entry, cont: Cont) {
    exists h, f ::
      && Validates(s.disk, h) && Stage !in View(s.disk)
      && Rooted(Snoc(h, e))
      && f !in s.disk.files
      && s' == s.(disk := CreateStage(s.disk, f), process := Appending(e, NextDigest(h, e), f, Created, cont))
  }

  /** One `write`: some bytes so far, or the whole envelope. */
  ghost predicate Fill(s: State, s': State) {
    && s.process.Appending? && s.process.point.Created?
    && exists bytes, p: Point ::
      && (p == Created || (p == Filled && bytes == s.process.digest.content))
      && s' == s.(disk := WriteFile(s.disk, s.process.file, bytes), process := s.process.(point := p))
  }

  predicate FlushStage(s: State, s': State) {
    && s.process.Appending? && s.process.point.Filled? && s.process.file in s.disk.files
    && s' == s.(disk := FlushFile(s.disk, s.process.file), process := s.process.(point := Flushed))
  }

  predicate Rename(s: State, s': State) {
    && s.process.Appending? && s.process.point.Flushed?
    && Stage in View(s.disk) && Leaf(s.process.digest) !in View(s.disk)
    && s' == s.(disk := PublishStage(s.disk, s.process.digest), process := s.process.(point := Renamed))
  }

  predicate FinishAppend(s: State, s': State) {
    && s.process.Appending? && s.process.point.Renamed?
    && s' == s.(disk := FlushDirectory(s.disk),
                process := if s.process.cont.Plain? then Ready
                           else Binding(s.process.cont.column, s.process.digest, s.process.cont))
  }

  /** The store transaction that binds an entry's digest to the active record. */
  predicate Bind(s: State, s': State) {
    && s.process.Binding? && s.store.active.Some?
    && var Binding(column, digest, cont) := s.process;
    var bound := if column.RegistrationColumn? then SetRegistration(s.store, s.store.active.value, digest)
                 else SetSettlement(s.store, s.store.active.value, digest);
    && bound.Some?
    && s' == s.(store := bound.value,
                process := match cont
                           case Repair(_, settle, after) => Acting(Skip, settle, after)
                           case Forward(RegistrationColumn) => Executing
                           case Forward(SettlementColumn) => Planning
                           case Plain => Ready)
  }

  // ---- commands ----

  ghost predicate AppendIntent(s: State, s': State) {
    && s.process.Ready?
    && exists h, payload ::
      Validates(s.disk, h) && !h.Empty? && PendingTxids(h) == {} && StartAppend(s, s', Intent(payload), Plain)
  }

  ghost predicate AppendGenesis(s: State, s': State) {
    && s.process.Ready?
    && exists h, payload :: Validates(s.disk, h) && h.Empty? && StartAppend(s, s', Genesis(payload), Plain)
  }

  ghost predicate Submit(s: State, s': State) {
    && s.process.Ready?
    && exists h, t, body, fulfills, effects: nat ::
      && Validates(s.disk, h) && !h.Empty? && Stage !in View(s.disk)
      && PendingTxids(h) == {} && Gate(h, fulfills)
      && Prepare(s.store, t, body, fulfills, effects).Some?
      && s' == s.(store := Prepare(s.store, t, body, fulfills, effects).value, process := Submitted)
  }

  ghost predicate Register(s: State, s': State) {
    && s.process.Submitted? && ActiveRecord(s.store).Some?
    && StartAppend(s, s', RegEntry(s.store.active.value, ActiveRecord(s.store).value), Forward(RegistrationColumn))
  }

  // ---- forward execution ----

  predicate Advance(s: State, s': State, to: TxState, p: Process) {
    && s.store.active.Some? && SetState(s.store, s.store.active.value, to).Some?
    && s' == s.(store := SetState(s.store, s.store.active.value, to).value, process := p)
  }

  predicate ExecuteState(s: State, s': State) {
    && s.process.Executing? && ActiveRecord(s.store).Some?
    && match ActiveRecord(s.store).value.state
       case Prepared => Advance(s, s', Applying, Executing)
       case Applying => Advance(s, s', Applied, Executing)
       case Applied => Advance(s, s', CommittedState, Deciding)
       case _ => false
  }

  ghost predicate MoveJournal(s: State, s': State, edges: set<(Journal, Journal)>) {
    exists i: nat, to ::
      && ActiveRecord(s.store).Some? && i < |ActiveRecord(s.store).value.journals|
      && (ActiveRecord(s.store).value.journals[i], to) in edges
      && SetJournal(s.store, s.store.active.value, i, to).Some?
      && s' == s.(store := SetJournal(s.store, s.store.active.value, i, to).value)
  }

  ghost predicate ExecuteJournal(s: State, s': State) {
    s.process.Executing? && MoveJournal(s, s', {(Pending, Started), (Started, Done)})
  }

  /** After the commit decision: append the settlement. */
  ghost predicate Settle(s: State, s': State) {
    && s.process.Deciding? && ActiveRecord(s.store).Some? && ActiveRecord(s.store).value.registration.Some?
    && StartAppend(s, s',
         Settled(s.store.active.value, ActiveRecord(s.store).value.registration.value, Committed),
         Forward(SettlementColumn))
  }

  // ---- recovery plans, as any sequence of permitted transitions ----

  predicate RecoveryEdge(from: TxState, to: TxState) {
    match to
    case RollingBack => from.Prepared? || from.Applying? || from.Applied?
    case RolledBackState => from.RollingBack?
    case Halted => !from.Halted? && !from.RolledBackState?
    case _ => false
  }

  ghost predicate PlanState(s: State, s': State) {
    && s.process.Planning? && ActiveRecord(s.store).Some?
    && exists to ::
      && RecoveryEdge(ActiveRecord(s.store).value.state, to)
      && Advance(s, s', to, if to.Halted? then Down else Planning)
  }

  ghost predicate PlanJournal(s: State, s': State) {
    s.process.Planning? && MoveJournal(s, s', {(Started, UndoStarted), (Done, UndoStarted), (UndoStarted, Undone)})
  }

  predicate PlanAssemblyHalt(s: State, s': State) {
    && s.process.Planning? && s.store.active.Some?
    && SetAssemblyHalt(s.store, s.store.active.value).Some?
    && s' == s.(store := SetAssemblyHalt(s.store, s.store.active.value).value, process := Down)
  }

  /** Settlement is reconciled before the record is detached. */
  ghost predicate PlanDetach(s: State, s': State) {
    && s.process.Planning? && ActiveRecord(s.store).Some? && Terminal(ActiveRecord(s.store).value.state)
    && Stage !in View(s.disk)
    && DeriveFrom(s, s', ToDetach)
  }

  // ---- the relation ----

  ghost predicate Fault(s: State, s': State) {
    LosePower(s, s') || WriteBack(s, s') || Exit(s, s')
  }

  ghost predicate Reads(s: State, s': State) {
    Begin(s, s') || RollBack(s, s')
  }

  ghost predicate RepairStep(s: State, s': State) {
    ApplySurvivor(s, s') || FlushSurvivor(s, s') || ActBind(s, s') || ActAppend(s, s')
  }

  ghost predicate AppendStep(s: State, s': State) {
    Fill(s, s') || FlushStage(s, s') || Rename(s, s') || FinishAppend(s, s')
  }

  ghost predicate CommandStep(s: State, s': State) {
    AppendIntent(s, s') || AppendGenesis(s, s') || Submit(s, s') || Register(s, s') || Settle(s, s')
  }

  ghost predicate RecordStep(s: State, s': State) {
    ExecuteState(s, s') || ExecuteJournal(s, s') || PlanState(s, s') || PlanJournal(s, s') || PlanAssemblyHalt(s, s')
  }

  ghost predicate Step(s: State, s': State) {
    || Fault(s, s') || Reads(s, s') || RepairStep(s, s') || AppendStep(s, s') || Bind(s, s')
    || ActDone(s, s') || CommandStep(s, s') || RecordStep(s, s') || PlanDetach(s, s')
  }

  /** At any point power may fail with any loss, write-back may happen and the process may end. */
  lemma FaultsMayStrike(s: State, d: Disk)
    ensures PowerLoss(s.disk, d) ==> Step(s, State(d, s.store, Down))
    ensures Writeback(s.disk, d) ==> Step(s, State(d, s.store, s.process))
    ensures Step(s, State(s.disk, s.store, Down))
  {
    if PowerLoss(s.disk, d) {
      assert LosePower(s, State(d, s.store, Down));
    }
    if Writeback(s.disk, d) {
      assert WriteBack(s, State(d, s.store, s.process));
    }
    assert Exit(s, State(s.disk, s.store, Down));
  }

  /** The entry a recovery entered here would append has digest `g`. */
  ghost predicate Plans(s: State, g: Digest) {
    exists h ::
      && Validates(s.disk, h)
      && Derive(s.store, h).Repairs?
      && PlannedDigest(Derive(s.store, h).registration, Derive(s.store, h).settlement) == Some(g)
  }

  /** No digest name is unflushed, and staged bytes that are the planned envelope are flushed.  Any other
      staged bytes may be in any condition.  */
  ghost predicate Quiet(s: State) {
    && (forall op :: op in s.disk.ops ==> !op.name.Leaf?)
    && (forall g :: Plans(s, g) && StagedBytes(s.disk) == Some(g.content) ==> s.disk.files[View(s.disk)[Stage]].synced)
  }

  /** A step of the engine in which recovery is only ever entered in a quiet state. */
  ghost predicate QuietStep(s: State, s': State) {
    Step(s, s') && (Reads(s, s') ==> Quiet(s))
  }

  ghost predicate Initial(s: State) {
    s == State(Disk(map[], map[], []), Store(map[], None), Down)
  }

  ghost predicate IsRun(run: seq<State>) {
    && |run| > 0 && Initial(run[0])
    && forall i :: 0 <= i < |run| - 1 ==> QuietStep(run[i], run[i + 1])
  }
}
