/** Runs without a power loss.

    Processes may die anywhere and recovery may be entered in any state, quiet or not.  What a process
    reads depends only on the view, so such a run looks like one in which everything is flushed at once,
    and in that run every state is quiet.  */
module ProcessExits {
  import opened ChainModel
  import opened ChainRules
  import opened ChainDisk
  import opened RecordStore
  import opened Agreement
  import opened Protocol
  import opened ProtocolSafety
  import opened ProtocolTheorems
  import opened Convergence

  // ---- the view is all a process sees ----

  ghost predicate SameView(a: Disk, b: Disk) {
    && View(a) == View(b) && a.files.Keys == b.files.Keys
    && forall f :: f in a.files ==> a.files[f].bytes == b.files[f].bytes
  }

  /** Everything written back. */
  function Flushed(d: Disk): Disk {
    Disk(map f | f in d.files :: d.files[f].(synced := true), View(d), [])
  }

  function FlushedState(s: State): State {
    s.(disk := Flushed(s.disk))
  }

  lemma FlushedLooksTheSame(d: Disk)
    ensures SameView(Flushed(d), d) && Writeback(d, Flushed(d))
  {
  }

  lemma SameViewSameFlushed(a: Disk, b: Disk)
    requires SameView(a, b)
    ensures Flushed(a) == Flushed(b)
  {
    forall f | f in a.files ensures Flushed(a).files[f] == Flushed(b).files[f] {}
    assert Flushed(a).files == Flushed(b).files;
  }

  lemma ReadsAlike(a: Disk, b: Disk, h: Hist)
    requires SameView(a, b)
    ensures ReadsAs(a, h) <==> ReadsAs(b, h)
  {
  }

  lemma ViewAfter(a: Disk, b: Disk, more: seq<DirOp>)
    requires View(a) == View(b)
    ensures Replay(a.durable, a.ops + more) == Replay(b.durable, b.ops + more)
  {
    ReplayAppend(a.durable, a.ops, more);
    ReplayAppend(b.durable, b.ops, more);
  }

  lemma StageAlike(a: Disk, b: Disk, f: nat, g: Digest)
    requires SameView(a, b)
    ensures SameView(CreateStage(a, f), CreateStage(b, f)) && SameView(UnlinkStage(a), UnlinkStage(b))
    ensures SameView(FlushDirectory(a), FlushDirectory(b))
    ensures Stage in View(a) ==> SameView(PublishStage(a, g), PublishStage(b, g))
  {
    ViewAfter(a, b, [Link(Stage, f)]);
    ViewAfter(a, b, [Unlink(Stage)]);
    if Stage in View(a) {
      ViewAfter(a, b, [Link(Leaf(g), View(a)[Stage]), Unlink(Stage)]);
    }
  }

  lemma FileAlike(a: Disk, b: Disk, f: nat, bytes: Content)
    requires SameView(a, b)
    ensures SameView(WriteFile(a, f, bytes), WriteFile(b, f, bytes))
    ensures f in a.files ==> SameView(FlushFile(a, f), FlushFile(b, f))
  {
  }

  // ---- each step, on a disk that looks the same ----

  /** The two states differ at most in what is flushed. */
  ghost predicate Alike(a: State, b: State) {
    SameView(a.disk, b.disk) && a.store == b.store && a.process == b.process
  }

  lemma DerivesAlike(a: State, s: State, s': State, after: After) returns (a': State)
    requires Alike(a, s) && DeriveFrom(s, s', after)
    ensures DeriveFrom(a, a', after) && Alike(a', s')
  {
    var h :| Validates(s.disk, h) && (s.store.active.Some? ==> !h.Empty?) && Derive(s.store, h).Repairs?
      && s' == s.(process := Derived(Derive(s.store, h).registration, Derive(s.store, h).settlement, after));
    ReadsAlike(a.disk, s.disk, h);
    a' := a.(process := s'.process);
  }

  lemma StartsAlike(a: State, s: State, s': State, e: Entry, cont: Cont) returns (a': State)
    requires Alike(a, s) && StartAppend(s, s', e, cont)
    ensures StartAppend(a, a', e, cont) && Alike(a', s')
  {
    var h, f :| Validates(s.disk, h) && Stage !in View(s.disk) && Rooted(Snoc(h, e)) && f !in s.disk.files
      && s' == s.(disk := CreateStage(s.disk, f), process := Appending(e, NextDigest(h, e), f, Created, cont));
    ReadsAlike(a.disk, s.disk, h);
    StageAlike(a.disk, s.disk, f, NextDigest(h, e));
    a' := a.(disk := CreateStage(a.disk, f), process := s'.process);
  }

  lemma ReadsStep(a: State, s: State, s': State) returns (a': State)
    requires Alike(a, s) && Reads(s, s')
    ensures Reads(a, a') && Alike(a', s')
    ensures Begin(s, s') ==> Begin(a, a')
  {
    a' := DerivesAlike(a, s, s', ToPlan);
  }

  lemma SurvivorStep(a: State, s: State, s': State) returns (a': State)
    requires Alike(a, s) && (ApplySurvivor(s, s') || FlushSurvivor(s, s'))
    ensures RepairStep(a, a') && Alike(a', s')
  {
    if ApplySurvivor(s, s') {
      var planned := PlannedDigest(s.process.registration, s.process.settlement);
      StageAlike(a.disk, s.disk, 0, if planned.Some? then planned.value else Sha256(Raw(0)));
      if s'.disk == s.disk && s'.process.Acting? {
        a' := a.(process := s'.process);
      } else if planned.Some? && StagedBytes(s.disk) == Some(planned.value.content) && Leaf(planned.value) !in View(s.disk) {
        a' := a.(disk := PublishStage(a.disk, planned.value), process := s'.process);
      } else {
        a' := a.(disk := UnlinkStage(a.disk), process := s'.process);
      }
      assert ApplySurvivor(a, a');
    } else {
      StageAlike(a.disk, s.disk, 0, Sha256(Raw(0)));
      a' := a.(disk := FlushDirectory(a.disk), process := s'.process);
      assert FlushSurvivor(a, a');
    }
  }

  lemma ActStep(a: State, s: State, s': State) returns (a': State)
    requires Alike(a, s) && (ActBind(s, s') || ActAppend(s, s'))
    ensures RepairStep(a, a') && Alike(a', s')
  {
    if ActBind(s, s') {
      a' := a.(process := s'.process);
      assert ActBind(a, a');
    } else {
      var (action, cont) := NextAction(s.process);
      a' := StartsAlike(a, s, s', action.entry, cont);
      assert ActAppend(a, a');
    }
  }

  lemma AppendingStep(a: State, s: State, s': State) returns (a': State)
    requires Alike(a, s) && AppendStep(s, s')
    ensures AppendStep(a, a') && Alike(a', s')
  {
    var f, g := s.process.file, s.process.digest;
    StageAlike(a.disk, s.disk, f, g);
    if Fill(s, s') {
      var bytes, p: Point :|
        && (p == Created || (p == Filled && bytes == g.content))
        && s' == s.(disk := WriteFile(s.disk, f, bytes), process := s.process.(point := p));
      FileAlike(a.disk, s.disk, f, bytes);
      a' := a.(disk := WriteFile(a.disk, f, bytes), process := s'.process);
      assert Fill(a, a');
    } else if FlushStage(s, s') {
      FileAlike(a.disk, s.disk, f, g.content);
      a' := a.(disk := FlushFile(a.disk, f), process := s'.process);
      assert FlushStage(a, a');
    } else if Rename(s, s') {
      a' := a.(disk := PublishStage(a.disk, g), process := s'.process);
      assert Rename(a, a');
    } else {
      a' := a.(disk := FlushDirectory(a.disk), process := s'.process);
      assert FinishAppend(a, a');
    }
  }

  lemma StoreStep(a: State, s: State, s': State) returns (a': State)
    requires Alike(a, s) && (Bind(s, s') || ActDone(s, s') || RecordStep(s, s'))
    ensures (Bind(s, s') ==> Bind(a, a')) && Step(a, a') && !Reads(a, a') && Alike(a', s')
  {
    a' := a.(store := s'.store, process := s'.process);
    if Bind(s, s') {
      assert Bind(a, a');
    } else if ActDone(s, s') {
      assert ActDone(a, a');
    } else {
      RecordsAlike(a, s, s', a');
    }
  }

  lemma RecordsAlike(a: State, s: State, s': State, a': State)
    requires Alike(a, s) && RecordStep(s, s') && a' == a.(store := s'.store, process := s'.process)
    ensures RecordStep(a, a') && s'.disk == s.disk && !s'.process.Derived?
  {
    if ExecuteState(s, s') {
      assert ExecuteState(a, a');
    } else if ExecuteJournal(s, s') {
      JournalAlike(a, s, s', a', {(Pending, Started), (Started, Done)});
      assert ExecuteJournal(a, a');
    } else if PlanState(s, s') {
      var to :| RecoveryEdge(ActiveRecord(s.store).value.state, to) && Advance(s, s', to, if to.Halted? then Down else Planning);
      assert Advance(a, a', to, if to.Halted? then Down else Planning);
      assert PlanState(a, a');
    } else if PlanJournal(s, s') {
      JournalAlike(a, s, s', a', {(Started, UndoStarted), (Done, UndoStarted), (UndoStarted, Undone)});
      assert PlanJournal(a, a');
    } else {
      assert PlanAssemblyHalt(a, a');
    }
  }

  lemma JournalAlike(a: State, s: State, s': State, a': State, edges: set<(Journal, Journal)>)
    requires Alike(a, s) && MoveJournal(s, s', edges) && a' == a.(store := s'.store, process := s'.process)
    ensures MoveJournal(a, a', edges) && s'.disk == s.disk && s'.process == s.process
  {
  }

  lemma CommandsStep(a: State, s: State, s': State) returns (a': State)
    requires Alike(a, s) && CommandStep(s, s')
    ensures CommandStep(a, a') && Alike(a', s') && !a'.process.Derived?
  {
    if AppendIntent(s, s') {
      a' := IntentsAlike(a, s, s');
    } else if AppendGenesis(s, s') {
      a' := GenesisAlike(a, s, s');
    } else if Submit(s, s') {
      a' := SubmitsAlike(a, s, s');
    } else if Register(s, s') {
      a' := StartsAlike(a, s, s', RegEntry(s.store.active.value, ActiveRecord(s.store).value), Forward(RegistrationColumn));
      assert Register(a, a');
    } else {
      a' := StartsAlike(a, s, s',
        Settled(s.store.active.value, ActiveRecord(s.store).value.registration.value, Committed), Forward(SettlementColumn));
      assert Settle(a, a');
    }
  }

  lemma IntentsAlike(a: State, s: State, s': State) returns (a': State)
    requires Alike(a, s) && AppendIntent(s, s')
    ensures AppendIntent(a, a') && Alike(a', s') && !a'.process.Derived?
  {
    var h, payload :| Validates(s.disk, h) && !h.Empty? && PendingTxids(h) == {} && StartAppend(s, s', Intent(payload), Plain);
    ReadsAlike(a.disk, s.disk, h);
    a' := StartsAlike(a, s, s', Intent(payload), Plain);
  }

  lemma GenesisAlike(a: State, s: State, s': State) returns (a': State)
    requires Alike(a, s) && AppendGenesis(s, s')
    ensures AppendGenesis(a, a') && Alike(a', s') && !a'.process.Derived?
  {
    var h, payload :| Validates(s.disk, h) && h.Empty? && StartAppend(s, s', Genesis(payload), Plain);
    ReadsAlike(a.disk, s.disk, h);
    a' := StartsAlike(a, s, s', Genesis(payload), Plain);
  }

  lemma SubmitsAlike(a: State, s: State, s': State) returns (a': State)
    requires Alike(a, s) && Submit(s, s')
    ensures Submit(a, a') && Alike(a', s') && !a'.process.Derived?
  {
    var h, t, body, fulfills, effects: nat :|
      && Validates(s.disk, h) && !h.Empty? && Stage !in View(s.disk)
      && PendingTxids(h) == {} && Gate(h, fulfills)
      && Prepare(s.store, t, body, fulfills, effects).Some?
      && s' == s.(store := Prepare(s.store, t, body, fulfills, effects).value, process := Submitted);
    ReadsAlike(a.disk, s.disk, h);
    a' := a.(store := s'.store, process := Submitted);
  }

  // ---- the simulation ----

  /** A flushed state is quiet, whatever is staged in it. */
  lemma FlushedIsQuiet(s: State)
    ensures Quiet(FlushedState(s))
  {
  }

  /** Every step but a power loss is, from the flushed state, a quiet step to a state that looks the same. */
  lemma FlushedStep(s: State, s': State) returns (t: State)
    requires Step(s, s') && !LosePower(s, s')
    ensures QuietStep(FlushedState(s), t) && Alike(t, s')
  {
    var a := FlushedState(s);
    FlushedLooksTheSame(s.disk);
    FlushedIsQuiet(s);
    if WriteBack(s, s') || Exit(s, s') {
      t := FaultAlike(a, s, s');
    } else if Reads(s, s') {
      t := ReadsStep(a, s, s');
    } else if ApplySurvivor(s, s') || FlushSurvivor(s, s') {
      t := SurvivorStep(a, s, s');
    } else if ActBind(s, s') || ActAppend(s, s') {
      t := ActStep(a, s, s');
    } else if AppendStep(s, s') {
      t := AppendingStep(a, s, s');
    } else if Bind(s, s') || ActDone(s, s') || RecordStep(s, s') {
      t := StoreStep(a, s, s');
    } else if CommandStep(s, s') {
      t := CommandsStep(a, s, s');
    } else {
      t := DerivesAlike(a, s, s', ToDetach);
      assert PlanDetach(a, t);
    }
  }

  lemma FaultAlike(a: State, s: State, s': State) returns (a': State)
    requires Alike(a, s) && (WriteBack(s, s') || Exit(s, s'))
    ensures Fault(a, a') && Alike(a', s')
  {
    if Exit(s, s') {
      a' := a.(process := Down);
      assert Exit(a, a');
    } else {
      a' := a;
      assert Writeback(a.disk, a.disk);
      assert WriteBack(a, a');
      assert View(s'.disk) == View(s.disk);
    }
  }

  lemma FlushedInv(t: State, s': State)
    requires Inv(t) && Alike(t, s')
    ensures Inv(FlushedState(s'))
  {
    FlushedLooksTheSame(t.disk);
    SameViewSameFlushed(t.disk, s'.disk);
    assert WriteBack(t, FlushedState(s'));
    StepKeeps(t, FlushedState(s'));
  }

  /** A run of the engine without a power loss; recovery is entered anywhere. */
  ghost predicate IsExitRun(run: seq<State>) {
    && |run| > 0 && Initial(run[0])
    && forall i :: 0 <= i < |run| - 1 ==> Step(run[i], run[i + 1]) && !LosePower(run[i], run[i + 1])
  }

  lemma {:induction false} ExitRunsKeepInvariant(run: seq<State>, i: nat)
    requires IsExitRun(run) && i < |run|
    ensures Inv(FlushedState(run[i]))
    decreases i
  {
    if i == 0 {
      assert FlushedState(run[0]) == run[0];
      assert InvWith(run[0], Empty, None);
    } else {
      ExitRunsKeepInvariant(run, i - 1);
      assert Step(run[i - 1], run[i - 1 + 1]);
      var t := FlushedStep(run[i - 1], run[i]);
      StepKeeps(FlushedState(run[i - 1]), t);
      FlushedInv(t, run[i]);
    }
  }

  lemma SoundAlike(a: Disk, b: Disk, st: Store)
    requires SameView(a, b) && Sound(a, st)
    ensures Sound(b, st)
  {
    var h :| ReadsAs(a, h) && SoundFor(h, st) && BoundIn(st, h) && EntriesTell(st, h) && FulfilledTells(st, h);
    ReadsAlike(a, b, h);
  }

  /** Without a power loss what a process reads is always sound, wherever processes died before. */
  lemma ExitsStaySound(run: seq<State>, i: nat)
    requires IsExitRun(run) && i < |run|
    ensures Sound(run[i].disk, run[i].store)
  {
    ExitRunsKeepInvariant(run, i);
    var s := FlushedState(run[i]);
    FlushedLooksTheSame(run[i].disk);
    InvIsSound(s, s.disk);
    SoundAlike(s.disk, run[i].disk, s.store);
  }

  // ---- recovery reaches its goal ----

  /** A recovery step, interrupted by anything but a power loss, and entered in any state. */
  ghost predicate ExitRecoveryStep(s: State, s': State) {
    && !LosePower(s, s')
    && (Fault(s, s') || Begin(s, s') || RepairStep(s, s') || (Reconciling(s.process) && (AppendStep(s, s') || Bind(s, s'))))
  }

  lemma FlushedRecoveryStep(s: State, s': State) returns (t: State)
    requires ExitRecoveryStep(s, s')
    ensures RecoveryStep(FlushedState(s), t) && Alike(t, s')
  {
    var a := FlushedState(s);
    FlushedLooksTheSame(s.disk);
    FlushedIsQuiet(s);
    if Fault(s, s') {
      t := FaultAlike(a, s, s');
    } else if Begin(s, s') {
      t := ReadsStep(a, s, s');
    } else if ApplySurvivor(s, s') || FlushSurvivor(s, s') {
      t := SurvivorStep(a, s, s');
    } else if ActBind(s, s') || ActAppend(s, s') {
      t := ActStep(a, s, s');
    } else if AppendStep(s, s') {
      t := AppendingStep(a, s, s');
    } else {
      t := StoreStep(a, s, s');
    }
  }

  lemma FlushedGoal(s: State, s': State, h: Hist) returns (h': Hist)
    requires InvWith(FlushedState(s), h, None) && s.store.active.Some? && ExitRecoveryStep(s, s')
    ensures InvWith(FlushedState(s'), h', None) && s'.store.active == s.store.active
    ensures GoalHist(s'.store, h') == GoalHist(s.store, h) && GoalStore(s'.store, h') == GoalStore(s.store, h)
  {
    var t := FlushedRecoveryStep(s, s');
    var middle, next := GoalIsStable(FlushedState(s), t, h, None);
    FlushedLooksTheSame(t.disk);
    SameViewSameFlushed(t.disk, s'.disk);
    assert WriteBack(t, FlushedState(s'));
    var next';
    h', next' := GoalIsStable(t, FlushedState(s'), middle, next);
  }

  /** Without a power loss every recovery that ends reconciled, however often its process died and wherever it
      was entered again, ends with the chain and the bindings the state called for.  */
  lemma {:induction false} ExitRecoveryConverges(run: seq<State>, h: Hist)
    requires |run| > 0 && InvWith(FlushedState(run[0]), h, None) && run[0].store.active.Some?
    requires forall i :: 0 <= i < |run| - 1 ==> ExitRecoveryStep(run[i], run[i + 1])
    requires Reconciled(run[|run| - 1].process)
    ensures var last := run[|run| - 1];
      && ReadsAs(last.disk, GoalHist(run[0].store, h))
      && last.store == GoalStore(run[0].store, h)
      && Derive(last.store, GoalHist(run[0].store, h)) == Repairs(Skip, Skip)
  {
    if |run| == 1 {
      var s := FlushedState(run[0]);
      RecoveryConverges([s], h, None);
      FlushedLooksTheSame(run[0].disk);
      ReadsAlike(s.disk, run[0].disk, GoalHist(run[0].store, h));
    } else {
      assert ExitRecoveryStep(run[0], run[0 + 1]);
      var h' := FlushedGoal(run[0], run[1], h);
      var rest := run[1..];
      forall i | 0 <= i < |rest| - 1 ensures ExitRecoveryStep(rest[i], rest[i + 1]) {
        assert ExitRecoveryStep(run[i + 1], run[i + 1 + 1]);
      }
      ExitRecoveryConverges(rest, h');
      assert rest[|rest| - 1] == run[|run| - 1];
    }
  }
}
