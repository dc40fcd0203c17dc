/** Reconciliation reaches one fixed goal, whatever interrupts it. */
module Convergence {
  import opened ChainModel
  import opened ChainRules
  import opened ChainDisk
  import opened RecordStore
  import opened Agreement
  import opened Protocol
  import opened ProtocolSafety

  /** A reconciliation at work: after the derivation and before the plan. */
  predicate Reconciling(p: Process) {
    || p.Derived? || p.SurvivorMoved? || p.Acting?
    || (p.Appending? && p.cont.Repair?)
    || (p.Binding? && p.cont.Repair?)
  }

  predicate Reconciled(p: Process) {
    p.Acting? && p.registration.Skip? && p.settlement.Skip?
  }

  /** One step of reconciling, of a fault interrupting it, or of recovery starting over. */
  ghost predicate RecoveryStep(s: State, s': State) {
    || Fault(s, s')
    || (Begin(s, s') && Quiet(s))
    || RepairStep(s, s')
    || (Reconciling(s.process) && (AppendStep(s, s') || Bind(s, s')))
  }

  /** The goal depends on nothing reconciliation or a fault can change. */
  lemma GoalIsStable(s: State, s': State, h: Hist, next: Option<Entry>) returns (h': Hist, next': Option<Entry>)
    requires InvWith(s, h, next) && RecoveryStep(s, s') && s.store.active.Some?
    ensures InvWith(s', h', next') && s'.store.active == s.store.active
    ensures GoalHist(s'.store, h') == GoalHist(s.store, h)
    ensures GoalStore(s'.store, h') == GoalStore(s.store, h)
  {
    h', next' := h, next;
    if Fault(s, s') {
      h', next' := FaultKeeps(s, s', h, next);
    } else if Begin(s, s') {
      ReadsKeep(s, s', h, next, ToPlan);
    } else if RepairStep(s, s') {
      h', next' := RepairKeepsGoal(s, s', h, next);
    } else if AppendStep(s, s') {
      h', next' := AppendKeeps(s, s', h, next);
    } else {
      BindKeeps(s, s', h, next);
      BindKeepsGoal(s, s', h);
    }
  }

  lemma RepairKeepsGoal(s: State, s': State, h: Hist, next: Option<Entry>) returns (h': Hist, next': Option<Entry>)
    requires InvWith(s, h, next) && RepairStep(s, s') && s.store.active.Some?
    ensures InvWith(s', h', next') && s'.store == s.store && BaseOf(s.store, h') == BaseOf(s.store, h)
  {
    h', next' := h, next;
    if ApplySurvivor(s, s') {
      next' := SurvivorKeeps(s, s', h, next);
    } else if FlushSurvivor(s, s') {
      FlushSurvivorKeeps(s, s', h, next);
      h', next' := Seen(h, next), None;
    } else if ActBind(s, s') {
      ActBindKeeps(s, s', h, next);
    } else {
      ActAppendKeeps(s, s', h, next);
    }
  }

  lemma BindKeepsGoal(s: State, s': State, h: Hist)
    requires Holds(s.disk, h, None) && Agrees(s.store, h) && ProcessOk(s, h, None) && Bind(s, s')
    ensures GoalHist(s'.store, h) == GoalHist(s.store, h) && GoalStore(s'.store, h) == GoalStore(s.store, h)
  {
    var t, r := s.store.active.value, ActiveRecord(s.store).value;
    var r' := s'.store.records[t];
    var base := BaseOf(s.store, h);
    assert Strip(h, t) == Strip(h.init, t);
    assert RegEntry(t, r') == RegEntry(t, r);
    assert GoalRecord(t, r', base) == GoalRecord(t, r, base);
  }

  /** Any run of recovery steps, however often it is cut down and started over, ends, when it ends
      reconciled, with one and the same chain and the same two bindings, and with nothing further to
      derive.  The uninterrupted run is one of these runs.  */
  lemma {:induction false} RecoveryConverges(run: seq<State>, h: Hist, next: Option<Entry>)
    requires |run| > 0 && InvWith(run[0], h, next) && run[0].store.active.Some?
    requires forall i :: 0 <= i < |run| - 1 ==> RecoveryStep(run[i], run[i + 1])
    requires Reconciled(run[|run| - 1].process)
    ensures var last := run[|run| - 1];
      && ReadsAs(last.disk, GoalHist(run[0].store, h))
      && last.store == GoalStore(run[0].store, h)
      && Derive(last.store, GoalHist(run[0].store, h)) == Repairs(Skip, Skip)
  {
    if |run| == 1 {
      ViewReads(run[0].disk, h, next);
      NothingLeftIsGoal(run[0].store, h);
    } else {
      var h', next' := GoalIsStable(run[0], run[1], h, next);
      var rest := run[1..];
      forall i | 0 <= i < |rest| - 1
        ensures RecoveryStep(rest[i], rest[i + 1])
      {
        assert RecoveryStep(run[i + 1], run[i + 2]);
      }
      RecoveryConverges(rest, h', next');
      assert rest[|rest| - 1] == run[|run| - 1];
    }
  }

  // ---- the uninterrupted run exists ----

  function ActionCost(a: Action): nat {
    if a.Skip? then 0 else 10
  }

  function Remaining(p: Process): nat {
    match p
    case Derived(_, _, _) => 40
    case SurvivorMoved(_, _, _) => 39
    case Acting(reg, settle, _) => ActionCost(reg) + ActionCost(settle)
    case Appending(_, _, _, point, _) =>
      (match point case Created => 9 case Filled => 8 case Flushed => 7 case Renamed => 6)
    case Binding(_, _, _) => 5
    case _ => 0
  }

  /** No trigger refuses a binding the reconciliation asks for: the window is open and the digest is new. */
  lemma BindingIsAccepted(s: State, h: Hist)
    requires Agrees(s.store, h) && s.process.Binding? && h.Snoc? && s.process.digest == NextDigest(h.init, h.last)
    requires !s.process.cont.Plain? && s.process.cont.column == s.process.column
    requires ContOk(s.store, h.init, h.last, s.process.cont)
    ensures exists s' :: Bind(s, s')
  {
    var st, t := s.store, s.store.active.value;
    var base := BaseOf(st, h);
    assert Strip(h, t) == Strip(h.init, t);
    forall u | u in st.records && u != t
      ensures st.records[u].registration != Some(s.process.digest)
      ensures st.records[u].settlement != Some(s.process.digest)
    {
      FindMatchesDigests(base, st.records[u].registration.value);
      FindMatchesDigests(base, st.records[u].settlement.value);
      NextDigestIsFresh(base, h.last);
      NextDigestIsFresh(h.init, h.last);
      if h.init != base {
        assert h.init.init == base;
        assert st.records[u].settlement.value in Digests(h.init);
        assert st.records[u].registration.value in Digests(h.init);
      }
    }
    var digest := s.process.digest;
    assert (if s.process.column.RegistrationColumn? then SetRegistration(st, t, digest) else SetSettlement(st, t, digest)).Some?;
    var bound := if s.process.column.RegistrationColumn? then SetRegistration(st, t, digest) else SetSettlement(st, t, digest);
    var p := match s.process.cont
      case Repair(_, settle, after) => Acting(Skip, settle, after)
      case Forward(RegistrationColumn) => Executing
      case Forward(SettlementColumn) => Planning
      case Plain => Ready;
    assert Bind(s, s.(store := bound.value, process := p));
  }

  lemma ActingProgress(s: State, h: Hist) returns (s': State)
    requires InvWith(s, h, None) && s.process.Acting? && !Reconciled(s.process)
    ensures RecoveryStep(s, s') && Reconciling(s'.process) && Remaining(s'.process) < Remaining(s.process)
  {
    ViewReads(s.disk, h, None);
    var (action, cont) := NextAction(s.process);
    if action.Append? && Leaf(action.digest) !in View(s.disk) {
      var e, c := PlannedPlace(s.store, h, s.process.registration, s.process.settlement, action.digest);
      AgreementIsClean(s.store, h);
      var f := FreshFile(s.disk);
      s' := s.(disk := CreateStage(s.disk, f), process := Appending(e, NextDigest(h, e), f, Created, cont));
      assert Validates(s.disk, h);
      assert StartAppend(s, s', e, cont);
      assert ActAppend(s, s');
    } else {
      s' := s.(process := Binding(cont.column, action.digest, cont));
      assert ActBind(s, s');
    }
  }

  lemma FreshFile(d: Disk) returns (f: nat)
    ensures f !in d.files
  {
    var m := BoundOf(d.files.Keys);
    f := m;
  }

  lemma {:induction false} BoundOf(keys: set<nat>) returns (m: nat)
    ensures forall k :: k in keys ==> k < m
    decreases |keys|
  {
    if keys == {} {
      m := 0;
    } else {
      var k :| k in keys;
      var rest := BoundOf(keys - {k});
      m := if rest <= k then k + 1 else rest;
      assert forall i :: i in keys ==> i == k || i in keys - {k};
    }
  }

  lemma StagedProgress(s: State, h: Hist, next: Option<Entry>) returns (s': State)
    requires InvWith(s, h, next) && s.process.Appending? && Reconciling(s.process)
    requires s.process.point.Created? || s.process.point.Filled?
    ensures AppendStep(s, s') && Reconciling(s'.process) && Remaining(s'.process) < Remaining(s.process)
  {
    var f, g := s.process.file, s.process.digest;
    if s.process.point.Created? {
      s' := s.(disk := WriteFile(s.disk, f, g.content), process := s.process.(point := Filled));
      assert Fill(s, s');
    } else {
      s' := s.(disk := FlushFile(s.disk, f), process := s.process.(point := Flushed));
      assert FlushStage(s, s');
    }
  }

  lemma FlushedProgress(s: State, h: Hist, next: Option<Entry>) returns (s': State)
    requires InvWith(s, h, next) && s.process.Appending? && Reconciling(s.process) && s.process.point.Flushed?
    ensures AppendStep(s, s') && Reconciling(s'.process) && Remaining(s'.process) < Remaining(s.process)
  {
    ViewReads(s.disk, h, next);
    NextDigestIsFresh(h, s.process.entry);
    s' := s.(disk := PublishStage(s.disk, s.process.digest), process := s.process.(point := Renamed));
    assert Rename(s, s');
  }

  lemma RenamedProgress(s: State) returns (s': State)
    requires s.process.Appending? && Reconciling(s.process) && s.process.point.Renamed?
    ensures AppendStep(s, s') && Reconciling(s'.process) && Remaining(s'.process) < Remaining(s.process)
  {
    s' := s.(disk := FlushDirectory(s.disk), process := Binding(s.process.cont.column, s.process.digest, s.process.cont));
    assert FinishAppend(s, s');
  }

  lemma AppendingProgress(s: State, h: Hist, next: Option<Entry>) returns (s': State)
    requires InvWith(s, h, next) && s.process.Appending? && Reconciling(s.process)
    ensures RecoveryStep(s, s') && Reconciling(s'.process) && Remaining(s'.process) < Remaining(s.process)
  {
    if s.process.point.Created? || s.process.point.Filled? {
      s' := StagedProgress(s, h, next);
    } else if s.process.point.Flushed? {
      s' := FlushedProgress(s, h, next);
    } else {
      s' := RenamedProgress(s);
    }
  }

  lemma SurvivorProgress(s: State, h: Hist, next: Option<Entry>) returns (s': State)
    requires InvWith(s, h, next) && (s.process.Derived? || s.process.SurvivorMoved?)
    ensures RecoveryStep(s, s') && Reconciling(s'.process) && Remaining(s'.process) < Remaining(s.process)
  {
    var reg, settle, after := s.process.registration, s.process.settlement, s.process.after;
    if s.process.SurvivorMoved? {
      s' := s.(disk := FlushDirectory(s.disk), process := Acting(reg, settle, after));
      assert FlushSurvivor(s, s');
    } else {
      var planned, staged := PlannedDigest(reg, settle), StagedBytes(s.disk);
      if staged.None? {
        s' := s.(process := Acting(reg, settle, after));
      } else if planned.Some? && staged.value == planned.value.content && Leaf(planned.value) !in View(s.disk) {
        s' := s.(disk := PublishStage(s.disk, planned.value), process := SurvivorMoved(reg, settle, after));
      } else {
        s' := s.(disk := UnlinkStage(s.disk), process := SurvivorMoved(reg, settle, after));
      }
      assert ApplySurvivor(s, s');
    }
  }

  /** A reconciliation that has not finished can always take a step, and each step brings it closer. */
  lemma ReconciliationProgresses(s: State) returns (s': State)
    requires Inv(s) && Reconciling(s.process) && !Reconciled(s.process)
    ensures RecoveryStep(s, s') && Reconciling(s'.process) && Remaining(s'.process) < Remaining(s.process)
  {
    var h, next :| InvWith(s, h, next);
    match s.process
    case Acting(_, _, _) =>
      s' := ActingProgress(s, h);
    case Appending(_, _, _, _, _) =>
      s' := AppendingProgress(s, h, next);
    case Binding(_, _, _) =>
      BindingIsAccepted(s, h);
      s' :| Bind(s, s');
    case _ =>
      s' := SurvivorProgress(s, h, next);
  }

  lemma RecoveryIsQuiet(s: State, s': State)
    requires RecoveryStep(s, s') && Reconciling(s.process)
    ensures QuietStep(s, s')
  {
    assert Step(s, s');
    assert !Reads(s, s');
  }

  /** From any point of a reconciliation there is a run of its own steps that finishes it. */
  lemma {:induction false} ReconciliationFinishes(s: State) returns (run: seq<State>)
    requires Inv(s) && Reconciling(s.process)
    ensures |run| > 0 && run[0] == s && Reconciled(run[|run| - 1].process)
    ensures forall i :: 0 <= i < |run| - 1 ==> RecoveryStep(run[i], run[i + 1])
    decreases Remaining(s.process)
  {
    if Reconciled(s.process) {
      run := [s];
    } else {
      var s' := ReconciliationProgresses(s);
      RecoveryIsQuiet(s, s');
      StepKeeps(s, s');
      var rest := ReconciliationFinishes(s');
      run := [s] + rest;
    }
  }
}
