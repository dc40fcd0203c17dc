/** Runs of a fresh engine that reach the states in which recovery must not be entered: one for each kind
    of entry whose name is left unflushed, and one for a complete but unflushed survivor.  */
module BrokenRuns {
  import opened ChainModel
  import opened ChainRules
  import opened ChainDisk
  import opened RecordStore
  import opened Agreement
  import opened Protocol
  import opened ProtocolSafety
  import opened ProtocolTheorems
  import opened Convergence
  import opened UnflushedRecovery

  lemma Extend(run: seq<State>, s': State)
    requires IsRun(run) && Step(Last(run), s') && !s'.process.Derived?
    ensures IsRun(run + [s']) && Last(run + [s']) == s'
  {
    var longer := run + [s'];
    assert !Reads(Last(run), s');
    forall i | 0 <= i < |longer| - 1 ensures QuietStep(longer[i], longer[i + 1]) {
      if i < |run| - 1 {
        assert QuietStep(run[i], run[i + 1]);
      } else {
        assert longer[i] == Last(run) && longer[i + 1] == s';
      }
    }
  }

  /** A fresh engine: recovery finds nothing and the genesis is staged. */
  lemma ReachGenesis() returns (run: seq<State>)
    ensures IsRun(run) && Last(run).store == Store(map[], None)
    ensures Last(run).process.Appending? && Last(run).process.point.Created? && Last(run).process.entry == Genesis("")
    ensures Last(run).process.cont.Plain?
  {
    var disk, st := Disk(map[], map[], []), Store(map[], None);
    var s0 := State(disk, st, Down);
    assert Validates(disk, Empty);
    var s1 := s0.(process := Derived(Skip, Skip, ToPlan));
    assert Begin(s0, s1);
    assert QuietStep(s0, s1);
    var s2 := s0.(process := Acting(Skip, Skip, ToPlan));
    assert ApplySurvivor(s1, s2);
    var s3 := s0.(process := Ready);
    assert ActDone(s2, s3);
    var e := Genesis("");
    var s4 := s3.(disk := CreateStage(disk, 0), process := Appending(e, NextDigest(Empty, e), 0, Created, Plain));
    assert StartAppend(s3, s4, e, Plain);
    assert AppendGenesis(s3, s4);
    run := [s0, s1];
    Extend(run, s2); run := run + [s2];
    Extend(run, s3); run := run + [s3];
    Extend(run, s4); run := run + [s4];
  }

  /** A started append can be written, flushed and renamed, or interrupted after any of these. */
  lemma AppendFurther(run: seq<State>) returns (filled: seq<State>, renamed: seq<State>, h: Hist)
    requires IsRun(run) && Last(run).process.Appending? && Last(run).process.point.Created?
    ensures IsRun(filled) && Last(filled).process == Last(run).process.(point := Filled)
    ensures Last(filled).store == Last(run).store && InvWith(Last(filled), h, None)
    ensures StagedBytes(Last(filled).disk) == Some(Last(run).process.digest.content)
    ensures !Last(filled).disk.files[View(Last(filled).disk)[Stage]].synced
    ensures IsRun(renamed) && Last(renamed).process == Last(run).process.(point := Renamed)
    ensures Last(renamed).store == Last(run).store && InvWith(Last(renamed), h, Some(Last(run).process.entry))
    ensures Last(run).process.digest == NextDigest(h, Last(run).process.entry)
  {
    RunsKeepInvariant(run, |run| - 1);
    var s := Last(run);
    var next;
    h, next :| InvWith(s, h, next);
    var f, g, e := s.process.file, s.process.digest, s.process.entry;
    WriteFileHolds(s.disk, h, None, f, g.content);
    var written := WriteFile(s.disk, f, g.content);
    FlushFileHolds(written, h, None, f);
    var flushed := FlushFile(written, f);
    ViewReads(flushed, h, None);
    NextDigestIsFresh(h, e);
    var a, b, c := StepsToRename(s, flushed);
    Extend(run, a); filled := run + [a];
    AppendStepKeeps(s, a, h, None);
    Extend(filled, b);
    AppendStepKeeps(a, b, h, None);
    Extend(filled + [b], c); renamed := filled + [b] + [c];
    PublishHolds(flushed, h, e);
    if !s.process.cont.Plain? {
      OwnEntryAgrees(s.store, h, e, s.process.cont);
    }
  }

  /** An append that is not yet renamed stays on its history. */
  lemma AppendStepKeeps(s: State, s': State, h: Hist, next: Option<Entry>)
    requires InvWith(s, h, next) && AppendStep(s, s') && next.None? && s'.process.Appending? && !s'.process.point.Renamed?
    ensures InvWith(s', h, None)
  {
    var h', next' := AppendKeeps(s, s', h, next);
  }

  lemma Finish(run: seq<State>) returns (longer: seq<State>)
    requires IsRun(run) && Last(run).process.Appending? && Last(run).process.point.Renamed?
    ensures IsRun(longer) && Last(longer).store == Last(run).store && Last(longer).disk == FlushDirectory(Last(run).disk)
    ensures Last(longer).process == if Last(run).process.cont.Plain? then Ready
      else Binding(Last(run).process.cont.column, Last(run).process.digest, Last(run).process.cont)
  {
    var s := Last(run);
    var s' := s.(disk := FlushDirectory(s.disk),
                 process := if s.process.cont.Plain? then Ready else Binding(s.process.cont.column, s.process.digest, s.process.cont));
    assert FinishAppend(s, s');
    Extend(run, s');
    longer := run + [s'];
  }

  /** An idle engine and the history it stands on. */
  ghost predicate Idle(run: seq<State>, h: Hist) {
    && IsRun(run) && Last(run).process.Ready? && Last(run).store == Store(map[], None)
    && InvWith(Last(run), h, None) && h.Snoc?
  }

  lemma IdleValidates(run: seq<State>, h: Hist)
    requires Idle(run, h)
    ensures Validates(Last(run).disk, h) && PendingTxids(h) == {} && Stage !in View(Last(run).disk)
  {
    ViewReads(Last(run).disk, h, None);
    AgreementIsClean(Last(run).store, h);
  }

  /** An intent is staged. */
  lemma ReachIntent(run: seq<State>, h: Hist) returns (longer: seq<State>)
    requires Idle(run, h)
    ensures IsRun(longer) && Last(longer).process.Appending? && Last(longer).process.point.Created?
    ensures Last(longer).process.entry == Intent("") && Last(longer).process.cont.Plain?
  {
    IdleValidates(run, h);
    var s := Last(run);
    var f := FreshFile(s.disk);
    var s' := s.(disk := CreateStage(s.disk, f), process := Appending(Intent(""), NextDigest(h, Intent("")), f, Created, Plain));
    StartsIntent(s, s', h, f);
    Extend(run, s');
    longer := run + [s'];
  }

  /** A transaction without effects is submitted, and its registration staged. */
  lemma ReachRegistration(run: seq<State>, h: Hist) returns (longer: seq<State>)
    requires Idle(run, h)
    ensures IsRun(longer) && Last(longer).process.Appending? && Last(longer).process.point.Created?
    ensures Last(longer).process.cont == Forward(RegistrationColumn)
  {
    IdleValidates(run, h);
    var s := Last(run);
    var st := Prepare(s.store, "t", "", None, 0).value;
    var s1 := s.(store := st, process := Submitted);
    assert Submit(s, s1);
    Extend(run, s1);
    var f := FreshFile(s.disk);
    var e := RegEntry("t", ActiveRecord(st).value);
    var s2 := s1.(disk := CreateStage(s.disk, f),
                  process := Appending(e, NextDigest(h, e), f, Created, Forward(RegistrationColumn)));
    Registers(s1, s2, h, e, f);
    Extend(run + [s1], s2);
    longer := run + [s1] + [s2];
  }

  lemma Registers(s: State, s': State, h: Hist, e: Entry, f: nat)
    requires s.process.Submitted? && ActiveRecord(s.store).Some? && e == RegEntry(s.store.active.value, ActiveRecord(s.store).value)
    requires Validates(s.disk, h) && h.Snoc? && Stage !in View(s.disk) && f !in s.disk.files
    requires s' == s.(disk := CreateStage(s.disk, f), process := Appending(e, NextDigest(h, e), f, Created, Forward(RegistrationColumn)))
    ensures Step(s, s')
  {
    assert StartAppend(s, s', e, Forward(RegistrationColumn));
    assert Register(s, s');
  }

  lemma BindNext(run: seq<State>) returns (longer: seq<State>)
    requires IsRun(run) && Last(run).process.Binding? && Last(run).process.cont == Forward(RegistrationColumn)
    ensures IsRun(longer) && Last(longer).process.Executing?
    ensures ActiveRecord(Last(longer).store).Some? && ActiveRecord(Last(longer).store).value.state.Prepared?
    ensures ActiveRecord(Last(longer).store).value.registration.Some? && !IsHalted(Last(longer).store)
  {
    RunsKeepInvariant(run, |run| - 1);
    var s := Last(run);
    var h, next :| InvWith(s, h, next);
    BindingIsAccepted(s, h);
    var s' :| Bind(s, s');
    Extend(run, s');
    longer := run + [s'];
  }

  lemma AdvanceNext(run: seq<State>, to: TxState) returns (longer: seq<State>)
    requires IsRun(run) && Last(run).process.Executing? && ActiveRecord(Last(run).store).Some? && !IsHalted(Last(run).store)
    requires ActiveRecord(Last(run).store).value.registration.Some?
    requires var from := ActiveRecord(Last(run).store).value.state;
      (from.Prepared? && to.Applying?) || (from.Applying? && to.Applied?) || (from.Applied? && to.CommittedState?)
    ensures IsRun(longer) && Last(longer).process == if to.CommittedState? then Deciding else Executing
    ensures ActiveRecord(Last(longer).store).Some? && ActiveRecord(Last(longer).store).value.state == to
    ensures ActiveRecord(Last(longer).store).value.registration.Some? && !IsHalted(Last(longer).store)
  {
    var s := Last(run);
    var s' := s.(store := SetState(s.store, s.store.active.value, to).value,
                 process := if to.CommittedState? then Deciding else Executing);
    assert ExecuteState(s, s');
    Extend(run, s');
    longer := run + [s'];
  }

  /** The transaction runs, commits and stages its settlement. */
  lemma ReachSettlement(run: seq<State>) returns (longer: seq<State>)
    requires IsRun(run) && Last(run).process.Binding? && Last(run).process.cont == Forward(RegistrationColumn)
    ensures IsRun(longer) && Last(longer).process.Appending? && Last(longer).process.point.Created?
    ensures Last(longer).process.cont == Forward(SettlementColumn)
  {
    var bound := BindNext(run);
    var applying := AdvanceNext(bound, Applying);
    var applied := AdvanceNext(applying, Applied);
    var decided := AdvanceNext(applied, CommittedState);
    longer := StageSettlement(decided);
  }

  lemma StageSettlement(run: seq<State>) returns (longer: seq<State>)
    requires IsRun(run) && Last(run).process.Deciding?
    ensures IsRun(longer) && Last(longer).process.Appending? && Last(longer).process.point.Created?
    ensures Last(longer).process.cont == Forward(SettlementColumn)
  {
    RunsKeepInvariant(run, |run| - 1);
    var s := Last(run);
    var h, next :| InvWith(s, h, next);
    ViewReads(s.disk, h, next);
    AgreementIsClean(s.store, h);
    var e := Settled(s.store.active.value, ActiveRecord(s.store).value.registration.value, Committed);
    var f := FreshFile(s.disk);
    var s' := s.(disk := CreateStage(s.disk, f), process := Appending(e, NextDigest(h, e), f, Created, Forward(SettlementColumn)));
    assert Validates(s.disk, h);
    assert StartAppend(s, s', e, Forward(SettlementColumn));
    assert Settle(s, s');
    Extend(run, s');
    longer := run + [s'];
  }

  lemma Dies(run: seq<State>) returns (longer: seq<State>)
    requires IsRun(run)
    ensures IsRun(longer) && Last(longer) == Last(run).(process := Down)
  {
    var s' := Last(run).(process := Down);
    assert Exit(Last(run), s');
    Extend(run, s');
    longer := run + [s'];
  }

  /** A run that was quiet throughout, and whose last state must not be recovered from: some continuation
      of it is unsound after a power loss.  */
  ghost predicate Dangerous(run: seq<State>) {
    && IsRun(run) && MayEnter(Last(run))
    && exists more :: Continues(more, Last(run)) && !Survives(Last(more))
  }

  lemma UnflushedNameIsDangerous(run: seq<State>, h: Hist, e: Entry) returns (dead: seq<State>)
    requires IsRun(run) && Last(run).process.Appending? && InvWith(Last(run), h, Some(e))
    ensures Dangerous(dead) && Last(dead) == Last(run).(process := Down)
  {
    dead := Dies(run);
    RunsKeepInvariant(dead, |dead| - 1);
    var op :| op in Last(dead).disk.ops && op.name == Leaf(NextDigest(h, e));
    assert !Quiet(Last(dead));
    var more := UnquietEntryBreaks(Last(dead));
  }

  lemma UnflushedSurvivorIsDangerous(run: seq<State>, h: Hist) returns (dead: seq<State>)
    requires IsRun(run) && InvWith(Last(run), h, None)
    requires Last(run).process.Appending? && Last(run).process.cont == Forward(RegistrationColumn) && Last(run).process.point.Filled?
    requires StagedBytes(Last(run).disk) == Some(Last(run).process.digest.content)
    requires !Last(run).disk.files[View(Last(run).disk)[Stage]].synced
    ensures Dangerous(dead) && Last(dead) == Last(run).(process := Down)
  {
    dead := Dies(run);
    RunsKeepInvariant(dead, |dead| - 1);
    var s := Last(dead);
    ViewReads(s.disk, h, None);
    AgreementIsClean(s.store, h);
    DeriveSucceeds(s.store, h);
    NextDigestIsFresh(h, Last(run).process.entry);
    CleanWithout(h, s.store.active.value);
    assert Validates(s.disk, h);
    assert Plans(s, Last(run).process.digest);
    assert !Quiet(s);
    var more := UnquietEntryBreaks(s);
  }

  /** From a fresh engine: a genesis, an intent, a registration and a settlement renamed but not flushed, and
      a registration written but not flushed, each with the process dead.  */
  lemma EveryKindIsReachable() returns (genesis: seq<State>, intent: seq<State>, registration: seq<State>, settlement: seq<State>, survivor: seq<State>)
    ensures Dangerous(genesis) && Dangerous(intent) && Dangerous(registration) && Dangerous(settlement) && Dangerous(survivor)
  {
    var run := ReachGenesis();
    var filled, renamed, h := AppendFurther(run);
    genesis := UnflushedNameIsDangerous(renamed, h, Last(run).process.entry);
    var idle := Finish(renamed);
    var v := FinishedHist(renamed, idle, h, Last(run).process.entry);
    var appending := ReachIntent(idle, v);
    filled, renamed, h := AppendFurther(appending);
    intent := UnflushedNameIsDangerous(renamed, h, Last(appending).process.entry);
    var registering := ReachRegistration(idle, v);
    filled, renamed, h := AppendFurther(registering);
    survivor := UnflushedSurvivorIsDangerous(filled, h);
    registration := UnflushedNameIsDangerous(renamed, h, Last(registering).process.entry);
    var bound := Finish(renamed);
    var settling := ReachSettlement(bound);
    filled, renamed, h := AppendFurther(settling);
    settlement := UnflushedNameIsDangerous(renamed, h, Last(settling).process.entry);
  }

  lemma FinishedHist(run: seq<State>, done: seq<State>, h: Hist, e: Entry) returns (v: Hist)
    requires IsRun(run) && InvWith(Last(run), h, Some(e))
    requires IsRun(done) && Last(done).process.Ready? && Last(done).disk == FlushDirectory(Last(run).disk)
    ensures InvWith(Last(done), v, None) && v.Snoc?
  {
    RunsKeepInvariant(done, |done| - 1);
    var next;
    v, next :| InvWith(Last(done), v, next);
    FlushDirectoryHolds(Last(run).disk, h, Some(e));
    ViewReads(Last(done).disk, Snoc(h, e), None);
    ViewReads(Last(done).disk, v, None);
    ReadsAsUnique(Last(done).disk, v, Snoc(h, e));
  }
}
