/** Recovery entered where a process died without a power loss.

    Its successor may find a digest name that was renamed but never flushed, or a complete staging file
    whose bytes were never flushed.  Reconciliation trusts both, and a command appends on both.  Here is
    exactly when that trust is safe, and a run from a fresh engine for each way in which it is not.  */
module UnflushedRecovery {
  import opened ChainModel
  import opened ChainRules
  import opened ChainDisk
  import opened RecordStore
  import opened Agreement
  import opened Protocol
  import opened ProtocolSafety
  import opened ProtocolTheorems
  import opened Convergence

  lemma {:induction false} EmptySelection(ops: seq<DirOp>)
    ensures Selection([], ops)
  {
    if ops != [] {
      EmptySelection(ops[..|ops| - 1]);
    }
  }

  lemma {:induction false} WholeSelection(ops: seq<DirOp>)
    ensures Selection(ops, ops)
  {
    if ops != [] {
      WholeSelection(ops[..|ops| - 1]);
    }
  }

  lemma {:induction false} OneSelection(ops: seq<DirOp>, i: nat)
    requires i < |ops|
    ensures Selection([ops[i]], ops)
    decreases |ops|
  {
    var front := ops[..|ops| - 1];
    if i < |ops| - 1 {
      OneSelection(front, i);
    } else {
      EmptySelection(front);
      assert [ops[i]][..0] == [];
    }
  }

  /** A power loss that keeps no directory operation. */
  function Forgotten(d: Disk): Disk {
    Disk(map f | f in d.files :: d.files[f].(synced := true), d.durable, [])
  }

  lemma ForgottenIsPowerLoss(d: Disk)
    ensures PowerLoss(d, Forgotten(d))
  {
    EmptySelection(d.ops);
  }

  /** A power loss that keeps every directory operation and scrambles file `f`. */
  function Scrambled(d: Disk, f: nat): Disk {
    Disk(map i | i in d.files :: if i == f then File(Raw(0), true) else d.files[i].(synced := true), View(d), [])
  }

  lemma ScrambledIsPowerLoss(d: Disk, f: nat)
    requires f in d.files && !d.files[f].synced
    ensures PowerLoss(d, Scrambled(d, f))
  {
    WholeSelection(d.ops);
  }

  /** A power loss that keeps only the operation at `i`. */
  function Isolated(d: Disk, i: nat): Disk
    requires i < |d.ops|
  {
    Disk(map f | f in d.files :: d.files[f].(synced := true), Apply(d.durable, d.ops[i]), [])
  }

  lemma IsolatedIsPowerLoss(d: Disk, i: nat)
    requires i < |d.ops|
    ensures PowerLoss(d, Isolated(d, i))
  {
    OneSelection(d.ops, i);
    assert [d.ops[i]][..0] == [];
    assert Replay(d.durable, [d.ops[i]]) == Apply(d.durable, d.ops[i]);
  }

  // ---- exact conditions ----

  /** A digest the process can see survives every power loss exactly when no unflushed operation
      concerns its name.  This is what a backfill needs.  */
  lemma VisibleSurvivesIffFlushed(d: Disk, h: Hist, next: Option<Entry>, g: Digest)
    requires Holds(d, h, next) && g in Digests(Seen(h, next))
    ensures (forall d' :: PowerLoss(d, d') ==> exists h' :: ReadsAs(d', h') && g in Digests(h'))
       <==> (forall op :: op in d.ops ==> op.name != Leaf(g))
  {
    if forall op :: op in d.ops ==> op.name != Leaf(g) {
      assert g in Digests(h);
      forall d' | PowerLoss(d, d')
        ensures exists h' :: ReadsAs(d', h') && g in Digests(h')
      {
        var h' := PowerLossOutcome(d, h, next, d');
      }
    } else {
      var op :| op in d.ops && op.name == Leaf(g);
      assert OpHolds(d, h, next, op);
      NextDigestIsFresh(h, next.value);
      ForgottenIsPowerLoss(d);
      assert Leaf(g) !in View(Forgotten(d));
      assert forall h' :: !(ReadsAs(Forgotten(d), h') && g in Digests(h'));
    }
  }

  /** A name whose predecessor is missing belongs to no history. */
  lemma DanglingIsUnreadable(d: Disk, before: Hist, e: Entry)
    requires before.Snoc? && Leaf(NextDigest(before, e)) in View(d) && Leaf(NextDigest(before.init, before.last)) !in View(d)
    ensures forall h :: !ReadsAs(d, h)
  {
    forall h | ReadsAs(d, h) ensures false {
      PredecessorIsPresent(h, NextDigest(before, e));
    }
  }

  /** Publishing complete staged bytes leaves a readable chain after every power loss exactly when those
      bytes had been flushed and no earlier name was still unflushed.  */
  lemma PublishSurvivesIff(d: Disk, h: Hist, next: Option<Entry>, e: Entry)
    requires Holds(d, h, next) && Rooted(Snoc(Seen(h, next), e))
    requires Stage in View(d) && View(d)[Stage] in d.files
    requires d.files[View(d)[Stage]].bytes == NextDigest(Seen(h, next), e).content
    ensures (forall d' :: PowerLoss(PublishStage(d, NextDigest(Seen(h, next), e)), d') ==> exists h' :: ReadsAs(d', h'))
       <==> d.files[View(d)[Stage]].synced && next.None?
  {
    var g := NextDigest(Seen(h, next), e);
    var d1 := PublishStage(d, g);
    if d.files[View(d)[Stage]].synced && next.None? {
      PublishHolds(d, h, e);
      forall d' | PowerLoss(d1, d')
        ensures exists h' :: ReadsAs(d', h')
      {
        var h' := PowerLossOutcome(d1, h, Some(e), d');
      }
    } else if next.None? {
      var d' := UnflushedPublication(d, g);
    } else {
      var d' := PublicationOnUnflushed(d, h, next.value, e);
    }
  }

  lemma UnflushedPublication(d: Disk, g: Digest) returns (d': Disk)
    requires Stage in View(d) && View(d)[Stage] in d.files && !d.files[View(d)[Stage]].synced && g.content.Envelope?
    ensures PowerLoss(PublishStage(d, g), d') && forall h :: !ReadsAs(d', h)
  {
    var f := View(d)[Stage];
    PublishedView(d, g);
    d' := Scrambled(PublishStage(d, g), f);
    ScrambledIsPowerLoss(PublishStage(d, g), f);
    assert View(d')[Leaf(g)] == f;
  }

  lemma PublicationOnUnflushed(d: Disk, h: Hist, pending: Entry, e: Entry) returns (d': Disk)
    requires Holds(d, h, Some(pending)) && Stage in View(d)
    ensures PowerLoss(PublishStage(d, NextDigest(Snoc(h, pending), e)), d') && forall h' :: !ReadsAs(d', h')
  {
    var tip := Snoc(h, pending);
    var d1 := PublishStage(d, NextDigest(tip, e));
    var i := |d.ops|;
    assert d1.ops[i] == Link(Leaf(NextDigest(tip, e)), View(d)[Stage]);
    d' := Isolated(d1, i);
    IsolatedIsPowerLoss(d1, i);
    NextDigestIsFresh(h, pending);
    NextDigestIsFresh(tip, e);
    assert Leaf(NextDigest(h, pending)) !in d.durable;
    assert NextDigest(h, pending) in Digests(tip);
    assert Leaf(NextDigest(h, pending)) !in View(d');
    DanglingIsUnreadable(d', tip, e);
  }

  lemma PublishedView(d: Disk, g: Digest)
    requires Stage in View(d)
    ensures Leaf(g) in View(PublishStage(d, g)) && View(PublishStage(d, g))[Leaf(g)] == View(d)[Stage]
  {
    var ops := [Link(Leaf(g), View(d)[Stage]), Unlink(Stage)];
    ReplayAppend(d.durable, d.ops, ops);
    assert ops[..1] == [Link(Leaf(g), View(d)[Stage])];
    assert Replay(View(d), ops[..1]) == View(d)[Leaf(g) := View(d)[Stage]] by {
      assert ops[..1][..0] == [];
    }
  }

  // ---- entering recovery ----

  /** Recovery may be entered: on a command, or from the forward executor's failure handler. */
  ghost predicate MayEnter(s: State) {
    || (s.process.Down? && !IsHalted(s.store))
    || (InTryBlock(s.process) && s.store.active.Some?)
  }

  /** A run that enters recovery in `s`, and afterwards enters it only in quiet states. */
  ghost predicate Continues(run: seq<State>, s: State) {
    && |run| > 0 && run[0] == s
    && (|run| > 1 ==> Reads(run[0], run[1]))
    && forall i :: 1 <= i < |run| - 1 ==> QuietStep(run[i], run[i + 1])
  }

  function Last(run: seq<State>): State
    requires |run| > 0
  {
    run[|run| - 1]
  }

  /** Every power loss here leaves a sound directory. */
  ghost predicate Survives(s: State) {
    forall d :: PowerLoss(s.disk, d) ==> Sound(d, s.store)
  }

  /** Only from these places is recovery entered. */
  predicate AtEntry(p: Process) {
    p.Down? || InTryBlock(p)
  }

  /** One more step that is not an entry. */
  lemma Continue(run: seq<State>, s: State, s': State)
    requires Continues(run, s) && |run| > 1 && Step(Last(run), s') && !AtEntry(Last(run).process)
    ensures Continues(run + [s'], s) && |run + [s']| > 1 && Last(run + [s']) == s'
  {
    var longer := run + [s'];
    assert !Reads(Last(run), s');
    forall i | 1 <= i < |longer| - 1 ensures QuietStep(longer[i], longer[i + 1]) {
      if i < |run| - 1 {
        assert QuietStep(run[i], run[i + 1]);
      } else {
        assert longer[i] == Last(run) && longer[i + 1] == s';
      }
    }
  }

  lemma EntryIsLive(s: State, h: Hist, next: Option<Entry>)
    requires InvWith(s, h, next) && MayEnter(s)
    ensures !IsHalted(s.store) && (s.store.active.Some? ==> !Seen(h, next).Empty?)
  {
  }

  /** What recovery derives, for the one history the directory reads as. */
  lemma Enters(s: State, h: Hist, next: Option<Entry>) returns (s': State)
    requires InvWith(s, h, next) && MayEnter(s)
    ensures Reads(s, s') && Validates(s.disk, Seen(h, next)) && !IsHalted(s.store)
    ensures Derive(s.store, Seen(h, next)).Repairs?
    ensures s' == s.(process := Derived(Derive(s.store, Seen(h, next)).registration, Derive(s.store, Seen(h, next)).settlement, ToPlan))
    ensures ActionsOk(s.store, Seen(h, next), s'.process.registration, s'.process.settlement)
  {
    var v := Seen(h, next);
    EntryIsLive(s, h, next);
    ViewReads(s.disk, h, next);
    AgreementIsClean(s.store, v);
    DeriveSucceeds(s.store, v);
    s' := s.(process := Derived(Derive(s.store, v).registration, Derive(s.store, v).settlement, ToPlan));
    EntersWith(s, s', v);
  }

  lemma EntersWith(s: State, s': State, v: Hist)
    requires MayEnter(s) && Validates(s.disk, v) && (s.store.active.Some? ==> !v.Empty?) && Derive(s.store, v).Repairs?
    requires s' == s.(process := Derived(Derive(s.store, v).registration, Derive(s.store, v).settlement, ToPlan))
    ensures Reads(s, s')
  {
    assert DeriveFrom(s, s', ToPlan);
  }

  /** An unflushed name of an active transaction is its registration or its settlement. */
  lemma PendingIsOwn(s: State, h: Hist, e: Entry) returns (column: Column)
    requires InvWith(s, h, Some(e)) && s.store.active.Some? && !IsHalted(s.store)
    ensures ContOk(s.store, h, e, Repair(column, Skip, ToPlan))
  {
    var r := ActiveRecord(s.store).value;
    column := if r.registration.None? then RegistrationColumn else SettlementColumn;
  }

  /** Recovery asks for that entry's digest and for nothing else first. */
  lemma OwnAction(st: Store, h: Hist, e: Entry, column: Column, reg: Action, settle: Action)
    requires Agrees(st, Snoc(h, e)) && ActionsOk(st, Snoc(h, e), reg, settle)
    requires ContOk(st, h, e, Repair(column, Skip, ToPlan)) && BaseOf(st, Snoc(h, e)) == BaseOf(st, h)
    ensures var p := Acting(reg, settle, ToPlan);
      && !NextAction(p).0.Skip? && NextAction(p).0.digest == NextDigest(h, e)
      && NextAction(p).1 == Repair(column, Skip, ToPlan)
  {
  }

  lemma Binds(s: State, h: Hist, e: Entry, column: Column) returns (s': State)
    requires InvWith(s, h, Some(e)) && ContOk(s.store, h, e, Repair(column, Skip, ToPlan))
    ensures Bind(s.(process := Binding(column, NextDigest(h, e), Repair(column, Skip, ToPlan))), s')
    ensures s'.disk == s.disk && LostBinding(s'.store, NextDigest(h, e))
  {
    var bound := s.(process := Binding(column, NextDigest(h, e), Repair(column, Skip, ToPlan)));
    BindingIsAccepted(bound, Snoc(h, e));
    s' :| Bind(bound, s');
  }

  /** Entered with no survivor, recovery goes straight to its actions. */
  lemma NoSurvivor(s: State, s1: State) returns (run: seq<State>)
    requires Reads(s, s1) && StagedBytes(s.disk).None?
    ensures Continues(run, s) && |run| > 1
    ensures s1.process.Derived? && Last(run) == s.(process := Acting(s1.process.registration, s1.process.settlement, s1.process.after))
  {
    var s2 := s.(process := Acting(s1.process.registration, s1.process.settlement, s1.process.after));
    assert ApplySurvivor(s1, s2);
    run := [s, s1];
    Continue(run, s, s2);
    run := run + [s2];
  }

  /** A process dies between the rename and the flush of its registration or settlement; its successor
      binds the name it sees; a power loss takes the entry and leaves the binding.  */
  lemma BackfillBreaks(s: State, h: Hist, e: Entry) returns (run: seq<State>)
    requires InvWith(s, h, Some(e)) && MayEnter(s) && s.store.active.Some?
    ensures Continues(run, s) && |run| > 1 && Last(run).disk == s.disk
    ensures LostBinding(Last(run).store, NextDigest(h, e))
  {
    var s1 := Enters(s, h, Some(e));
    var column := PendingIsOwn(s, h, e);
    OwnAction(s.store, h, e, column, s1.process.registration, s1.process.settlement);
    run := NoSurvivor(s, s1);
    ViewReads(s.disk, h, Some(e));
    var s4 := Binds(s, h, e, column);
    run := ActsAndBinds(run, s, column, NextDigest(h, e), s4);
  }

  lemma ActsAndBinds(before: seq<State>, s: State, column: Column, g: Digest, s4: State) returns (run: seq<State>)
    requires Continues(before, s) && |before| > 1 && Last(before).process.Acting? && Last(before) == s.(process := Last(before).process)
    requires !NextAction(Last(before).process).0.Skip? && NextAction(Last(before).process).0.digest == g
    requires NextAction(Last(before).process).1 == Repair(column, Skip, ToPlan) && Leaf(g) in View(s.disk)
    requires Bind(s.(process := Binding(column, g, Repair(column, Skip, ToPlan))), s4)
    ensures Continues(run, s) && |run| > 1 && Last(run) == s4
  {
    var s3 := s.(process := Binding(column, g, Repair(column, Skip, ToPlan)));
    assert ActBind(Last(before), s3);
    Continue(before, s, s3);
    run := before + [s3];
    Continue(run, s, s4);
    run := run + [s4];
  }

  /** The active record is bound to `g`. */
  predicate LostBinding(st: Store, g: Digest) {
    ActiveRecord(st).Some? && (ActiveRecord(st).value.registration == Some(g) || ActiveRecord(st).value.settlement == Some(g))
  }

  /** Every history this state validates contradicts the store, so no recovery can start. */
  ghost predicate Stuck(d: Disk, st: Store) {
    forall h :: Validates(d, h) ==> Derive(st, h).Contradiction?
  }

  lemma LostBindingIsUnsound(d: Disk, h: Hist, e: Entry, st: Store)
    requires Holds(d, h, Some(e)) && LostBinding(st, NextDigest(h, e))
    ensures PowerLoss(d, Forgotten(d)) && ReadsAs(Forgotten(d), h)
    ensures !Sound(Forgotten(d), st) && Stuck(Forgotten(d), st)
  {
    ForgottenIsPowerLoss(d);
    assert Holds(Forgotten(d), h, None);
    ViewReads(Forgotten(d), h, None);
    NextDigestIsFresh(h, e);
    FindMatchesDigests(h, NextDigest(h, e));
    forall h' | ReadsAs(Forgotten(d), h') ensures h' == h {
      ReadsAsUnique(Forgotten(d), h, h');
    }
  }

  /** With nothing active and nothing to repair, the command that entered gets its turn. */
  lemma NothingToRepair(s: State, s1: State) returns (run: seq<State>)
    requires Reads(s, s1) && StagedBytes(s.disk).None? && s.store.active.None?
    requires s1.process == Derived(Skip, Skip, ToPlan)
    ensures Continues(run, s) && |run| > 1 && Last(run) == s.(process := Ready)
  {
    run := NoSurvivor(s, s1);
    var s3 := s.(process := Ready);
    assert ActDone(Last(run), s3);
    Continue(run, s, s3);
    run := run + [s3];
  }

  /** Staging an envelope beside an unflushed name. */
  lemma StagesBeside(d: Disk, h: Hist, e: Entry, f: nat, g: Digest) returns (flushed: Disk)
    requires Holds(d, h, Some(e)) && f !in d.files && g !in Digests(Snoc(h, e))
    ensures flushed == FlushFile(WriteFile(CreateStage(d, f), f, g.content), f)
    ensures Holds(flushed, h, Some(e)) && Stage in View(flushed) && Leaf(g) !in View(flushed)
  {
    var created := CreateStage(d, f);
    CreateStageHolds(d, h, Some(e), f);
    var written := WriteFile(created, f, g.content);
    WriteFileHolds(created, h, Some(e), f, g.content);
    flushed := FlushFile(written, f);
    FlushFileHolds(written, h, Some(e), f);
    ViewReads(flushed, h, Some(e));
  }

  /** A started append is written, flushed and renamed in three steps. */
  lemma StepsToRename(s: State, flushed: Disk) returns (filled: State, synced: State, renamed: State)
    requires s.process.Appending? && s.process.point.Created? && s.process.file in s.disk.files
    requires flushed == FlushFile(WriteFile(s.disk, s.process.file, s.process.digest.content), s.process.file)
    requires Stage in View(flushed) && Leaf(s.process.digest) !in View(flushed)
    ensures AppendStep(s, filled) && AppendStep(filled, synced) && AppendStep(synced, renamed)
    ensures filled == s.(disk := WriteFile(s.disk, s.process.file, s.process.digest.content), process := s.process.(point := Filled))
    ensures synced.process == s.process.(point := Flushed)
    ensures renamed == s.(disk := PublishStage(flushed, s.process.digest), process := s.process.(point := Renamed))
  {
    var f, g := s.process.file, s.process.digest;
    filled := s.(disk := WriteFile(s.disk, f, g.content), process := s.process.(point := Filled));
    assert Fill(s, filled);
    synced := s.(disk := flushed, process := s.process.(point := Flushed));
    assert FlushStage(filled, synced);
    renamed := s.(disk := PublishStage(flushed, g), process := s.process.(point := Renamed));
    assert Rename(synced, renamed);
  }

  /** Then it stages, writes, flushes and renames an intent. */
  lemma AppendsIntent(before: seq<State>, s: State, h: Hist, e: Entry) returns (run: seq<State>, flushed: Disk)
    requires Continues(before, s) && |before| > 1 && Last(before) == s.(process := Ready)
    requires Holds(s.disk, h, Some(e)) && Stage !in View(s.disk)
    requires Validates(s.disk, Snoc(h, e)) && PendingTxids(Snoc(h, e)) == {}
    ensures Continues(run, s) && |run| > 1 && Holds(flushed, h, Some(e)) && Stage in View(flushed)
    ensures Last(run).disk == PublishStage(flushed, NextDigest(Snoc(h, e), Intent("")))
  {
    var v, intent := Snoc(h, e), Intent("");
    var g := NextDigest(v, intent);
    var f := FreshFile(s.disk);
    var s4 := s.(disk := CreateStage(s.disk, f), process := Appending(intent, g, f, Created, Plain));
    StartsIntent(s.(process := Ready), s4, v, f);
    NextDigestIsFresh(v, intent);
    flushed := StagesBeside(s.disk, h, e, f, g);
    Continue(before, s, s4);
    run := RunsToRename(before + [s4], s, flushed);
  }

  lemma RunsToRename(before: seq<State>, s: State, flushed: Disk) returns (run: seq<State>)
    requires Continues(before, s) && |before| > 1
    requires Last(before).process.Appending? && Last(before).process.point.Created? && Last(before).process.cont.Plain?
    requires Last(before).process.file in Last(before).disk.files
    requires flushed == FlushFile(WriteFile(Last(before).disk, Last(before).process.file, Last(before).process.digest.content), Last(before).process.file)
    requires Stage in View(flushed) && Leaf(Last(before).process.digest) !in View(flushed)
    ensures Continues(run, s) && |run| > 1 && Last(run).disk == PublishStage(flushed, Last(before).process.digest)
  {
    var filled, synced, renamed := StepsToRename(Last(before), flushed);
    Continue(before, s, filled);
    Continue(before + [filled], s, synced);
    Continue(before + [filled] + [synced], s, renamed);
    run := before + [filled] + [synced] + [renamed];
  }

  lemma StartsIntent(s: State, s': State, v: Hist, f: nat)
    requires s.process.Ready? && Validates(s.disk, v) && v.Snoc? && PendingTxids(v) == {} && Stage !in View(s.disk) && f !in s.disk.files
    requires s' == s.(disk := CreateStage(s.disk, f), process := Appending(Intent(""), NextDigest(v, Intent("")), f, Created, Plain))
    ensures Step(s, s')
  {
    assert StartAppend(s, s', Intent(""), Plain);
    assert AppendIntent(s, s');
  }

  /** A process dies between the rename and the flush of a genesis or an intent; its successor finds
      nothing to repair and appends an intent on it; a power loss keeps the second name and not the first. */
  lemma IntentBreaks(s: State, h: Hist, e: Entry) returns (run: seq<State>, d: Disk)
    requires InvWith(s, h, Some(e)) && MayEnter(s) && s.store.active.None?
    ensures Continues(run, s) && |run| > 1 && PowerLoss(Last(run).disk, d) && forall h' :: !ReadsAs(d, h')
  {
    var s1 := Enters(s, h, Some(e));
    AgreementIsClean(s.store, Snoc(h, e));
    assert PendingTxids(Snoc(h, e)) == {};
    run := NothingToRepair(s, s1);
    var flushed: Disk;
    run, flushed := AppendsIntent(run, s, h, e);
    d := PublicationOnUnflushed(flushed, h, e, Intent(""));
  }

  /** A planned entry is not in the chain yet. */
  lemma PlannedIsMissing(st: Store, h: Hist, g: Digest)
    requires Agrees(st, h) && Derive(st, h).Repairs?
    requires PlannedDigest(Derive(st, h).registration, Derive(st, h).settlement) == Some(g)
    ensures g !in Digests(h) && g.content.Envelope?
  {
    DeriveSucceeds(st, h);
    var t, r, base := st.active.value, st.records[st.active.value], BaseOf(st, h);
    if Derive(st, h).registration.Append? {
      assert h == base by {
        assert Registrations(WithReg(t, r, base), t) != [];
      }
      NextDigestIsFresh(base, RegEntry(t, r));
    } else {
      var e := SettleEntry(t, r, base, OutcomeOf(r).value);
      assert h == WithReg(t, r, base) by {
        assert Settlements(WithSettle(t, r, base, OutcomeOf(r).value), t) != [];
      }
      NextDigestIsFresh(WithReg(t, r, base), e);
    }
  }

  /** The plan is the one derived for the history the directory reads as. */
  lemma PlanIsDerived(s: State, h: Hist, g: Digest)
    requires ReadsAs(s.disk, h) && Plans(s, g)
    ensures Derive(s.store, h).Repairs?
    ensures PlannedDigest(Derive(s.store, h).registration, Derive(s.store, h).settlement) == Some(g)
  {
    var h0 :| Validates(s.disk, h0) && Derive(s.store, h0).Repairs?
      && PlannedDigest(Derive(s.store, h0).registration, Derive(s.store, h0).settlement) == Some(g);
    ReadsAsUnique(s.disk, h, h0);
  }

  lemma Finishes(s: State, s1: State, g: Digest) returns (run: seq<State>)
    requires Reads(s, s1) && s1 == s.(process := s1.process) && s1.process.Derived?
    requires PlannedDigest(s1.process.registration, s1.process.settlement) == Some(g)
    requires StagedBytes(s.disk) == Some(g.content) && Leaf(g) !in View(s.disk)
    ensures Continues(run, s) && |run| > 1 && Last(run).disk == PublishStage(s.disk, g)
  {
    var s2 := s1.(disk := PublishStage(s.disk, g),
                  process := SurvivorMoved(s1.process.registration, s1.process.settlement, s1.process.after));
    assert ApplySurvivor(s1, s2);
    run := [s, s1];
    Continue(run, s, s2);
    run := run + [s2];
  }

  /** A process dies after writing its registration or settlement and before flushing the file; its
      successor publishes the survivor; a power loss leaves a digest name over other bytes.  */
  lemma FinishBreaks(s: State, h: Hist, g: Digest) returns (run: seq<State>, d: Disk)
    requires InvWith(s, h, None) && MayEnter(s)
    requires Plans(s, g) && StagedBytes(s.disk) == Some(g.content) && !s.disk.files[View(s.disk)[Stage]].synced
    ensures Continues(run, s) && |run| > 1 && PowerLoss(Last(run).disk, d) && forall h' :: !ReadsAs(d, h')
  {
    ViewReads(s.disk, h, None);
    PlanIsDerived(s, h, g);
    PlannedIsMissing(s.store, h, g);
    var s1 := Enters(s, h, None);
    run := Finishes(s, s1, g);
    d := UnflushedPublication(s.disk, g);
  }

  // ---- what is quiet ----

  /** Every power loss leaves a quiet state. */
  lemma PowerLossIsQuiet(s: State, s': State)
    requires LosePower(s, s')
    ensures Quiet(s')
  {
  }

  /** So does a process that dies with its envelope half written: whatever recovery plans there is not what is
      staged.  */
  lemma HalfWrittenIsQuiet(s: State, s': State, h: Hist)
    requires InvWith(s, h, None) && s.process.Appending? && !s.process.point.Renamed? && Exit(s, s')
    requires StagedBytes(s.disk) != Some(s.process.digest.content)
    ensures Quiet(s')
  {
    forall op | op in s.disk.ops ensures !op.name.Leaf? {
      assert OpHolds(s.disk, h, None, op);
    }
    ViewReads(s.disk, h, None);
    forall g | Plans(s', g) ensures g == s.process.digest {
      PlanIsDerived(s', h, g);
      DeriveSucceeds(s.store, h);
    }
  }

  // ---- the exact condition ----

  lemma UnquietEntryBreaks(s: State) returns (run: seq<State>)
    requires Inv(s) && MayEnter(s) && !Quiet(s)
    ensures Continues(run, s) && !Survives(Last(run))
  {
    var h, next :| InvWith(s, h, next);
    var d: Disk;
    if exists op :: op in s.disk.ops && op.name.Leaf? {
      var op :| op in s.disk.ops && op.name.Leaf?;
      assert OpHolds(s.disk, h, next, op);
      if s.store.active.Some? {
        run := BackfillBreaks(s, h, next.value);
        LostBindingIsUnsound(s.disk, h, next.value, Last(run).store);
        d := Forgotten(s.disk);
      } else {
        run, d := IntentBreaks(s, h, next.value);
      }
    } else {
      var g :| Plans(s, g) && StagedBytes(s.disk) == Some(g.content) && !s.disk.files[View(s.disk)[Stage]].synced;
      assert next.None?;
      run, d := FinishBreaks(s, h, g);
    }
    assert PowerLoss(Last(run).disk, d) && !Sound(d, Last(run).store);
  }

  lemma ContinuesQuietly(run: seq<State>, s: State, i: nat)
    requires Quiet(s) && Continues(run, s) && i < |run| - 1
    ensures QuietStep(run[i], run[i + 1])
  {
    if i == 0 {
      assert Step(run[0], run[1]);
    }
  }

  lemma {:induction false} QuietEntryKeeps(run: seq<State>, s: State, i: nat)
    requires Inv(s) && Quiet(s) && Continues(run, s) && i < |run|
    ensures Inv(run[i])
    decreases i
  {
    if i > 0 {
      QuietEntryKeeps(run, s, i - 1);
      ContinuesQuietly(run, s, i - 1);
      StepKeeps(run[i - 1], run[i]);
    }
  }

  /** Where recovery may be entered: every continuation that enters it again only in quiet states is
      still sound after every power loss, if and only if the state is quiet.  */
  lemma RecoveryEntryIsExact(s: State)
    requires Inv(s) && MayEnter(s)
    ensures Quiet(s) <==> forall run :: Continues(run, s) ==> Survives(Last(run))
  {
    if Quiet(s) {
      forall run | Continues(run, s) ensures Survives(Last(run)) {
        QuietEntryKeeps(run, s, |run| - 1);
        forall d | PowerLoss(Last(run).disk, d) ensures Sound(d, Last(run).store) {
          InvIsSound(Last(run), d);
        }
      }
    } else {
      var run := UnquietEntryBreaks(s);
    }
  }
}
